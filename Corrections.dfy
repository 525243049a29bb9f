/**
 * The behaviour the naming-rule notice and `onClose` evidently intend, beside
 * the behaviour as written.
 */
module Corrections {
  import opened Wrappers
  import opened Messages
  import opened Routing

  /** The naming rule the refusal notice states: letters, digits, underscore or dash. */
  predicate NameChar(c: char) {
    'a' <= c <= 'z' || 'A' <= c <= 'Z' || '0' <= c <= '9' || c == '_' || c == '-'
  }

  predicate ValidName(s: string) {
    |s| > 0 && forall i :: 0 <= i < |s| ==> NameChar(s[i])
  }

  /** The name field as `onOpen` evidently meant to set it from the path parameter. */
  function NameFromPath(pathName: string): Option<string> {
    if ValidName(pathName) then Some(pathName) else None
  }

  /** `onOpen` with the name taken from the path parameter and checked against the naming rule. */
  function AdmitPath<E(==)>(sockets: map<string, E>, self: E, pathName: string, faults: set<E>, now: Timestamp, uuid: string): (r: Admission<E>)
    ensures r.accepted <==> ValidName(pathName) && pathName !in sockets
    ensures r.accepted ==> r.sockets == sockets[pathName := self]
    ensures r.accepted ==> r.deliveries == Send(self, SystemMessage(Some(pathName), None, ConnectedNotice, uuid, now), faults)
    ensures !r.accepted ==> r.sockets == sockets
  {
    Admit(sockets, self, NameFromPath(pathName), faults, now, uuid)
  }

  /**
   * As written, `onOpen` tests the name field, which nothing assigns: the
   * endpoint the container creates for "/websocket/alice" is refused even on
   * an empty registry, and its notice is lost. Read from the path, "alice" is
   * accepted.
   */
  lemma AliceIsRefusedAsWritten<E>(self: E, faults: set<E>, now: Timestamp, uuid: string)
    ensures Admit(map[], self, None, faults, now, uuid) == Admission(false, map[], [])
    ensures AdmitPath(map[], self, "alice", faults, now, uuid).accepted
    ensures AdmitPath(map[], self, "alice", faults, now, uuid).sockets == map["alice" := self]
  {
  }

  /**
   * `onClose` as evidently intended: `remove(name, self)`, which drops the key
   * only while it still maps to the closing endpoint.
   */
  function UnregisterOwn<E(==)>(sockets: map<string, E>, self: E, name: Option<string>): (r: map<string, E>)
    ensures forall k | k in sockets && sockets[k] != self :: k in r && r[k] == sockets[k]
    ensures forall k | k in r :: k in sockets && r[k] == sockets[k]
    ensures name.Some? && name.value in sockets && sockets[name.value] == self ==> name.value !in r
  {
    match name
    case None => sockets
    case Some(n) => if n in sockets && sockets[n] == self then sockets - {n} else sockets
  }

  /**
   * As written, the close of a refused duplicate "alice" evicts the original
   * "alice", whose connection is still open; `remove(name, self)` leaves it.
   */
  lemma DuplicateCloseEvictsOriginal<E>(original: E, duplicate: E, faults: set<E>, now: Timestamp, uuid: string)
    requires original != duplicate
    ensures var sockets := map["alice" := original];
            && !Admit(sockets, duplicate, Some("alice"), faults, now, uuid).accepted
            && Unregister(sockets, Some("alice")) == map[]
            && UnregisterOwn(sockets, duplicate, Some("alice")) == sockets
  {
  }

  /**
   * When every endpoint is registered under its own name, closing `self`
   * removes exactly its own registration: every other entry stays.
   */
  lemma CloseOwnRemovesOnlySelf<E>(sockets: map<string, E>, self: E, name: Option<string>)
    requires forall k | k in sockets && sockets[k] == self :: name == Some(k)
    ensures UnregisterOwn(sockets, self, name) == map k | k in sockets && sockets[k] != self :: sockets[k]
  {
  }
}
