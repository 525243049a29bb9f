/**
 * The part of java.lang.String that the message validation relies on:
 * `trim()` strips every character at or below U+0020 from both ends.
 */
module JavaStrings {

  /** True when every character of `s` is one that `trim()` strips (the empty string included). */
  predicate Blank(s: string) {
    forall i :: 0 <= i < |s| ==> s[i] <= ' '
  }

  /** The first loop of `trim()`: advance past leading characters at or below U+0020. */
  function TrimStart(s: string): string {
    if s != [] && s[0] <= ' ' then TrimStart(s[1..]) else s
  }

  /** The second loop of `trim()`: drop trailing characters at or below U+0020. */
  function TrimEnd(s: string): string {
    if s != [] && s[|s| - 1] <= ' ' then TrimEnd(s[..|s| - 1]) else s
  }

  function Trim(s: string): string {
    TrimEnd(TrimStart(s))
  }

  lemma {:induction false} TrimStartEmptyIffBlank(s: string)
    ensures TrimStart(s) == [] <==> Blank(s)
  {
    if s != [] && s[0] <= ' ' {
      TrimStartEmptyIffBlank(s[1..]);
      assert Blank(s) <==> Blank(s[1..]) by {
        forall i | 0 <= i < |s[1..]| ensures s[1..][i] == s[i + 1] {}
      }
    }
  }

  lemma {:induction false} TrimStartHead(s: string)
    ensures TrimStart(s) != [] ==> TrimStart(s)[0] > ' '
  {
    if s != [] && s[0] <= ' ' {
      TrimStartHead(s[1..]);
    }
  }

  lemma {:induction false} TrimEndKeepsHead(s: string)
    requires s != [] && s[0] > ' '
    ensures TrimEnd(s) != []
  {
    if s[|s| - 1] <= ' ' {
      assert |s| > 1;
      TrimEndKeepsHead(s[..|s| - 1]);
    }
  }

  /** `s.trim().isEmpty()` holds exactly when `s` consists of characters at or below U+0020 only. */
  lemma TrimEmptyIffBlank(s: string)
    ensures Trim(s) == [] <==> Blank(s)
  {
    TrimStartEmptyIffBlank(s);
    TrimStartHead(s);
    if TrimStart(s) != [] {
      TrimEndKeepsHead(TrimStart(s));
    }
  }
}
