/** Trimming and cutting texts, as the standard string methods do. */
module Texts {
  import opened Wrappers

  /** The White_Space characters of Unicode, which `trim` removes. */
  predicate IsSpace(c: char) {
    var n := c as int;
    || 0x9 <= n <= 0xD || n == 0x20 || n == 0x85 || n == 0xA0 || n == 0x1680
    || 0x2000 <= n <= 0x200A || n == 0x2028 || n == 0x2029 || n == 0x202F || n == 0x205F || n == 0x3000
  }

  function TrimStart(s: string): string {
    if s != "" && IsSpace(s[0]) then TrimStart(s[1..]) else s
  }

  function TrimEnd(s: string): string {
    if s != "" && IsSpace(s[|s| - 1]) then TrimEnd(s[..|s| - 1]) else s
  }

  function Trim(s: string): string {
    TrimEnd(TrimStart(s))
  }

  /** The text before and after the first of some separators. */
  function Cut(s: string, seps: set<char>): (r: Option<(string, string)>)
    ensures r.Some? ==> |r.value.0| < |s|
  {
    if s == "" then None
    else if s[0] in seps then Some(("", s[1..]))
    else match Cut(s[1..], seps)
         case None => None
         case Some(p) => Some(([s[0]] + p.0, p.1))
  }

  lemma {:induction false} CutAt(a: string, c: char, b: string, seps: set<char>)
    requires c in seps && forall i :: 0 <= i < |a| ==> a[i] !in seps
    ensures Cut(a + [c] + b, seps) == Some((a, b))
  {
    if a == "" {
      assert a + [c] + b == [c] + b;
    } else {
      CutAt(a[1..], c, b, seps);
      assert (a + [c] + b)[1..] == a[1..] + [c] + b;
      assert [a[0]] + a[1..] == a;
    }
  }

  lemma {:induction false} CutNone(a: string, seps: set<char>)
    requires forall i :: 0 <= i < |a| ==> a[i] !in seps
    ensures Cut(a, seps) == None
  {
    if a != "" {
      CutNone(a[1..], seps);
    }
  }

  /** Spaces on either side go, and nothing between. */
  lemma {:induction false} TrimPads(a: string, s: string, b: string)
    requires s != "" && !IsSpace(s[0]) && !IsSpace(s[|s| - 1])
    requires (forall i | 0 <= i < |a| :: IsSpace(a[i])) && (forall i | 0 <= i < |b| :: IsSpace(b[i]))
    ensures Trim(a + s + b) == s
  {
    LeadingGo(a, s + b);
    assert a + s + b == a + (s + b);
    assert (s + b)[0] == s[0];
    TrailingGo(s, b);
  }

  lemma {:induction false} LeadingGo(a: string, s: string)
    requires s != "" && !IsSpace(s[0]) && forall i | 0 <= i < |a| :: IsSpace(a[i])
    ensures TrimStart(a + s) == s
  {
    if a == "" {
      assert a + s == s;
    } else {
      assert (a + s)[1..] == a[1..] + s;
      LeadingGo(a[1..], s);
    }
  }

  lemma {:induction false} TrailingGo(s: string, b: string)
    requires s != "" && !IsSpace(s[|s| - 1]) && forall i | 0 <= i < |b| :: IsSpace(b[i])
    ensures TrimEnd(s + b) == s
  {
    if b == "" {
      assert s + b == s;
    } else {
      assert (s + b)[..|s + b| - 1] == s + b[..|b| - 1];
      TrailingGo(s, b[..|b| - 1]);
    }
  }

  lemma {:induction false} TrimEnds(s: string)
    requires s != "" && !IsSpace(s[0]) && !IsSpace(s[|s| - 1])
    ensures Trim(s) == s
  {
  }
}
