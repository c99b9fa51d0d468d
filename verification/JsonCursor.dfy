/** The JSON printer, parser and validator as they run: a growing buffer, and a cursor moving over the bytes. */
module JsonCursor {
  import opened Wrappers
  import opened Bytes
  import opened Json

  /** A result at cursor `q` of `b` is the result on what was left to read, with what is left after it. */
  ghost predicate At<T>(b: bytes, r: Option<(T, nat)>, e: Option<(T, bytes)>) {
    match r
    case None => e.None?
    case Some((v, q)) => q <= |b| && e == Some((v, b[q..]))
  }

  ghost predicate Ends(b: bytes, r: Option<nat>, e: Option<bytes>) {
    match r
    case None => e.None?
    case Some(q) => q <= |b| && e == Some(b[q..])
  }

  /** What was collected so far, and the outcome of the rest. */
  ghost function Prepend<T>(front: seq<T>, r: Option<(seq<T>, bytes)>): Option<(seq<T>, bytes)> {
    match r
    case None => None
    case Some((more, rest)) => Some((front + more, rest))
  }

  lemma {:induction false} PrependTwice<T>(a: seq<T>, b: seq<T>, r: Option<(seq<T>, bytes)>)
    ensures Prepend(a, Prepend(b, r)) == Prepend(a + b, r)
  {
    if r.Some? {
      assert a + (b + r.value.0) == (a + b) + r.value.0;
    }
  }

  lemma {:induction false} PrependNothing<T>(r: Option<(seq<T>, bytes)>)
    ensures Prepend([], r) == r
  {
    if r.Some? {
      assert [] + r.value.0 == r.value.0;
    }
  }

  // --------------------------------------------------------------------- printing

  method WriteQuoted(s: bytes, out: bytes) returns (r: bytes)
    ensures r == out + Quoted(s)
  {
    r := out + [0x22];
    var i := 0;
    while i < |s|
      invariant 0 <= i <= |s|
      invariant r + EscapedAll(s[i..]) == (out + [0x22]) + EscapedAll(s)
    {
      assert EscapedAll(s[i..]) == Escaped(s[i]) + EscapedAll(s[i + 1..]) by { assert s[i..][1..] == s[i + 1..]; }
      assert (r + Escaped(s[i])) + EscapedAll(s[i + 1..]) == r + EscapedAll(s[i..]);
      r := r + Escaped(s[i]);
      i := i + 1;
    }
    assert s[i..] == [] && r + [] == r;
    r := r + [0x22];
    assert r == out + ([0x22] + (EscapedAll(s) + [0x22]));
  }

  /** The items from the `i`th on, each with the separator before it unless it is the first. */
  ghost function TailItems(items: seq<Json>, i: nat): bytes
    requires i <= |items|
  {
    if i == |items| then []
    else (if i > 0 then [0x2C, 0x20] else []) + PrintItems(items[i..])
  }

  lemma {:induction false} TailItemsStep(items: seq<Json>, i: nat)
    requires i < |items|
    ensures TailItems(items, i) == (if i > 0 then [0x2C, 0x20] else []) + (Print(items[i]) + TailItems(items, i + 1))
  {
    var rest := items[i..];
    assert rest[1..] == items[i + 1..];
    if |rest| == 1 {
      assert Print(rest[0]) + [] == Print(rest[0]);
    }
  }

  ghost function TailMembers(members: seq<Member>, i: nat): bytes
    requires i <= |members|
  {
    if i == |members| then []
    else (if i > 0 then [0x2C, 0x20] else []) + PrintMembers(members[i..])
  }

  lemma {:induction false} TailMembersStep(members: seq<Member>, i: nat)
    requires i < |members|
    ensures TailMembers(members, i) == (if i > 0 then [0x2C, 0x20] else []) +
                                       (PrintMember(members[i]) + TailMembers(members, i + 1))
  {
    var rest := members[i..];
    assert rest[1..] == members[i + 1..];
    if |rest| == 1 {
      assert PrintMember(rest[0]) + [] == PrintMember(rest[0]);
    }
  }

  lemma {:induction false} Associate(r: bytes, sep: bytes, p: bytes, tail: bytes)
    ensures r + (sep + (p + tail)) == ((r + sep) + p) + tail
  {
  }

  method WriteSeparator(first: bool, out: bytes) returns (r: bytes)
    ensures r == out + (if first then [] else [0x2C, 0x20])
  {
    r := if first then out else out + [0x2C, 0x20];
  }

  method WriteItems(items: seq<Json>, out: bytes) returns (r: bytes)
    ensures r == out + PrintItems(items)
    decreases items, 1
  {
    r := out;
    var i := 0;
    assert items[0..] == items;
    while i < |items|
      invariant 0 <= i <= |items|
      invariant r + TailItems(items, i) == out + PrintItems(items)
    {
      TailItemsStep(items, i);
      Associate(r, if i > 0 then [0x2C, 0x20] else [], Print(items[i]), TailItems(items, i + 1));
      r := WriteSeparator(i == 0, r);
      r := Write(items[i], r);
      i := i + 1;
    }
    assert r + [] == r;
  }

  method WriteMembers(members: seq<Member>, out: bytes) returns (r: bytes)
    ensures r == out + PrintMembers(members)
    decreases members, 1
  {
    r := out;
    var i := 0;
    assert members[0..] == members;
    while i < |members|
      invariant 0 <= i <= |members|
      invariant r + TailMembers(members, i) == out + PrintMembers(members)
    {
      TailMembersStep(members, i);
      Associate(r, if i > 0 then [0x2C, 0x20] else [], PrintMember(members[i]), TailMembers(members, i + 1));
      r := WriteSeparator(i == 0, r);
      r := WriteMember(members[i], r);
      i := i + 1;
    }
    assert r + [] == r;
  }

  method WriteMember(m: Member, out: bytes) returns (r: bytes)
    ensures r == out + PrintMember(m)
    decreases m, 0
  {
    r := WriteQuoted(m.key, out);
    r := r + [0x3A, 0x20];
    r := Write(m.value, r);
    assert r == out + (Quoted(m.key) + ([0x3A, 0x20] + Print(m.value)));
  }

  /** Appends the printed value to the buffer. */
  method Write(j: Json, out: bytes) returns (r: bytes)
    ensures r == out + Print(j)
    decreases j, 0
  {
    match j
    case Null => r := out + NULL;
    case Bool(b) => r := out + (if b then TRUE else FALSE);
    case Num(n) => r := out + n;
    case Str(s) => r := WriteQuoted(s, out);
    case Arr(items) =>
      r := WriteItems(items, out + [0x5B]);
      r := r + [0x5D];
      assert r == out + ([0x5B] + (PrintItems(items) + [0x5D]));
    case Obj(members) =>
      r := WriteMembers(members, out + [0x7B]);
      r := r + [0x7D];
      assert r == out + ([0x7B] + (PrintMembers(members) + [0x7D]));
  }

  // ---------------------------------------------------------------------- parsing

  method SkipWsAt(b: bytes, p: nat) returns (q: nat)
    requires p <= |b|
    ensures p <= q <= |b| && b[q..] == SkipWs(b[p..])
  {
    q := p;
    while q < |b| && IsWs(b[q])
      invariant p <= q <= |b|
      invariant SkipWs(b[q..]) == SkipWs(b[p..])
    {
      assert b[q..][1..] == b[q + 1..];
      q := q + 1;
    }
  }

  method EscapeAt(b: bytes, p: nat) returns (r: Option<(bytes, nat)>)
    requires p <= |b|
    ensures At(b, r, Escape(b[p..])) && (r.Some? ==> p < r.value.1)
  {
    ghost var s := b[p..];
    if p == |b| { return None; }
    assert s[0] == b[p] && s[1..] == b[p + 1..];
    var c := b[p];
    if c == 0x75 {
      if p + 5 > |b| { return None; }
      assert s[1..5] == b[p + 1..p + 5] && s[5..] == b[p + 5..];
      var cp := Hex4(b[p + 1..p + 5]);
      if cp.None? { return None; }
      var u := Utf8(cp.value);
      if u.None? { return None; }
      return Some((u.value, p + 5));
    }
    if c == 0x22 || c == 0x5C || c == 0x2F { return Some(([c], p + 1)); }
    if c == 0x6E { return Some(([0x0A], p + 1)); }
    if c == 0x74 { return Some(([0x09], p + 1)); }
    if c == 0x72 { return Some(([0x0D], p + 1)); }
    if c == 0x62 { return Some(([0x08], p + 1)); }
    if c == 0x66 { return Some(([0x0C], p + 1)); }
    return None;
  }

  method ParseString(b: bytes, p: nat) returns (r: Option<(bytes, nat)>)
    requires p <= |b|
    ensures At(b, r, String(b[p..])) && (r.Some? ==> p < r.value.1)
  {
    if p == |b| || b[p] != 0x22 { return None; }
    assert b[p..][1..] == b[p + 1..];
    var q, out := p + 1, [];
    PrependNothing(StringBody(b[q..]));
    while q < |b|
      invariant p < q <= |b|
      invariant StringBody(b[p + 1..]) == Prepend(out, StringBody(b[q..]))
      decreases |b| - q
    {
      ghost var s := b[q..];
      assert s[1..] == b[q + 1..];
      if b[q] == 0x22 {
        assert out + [] == out;
        return Some((out, q + 1));
      }
      if b[q] == 0x5C {
        var e := EscapeAt(b, q + 1);
        if e.None? { return None; }
        var (c, next) := e.value;
        PrependTwice(out, c, StringBody(b[next..]));
        out, q := out + c, next;
      } else {
        PrependTwice(out, Kept(b[q]), StringBody(b[q + 1..]));
        out, q := out + Kept(b[q]), q + 1;
      }
    }
    return None;
  }

  method NumSpanAt(b: bytes, p: nat) returns (q: nat)
    requires p <= |b|
    ensures p <= q <= |b| && NumSpan(b[p..]) == q - p
  {
    q := p;
    while q < |b| && IsNumChar(b[q])
      invariant p <= q <= |b|
      invariant NumSpan(b[p..]) == (q - p) + NumSpan(b[q..])
    {
      assert b[q..][1..] == b[q + 1..];
      q := q + 1;
    }
  }

  method ParseNumber(b: bytes, p: nat, numeric: Numeric) returns (r: Option<(Json, nat)>)
    requires p <= |b|
    ensures At(b, r, Number(b[p..], numeric)) && (r.Some? ==> p < r.value.1)
  {
    var q := NumSpanAt(b, p);
    assert b[p..][..q - p] == b[p..q] && b[p..][q - p..] == b[q..];
    if q == p || !numeric(b[p..q]) { return None; }
    return Some((Num(b[p..q]), q));
  }

  method ParseLit(b: bytes, p: nat, word: bytes, v: Json) returns (r: Option<(Json, nat)>)
    requires p <= |b| && word != []
    ensures At(b, r, Lit(b[p..], word, v)) && (r.Some? ==> p < r.value.1)
  {
    if word <= b[p..] {
      assert b[p..][|word|..] == b[p + |word|..];
      return Some((v, p + |word|));
    }
    return None;
  }

  method ParseArray(b: bytes, p: nat, depth: nat, numeric: Numeric) returns (r: Option<(Json, nat)>)
    requires p < |b|
    ensures At(b, r, Array(b[p..], depth, numeric)) && (r.Some? ==> p < r.value.1)
    decreases |b| - p, 0
  {
    if depth >= MAX_DEPTH { return None; }
    assert b[p..][1..] == b[p + 1..];
    var u := SkipWsAt(b, p + 1);
    if u < |b| && b[u] == 0x5D {
      assert b[u..][1..] == b[u + 1..];
      return Some((Arr([]), u + 1));
    }
    var r' := ParseItems(b, u, depth, numeric);
    if r'.None? { return None; }
    return Some((Arr(r'.value.0), r'.value.1));
  }

  /** One turn of an item loop: an element and a comma, an element and the closing bracket, or neither. */
  datatype Step<T> = Fail | More(value: T, next: nat) | Last(value: T, next: nat)

  ghost predicate Stepped<T>(b: bytes, q: nat, r: Step<T>, e: Option<(seq<T>, bytes)>) {
    && (r.Fail? ==> e.None?)
    && (r.Last? ==> q < r.next <= |b| && e == Some(([r.value], b[r.next..])))
  }

  method ParseItems(b: bytes, u: nat, depth: nat, numeric: Numeric) returns (r: Option<(seq<Json>, nat)>)
    requires u <= |b|
    ensures At(b, r, Items(b[u..], depth, numeric)) && (r.Some? ==> u < r.value.1)
    decreases |b| - u, 3
  {
    var q, items := u, [];
    PrependNothing(Items(b[q..], depth, numeric));
    while true
      invariant u <= q <= |b|
      invariant Items(b[u..], depth, numeric) == Prepend(items, Items(b[q..], depth, numeric))
      decreases |b| - q
    {
      var step := NextItem(b, q, depth, numeric);
      match step {
        case Fail => return None;
        case Last(v, p) => return Some((items + [v], p));
        case More(v, p) =>
          PrependTwice(items, [v], Items(b[p..], depth, numeric));
          items, q := items + [v], p;
      }
    }
  }

  method NextItem(b: bytes, q: nat, depth: nat, numeric: Numeric) returns (r: Step<Json>)
    requires q <= |b|
    ensures Stepped(b, q, r, Items(b[q..], depth, numeric))
    ensures r.More? ==>
        q < r.next <= |b| && Items(b[q..], depth, numeric) == Prepend([r.value], Items(b[r.next..], depth, numeric))
    decreases |b| - q, 2
  {
    var v := ParseValue(b, q, depth + 1, numeric);
    if v.None? { return Fail; }
    var x := SkipWsAt(b, v.value.1);
    if x == |b| { return Fail; }
    assert b[x..][1..] == b[x + 1..];
    if b[x] == 0x2C { return More(v.value.0, x + 1); }
    if b[x] == 0x5D { return Last(v.value.0, x + 1); }
    return Fail;
  }

  method ParseEntry(b: bytes, p: nat, depth: nat, numeric: Numeric) returns (r: Option<(Member, nat)>)
    requires p <= |b|
    ensures At(b, r, Entry(b[p..], depth, numeric)) && (r.Some? ==> p < r.value.1)
    decreases |b| - p, 2
  {
    var k := SkipWsAt(b, p);
    var key := ParseString(b, k);
    if key.None? { return None; }
    var c := SkipWsAt(b, key.value.1);
    if c == |b| || b[c] != 0x3A { return None; }
    assert b[c..][1..] == b[c + 1..];
    var v := ParseValue(b, c + 1, depth + 1, numeric);
    if v.None? { return None; }
    return Some((Member(key.value.0, v.value.0), v.value.1));
  }

  method ParseObject(b: bytes, p: nat, depth: nat, numeric: Numeric) returns (r: Option<(Json, nat)>)
    requires p < |b|
    ensures At(b, r, Object(b[p..], depth, numeric)) && (r.Some? ==> p < r.value.1)
    decreases |b| - p, 0
  {
    if depth >= MAX_DEPTH { return None; }
    assert b[p..][1..] == b[p + 1..];
    var u := SkipWsAt(b, p + 1);
    if u < |b| && b[u] == 0x7D {
      assert b[u..][1..] == b[u + 1..];
      return Some((Obj([]), u + 1));
    }
    var r' := ParseMembers(b, u, depth, numeric);
    if r'.None? { return None; }
    return Some((Obj(r'.value.0), r'.value.1));
  }

  method ParseMembers(b: bytes, u: nat, depth: nat, numeric: Numeric) returns (r: Option<(seq<Member>, nat)>)
    requires u <= |b|
    ensures At(b, r, Members(b[u..], depth, numeric)) && (r.Some? ==> u < r.value.1)
    decreases |b| - u, 4
  {
    var q, members := u, [];
    PrependNothing(Members(b[q..], depth, numeric));
    while true
      invariant u <= q <= |b|
      invariant Members(b[u..], depth, numeric) == Prepend(members, Members(b[q..], depth, numeric))
      decreases |b| - q
    {
      var step := NextMember(b, q, depth, numeric);
      match step {
        case Fail => return None;
        case Last(m, p) => return Some((members + [m], p));
        case More(m, p) =>
          PrependTwice(members, [m], Members(b[p..], depth, numeric));
          members, q := members + [m], p;
      }
    }
  }

  method NextMember(b: bytes, q: nat, depth: nat, numeric: Numeric) returns (r: Step<Member>)
    requires q <= |b|
    ensures Stepped(b, q, r, Members(b[q..], depth, numeric))
    ensures r.More? ==>
        q < r.next <= |b| && Members(b[q..], depth, numeric) == Prepend([r.value], Members(b[r.next..], depth, numeric))
    decreases |b| - q, 3
  {
    var m := ParseEntry(b, q, depth, numeric);
    if m.None? { return Fail; }
    var x := SkipWsAt(b, m.value.1);
    if x == |b| { return Fail; }
    assert b[x..][1..] == b[x + 1..];
    if b[x] == 0x2C { return More(m.value.0, x + 1); }
    if b[x] == 0x7D { return Last(m.value.0, x + 1); }
    return Fail;
  }

  method ParseValue(b: bytes, p: nat, depth: nat, numeric: Numeric) returns (r: Option<(Json, nat)>)
    requires p <= |b|
    ensures At(b, r, Value(b[p..], depth, numeric)) && (r.Some? ==> p < r.value.1)
    decreases |b| - p, 1
  {
    var t := SkipWsAt(b, p);
    if t == |b| { return None; }
    assert b[t..][0] == b[t];
    if b[t] == 0x7B {
      r := ParseObject(b, t, depth, numeric);
    } else if b[t] == 0x5B {
      r := ParseArray(b, t, depth, numeric);
    } else if b[t] == 0x22 {
      var s := ParseString(b, t);
      if s.None? { return None; }
      r := Some((Str(s.value.0), s.value.1));
    } else if b[t] == 0x74 {
      r := ParseLit(b, t, TRUE, Bool(true));
    } else if b[t] == 0x66 {
      r := ParseLit(b, t, FALSE, Bool(false));
    } else if b[t] == 0x6E {
      r := ParseLit(b, t, NULL, Null);
    } else {
      r := ParseNumber(b, t, numeric);
    }
  }

  method ParseText(b: bytes, numeric: Numeric) returns (r: Option<Json>)
    ensures r == Parse(b, numeric)
  {
    var p := SkipWsAt(b, 0);
    assert b[0..] == b;
    var v := ParseValue(b, p, 0, numeric);
    if v.None? { return None; }
    var q := SkipWsAt(b, v.value.1);
    return if q == |b| then Some(v.value.0) else None;
  }

  // -------------------------------------------------------------------- validation

  method ValidateString(b: bytes, p: nat) returns (r: Option<nat>)
    requires p <= |b|
    ensures Ends(b, r, ValidString(b[p..])) && (r.Some? ==> p < r.value)
  {
    if p == |b| || b[p] != 0x22 { return None; }
    assert b[p..][1..] == b[p + 1..];
    var q := p + 1;
    while q < |b|
      invariant p < q
      invariant q > |b| ==> ValidBody(b[p + 1..]) == None
      invariant q <= |b| ==> ValidBody(b[p + 1..]) == ValidBody(b[q..])
    {
      assert b[q..][1..] == b[q + 1..];
      if b[q] == 0x22 {
        return Some(q + 1);
      } else if b[q] == 0x5C {
        if q + 2 <= |b| { assert b[q..][2..] == b[q + 2..]; }
        q := q + 2;
      } else {
        q := q + 1;
      }
    }
    return None;
  }

  method ValidateArray(b: bytes, p: nat, depth: nat, numeric: Numeric) returns (r: Option<nat>)
    requires p < |b|
    ensures Ends(b, r, ValidArray(b[p..], depth, numeric)) && (r.Some? ==> p < r.value)
    decreases |b| - p, 0
  {
    if depth >= MAX_DEPTH { return None; }
    assert b[p..][1..] == b[p + 1..];
    var u := SkipWsAt(b, p + 1);
    if u < |b| && b[u] == 0x5D {
      assert b[u..][1..] == b[u + 1..];
      return Some(u + 1);
    }
    r := ValidateItems(b, u, depth, numeric);
  }

  method ValidateItems(b: bytes, u: nat, depth: nat, numeric: Numeric) returns (r: Option<nat>)
    requires u <= |b|
    ensures Ends(b, r, ValidItems(b[u..], depth, numeric)) && (r.Some? ==> u < r.value)
    decreases |b| - u, 3
  {
    var q := u;
    while true
      invariant u <= q <= |b|
      invariant ValidItems(b[u..], depth, numeric) == ValidItems(b[q..], depth, numeric)
      decreases |b| - q
    {
      var step := NextValidItem(b, q, depth, numeric);
      match step {
        case Fail => return None;
        case Last(_, p) => return Some(p);
        case More(_, p) => q := p;
      }
    }
  }

  method NextValidItem(b: bytes, q: nat, depth: nat, numeric: Numeric) returns (r: Step<()>)
    requires q <= |b|
    ensures r.Fail? ==> ValidItems(b[q..], depth, numeric).None?
    ensures r.Last? ==> q < r.next <= |b| && ValidItems(b[q..], depth, numeric) == Some(b[r.next..])
    ensures r.More? ==>
              q < r.next <= |b| && ValidItems(b[q..], depth, numeric) == ValidItems(b[r.next..], depth, numeric)
    decreases |b| - q, 2
  {
    var v := ValidateValue(b, q, depth + 1, numeric);
    if v.None? { return Fail; }
    var x := SkipWsAt(b, v.value);
    if x == |b| { return Fail; }
    assert b[x..][1..] == b[x + 1..];
    if b[x] == 0x2C { return More((), x + 1); }
    if b[x] == 0x5D { return Last((), x + 1); }
    return Fail;
  }

  method ValidateObject(b: bytes, p: nat, depth: nat, numeric: Numeric) returns (r: Option<nat>)
    requires p < |b|
    ensures Ends(b, r, ValidObject(b[p..], depth, numeric)) && (r.Some? ==> p < r.value)
    decreases |b| - p, 0
  {
    if depth >= MAX_DEPTH { return None; }
    assert b[p..][1..] == b[p + 1..];
    var u := SkipWsAt(b, p + 1);
    if u < |b| && b[u] == 0x7D {
      assert b[u..][1..] == b[u + 1..];
      return Some(u + 1);
    }
    r := ValidateMembers(b, u, depth, numeric);
  }

  method ValidateMembers(b: bytes, u: nat, depth: nat, numeric: Numeric) returns (r: Option<nat>)
    requires u <= |b|
    ensures Ends(b, r, ValidMembers(b[u..], depth, numeric)) && (r.Some? ==> u < r.value)
    decreases |b| - u, 4
  {
    var q := u;
    while true
      invariant u <= q <= |b|
      invariant ValidMembers(b[u..], depth, numeric) == ValidMembers(b[q..], depth, numeric)
      decreases |b| - q
    {
      var step := NextValidMember(b, q, depth, numeric);
      match step {
        case Fail => return None;
        case Last(_, p) => return Some(p);
        case More(_, p) => q := p;
      }
    }
  }

  method NextValidMember(b: bytes, q: nat, depth: nat, numeric: Numeric) returns (r: Step<()>)
    requires q <= |b|
    ensures r.Fail? ==> ValidMembers(b[q..], depth, numeric).None?
    ensures r.Last? ==> q < r.next <= |b| && ValidMembers(b[q..], depth, numeric) == Some(b[r.next..])
    ensures r.More? ==>
              q < r.next <= |b| && ValidMembers(b[q..], depth, numeric) == ValidMembers(b[r.next..], depth, numeric)
    decreases |b| - q, 3
  {
    var v := ValidateEntry(b, q, depth, numeric);
    if v.None? { return Fail; }
    var x := SkipWsAt(b, v.value);
    if x == |b| { return Fail; }
    assert b[x..][1..] == b[x + 1..];
    if b[x] == 0x2C { return More((), x + 1); }
    if b[x] == 0x7D { return Last((), x + 1); }
    return Fail;
  }

  method ValidateEntry(b: bytes, q: nat, depth: nat, numeric: Numeric) returns (r: Option<nat>)
    requires q <= |b|
    ensures Ends(b, r, ValidEntry(b[q..], depth, numeric)) && (r.Some? ==> q < r.value)
    decreases |b| - q, 2
  {
    var k := SkipWsAt(b, q);
    var key := ValidateString(b, k);
    if key.None? { return None; }
    var c := SkipWsAt(b, key.value);
    if c == |b| || b[c] != 0x3A { return None; }
    assert b[c..][1..] == b[c + 1..];
    r := ValidateValue(b, c + 1, depth + 1, numeric);
  }

  method ConsumeAt(b: bytes, p: nat, word: bytes) returns (r: Option<nat>)
    requires p <= |b| && word != []
    ensures Ends(b, r, Consume(b[p..], word)) && (r.Some? ==> p < r.value)
  {
    if word <= b[p..] {
      assert b[p..][|word|..] == b[p + |word|..];
      return Some(p + |word|);
    }
    return None;
  }

  method ValidateValue(b: bytes, p: nat, depth: nat, numeric: Numeric) returns (r: Option<nat>)
    requires p <= |b|
    ensures Ends(b, r, ValidValue(b[p..], depth, numeric)) && (r.Some? ==> p < r.value)
    decreases |b| - p, 1
  {
    var t := SkipWsAt(b, p);
    if t == |b| { return None; }
    assert b[t..][0] == b[t];
    if b[t] == 0x7B {
      r := ValidateObject(b, t, depth, numeric);
    } else if b[t] == 0x5B {
      r := ValidateArray(b, t, depth, numeric);
    } else if b[t] == 0x22 {
      r := ValidateString(b, t);
    } else if b[t] == 0x74 {
      r := ConsumeAt(b, t, TRUE);
    } else if b[t] == 0x66 {
      r := ConsumeAt(b, t, FALSE);
    } else if b[t] == 0x6E {
      r := ConsumeAt(b, t, NULL);
    } else {
      var q := NumSpanAt(b, t);
      assert b[t..][..q - t] == b[t..q] && b[t..][q - t..] == b[q..];
      r := if q > t && numeric(b[t..q]) then Some(q) else None;
    }
  }

  method Validate(b: bytes, numeric: Numeric) returns (ok: bool)
    ensures ok == IsValid(b, numeric)
  {
    var p := SkipWsAt(b, 0);
    assert b[0..] == b;
    var v := ValidateValue(b, p, 0, numeric);
    if v.None? { return false; }
    var q := SkipWsAt(b, v.value);
    return q == |b|;
  }
}
