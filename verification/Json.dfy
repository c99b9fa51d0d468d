/** JSON printing, parsing and validation (crates/elyra-core/src/json.rs, crates/elyra-core/src/value.rs). */
module Json {
  import opened Wrappers
  import opened Bytes
  import opened Products

  const MAX_DEPTH := 200

  /** Strings are held as their UTF-8 bytes; numbers keep their text. */
  datatype Json =
    | Null
    | Bool(b: bool)
    | Num(text: bytes)
    | Str(s: bytes)
    | Arr(items: seq<Json>)
    | Obj(members: seq<Member>)

  datatype Member = Member(key: bytes, value: Json)

  /** Which texts the float parser takes is left open. */
  type Numeric = bytes -> bool

  // --------------------------------------------------------------------- printing

  /** The two characters a control or delimiter is written as; every other byte is copied. The bytes of a character
      outside ASCII are all copied, so going byte by byte or character by character is the same. */
  function Escaped(c: byte): bytes {
    if c == 0x22 then [0x5C, 0x22]
    else if c == 0x5C then [0x5C, 0x5C]
    else if c == 0x0A then [0x5C, 0x6E]
    else if c == 0x09 then [0x5C, 0x74]
    else if c == 0x0D then [0x5C, 0x72]
    else [c]
  }

  function EscapedAll(s: bytes): bytes {
    if s == [] then [] else Escaped(s[0]) + EscapedAll(s[1..])
  }

  function Quoted(s: bytes): bytes {
    [0x22] + (EscapedAll(s) + [0x22])
  }

  const TRUE: bytes := [0x74, 0x72, 0x75, 0x65]
  const FALSE: bytes := [0x66, 0x61, 0x6C, 0x73, 0x65]
  const NULL: bytes := [0x6E, 0x75, 0x6C, 0x6C]

  function Print(j: Json): bytes
    decreases j, 0
  {
    match j
    case Null => NULL
    case Bool(b) => if b then TRUE else FALSE
    case Num(n) => n
    case Str(s) => Quoted(s)
    case Arr(items) => [0x5B] + (PrintItems(items) + [0x5D])
    case Obj(members) => [0x7B] + (PrintMembers(members) + [0x7D])
  }

  function PrintItems(items: seq<Json>): bytes
    decreases items, 1
  {
    if items == [] then []
    else if |items| == 1 then Print(items[0])
    else Print(items[0]) + ([0x2C, 0x20] + PrintItems(items[1..]))
  }

  function PrintMember(m: Member): bytes
    decreases m, 0
  {
    Quoted(m.key) + ([0x3A, 0x20] + Print(m.value))
  }

  function PrintMembers(members: seq<Member>): bytes
    decreases members, 1
  {
    if members == [] then []
    else if |members| == 1 then PrintMember(members[0])
    else PrintMember(members[0]) + ([0x2C, 0x20] + PrintMembers(members[1..]))
  }

  // ------------------------------------------------- parsing, on what is left to read

  predicate IsWs(c: byte) {
    c == 0x20 || c == 0x09 || c == 0x0A || c == 0x0D
  }

  function SkipWs(s: bytes): (r: bytes)
    ensures |r| <= |s|
  {
    if s != [] && IsWs(s[0]) then SkipWs(s[1..]) else s
  }

  predicate IsNumChar(c: byte) {
    0x30 <= c <= 0x39 || c == 0x2D || c == 0x2B || c == 0x2E || c == 0x65 || c == 0x45
  }

  function NumSpan(s: bytes): (n: nat)
    ensures n <= |s|
  {
    if s != [] && IsNumChar(s[0]) then 1 + NumSpan(s[1..]) else 0
  }

  function HexDigit(c: byte): Option<nat> {
    if 0x30 <= c <= 0x39 then Some(c - 0x30)
    else if 0x61 <= c <= 0x66 then Some(c - 0x61 + 10)
    else if 0x41 <= c <= 0x46 then Some(c - 0x41 + 10)
    else None
  }

  function HexNumber(s: bytes): (r: Option<nat>)
    ensures r.Some? ==> forall c | c in s :: HexDigit(c).Some?
  {
    if s == [] then Some(0)
    else
      var high :- HexNumber(s[..|s| - 1]);
      var low :- HexDigit(s[|s| - 1]);
      Some(high * 16 + low)
  }

  /** The integer parser in base 16, on four bytes: a leading plus is allowed. */
  function Hex4(s: bytes): Option<nat>
    requires |s| == 4
  {
    if s[0] == 0x2B then HexNumber(s[1..]) else HexNumber(s)
  }

  /** UTF-8 of a code point below 0x10000 that is not a surrogate. */
  function Utf8(cp: nat): Option<bytes> {
    if cp < 0x80 then Some([cp])
    else if cp < 0x800 then Some([0xC0 + cp / 0x40, 0x80 + cp % 0x40])
    else if 0xD800 <= cp <= 0xDFFF || cp >= 0x10000 then None
    else Some([0xE0 + cp / 0x1000, 0x80 + cp / 0x40 % 0x40, 0x80 + cp % 0x40])
  }

  /** What follows a backslash: the bytes it stands for and what is left. */
  function Escape(s: bytes): (r: Option<(bytes, bytes)>)
    ensures r.Some? ==> |r.value.1| < |s|
  {
    if s == [] then None
    else if s[0] == 0x22 || s[0] == 0x5C || s[0] == 0x2F then Some(([s[0]], s[1..]))
    else if s[0] == 0x6E then Some(([0x0A], s[1..]))
    else if s[0] == 0x74 then Some(([0x09], s[1..]))
    else if s[0] == 0x72 then Some(([0x0D], s[1..]))
    else if s[0] == 0x62 then Some(([0x08], s[1..]))
    else if s[0] == 0x66 then Some(([0x0C], s[1..]))
    else if s[0] == 0x75 && |s| >= 5 then
      var cp :- Hex4(s[1..5]);
      var c :- Utf8(cp);
      Some((c, s[5..]))
    else None
  }

  /** One byte of a string: alone it is a character only if it is ASCII; otherwise nothing is kept of it. */
  function Kept(c: byte): bytes {
    if c < 0x80 then [c] else []
  }

  function StringBody(s: bytes): (r: Option<(bytes, bytes)>)
    ensures r.Some? ==> |r.value.1| < |s|
    decreases |s|
  {
    if s == [] then None
    else if s[0] == 0x22 then Some(([], s[1..]))
    else if s[0] == 0x5C then
      var (c, rest) :- Escape(s[1..]);
      var (out, end) :- StringBody(rest);
      Some((c + out, end))
    else
      var (out, end) :- StringBody(s[1..]);
      Some((Kept(s[0]) + out, end))
  }

  function String(s: bytes): (r: Option<(bytes, bytes)>)
    ensures r.Some? ==> |r.value.1| < |s|
  {
    if s == [] || s[0] != 0x22 then None else StringBody(s[1..])
  }

  function Lit(s: bytes, word: bytes, v: Json): (r: Option<(Json, bytes)>)
    requires word != []
    ensures r.Some? ==> |r.value.1| < |s|
  {
    if word <= s then Some((v, s[|word|..])) else None
  }

  function Number(s: bytes, numeric: Numeric): (r: Option<(Json, bytes)>)
    ensures r.Some? ==> |r.value.1| < |s|
  {
    var n := NumSpan(s);
    if n == 0 || !numeric(s[..n]) then None else Some((Num(s[..n]), s[n..]))
  }

  function Value(s: bytes, depth: nat, numeric: Numeric): (r: Option<(Json, bytes)>)
    ensures r.Some? ==> |r.value.1| < |s|
    decreases |s|, 2
  {
    var t := SkipWs(s);
    if t == [] then None else ValueHere(t, depth, numeric)
  }

  function ValueHere(t: bytes, depth: nat, numeric: Numeric): (r: Option<(Json, bytes)>)
    requires t != []
    ensures r.Some? ==> |r.value.1| < |t|
    decreases |t|, 1
  {
    if t[0] == 0x7B then Object(t, depth, numeric)
    else if t[0] == 0x5B then Array(t, depth, numeric)
    else if t[0] == 0x22 then (var (out, rest) :- String(t); Some((Str(out), rest)))
    else if t[0] == 0x74 then Lit(t, TRUE, Bool(true))
    else if t[0] == 0x66 then Lit(t, FALSE, Bool(false))
    else if t[0] == 0x6E then Lit(t, NULL, Null)
    else Number(t, numeric)
  }

  function Array(t: bytes, depth: nat, numeric: Numeric): (r: Option<(Json, bytes)>)
    requires t != []
    ensures r.Some? ==> |r.value.1| < |t|
    decreases |t|, 0
  {
    if depth >= MAX_DEPTH then None
    else
      var u := SkipWs(t[1..]);
      if u != [] && u[0] == 0x5D then Some((Arr([]), u[1..]))
      else
        var (items, rest) :- Items(u, depth, numeric);
        Some((Arr(items), rest))
  }

  function Items(u: bytes, depth: nat, numeric: Numeric): (r: Option<(seq<Json>, bytes)>)
    ensures r.Some? ==> |r.value.1| < |u|
    decreases |u|, 3
  {
    var (v, w) :- Value(u, depth + 1, numeric);
    var x := SkipWs(w);
    if x != [] && x[0] == 0x2C then
      var (more, rest) :- Items(x[1..], depth, numeric);
      Some(([v] + more, rest))
    else if x != [] && x[0] == 0x5D then Some(([v], x[1..]))
    else None
  }

  function Object(t: bytes, depth: nat, numeric: Numeric): (r: Option<(Json, bytes)>)
    requires t != []
    ensures r.Some? ==> |r.value.1| < |t|
    decreases |t|, 0
  {
    if depth >= MAX_DEPTH then None
    else
      var u := SkipWs(t[1..]);
      if u != [] && u[0] == 0x7D then Some((Obj([]), u[1..]))
      else
        var (members, rest) :- Members(u, depth, numeric);
        Some((Obj(members), rest))
  }

  /** A key, the colon and a value. */
  function Entry(u: bytes, depth: nat, numeric: Numeric): (r: Option<(Member, bytes)>)
    ensures r.Some? ==> |r.value.1| < |u|
    decreases |u|, 3
  {
    var (key, k) :- String(SkipWs(u));
    var c := SkipWs(k);
    if c == [] || c[0] != 0x3A then None
    else
      var (v, w) :- Value(c[1..], depth + 1, numeric);
      Some((Member(key, v), w))
  }

  function Members(u: bytes, depth: nat, numeric: Numeric): (r: Option<(seq<Member>, bytes)>)
    ensures r.Some? ==> |r.value.1| < |u|
    decreases |u|, 4
  {
    var (m, w) :- Entry(u, depth, numeric);
    var x := SkipWs(w);
    if x != [] && x[0] == 0x2C then
      var (more, rest) :- Members(x[1..], depth, numeric);
      Some(([m] + more, rest))
    else if x != [] && x[0] == 0x7D then Some(([m], x[1..]))
    else None
  }

  function Parse(s: bytes, numeric: Numeric): Option<Json> {
    var (v, rest) :- Value(SkipWs(s), 0, numeric);
    if SkipWs(rest) == [] then Some(v) else None
  }

  // ------------------------------------------------------- what printing and parsing keep

  function Depth(j: Json): nat
    decreases j, 0
  {
    match j
    case Arr(items) => 1 + DepthItems(items)
    case Obj(members) => 1 + DepthMembers(members)
    case _ => 0
  }

  function DepthItems(items: seq<Json>): nat
    decreases items, 1
  {
    if items == [] then 0 else Max(Depth(items[0]), DepthItems(items[1..]))
  }

  function DepthMember(m: Member): nat
    decreases m, 0
  {
    Depth(m.value)
  }

  function DepthMembers(members: seq<Member>): nat
    decreases members, 1
  {
    if members == [] then 0 else Max(DepthMember(members[0]), DepthMembers(members[1..]))
  }

  /** A number text is a non-empty run of number characters the float parser takes. */
  predicate ValidNumber(n: bytes, numeric: Numeric) {
    n != [] && (forall i | 0 <= i < |n| :: IsNumChar(n[i])) && numeric(n)
  }

  predicate Numbers(j: Json, numeric: Numeric)
    decreases j, 0
  {
    match j
    case Num(n) => ValidNumber(n, numeric)
    case Arr(items) => forall i | 0 <= i < |items| :: Numbers(items[i], numeric)
    case Obj(members) => forall i | 0 <= i < |members| :: NumbersIn(members[i], numeric)
    case _ => true
  }

  predicate NumbersIn(m: Member, numeric: Numeric)
    decreases m, 0
  {
    Numbers(m.value, numeric)
  }

  function Ascii(s: bytes): bytes {
    if s == [] then [] else Kept(s[0]) + Ascii(s[1..])
  }

  /** The value with every byte outside ASCII dropped from its strings and keys. */
  function Strip(j: Json): Json
    decreases j, 0
  {
    match j
    case Str(s) => Str(Ascii(s))
    case Arr(items) => Arr(StripItems(items))
    case Obj(members) => Obj(StripMembers(members))
    case _ => j
  }

  function StripItems(items: seq<Json>): seq<Json>
    decreases items, 1
  {
    if items == [] then [] else [Strip(items[0])] + StripItems(items[1..])
  }

  function StripMember(m: Member): Member
    decreases m, 0
  {
    Member(Ascii(m.key), Strip(m.value))
  }

  function StripMembers(members: seq<Member>): seq<Member>
    decreases members, 1
  {
    if members == [] then [] else [StripMember(members[0])] + StripMembers(members[1..])
  }

  /** What may follow a value: not another number character. */
  ghost predicate Stops(post: bytes) {
    post == [] || !IsNumChar(post[0])
  }

  /** One escaped byte, whatever follows. */
  lemma {:induction false} ByteReads(c: byte, rest: bytes)
    requires StringBody(rest).Some?
    ensures StringBody(Escaped(c) + rest) == Some((Kept(c) + StringBody(rest).value.0, StringBody(rest).value.1))
  {
    var text := Escaped(c) + rest;
    if |Escaped(c)| == 2 {
      EscapeReads(c, rest);
      assert text[1..] == [Escaped(c)[1]] + rest;
    } else {
      assert text[1..] == rest;
    }
  }

  lemma {:induction false} EscapeReads(c: byte, rest: bytes)
    requires |Escaped(c)| == 2
    ensures Escape([Escaped(c)[1]] + rest) == Some(([c], rest)) && Kept(c) == [c]
  {
    assert ([Escaped(c)[1]] + rest)[1..] == rest;
  }

  lemma {:induction false} EscapedSplit(s: bytes, tail: bytes)
    requires s != []
    ensures EscapedAll(s) + tail == Escaped(s[0]) + (EscapedAll(s[1..]) + tail)
  {
  }

  lemma {:induction false} StringReads(s: bytes, post: bytes)
    ensures StringBody(EscapedAll(s) + ([0x22] + post)) == Some((Ascii(s), post))
  {
    var tail: bytes := [0x22] + post;
    if s == [] {
      assert EscapedAll(s) + tail == tail && tail[1..] == post;
    } else {
      StringReads(s[1..], post);
      ByteReads(s[0], EscapedAll(s[1..]) + tail);
      EscapedSplit(s, tail);
    }
  }

  lemma {:induction false} QuotedReads(s: bytes, post: bytes)
    ensures String(Quoted(s) + post) == Some((Ascii(s), post))
  {
    StringReads(s, post);
    assert (Quoted(s) + post)[1..] == EscapedAll(s) + ([0x22] + post);
  }

  lemma {:induction false} SpanReads(n: bytes, post: bytes)
    requires (forall i | 0 <= i < |n| :: IsNumChar(n[i])) && Stops(post)
    ensures NumSpan(n + post) == |n|
  {
    if n == [] {
      assert n + post == post;
    } else {
      SpanReads(n[1..], post);
      assert (n + post)[1..] == n[1..] + post;
    }
  }

  lemma {:induction false} NumberReads(n: bytes, post: bytes, numeric: Numeric)
    requires ValidNumber(n, numeric) && Stops(post)
    ensures Number(n + post, numeric) == Some((Num(n), post))
  {
    SpanReads(n, post);
    assert (n + post)[..|n|] == n && (n + post)[|n|..] == post;
  }

  /** A printed value starts with no space. */
  lemma {:induction false} PrintStarts(j: Json, numeric: Numeric)
    requires Numbers(j, numeric)
    ensures Print(j) != [] && !IsWs(Print(j)[0]) && Print(j)[0] != 0x5D
  {
  }

  lemma {:induction false} SpaceSkipped(j: Json, post: bytes, numeric: Numeric)
    requires Numbers(j, numeric)
    ensures SkipWs(Print(j) + post) == Print(j) + post
    ensures SkipWs([0x20] + (Print(j) + post)) == Print(j) + post
  {
    PrintStarts(j, numeric);
    assert ([0x20] + (Print(j) + post))[1..] == Print(j) + post;
  }

  lemma {:induction false} LitReads(word: bytes, v: Json, post: bytes)
    requires word != []
    ensures Lit(word + post, word, v) == Some((v, post))
  {
    assert (word + post)[|word|..] == post;
  }

  /** The outcome of reading something `deep` levels deep, written as `v`, at depth `depth`. */
  ghost function Outcome<T>(depth: nat, deep: nat, v: T, post: bytes): Option<(T, bytes)> {
    if depth + deep <= MAX_DEPTH then Some((v, post)) else None
  }

  /** Items as they stand in the text: printed, then the bracket, then the rest. */
  ghost function ItemsText(items: seq<Json>, post: bytes): bytes {
    PrintItems(items) + ([0x5D] + post)
  }

  ghost predicate AllNumbers(items: seq<Json>, numeric: Numeric) {
    forall i | 0 <= i < |items| :: Numbers(items[i], numeric)
  }

  lemma {:induction false} ItemsTextSplit(items: seq<Json>, post: bytes)
    requires items != []
    ensures |items| == 1 ==> ItemsText(items, post) == Print(items[0]) + ([0x5D] + post)
    ensures |items| > 1 ==> ItemsText(items, post) == Print(items[0]) + ([0x2C, 0x20] + ItemsText(items[1..], post))
  {
  }

  lemma {:induction false} ItemsTextStarts(items: seq<Json>, post: bytes, numeric: Numeric)
    requires items != [] && AllNumbers(items, numeric)
    ensures
      var t := ItemsText(items, post);
      t != [] && !IsWs(t[0]) && t[0] != 0x5D && SkipWs([0x20] + t) == t
  {
    PrintStarts(items[0], numeric);
    ItemsTextSplit(items, post);
    var t := ItemsText(items, post);
    assert ([0x20] + t)[1..] == t;
  }

  lemma {:induction false} ItemsSplit(items: seq<Json>)
    requires items != []
    ensures StripItems(items) == [Strip(items[0])] + StripItems(items[1..])
    ensures DepthItems(items) == Max(Depth(items[0]), DepthItems(items[1..]))
    ensures |items| == 1 ==> StripItems(items) == [Strip(items[0])] && DepthItems(items) == Depth(items[0])
  {
    if |items| == 1 { assert items[1..] == []; }
  }

  lemma {:induction false} MembersSplit(members: seq<Member>)
    requires members != []
    ensures StripMembers(members) == [StripMember(members[0])] + StripMembers(members[1..])
    ensures DepthMembers(members) == Max(DepthMember(members[0]), DepthMembers(members[1..]))
    ensures |members| == 1 ==>
              StripMembers(members) == [StripMember(members[0])] && DepthMembers(members) == DepthMember(members[0])
  {
    if |members| == 1 { assert members[1..] == []; }
  }

  /** One step of the item loop: the last item, or one more and a comma. */
  lemma {:induction false} ItemsLast(u: bytes, v: Json, post: bytes, depth: nat, numeric: Numeric)
    requires Value(u, depth + 1, numeric) == Some((v, [0x5D] + post))
    ensures Items(u, depth, numeric) == Some(([v], post))
  {
    assert ([0x5D] + post)[1..] == post;
  }

  lemma {:induction false} ItemsMore(u: bytes, v: Json, next: bytes, depth: nat, numeric: Numeric)
    requires Value(u, depth + 1, numeric) == Some((v, [0x2C] + next))
    ensures Items(u, depth, numeric).Some? == Items(next, depth, numeric).Some?
    ensures Items(u, depth, numeric).Some? ==>
              Items(u, depth, numeric).value ==
              ([v] + Items(next, depth, numeric).value.0, Items(next, depth, numeric).value.1)
  {
    var x: bytes := [0x2C] + next;
    assert x[1..] == next && SkipWs(x) == x;
  }

  lemma {:induction false} ItemsEnd(u: bytes, v: Json, post: bytes, depth: nat, d0: nat, numeric: Numeric)
    requires Value(u, depth + 1, numeric) == Outcome(depth + 1, d0, v, [0x5D] + post)
    ensures Items(u, depth, numeric) == Outcome(depth + 1, d0, [v], post)
  {
    if depth + 1 + d0 <= MAX_DEPTH { ItemsLast(u, v, post, depth, numeric); }
  }

  lemma {:induction false} ItemsNext(u: bytes, v: Json, next: bytes, more: seq<Json>, post: bytes, depth: nat, d0: nat,
                                     d1: nat, numeric: Numeric)
    requires Value(u, depth + 1, numeric) == Outcome(depth + 1, d0, v, [0x2C] + next)
    requires Items(next, depth, numeric) == Outcome(depth + 1, d1, more, post)
    ensures Items(u, depth, numeric) == Outcome(depth + 1, Max(d0, d1), [v] + more, post)
  {
    if depth + 1 + d0 <= MAX_DEPTH { ItemsMore(u, v, next, depth, numeric); }
  }

  lemma {:induction false} ItemsReadOne(u: bytes, items: seq<Json>, post: bytes, depth: nat, numeric: Numeric)
    requires |items| == 1 && Numbers(items[0], numeric) && depth < MAX_DEPTH && SkipWs(u) == ItemsText(items, post)
    ensures Items(u, depth, numeric) == Outcome(depth + 1, DepthItems(items), StripItems(items), post)
    decreases items, 0
  {
    ItemsTextSplit(items, post);
    ItemsSplit(items);
    ValueReads(u, items[0], [0x5D] + post, depth + 1, numeric);
    ItemsEnd(u, Strip(items[0]), post, depth, Depth(items[0]), numeric);
  }

  /** The text after an item and its comma. */
  ghost function AfterItem(items: seq<Json>, post: bytes): bytes {
    [0x20] + ItemsText(items, post)
  }

  lemma {:induction false} ItemsReadFirst(u: bytes, items: seq<Json>, post: bytes, depth: nat, numeric: Numeric)
    requires |items| > 1 && Numbers(items[0], numeric) && depth < MAX_DEPTH && SkipWs(u) == ItemsText(items, post)
    ensures Value(u, depth + 1, numeric) ==
            Outcome(depth + 1, Depth(items[0]), Strip(items[0]), [0x2C] + AfterItem(items[1..], post))
    decreases items, 0
  {
    ItemsTextSplit(items, post);
    var next := AfterItem(items[1..], post);
    assert [0x2C, 0x20] + ItemsText(items[1..], post) == [0x2C] + next;
    ValueReads(u, items[0], [0x2C] + next, depth + 1, numeric);
  }

  lemma {:induction false} ItemsReads(u: bytes, items: seq<Json>, post: bytes, depth: nat, numeric: Numeric)
    requires items != [] && AllNumbers(items, numeric) && depth < MAX_DEPTH && SkipWs(u) == ItemsText(items, post)
    ensures Items(u, depth, numeric) == Outcome(depth + 1, DepthItems(items), StripItems(items), post)
    decreases items, 1
  {
    if |items| == 1 {
      ItemsReadOne(u, items, post, depth, numeric);
    } else {
      var rest := items[1..];
      ItemsReadFirst(u, items, post, depth, numeric);
      ItemsTextStarts(rest, post, numeric);
      ItemsReads(AfterItem(rest, post), rest, post, depth, numeric);
      ItemsNext(u, Strip(items[0]), AfterItem(rest, post), StripItems(rest), post, depth, Depth(items[0]),
                DepthItems(rest), numeric);
      ItemsSplit(items);
    }
  }

  lemma {:induction false} ArrayReads(items: seq<Json>, post: bytes, depth: nat, numeric: Numeric)
    requires AllNumbers(items, numeric) && depth <= MAX_DEPTH
    ensures Array([0x5B] + ItemsText(items, post), depth, numeric) ==
            Outcome(depth, 1 + DepthItems(items), Arr(StripItems(items)), post)
    decreases items, 2
  {
    var t: bytes := [0x5B] + ItemsText(items, post);
    assert t[1..] == ItemsText(items, post);
    if items == [] {
      assert ItemsText(items, post) == [0x5D] + post;
      assert ([0x5D] + post)[1..] == post;
    } else {
      ItemsTextStarts(items, post, numeric);
      if depth < MAX_DEPTH {
        ItemsReads(SkipWs(t[1..]), items, post, depth, numeric);
      }
    }
  }

  ghost function MembersText(members: seq<Member>, post: bytes): bytes {
    PrintMembers(members) + ([0x7D] + post)
  }

  ghost predicate AllNumbersIn(members: seq<Member>, numeric: Numeric) {
    forall i | 0 <= i < |members| :: NumbersIn(members[i], numeric)
  }

  lemma {:induction false} MembersTextSplit(members: seq<Member>, post: bytes)
    requires members != []
    ensures |members| == 1 ==> MembersText(members, post) == PrintMember(members[0]) + ([0x7D] + post)
    ensures |members| > 1 ==>
              MembersText(members, post) == PrintMember(members[0]) + ([0x2C, 0x20] + MembersText(members[1..], post))
  {
  }

  lemma {:induction false} MembersTextStarts(members: seq<Member>, post: bytes)
    requires members != []
    ensures
      var t := MembersText(members, post);
      t != [] && t[0] == 0x22 && SkipWs([0x20] + t) == t
  {
    MembersTextSplit(members, post);
    var t := MembersText(members, post);
    assert PrintMember(members[0])[0] == 0x22;
    assert ([0x20] + t)[1..] == t;
  }

  lemma {:induction false} EntryValue(u: bytes, key: bytes, next: bytes, depth: nat, numeric: Numeric)
    requires String(SkipWs(u)) == Some((key, [0x3A] + next))
    ensures Entry(u, depth, numeric).Some? == Value(next, depth + 1, numeric).Some?
    ensures Entry(u, depth, numeric).Some? ==>
              Entry(u, depth, numeric).value ==
              (Member(key, Value(next, depth + 1, numeric).value.0), Value(next, depth + 1, numeric).value.1)
  {
    var c: bytes := [0x3A] + next;
    assert c[1..] == next && SkipWs(c) == c;
  }

  lemma {:induction false} EntryReads(u: bytes, m: Member, post: bytes, depth: nat, numeric: Numeric)
    requires NumbersIn(m, numeric) && depth < MAX_DEPTH && SkipWs(u) == PrintMember(m) + post && Stops(post)
    ensures Entry(u, depth, numeric) == Outcome(depth + 1, DepthMember(m), StripMember(m), post)
    decreases m, 1
  {
    var next: bytes := [0x20] + (Print(m.value) + post);
    EntryKey(u, m, post, next);
    SpaceSkipped(m.value, post, numeric);
    ValueReads(next, m.value, post, depth + 1, numeric);
    EntryValue(u, Ascii(m.key), next, depth, numeric);
  }

  lemma {:induction false} EntryKey(u: bytes, m: Member, post: bytes, next: bytes)
    requires SkipWs(u) == PrintMember(m) + post && next == [0x20] + (Print(m.value) + post)
    ensures String(SkipWs(u)) == Some((Ascii(m.key), [0x3A] + next))
  {
    assert SkipWs(u) == Quoted(m.key) + ([0x3A] + next);
    QuotedReads(m.key, [0x3A] + next);
  }

  lemma {:induction false} MembersLast(u: bytes, m: Member, post: bytes, depth: nat, numeric: Numeric)
    requires Entry(u, depth, numeric) == Some((m, [0x7D] + post))
    ensures Members(u, depth, numeric) == Some(([m], post))
  {
    assert ([0x7D] + post)[1..] == post;
  }

  lemma {:induction false} MembersMore(u: bytes, m: Member, next: bytes, depth: nat, numeric: Numeric)
    requires Entry(u, depth, numeric) == Some((m, [0x2C] + next))
    ensures Members(u, depth, numeric).Some? == Members(next, depth, numeric).Some?
    ensures Members(u, depth, numeric).Some? ==>
              Members(u, depth, numeric).value ==
              ([m] + Members(next, depth, numeric).value.0, Members(next, depth, numeric).value.1)
  {
    var x: bytes := [0x2C] + next;
    assert x[1..] == next && SkipWs(x) == x;
  }

  lemma {:induction false} MembersEnd(u: bytes, m: Member, post: bytes, depth: nat, d0: nat, numeric: Numeric)
    requires Entry(u, depth, numeric) == Outcome(depth + 1, d0, m, [0x7D] + post)
    ensures Members(u, depth, numeric) == Outcome(depth + 1, d0, [m], post)
  {
    if depth + 1 + d0 <= MAX_DEPTH { MembersLast(u, m, post, depth, numeric); }
  }

  lemma {:induction false} MembersNext(u: bytes, m: Member, next: bytes, more: seq<Member>, post: bytes, depth: nat,
                                       d0: nat, d1: nat, numeric: Numeric)
    requires Entry(u, depth, numeric) == Outcome(depth + 1, d0, m, [0x2C] + next)
    requires Members(next, depth, numeric) == Outcome(depth + 1, d1, more, post)
    ensures Members(u, depth, numeric) == Outcome(depth + 1, Max(d0, d1), [m] + more, post)
  {
    if depth + 1 + d0 <= MAX_DEPTH { MembersMore(u, m, next, depth, numeric); }
  }

  lemma {:induction false} MembersReadOne(u: bytes, members: seq<Member>, post: bytes, depth: nat, numeric: Numeric)
    requires |members| == 1 && NumbersIn(members[0], numeric) && depth < MAX_DEPTH
             && SkipWs(u) == MembersText(members, post)
    ensures Members(u, depth, numeric) == Outcome(depth + 1, DepthMembers(members), StripMembers(members), post)
    decreases members, 1
  {
    MembersTextSplit(members, post);
    MembersSplit(members);
    EntryReads(u, members[0], [0x7D] + post, depth, numeric);
    MembersEnd(u, StripMember(members[0]), post, depth, DepthMember(members[0]), numeric);
  }

  /** The text after a member and its comma. */
  ghost function AfterComma(members: seq<Member>, post: bytes): bytes {
    [0x20] + MembersText(members, post)
  }

  lemma {:induction false} MembersReadFirst(u: bytes, members: seq<Member>, post: bytes, depth: nat, numeric: Numeric)
    requires |members| > 1 && NumbersIn(members[0], numeric) && depth < MAX_DEPTH
             && SkipWs(u) == MembersText(members, post)
    ensures Entry(u, depth, numeric) ==
            Outcome(depth + 1, DepthMember(members[0]), StripMember(members[0]), [0x2C] +
                    AfterComma(members[1..], post))
    decreases members, 1
  {
    MembersTextSplit(members, post);
    var next := AfterComma(members[1..], post);
    assert [0x2C, 0x20] + MembersText(members[1..], post) == [0x2C] + next;
    EntryReads(u, members[0], [0x2C] + next, depth, numeric);
  }

  lemma {:induction false} MembersReads(u: bytes, members: seq<Member>, post: bytes, depth: nat, numeric: Numeric)
    requires members != [] && AllNumbersIn(members, numeric) && depth < MAX_DEPTH
             && SkipWs(u) == MembersText(members, post)
    ensures Members(u, depth, numeric) == Outcome(depth + 1, DepthMembers(members), StripMembers(members), post)
    decreases members, 2
  {
    if |members| == 1 {
      MembersReadOne(u, members, post, depth, numeric);
    } else {
      var rest := members[1..];
      MembersReadFirst(u, members, post, depth, numeric);
      MembersTextStarts(rest, post);
      MembersReads(AfterComma(rest, post), rest, post, depth, numeric);
      MembersNext(u, StripMember(members[0]), AfterComma(rest, post), StripMembers(rest), post, depth,
                  DepthMember(members[0]),
                  DepthMembers(rest), numeric);
      MembersSplit(members);
    }
  }

  lemma {:induction false} ObjectReads(members: seq<Member>, post: bytes, depth: nat, numeric: Numeric)
    requires AllNumbersIn(members, numeric) && depth <= MAX_DEPTH
    ensures Object([0x7B] + MembersText(members, post), depth, numeric) ==
            Outcome(depth, 1 + DepthMembers(members), Obj(StripMembers(members)), post)
    decreases members, 3
  {
    var t: bytes := [0x7B] + MembersText(members, post);
    assert t[1..] == MembersText(members, post);
    if members == [] {
      assert MembersText(members, post) == [0x7D] + post;
      assert ([0x7D] + post)[1..] == post;
    } else {
      MembersTextStarts(members, post);
      if depth < MAX_DEPTH {
        MembersReads(SkipWs(t[1..]), members, post, depth, numeric);
      }
    }
  }

  lemma {:induction false} ScalarReads(s: bytes, j: Json, post: bytes, depth: nat, numeric: Numeric)
    requires Numbers(j, numeric) && Stops(post) && depth <= MAX_DEPTH && SkipWs(s) == Print(j) + post && !j.Arr?
             && !j.Obj?
    ensures Value(s, depth, numeric) == Some((Strip(j), post))
  {
    match j
    case Null => LitReads(NULL, Null, post);
    case Bool(b) => LitReads(if b then TRUE else FALSE, j, post);
    case Num(n) => NumberReads(n, post, numeric);
    case Str(x) => QuotedReads(x, post);
  }

  lemma {:induction false} ValueReads(s: bytes, j: Json, post: bytes, depth: nat, numeric: Numeric)
    requires Numbers(j, numeric) && Stops(post) && depth <= MAX_DEPTH && SkipWs(s) == Print(j) + post
    ensures Value(s, depth, numeric) == Outcome(depth, Depth(j), Strip(j), post)
    decreases j, 0
  {
    match j
    case Arr(items) =>
      assert SkipWs(s) == [0x5B] + ItemsText(items, post);
      ArrayReads(items, post, depth, numeric);
    case Obj(members) =>
      assert SkipWs(s) == [0x7B] + MembersText(members, post);
      ObjectReads(members, post, depth, numeric);
    case _ => ScalarReads(s, j, post, depth, numeric);
  }

  /** Parsing what was printed gives the value back without the non-ASCII bytes of its strings, unless it nests
      deeper than the limit, when it is refused. */
  lemma {:induction false} RoundTrip(j: Json, numeric: Numeric)
    requires Numbers(j, numeric)
    ensures Parse(Print(j), numeric) == if Depth(j) <= 200 then Some(Strip(j)) else None
  {
    assert Print(j) + [] == Print(j);
    SpaceSkipped(j, [], numeric);
    ValueReads(SkipWs(Print(j)), j, [], 0, numeric);
  }

  ghost predicate AsciiText(s: bytes) {
    forall i | 0 <= i < |s| :: s[i] < 0x80
  }

  ghost predicate AsciiOnly(j: Json)
    decreases j, 0
  {
    match j
    case Str(s) => AsciiText(s)
    case Arr(items) => forall i | 0 <= i < |items| :: AsciiOnly(items[i])
    case Obj(members) => forall i | 0 <= i < |members| :: AsciiMember(members[i])
    case _ => true
  }

  ghost predicate AsciiMember(m: Member)
    decreases m, 0
  {
    AsciiText(m.key) && AsciiOnly(m.value)
  }

  lemma {:induction false} AsciiIff(s: bytes)
    ensures |Ascii(s)| <= |s| && (Ascii(s) == s <==> AsciiText(s))
  {
    if s != [] {
      AsciiIff(s[1..]);
      assert s == [s[0]] + s[1..];
      if s[0] < 0x80 {
        assert Ascii(s)[1..] == Ascii(s[1..]);
      }
    }
  }

  lemma {:induction false} StripItemsIff(items: seq<Json>)
    ensures |StripItems(items)| == |items|
    ensures StripItems(items) == items <==> forall i | 0 <= i < |items| :: AsciiOnly(items[i])
    decreases items, 1
  {
    if items != [] {
      StripIff(items[0]);
      StripItemsIff(items[1..]);
      assert items == [items[0]] + items[1..];
      assert StripItems(items)[1..] == StripItems(items[1..]);
    }
  }

  lemma {:induction false} StripMemberIff(m: Member)
    ensures StripMember(m) == m <==> AsciiMember(m)
    decreases m, 0
  {
    AsciiIff(m.key);
    StripIff(m.value);
  }

  lemma {:induction false} StripMembersIff(members: seq<Member>)
    ensures |StripMembers(members)| == |members|
    ensures StripMembers(members) == members <==> forall i | 0 <= i < |members| :: AsciiMember(members[i])
    decreases members, 1
  {
    if members != [] {
      StripMemberIff(members[0]);
      StripMembersIff(members[1..]);
      assert members == [members[0]] + members[1..];
      assert StripMembers(members)[1..] == StripMembers(members[1..]);
    }
  }

  lemma {:induction false} StripIff(j: Json)
    ensures Strip(j) == j <==> AsciiOnly(j)
    decreases j, 0
  {
    match j
    case Str(s) => AsciiIff(s);
    case Arr(items) => StripItemsIff(items);
    case Obj(members) => StripMembersIff(members);
    case _ =>
  }

  /** A value comes back exactly when it nests within the limit and its strings are ASCII. */
  lemma {:induction false} RoundTripIff(j: Json, numeric: Numeric)
    requires Numbers(j, numeric)
    ensures Parse(Print(j), numeric) == Some(j) <==> Depth(j) <= 200 && AsciiOnly(j)
  {
    RoundTrip(j, numeric);
    StripIff(j);
  }

  /** The characters numbers are made of. */
  lemma {:induction false} NumberCharacters(c: byte)
    ensures IsNumChar(c) <==> c in Spelled("0123456789+-.eE")
  {
    var s := Spelled("0123456789+-.eE");
    if 48 <= c <= 57 { assert s[c - 48] == c; }
    assert s[10] == 43 && s[11] == 45 && s[12] == 46 && s[13] == 101 && s[14] == 69;
  }

  /** The words, as printed. */
  lemma {:induction false} WordsPrint()
    ensures Print(Null) == Spelled("null") && Print(Bool(true)) == Spelled("true")
    ensures Print(Bool(false)) == Spelled("false")
  {
  }

  lemma {:induction false} Listed(open: bytes, a: bytes, comma: bytes, b: bytes, close: bytes)
    ensures open + ((a + (comma + b)) + close) == open + a + comma + b + close
  {
  }

  lemma {:induction false} ItemsPrint(a: Json, b: Json)
    ensures PrintItems([a, b]) == Print(a) + (Spelled(", ") + Print(b))
  {
    assert [a, b][1..] == [b] && PrintItems([b]) == Print(b);
    assert Spelled(", ") == [0x2C, 0x20];
  }

  /** An array with two items, as printed. */
  lemma {:induction false} ArrayPrints(a: Json, b: Json)
    ensures Print(Arr([a, b])) == Spelled("[") + Print(a) + Spelled(", ") + Print(b) + Spelled("]")
  {
    ItemsPrint(a, b);
    Listed(Spelled("["), Print(a), Spelled(", "), Print(b), Spelled("]"));
  }

  /** A member, and an object with two of them, as printed. */
  lemma {:induction false} MemberPrints(k: bytes, a: Json)
    ensures PrintMember(Member(k, a)) == Print(Str(k)) + Spelled(": ") + Print(a)
  {
    assert Spelled(": ") == [0x3A, 0x20];
  }

  lemma {:induction false} MembersPrint(m: Member, n: Member)
    ensures PrintMembers([m, n]) == PrintMember(m) + (Spelled(", ") + PrintMember(n))
  {
    assert [m, n][1..] == [n] && PrintMembers([n]) == PrintMember(n);
    assert Spelled(", ") == [0x2C, 0x20];
  }

  lemma {:induction false} ObjectPrints(m: Member, n: Member)
    ensures Print(Obj([m, n])) == Spelled("{") + PrintMember(m) + Spelled(", ") + PrintMember(n) + Spelled("}")
  {
    MembersPrint(m, n);
    Listed(Spelled("{"), PrintMember(m), Spelled(", "), PrintMember(n), Spelled("}"));
  }

  /** Between quotes, characters are printed one after the other, five of them with a backslash. */
  lemma {:induction false} StringPrints(s: bytes, c: byte)
    ensures Print(Str([])) == Spelled("\"\"") && Print(Str(s)) == Spelled("\"") + EscapedAll(s) + Spelled("\"")
    ensures EscapedAll(s + [c]) == EscapedAll(s) + (
              if c == '\"' as int then Spelled("\\\"") else if c == '\\' as int then Spelled("\\\\")
              else if c == '\n' as int then Spelled("\\n") else if c == '\t' as int then Spelled("\\t")
              else if c == '\r' as int then Spelled("\\r") else [c])
    decreases |s|
  {
    assert Spelled("\"") == [0x22];
    if s == [] {
      assert [] + [c] == [c] && [c][1..] == [];
    } else {
      assert (s + [c])[1..] == s[1..] + [c];
      StringPrints(s[1..], c);
    }
  }

  /** One character outside ASCII is enough to lose it. */
  lemma {:induction false} LostCharacter(numeric: Numeric)
    ensures Parse(Print(Str([0xC3, 0xA9])), numeric) == Some(Str([]))
  {
    RoundTrip(Str([0xC3, 0xA9]), numeric);
    assert Ascii([0xC3, 0xA9]) == [] by {
      assert Ascii([0xA9]) == [];
    }
  }

  // -------------------------------------------------------------------- validation

  /** A string body for the validator: a backslash takes the next byte with it, whatever it is. */
  function ValidBody(s: bytes): (r: Option<bytes>)
    ensures r.Some? ==> |r.value| < |s|
  {
    if s == [] then None
    else if s[0] == 0x22 then Some(s[1..])
    else if s[0] == 0x5C then (if |s| < 2 then None else ValidBody(s[2..]))
    else ValidBody(s[1..])
  }

  function ValidString(s: bytes): (r: Option<bytes>)
    ensures r.Some? ==> |r.value| < |s|
  {
    if s == [] || s[0] != 0x22 then None else ValidBody(s[1..])
  }

  function Consume(s: bytes, word: bytes): (r: Option<bytes>)
    requires word != []
    ensures r.Some? ==> |r.value| < |s|
  {
    if word <= s then Some(s[|word|..]) else None
  }

  function ValidNum(s: bytes, numeric: Numeric): (r: Option<bytes>)
    ensures r.Some? ==> |r.value| < |s|
  {
    var n := NumSpan(s);
    if n > 0 && numeric(s[..n]) then Some(s[n..]) else None
  }

  function ValidValue(s: bytes, depth: nat, numeric: Numeric): (r: Option<bytes>)
    ensures r.Some? ==> |r.value| < |s|
    decreases |s|, 2
  {
    var t := SkipWs(s);
    if t == [] then None else ValidHere(t, depth, numeric)
  }

  function ValidHere(t: bytes, depth: nat, numeric: Numeric): (r: Option<bytes>)
    requires t != []
    ensures r.Some? ==> |r.value| < |t|
    decreases |t|, 1
  {
    if t[0] == 0x7B then ValidObject(t, depth, numeric)
    else if t[0] == 0x5B then ValidArray(t, depth, numeric)
    else if t[0] == 0x22 then ValidString(t)
    else if t[0] == 0x74 then Consume(t, TRUE)
    else if t[0] == 0x66 then Consume(t, FALSE)
    else if t[0] == 0x6E then Consume(t, NULL)
    else ValidNum(t, numeric)
  }

  function ValidArray(t: bytes, depth: nat, numeric: Numeric): (r: Option<bytes>)
    requires t != []
    ensures r.Some? ==> |r.value| < |t|
    decreases |t|, 0
  {
    if depth >= MAX_DEPTH then None
    else
      var u := SkipWs(t[1..]);
      if u != [] && u[0] == 0x5D then Some(u[1..]) else ValidItems(u, depth, numeric)
  }

  function ValidItems(u: bytes, depth: nat, numeric: Numeric): (r: Option<bytes>)
    ensures r.Some? ==> |r.value| < |u|
    decreases |u|, 3
  {
    var w :- ValidValue(u, depth + 1, numeric);
    var x := SkipWs(w);
    if x != [] && x[0] == 0x2C then ValidItems(x[1..], depth, numeric)
    else if x != [] && x[0] == 0x5D then Some(x[1..])
    else None
  }

  function ValidObject(t: bytes, depth: nat, numeric: Numeric): (r: Option<bytes>)
    requires t != []
    ensures r.Some? ==> |r.value| < |t|
    decreases |t|, 0
  {
    if depth >= MAX_DEPTH then None
    else
      var u := SkipWs(t[1..]);
      if u != [] && u[0] == 0x7D then Some(u[1..]) else ValidMembers(u, depth, numeric)
  }

  function ValidEntry(u: bytes, depth: nat, numeric: Numeric): (r: Option<bytes>)
    ensures r.Some? ==> |r.value| < |u|
    decreases |u|, 3
  {
    var k :- ValidString(SkipWs(u));
    var c := SkipWs(k);
    if c == [] || c[0] != 0x3A then None else ValidValue(c[1..], depth + 1, numeric)
  }

  function ValidMembers(u: bytes, depth: nat, numeric: Numeric): (r: Option<bytes>)
    ensures r.Some? ==> |r.value| < |u|
    decreases |u|, 4
  {
    var w :- ValidEntry(u, depth, numeric);
    var x := SkipWs(w);
    if x != [] && x[0] == 0x2C then ValidMembers(x[1..], depth, numeric)
    else if x != [] && x[0] == 0x7D then Some(x[1..])
    else None
  }

  predicate IsValid(s: bytes, numeric: Numeric) {
    var r := ValidValue(SkipWs(s), 0, numeric);
    r.Some? && SkipWs(r.value) == []
  }

  // ----------------------------------------------- what is parsed is valid, in lockstep

  lemma {:induction false} PlainRun(s: bytes, n: nat)
    requires n <= |s| && forall i | 0 <= i < n :: s[i] != 0x22 && s[i] != 0x5C
    ensures ValidBody(s) == ValidBody(s[n..])
  {
    if n > 0 {
      PlainRun(s[1..], n - 1);
      assert s[1..][n - 1..] == s[n..];
    } else {
      assert s[0..] == s;
    }
  }

  /** The digits of a code point are plain bytes for the validator. */
  lemma {:induction false} EscapeSkips(s: bytes)
    requires Escape(s).Some?
    ensures s != [] && ValidBody(s[1..]) == ValidBody(Escape(s).value.1)
  {
    if s[0] == 0x75 {
      var hex := s[1..5];
      assert forall i | 0 <= i < 4 :: hex[i] != 0x22 && hex[i] != 0x5C by {
        forall i | 0 <= i < 4 ensures hex[i] != 0x22 && hex[i] != 0x5C {
          if hex[0] == 0x2B {
            assert i > 0 ==> hex[i] == hex[1..][i - 1] && hex[i] in hex[1..];
          } else {
            assert hex[i] in hex;
          }
        }
      }
      forall i | 0 <= i < 4 ensures s[1..][i] == hex[i] {}
      PlainRun(s[1..], 4);
      assert s[1..][4..] == s[5..];
    }
  }

  lemma {:induction false} BodyInStep(s: bytes)
    requires StringBody(s).Some?
    ensures ValidBody(s) == Some(StringBody(s).value.1)
    decreases |s|
  {
    if s[0] == 0x22 {
    } else if s[0] == 0x5C {
      EscapeSkips(s[1..]);
      BodyInStep(Escape(s[1..]).value.1);
      assert s[1..][1..] == s[2..];
    } else {
      BodyInStep(s[1..]);
    }
  }

  lemma {:induction false} ItemsInStep(u: bytes, depth: nat, numeric: Numeric)
    requires Items(u, depth, numeric).Some?
    ensures ValidItems(u, depth, numeric) == Some(Items(u, depth, numeric).value.1)
    decreases |u|, 2
  {
    ValueInStep(u, depth + 1, numeric);
    var x := SkipWs(Value(u, depth + 1, numeric).value.1);
    if x[0] == 0x2C {
      ItemsInStep(x[1..], depth, numeric);
    }
  }

  lemma {:induction false} MembersInStep(u: bytes, depth: nat, numeric: Numeric)
    requires Members(u, depth, numeric).Some?
    ensures ValidMembers(u, depth, numeric) == Some(Members(u, depth, numeric).value.1)
    decreases |u|, 2
  {
    var t := SkipWs(u);
    BodyInStep(t[1..]);
    var c := SkipWs(String(t).value.1);
    ValueInStep(c[1..], depth + 1, numeric);
    var x := SkipWs(Entry(u, depth, numeric).value.1);
    if x[0] == 0x2C {
      MembersInStep(x[1..], depth, numeric);
    }
  }

  lemma {:induction false} ArrayInStep(t: bytes, depth: nat, numeric: Numeric)
    requires t != [] && Array(t, depth, numeric).Some?
    ensures ValidArray(t, depth, numeric) == Some(Array(t, depth, numeric).value.1)
    decreases |t|, 0
  {
    var u := SkipWs(t[1..]);
    if !(u != [] && u[0] == 0x5D) { ItemsInStep(u, depth, numeric); }
  }

  lemma {:induction false} ObjectInStep(t: bytes, depth: nat, numeric: Numeric)
    requires t != [] && Object(t, depth, numeric).Some?
    ensures ValidObject(t, depth, numeric) == Some(Object(t, depth, numeric).value.1)
    decreases |t|, 0
  {
    var u := SkipWs(t[1..]);
    if !(u != [] && u[0] == 0x7D) { MembersInStep(u, depth, numeric); }
  }

  /** Wherever the parser reads a value, the validator takes it and stops at the same place. */
  lemma {:induction false} ValueInStep(s: bytes, depth: nat, numeric: Numeric)
    requires Value(s, depth, numeric).Some?
    ensures ValidValue(s, depth, numeric) == Some(Value(s, depth, numeric).value.1)
    decreases |s|, 1
  {
    var t := SkipWs(s);
    assert Value(s, depth, numeric) == ValueHere(t, depth, numeric);
    if t[0] == 0x7B {
      ObjectInStep(t, depth, numeric);
    } else if t[0] == 0x5B {
      ArrayInStep(t, depth, numeric);
    } else if t[0] == 0x22 {
      BodyInStep(t[1..]);
    }
  }

  /** Every text the parser accepts, the validator accepts. */
  lemma {:induction false} ParsedIsValid(s: bytes, numeric: Numeric)
    requires Parse(s, numeric).Some?
    ensures IsValid(s, numeric)
  {
    ValueInStep(SkipWs(s), 0, numeric);
  }
}
