/** Which valid JSON texts the parser refuses (crates/elyra-core/src/json.rs, crates/elyra-core/src/value.rs). */
module JsonEscapes {
  import opened Wrappers
  import opened Bytes
  import opened Json

  /**
   * From outside a string on, every escape is one the parser knows: a quote opens a string, and nothing else is
   * looked at. A single pass over the bytes, with no grammar in it.
   */
  predicate Good(s: bytes)
    decreases |s|
  {
    if s == [] then true else if s[0] == 0x22 then GoodBody(s[1..]) else Good(s[1..])
  }

  /** From inside a string on. */
  predicate GoodBody(s: bytes)
    decreases |s|
  {
    if s == [] then true
    else if s[0] == 0x22 then Good(s[1..])
    else if s[0] == 0x5C then Escape(s[1..]).Some? && GoodBody(Escape(s[1..]).value.1)
    else GoodBody(s[1..])
  }

  lemma {:induction false} GoodSkips(s: bytes, n: nat)
    requires n <= |s| && forall i | 0 <= i < n :: s[i] != 0x22
    ensures Good(s) <==> Good(s[n..])
  {
    if n == 0 {
      assert s[0..] == s;
    } else {
      GoodSkips(s[1..], n - 1);
      assert s[1..][n - 1..] == s[n..];
    }
  }

  lemma {:induction false} GoodWs(s: bytes)
    ensures Good(s) <==> Good(SkipWs(s))
  {
    if s != [] && IsWs(s[0]) {
      GoodWs(s[1..]);
    }
  }

  lemma {:induction false} GoodNum(s: bytes)
    ensures Good(s) <==> Good(s[NumSpan(s)..])
  {
    if s != [] && IsNumChar(s[0]) {
      GoodNum(s[1..]);
      assert s[1..][NumSpan(s[1..])..] == s[NumSpan(s)..];
    } else {
      assert s[0..] == s;
    }
  }

  /** The validator's way through a string, and the parser's. */
  lemma {:induction false} BodyAgrees(s: bytes)
    requires ValidBody(s).Some?
    ensures GoodBody(s) <==> StringBody(s).Some? && Good(ValidBody(s).value)
    decreases |s|
  {
    if s[0] == 0x22 {
    } else if s[0] == 0x5C {
      if Escape(s[1..]).Some? {
        EscapeSkips(s[1..]);
        assert s[1..][1..] == s[2..];
        BodyAgrees(Escape(s[1..]).value.1);
      }
    } else {
      BodyAgrees(s[1..]);
    }
  }

  lemma {:induction false} StringAgrees(t: bytes)
    requires ValidString(t).Some?
    ensures Good(t) <==> String(t).Some? && Good(ValidString(t).value)
    ensures String(t).Some? ==> String(t).value.1 == ValidString(t).value
  {
    BodyAgrees(t[1..]);
    if String(t).Some? {
      BodyInStep(t[1..]);
    }
  }

  lemma {:induction false} WordAgrees(t: bytes, word: bytes)
    requires word != [] && word <= t && forall i | 0 <= i < |word| :: word[i] != 0x22
    ensures Good(t) <==> Good(t[|word|..])
  {
    forall i | 0 <= i < |word| ensures t[i] != 0x22 {
      assert t[i] == word[i];
    }
    GoodSkips(t, |word|);
  }

  lemma {:induction false} ItemsAgree(u: bytes, depth: nat, numeric: Numeric)
    requires ValidItems(u, depth, numeric).Some?
    ensures Good(u) <==> Items(u, depth, numeric).Some? && Good(ValidItems(u, depth, numeric).value)
    decreases |u|, 2
  {
    ValueAgrees(u, depth + 1, numeric);
    var w := ValidValue(u, depth + 1, numeric).value;
    var x := SkipWs(w);
    GoodWs(w);
    if Value(u, depth + 1, numeric).Some? {
      ValueInStep(u, depth + 1, numeric);
    }
    if x[0] == 0x2C {
      ItemsAgree(x[1..], depth, numeric);
    }
  }

  lemma {:induction false} EntryAgrees(u: bytes, depth: nat, numeric: Numeric)
    requires ValidEntry(u, depth, numeric).Some?
    ensures Good(u) <==> Entry(u, depth, numeric).Some? && Good(ValidEntry(u, depth, numeric).value)
    ensures Entry(u, depth, numeric).Some? ==> Entry(u, depth, numeric).value.1 == ValidEntry(u, depth, numeric).value
    decreases |u|, 2
  {
    var t := SkipWs(u);
    GoodWs(u);
    StringAgrees(t);
    var k := ValidString(t).value;
    GoodWs(k);
    var c := SkipWs(k);
    ValueAgrees(c[1..], depth + 1, numeric);
    if Value(c[1..], depth + 1, numeric).Some? {
      ValueInStep(c[1..], depth + 1, numeric);
    }
  }

  lemma {:induction false} MembersAgree(u: bytes, depth: nat, numeric: Numeric)
    requires ValidMembers(u, depth, numeric).Some?
    ensures Good(u) <==> Members(u, depth, numeric).Some? && Good(ValidMembers(u, depth, numeric).value)
    decreases |u|, 3
  {
    EntryAgrees(u, depth, numeric);
    var w := ValidEntry(u, depth, numeric).value;
    GoodWs(w);
    var x := SkipWs(w);
    if x[0] == 0x2C {
      MembersAgree(x[1..], depth, numeric);
    }
  }

  lemma {:induction false} ArrayAgrees(t: bytes, depth: nat, numeric: Numeric)
    requires t != [] && t[0] == 0x5B && ValidArray(t, depth, numeric).Some?
    ensures Good(t) <==> Array(t, depth, numeric).Some? && Good(ValidArray(t, depth, numeric).value)
    decreases |t|, 0
  {
    GoodWs(t[1..]);
    var u := SkipWs(t[1..]);
    if !(u != [] && u[0] == 0x5D) { ItemsAgree(u, depth, numeric); }
  }

  lemma {:induction false} ObjectAgrees(t: bytes, depth: nat, numeric: Numeric)
    requires t != [] && t[0] == 0x7B && ValidObject(t, depth, numeric).Some?
    ensures Good(t) <==> Object(t, depth, numeric).Some? && Good(ValidObject(t, depth, numeric).value)
    decreases |t|, 0
  {
    GoodWs(t[1..]);
    var u := SkipWs(t[1..]);
    if !(u != [] && u[0] == 0x7D) { MembersAgree(u, depth, numeric); }
  }

  /** Where the validator takes a value, the parser reads it exactly when its strings are well escaped. */
  lemma {:induction false} ValueAgrees(s: bytes, depth: nat, numeric: Numeric)
    requires ValidValue(s, depth, numeric).Some?
    ensures Good(s) <==> Value(s, depth, numeric).Some? && Good(ValidValue(s, depth, numeric).value)
    decreases |s|, 1
  {
    var t := SkipWs(s);
    GoodWs(s);
    assert Value(s, depth, numeric) == ValueHere(t, depth, numeric)
           && ValidValue(s, depth, numeric) == ValidHere(t, depth, numeric);
    if t[0] == 0x7B {
      ObjectAgrees(t, depth, numeric);
    } else if t[0] == 0x5B {
      ArrayAgrees(t, depth, numeric);
    } else if t[0] == 0x22 {
      StringAgrees(t);
    } else if t[0] == 0x74 {
      WordAgrees(t, TRUE);
    } else if t[0] == 0x66 {
      WordAgrees(t, FALSE);
    } else if t[0] == 0x6E {
      WordAgrees(t, NULL);
    } else {
      GoodNum(t);
    }
  }

  /** The parser accepts exactly the valid texts whose every escape is one it knows. */
  lemma {:induction false} ParsesIff(s: bytes, numeric: Numeric)
    ensures Parse(s, numeric).Some? <==> IsValid(s, numeric) && Good(s)
  {
    if Parse(s, numeric).Some? {
      ParsedIsValid(s, numeric);
    }
    if IsValid(s, numeric) {
      var t := SkipWs(s);
      GoodWs(s);
      ValueAgrees(t, 0, numeric);
      var rest := ValidValue(t, 0, numeric).value;
      GoodWs(rest);
      if Value(t, 0, numeric).Some? {
        ValueInStep(t, 0, numeric);
      }
    }
  }

  /** Half a surrogate pair is no escape the parser knows. */
  lemma {:induction false} SurrogateRefused(rest: bytes)
    ensures Escape([0x75, 0x64, 0x38, 0x30, 0x30] + rest).None?
  {
    var s := [0x75, 0x64, 0x38, 0x30, 0x30] + rest;
    var hex := s[1..5];
    assert hex == [0x64, 0x38, 0x30, 0x30];
    assert hex[..3] == [0x64, 0x38, 0x30] && hex[..3][..2] == [0x64, 0x38] && hex[..3][..2][..1] == [0x64];
    assert HexNumber([0x64]) == Some(13) && HexNumber([0x64, 0x38]) == Some(216);
    assert HexNumber(hex[..3]) == Some(3456) && Hex4(hex) == Some(0xD800);
  }

  /** A valid text the parser refuses: the string of one unknown escape. */
  lemma {:induction false} UnknownEscape(numeric: Numeric)
    ensures
      var s: bytes := [0x22, 0x5C, 0x78, 0x22];
      IsValid(s, numeric) && Parse(s, numeric).None?
  {
    var s: bytes := [0x22, 0x5C, 0x78, 0x22];
    var body := s[1..];
    assert body == [0x5C, 0x78, 0x22] && body[2..] == [0x22];
    assert ValidBody(body) == Some([]) && ValidValue(s, 0, numeric) == Some([]);
    assert Escape(body[1..]).None?;
    ParsesIff(s, numeric);
  }

  // ------------------------------------------------------------- what escapes stand for

  predicate Tail(b: byte) {
    0x80 <= b < 0xC0
  }

  /** The code point a UTF-8 sequence of up to three bytes holds (section 3 of RFC 3629). */
  function CodePoint(s: bytes): Option<nat> {
    if |s| == 1 && s[0] < 0x80 then Some(s[0])
    else if |s| == 2 && 0xC2 <= s[0] < 0xE0 && Tail(s[1]) then
      var b0: int, b1: int := s[0], s[1];
      Some((b0 - 0xC0) * 64 + (b1 - 0x80))
    else if |s| == 3 && 0xE0 <= s[0] < 0xF0 && Tail(s[1]) && Tail(s[2]) then
      var b0: int, b1: int, b2: int := s[0], s[1], s[2];
      Some((b0 - 0xE0) * 4096 + (b1 - 0x80) * 64 + (b2 - 0x80))
    else None
  }

  predicate Surrogate(cp: nat) {
    0xD800 <= cp < 0xE000
  }

  /** Every code point of up to 16 bits that is no half of a surrogate pair has its UTF-8 form, and no other has one. */
  lemma {:induction false} Utf8Holds(cp: nat)
    ensures Utf8(cp).Some? <==> cp < 0x1_0000 && !Surrogate(cp)
    ensures Utf8(cp).Some? ==> CodePoint(Utf8(cp).value) == Some(cp)
  {
    if 0x800 <= cp < 0x1_0000 {
      assert cp / 0x40 == cp / 0x1000 * 0x40 + cp / 0x40 % 0x40;
    }
  }

  // `0123456789abcdef` and `0123456789ABCDEF` in ASCII.
  const LOWER: bytes := [48, 49, 50, 51, 52, 53, 54, 55, 56, 57, 97, 98, 99, 100, 101, 102]
  const UPPER: bytes := [48, 49, 50, 51, 52, 53, 54, 55, 56, 57, 65, 66, 67, 68, 69, 70]

  predicate Spells(c: byte, d: nat) {
    d < 16 && (c == LOWER[d] || c == UPPER[d])
  }

  lemma {:induction false} DigitRead(c: byte, d: nat)
    ensures HexDigit(c) == Some(d) <==> Spells(c, d)
  {
  }

  lemma {:induction false} NextDigit(s: bytes, n: nat, d: nat)
    requires s != [] && HexNumber(s[..|s| - 1]) == Some(n) && Spells(s[|s| - 1], d)
    ensures HexNumber(s) == Some(n * 16 + d)
  {
    DigitRead(s[|s| - 1], d);
  }

  lemma {:induction false} DigitsRead(s: bytes, a: nat, b: nat, c: nat)
    requires |s| == 3 && Spells(s[0], a) && Spells(s[1], b) && Spells(s[2], c)
    ensures HexNumber(s) == Some((a * 16 + b) * 16 + c)
  {
    assert s[..1][..0] == [] && s[..2][..1] == s[..1];
    NextDigit(s[..1], 0, a);
    NextDigit(s[..2], a, b);
    NextDigit(s, a * 16 + b, c);
  }

  /** What the escape gives is the UTF-8 form of the code point, if it is not half of a surrogate pair. */
  ghost predicate StandsFor(r: Option<(bytes, bytes)>, cp: nat, rest: bytes) {
    if Surrogate(cp) then r == None else r.Some? && CodePoint(r.value.0) == Some(cp) && r.value.1 == rest
  }

  lemma {:induction false} NumberEscape(s: bytes, rest: bytes, n: nat)
    requires |s| == 4 && Hex4(s) == Some(n) && n < 0x1_0000
    ensures StandsFor(Escape([0x75] + s + rest), n, rest)
  {
    var t := [0x75] + s + rest;
    assert t[1..5] == s && t[5..] == rest;
    Utf8Holds(n);
  }

  /** A `u` and four hexadecimal digits stand for the character with that number. */
  lemma {:induction false} UnicodeEscape(s: bytes, rest: bytes, a: nat, b: nat, c: nat, d: nat)
    requires |s| == 4 && Spells(s[0], a) && Spells(s[1], b) && Spells(s[2], c) && Spells(s[3], d)
    ensures StandsFor(Escape([0x75] + s + rest), ((a * 16 + b) * 16 + c) * 16 + d, rest)
  {
    DigitsRead(s[..3], a, b, c);
    NextDigit(s, (a * 16 + b) * 16 + c, d);
    NumberEscape(s, rest, ((a * 16 + b) * 16 + c) * 16 + d);
  }

  /** A plus sign in the place of the first digit counts for nothing. */
  lemma {:induction false} PlusEscape(s: bytes, rest: bytes, b: nat, c: nat, d: nat)
    requires |s| == 4 && s[0] == 0x2B && Spells(s[1], b) && Spells(s[2], c) && Spells(s[3], d)
    ensures StandsFor(Escape([0x75] + s + rest), (b * 16 + c) * 16 + d, rest)
  {
    DigitsRead(s[1..], b, c, d);
    NumberEscape(s, rest, (b * 16 + c) * 16 + d);
  }

  /** The letters that may follow a backslash and the bytes they stand for. */
  const LETTERS: map<byte, byte> := map[
                                      0x22 := 0x22, 0x5C := 0x5C, 0x2F := 0x2F,
                                      0x62 := 0x08, 0x66 := 0x0C, 0x6E := 0x0A, 0x72 := 0x0D, 0x74 := 0x09]

  lemma {:induction false} LetterEscapes(c: byte, rest: bytes)
    ensures c in LETTERS ==> Escape([c] + rest) == Some(([LETTERS[c]], rest))
    ensures c !in LETTERS && c != 0x75 ==> Escape([c] + rest) == None
  {
    assert ([c] + rest)[1..] == rest;
  }
}
