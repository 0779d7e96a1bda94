/**
 base64url (section 5 of RFC 4648) with padding, and the lenient decoder the standard library pairs it with:
 both alphabets are read, characters outside them are skipped, and reading stops at a completed padding.
 */
module Base64Url {
  import opened Prelude
  import opened Utf8

  type sextet = x: int | 0 <= x < 64

  function Digit(v: sextet): char {
    if v < 26 then 'A' + v as char
    else if v < 52 then 'a' + (v - 26) as char
    else if v < 62 then '0' + (v - 52) as char
    else if v == 62 then '-'
    else '_'
  }

  /** `-` and `_`, and what they are translated to, `+` and `/`. */
  function Value(c: char): Option<sextet> {
    if 'A' <= c <= 'Z' then Some(c as int - 'A' as int)
    else if 'a' <= c <= 'z' then Some(c as int - 'a' as int + 26)
    else if '0' <= c <= '9' then Some(c as int - '0' as int + 52)
    else if c == '-' || c == '+' then Some(62)
    else if c == '_' || c == '/' then Some(63)
    else None
  }

  lemma ValueOfDigit(v: sextet)
    ensures Value(Digit(v)) == Some(v) && Digit(v) != '='
  {
  }

  /** The alphabet of section 5 of RFC 4648, and the two characters of the standard alphabet that are read as well. */
  lemma AlphabetInOrder(v: sextet)
    ensures v < 26 ==> Digit(v) as int == 65 + v
    ensures 26 <= v < 52 ==> Digit(v) as int == 97 + (v - 26)
    ensures 52 <= v < 62 ==> Digit(v) as int == 48 + (v - 52)
    ensures Digit(62) == '-' && Digit(63) == '_'
    ensures Value('+') == Some(62) && Value('/') == Some(63) && Value('=') == None
  {
  }

  /** What is read at all: the digits, each as its own value, and those two characters. */
  lemma ReadableExactly(c: char)
    ensures Value(c).Some? <==> (exists v: sextet :: c == Digit(v)) || c == '+' || c == '/'
  {
    if Value(c).Some? && c != '+' && c != '/' { assert c == Digit(Value(c).value); }
    if v: sextet :| c == Digit(v) { ValueOfDigit(v); }
  }

  function Encode(b: seq<byte>): string {
    if b == [] then []
    else if |b| == 1 then [Digit(b[0] / 4), Digit(b[0] % 4 * 16), '=', '=']
    else if |b| == 2 then [Digit(b[0] / 4), Digit(b[0] % 4 * 16 + b[1] / 16), Digit(b[1] % 16 * 4), '=']
    else
      [Digit(b[0] / 4), Digit(b[0] % 4 * 16 + b[1] / 16), Digit(b[1] % 16 * 4 + b[2] / 64), Digit(b[2] % 64)]
      + Encode(b[3..])
  }

  ghost predicate Spells(s: string, p: sextet, q: sextet, r: sextet, t: sextet) {
    s == [Digit(p), Digit(q), Digit(r), Digit(t)]
  }

  /** Three bytes are one number of 24 bits, spelled in four digits of six bits. */
  lemma ThreeAreOneNumber(x: byte, y: byte, z: byte)
    ensures exists p: sextet, q: sextet, r: sextet, t: sextet ::
              Spells(Encode([x, y, z]), p, q, r, t) && ((p * 64 + q) * 64 + r) * 64 + t == (x * 256 + y) * 256 + z
  {
    SplitTwo(x, y);
    SplitThree(y, z);
    var p: sextet, q: sextet, r: sextet, t: sextet := x / 4, x % 4 * 16 + y / 16, y % 16 * 4 + z / 64, z % 64;
    assert [x, y, z][3..] == [];
    assert Spells(Encode([x, y, z]), p, q, r, t);
    Weights(x, y, z);
  }

  lemma Weights(x: byte, y: byte, z: byte)
    ensures (((x / 4) * 64 + (x % 4 * 16 + y / 16)) * 64 + (y % 16 * 4 + z / 64)) * 64 + z % 64 == (x * 256 + y) * 256 + z
  {
  }

  /** One or two bytes are spelled as if zero bits followed, and padding stands for the digits that nothing of them is in. */
  lemma PaddedGroups(x: byte, y: byte)
    ensures var full := Encode([x, y, 0]);
            |full| == 4 && full[3] == 'A' && Encode([x, y]) == full[..3] + "="
    ensures var full := Encode([x, 0, 0]);
            |full| == 4 && full[2..] == "AA" && Encode([x]) == full[..2] + "=="
  {
    assert [x, y, 0][3..] == [] && [x, 0, 0][3..] == [];
  }

  /** Test vectors of section 10 of RFC 4648: f, fo and foo. */
  lemma Vectors()
    ensures Encode([102]) == "Zg==" && Encode([102, 111]) == "Zm8=" && Encode([102, 111, 111]) == "Zm9v"
  {
    assert [102, 111, 111][3..] == [];
    assert 'A' as int == 65 && Digit(25) == 'Z' && Digit(38) == 'm' && Digit(61) == '9' && Digit(47) == 'v' && Digit(32) == 'g' && Digit(60) == '8';
  }

  lemma GroupComesFirst(b: seq<byte>)
    requires |b| >= 3
    ensures |Encode(b[..3])| == 4 && Encode(b) == Encode(b[..3]) + Encode(b[3..])
  {
    var group := b[..3];
    assert group[0] == b[0] && group[1] == b[1] && group[2] == b[2] && group[3..] == [];
    assert Encode(group[3..]) == [];
  }

  lemma ShortLength(b: seq<byte>)
    requires |b| < 3
    ensures |Encode(b)| == if |b| == 0 then 0 else 4
  {
  }

  lemma OneGroupMore(n: nat)
    requires n >= 3
    ensures (n + 2) / 3 * 4 == 4 + (n - 3 + 2) / 3 * 4
  {
  }

  /** Groups are spelled one after the other, four characters for every three bytes begun. */
  lemma {:induction false} EncodesByGroup(b: seq<byte>)
    ensures |Encode(b)| == (|b| + 2) / 3 * 4
    decreases |b|
  {
    if |b| >= 3 {
      var rest := b[3..];
      EncodesByGroup(rest);
      GroupComesFirst(b);
      OneGroupMore(|b|);
    } else {
      ShortLength(b);
    }
  }

  /** Position in the current group of four, the bits left over from the last character, the pads seen. */
  datatype Reader = Reader(quad: nat, left: nat, pads: nat)

  ghost predicate Sane(r: Reader) {
    && r.quad < 4
    && (r.quad == 1 ==> r.left < 64) && (r.quad == 2 ==> r.left < 16) && (r.quad == 3 ==> r.left < 4)
  }

  /** The reader after one more digit. */
  function Shift(r: Reader, v: sextet): (after: Reader)
    requires Sane(r)
    ensures Sane(after)
  {
    if r.quad == 0 then Reader(1, v, 0)
    else if r.quad == 1 then Reader(2, v % 16, 0)
    else if r.quad == 2 then Reader(3, v % 4, 0)
    else Reader(0, 0, 0)
  }

  /** The byte that digit completes. */
  function Out(r: Reader, v: sextet): byte
    requires Sane(r) && r.quad > 0
  {
    if r.quad == 1 then r.left * 4 + v / 16 else if r.quad == 2 then r.left * 16 + v / 4 else r.left * 64 + v
  }

  function Read(s: string, r: Reader): Option<seq<byte>>
    requires Sane(r)
  {
    if s == [] then if r.quad == 0 then Some([]) else None
    else if s[0] == '=' then
      if r.quad >= 2 && r.quad + r.pads + 1 >= 4 then Some([])
      else Read(s[1..], if r.quad >= 2 then r.(pads := r.pads + 1) else r)
    else
      match Value(s[0])
      case None => Read(s[1..], r)
      case Some(v) =>
        var rest := Read(s[1..], Shift(r, v));
        if r.quad == 0 then rest else Emit(Out(r, v), rest)
  }

  function Emit(x: byte, rest: Option<seq<byte>>): Option<seq<byte>> {
    if rest.Some? then Some([x] + rest.value) else None
  }

  predicate Ascii(s: string) {
    forall i :: 0 <= i < |s| ==> s[i] as int < 0x80
  }

  /** `urlsafe_b64decode` of a string; none where it raises. */
  function Decode(s: string): Option<seq<byte>> {
    if Ascii(s) then Read(s, Reader(0, 0, 0)) else None
  }

  /** A text of digits alone is complete exactly when it is made of whole groups; other characters are skipped, but for padding. */
  lemma {:induction false} UnpaddedExactly(s: string, r: Reader)
    requires Sane(r) && forall i :: 0 <= i < |s| ==> s[i] != '='
    ensures Read(s, r).Some? <==> (r.quad + Digits(s)) % 4 == 0
  {
    if s != [] {
      var v := Value(s[0]);
      UnpaddedExactly(s[1..], if v.Some? then Shift(r, v.value) else r);
      if v.Some? { ShiftsByOne(r, v.value, Digits(s[1..])); }
    }
  }

  lemma ShiftsByOne(r: Reader, v: sextet, n: nat)
    requires Sane(r)
    ensures (Shift(r, v).quad + n) % 4 == (r.quad + (1 + n)) % 4
  {
  }

  /** The number of characters that have a value. */
  function Digits(s: string): nat {
    if s == [] then 0 else (if Value(s[0]).Some? then 1 else 0) + Digits(s[1..])
  }

  /** What one digit does to the reader. */
  lemma ReadDigit(v: sextet, rest: string, r: Reader)
    requires Sane(r)
    ensures Read([Digit(v)] + rest, r) ==
            if r.quad == 0 then Read(rest, Shift(r, v)) else Emit(Out(r, v), Read(rest, Shift(r, v)))
  {
    ValueOfDigit(v);
    assert ([Digit(v)] + rest)[1..] == rest;
  }

  lemma SplitTwo(x: byte, y: byte)
    ensures var d0, d1 := x / 4, x % 4 * 16 + y / 16; d0 < 64 && d1 < 64 && d0 * 4 + d1 / 16 == x && d1 % 16 == y / 16
  {
  }

  lemma SplitThree(y: byte, z: byte)
    ensures var d2 := y % 16 * 4 + z / 64; d2 < 64 && y / 16 * 16 + d2 / 4 == y && d2 % 4 == z / 64 && z / 64 * 64 + z % 64 == z
  {
  }

  /** Reading one full group of four digits yields its three bytes and goes on behind it. */
  lemma ReadGroup(x: byte, y: byte, z: byte, rest: string)
    ensures var group := [Digit(x / 4), Digit(x % 4 * 16 + y / 16), Digit(y % 16 * 4 + z / 64), Digit(z % 64)];
            Read(group + rest, Reader(0, 0, 0)) == Emit(x, Emit(y, Emit(z, Read(rest, Reader(0, 0, 0)))))
  {
    SplitTwo(x, y);
    SplitThree(y, z);
    var d0, d1, d2, d3 := x / 4, x % 4 * 16 + y / 16, y % 16 * 4 + z / 64, z % 64;
    ReadFour(d0, d1, d2, d3, rest);
  }

  lemma ReadFour(d0: sextet, d1: sextet, d2: sextet, d3: sextet, rest: string)
    ensures Read([Digit(d0), Digit(d1), Digit(d2), Digit(d3)] + rest, Reader(0, 0, 0)) ==
            Emit(d0 * 4 + d1 / 16, Emit(d1 % 16 * 16 + d2 / 4, Emit(d2 % 4 * 64 + d3, Read(rest, Reader(0, 0, 0)))))
  {
    var s3 := [Digit(d3)] + rest;
    var s2 := [Digit(d2)] + s3;
    var s1 := [Digit(d1)] + s2;
    assert [Digit(d0), Digit(d1), Digit(d2), Digit(d3)] + rest == [Digit(d0)] + s1;
    ReadDigit(d0, s1, Reader(0, 0, 0));
    ReadDigit(d1, s2, Reader(1, d0, 0));
    ReadDigit(d2, s3, Reader(2, d1 % 16, 0));
    ReadDigit(d3, rest, Reader(3, d2 % 4, 0));
  }

  lemma ReadTailOne(x: byte)
    ensures Read([Digit(x / 4), Digit(x % 4 * 16), '=', '='], Reader(0, 0, 0)) == Some([x])
  {
    SplitTwo(x, 0);
    var d0, d1 := x / 4, x % 4 * 16;
    assert [Digit(d0), Digit(d1), '=', '='] == [Digit(d0)] + ([Digit(d1)] + ['=', '=']);
    ReadDigit(d0, [Digit(d1)] + ['=', '='], Reader(0, 0, 0));
    ReadDigit(d1, ['=', '='], Reader(1, d0, 0));
    assert ['=', '='][1..] == ['='];
    assert Read(['='], Reader(2, d1 % 16, 1)) == Some([]);
    EmitAll([x], []);
    assert [x] + [] == [x];
  }

  lemma ReadTailTwo(x: byte, y: byte)
    ensures Read([Digit(x / 4), Digit(x % 4 * 16 + y / 16), Digit(y % 16 * 4), '='], Reader(0, 0, 0)) == Some([x, y])
  {
    SplitTwo(x, y);
    SplitThree(y, 0);
    var d0, d1, d2 := x / 4, x % 4 * 16 + y / 16, y % 16 * 4;
    var s2 := [Digit(d2)] + ['='];
    assert [Digit(d0), Digit(d1), Digit(d2), '='] == [Digit(d0)] + ([Digit(d1)] + s2);
    ReadDigit(d0, [Digit(d1)] + s2, Reader(0, 0, 0));
    ReadDigit(d1, s2, Reader(1, d0, 0));
    ReadDigit(d2, ['='], Reader(2, d1 % 16, 0));
    assert Read(['='], Reader(3, d2 % 4, 0)) == Some([]);
    EmitAll([x, y], []);
    assert [x, y] + [] == [x, y];
  }

  /** Emitting bytes one by one puts them in front of what follows. */
  lemma EmitAll(b: seq<byte>, rest: seq<byte>)
    requires 1 <= |b| <= 3
    ensures Some(b + rest) ==
            if |b| == 1 then Emit(b[0], Some(rest))
            else if |b| == 2 then Emit(b[0], Emit(b[1], Some(rest)))
            else Emit(b[0], Emit(b[1], Emit(b[2], Some(rest))))
  {
    assert |b| == 1 ==> b + rest == [b[0]] + rest;
    assert |b| == 2 ==> b + rest == [b[0]] + ([b[1]] + rest);
    assert |b| == 3 ==> b + rest == [b[0]] + ([b[1]] + ([b[2]] + rest));
  }

  /** The characters of an encoding: digits and padding, so ASCII, and neither a dot nor a percent sign. */
  predicate Plain(c: char) {
    'A' <= c <= 'Z' || 'a' <= c <= 'z' || '0' <= c <= '9' || c == '-' || c == '_' || c == '='
  }

  lemma {:induction false} EncodedIsPlain(b: seq<byte>)
    ensures forall i :: 0 <= i < |Encode(b)| ==> Plain(Encode(b)[i])
    decreases |b|
  {
    if |b| >= 3 { EncodedIsPlain(b[3..]); }
  }

  lemma {:induction false} ReadEncoded(b: seq<byte>)
    ensures Read(Encode(b), Reader(0, 0, 0)) == Some(b)
    decreases |b|
  {
    if |b| == 1 {
      ReadTailOne(b[0]);
      assert b == [b[0]];
    } else if |b| == 2 {
      ReadTailTwo(b[0], b[1]);
      assert b == [b[0], b[1]];
    } else if |b| >= 3 {
      ReadEncoded(b[3..]);
      ReadGroup(b[0], b[1], b[2], Encode(b[3..]));
      EmitAll(b[..3], b[3..]);
      assert b == b[..3] + b[3..];
    }
  }

  /** Decoding undoes encoding, for every length and padding. */
  lemma DecodeEncode(b: seq<byte>)
    ensures Decode(Encode(b)) == Some(b)
  {
    EncodedIsPlain(b);
    ReadEncoded(b);
  }
}
