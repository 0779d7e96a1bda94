/** UTF-8 as section 3 of RFC 3629 defines it: one encoding per character, and a decoder that accepts no other. */
module Utf8 {
  import opened Prelude

  type byte = x: int | 0 <= x < 256

  function EncodeChar(c: char): (r: seq<byte>)
    ensures 1 <= |r| <= 4
  {
    var n := c as int;
    if n < 0x80 then [n]
    else if n < 0x800 then [0xC0 + n / 64, 0x80 + n % 64]
    else if n < 0x10000 then [0xE0 + n / 4096, 0x80 + n / 64 % 64, 0x80 + n % 64]
    else [0xF0 + n / 262144, 0x80 + n / 4096 % 64, 0x80 + n / 64 % 64, 0x80 + n % 64]
  }

  function Encode(s: string): seq<byte> {
    if s == [] then [] else EncodeChar(s[0]) + Encode(s[1..])
  }

  /** The byte patterns of section 3 of RFC 3629: how many bytes, which lead, and the bits of the character across them. */
  lemma Layout(c: char)
    ensures var n, r := c as int, EncodeChar(c);
            if n <= 0x7F then r == [n]
            else
              && |r| == (if n <= 0x7FF then 2 else if n <= 0xFFFF then 3 else 4)
              && (forall i :: 1 <= i < |r| ==> 0x80 <= r[i] <= 0xBF)
              && (|r| == 2 ==> 0xC0 <= r[0] <= 0xDF && n == (r[0] as int - 0xC0) * 64 + (r[1] as int - 0x80))
              && (|r| == 3 ==> 0xE0 <= r[0] <= 0xEF && n == (r[0] as int - 0xE0) * 4096 + (r[1] as int - 0x80) * 64 + (r[2] as int - 0x80))
              && (|r| == 4 ==> 0xF0 <= r[0] <= 0xF4
                               && n == (r[0] as int - 0xF0) * 262144 + (r[1] as int - 0x80) * 4096 + (r[2] as int - 0x80) * 64 + (r[3] as int - 0x80))
  {
    var n := c as int;
    if 0x800 <= n < 0x10000 { Places3(n); }
    if 0x10000 <= n { Places4(n); }
  }

  predicate Continues(b: seq<byte>, i: nat) {
    i < |b| && 0x80 <= b[i] < 0xC0
  }

  /** The six bits a continuation byte carries. */
  function Tail(b: seq<byte>, i: nat): (r: int)
    requires Continues(b, i)
    ensures 0 <= r < 64
  {
    b[i] as int - 0x80
  }

  predicate Scalar(n: int) {
    0 <= n < 0xD800 || 0xE000 <= n < 0x110000
  }

  /** The first character and its length; none for a stray, truncated, overlong or surrogate form. */
  function DecodeFirst(b: seq<byte>): (r: Option<(char, nat)>)
    requires b != []
    ensures r.Some? ==> 1 <= r.value.1 <= |b| && r.value.1 <= 4
  {
    var lead: int := b[0];
    if lead < 0x80 then Some((lead as char, 1))
    else if 0xC0 <= lead < 0xE0 && Continues(b, 1) then
      var n: int := (lead - 0xC0) * 64 + Tail(b, 1);
      if n < 0x80 then None else Some((n as char, 2))
    else if 0xE0 <= lead < 0xF0 && Continues(b, 1) && Continues(b, 2) then
      var n: int := (lead - 0xE0) * 4096 + Tail(b, 1) * 64 + Tail(b, 2);
      if n < 0x800 || !Scalar(n) then None else Some((n as char, 3))
    else if 0xF0 <= lead < 0xF8 && Continues(b, 1) && Continues(b, 2) && Continues(b, 3) then
      var n: int := (lead - 0xF0) * 262144 + Tail(b, 1) * 4096 + Tail(b, 2) * 64 + Tail(b, 3);
      if n < 0x10000 || !Scalar(n) then None else Some((n as char, 4))
    else None
  }

  function Decode(b: seq<byte>): Option<string> {
    if b == [] then Some([])
    else
      match DecodeFirst(b)
      case None => None
      case Some((c, n)) =>
        var rest := Decode(b[n..]);
        if rest.Some? then Some([c] + rest.value) else None
  }

  /** A number put together from its places in base 64. */
  lemma Places3(n: nat)
    ensures n == n / 4096 * 4096 + n / 64 % 64 * 64 + n % 64
  {
    var q := n / 64;
    assert n == q * 64 + n % 64 && q == q / 64 * 64 + q % 64;
    QuotientOfQuotient(n, 64);
  }

  lemma Places4(n: nat)
    ensures n == n / 262144 * 262144 + n / 4096 % 64 * 4096 + n / 64 % 64 * 64 + n % 64
  {
    var q := n / 4096;
    Places3(n);
    assert q == q / 64 * 64 + q % 64;
    QuotientOfQuotient(n, 4096);
  }

  lemma QuotientOfQuotient(n: nat, d: nat)
    requires d == 64 || d == 4096
    ensures n / d / 64 == n / (d * 64)
  {
    var q, r, t := n / d, n % d, n / d / 64;
    assert q == t * 64 + q % 64 && n == q * d + r;
    assert n == t * (d * 64) + (q % 64 * d + r) && 0 <= q % 64 * d + r < d * 64;
  }

  lemma FirstOfThree(x: nat, y: nat, z: nat, rest: seq<byte>)
    requires x < 16 && y < 64 && z < 64
    ensures var n := x * 4096 + y * 64 + z;
            0x800 <= n && Scalar(n) ==> DecodeFirst([0xE0 + x, 0x80 + y, 0x80 + z] + rest) == Some((n as char, 3))
  {
    var b := [0xE0 + x, 0x80 + y, 0x80 + z] + rest;
    assert b[0] == 0xE0 + x && b[1] == 0x80 + y && b[2] == 0x80 + z;
  }

  lemma FirstOfFour(w: nat, x: nat, y: nat, z: nat, rest: seq<byte>)
    requires w < 8 && x < 64 && y < 64 && z < 64
    ensures var n := w * 262144 + x * 4096 + y * 64 + z;
            0x10000 <= n && Scalar(n) ==> DecodeFirst([0xF0 + w, 0x80 + x, 0x80 + y, 0x80 + z] + rest) == Some((n as char, 4))
  {
    var b := [0xF0 + w, 0x80 + x, 0x80 + y, 0x80 + z] + rest;
    assert b[0] == 0xF0 + w && b[1] == 0x80 + x && b[2] == 0x80 + y && b[3] == 0x80 + z;
  }

  lemma FirstOfEncoded(c: char, rest: seq<byte>)
    ensures DecodeFirst(EncodeChar(c) + rest) == Some((c, |EncodeChar(c)|))
  {
    var n := c as int;
    if 0x800 <= n < 0x10000 {
      Places3(n);
      FirstOfThree(n / 4096, n / 64 % 64, n % 64, rest);
    } else if 0x10000 <= n {
      Places4(n);
      FirstOfFour(n / 262144, n / 4096 % 64, n / 64 % 64, n % 64, rest);
    }
  }

  /** Decoding undoes encoding, for every string of Unicode scalar values. */
  lemma {:induction false} DecodeEncode(s: string)
    ensures Decode(Encode(s)) == Some(s)
  {
    if s != [] {
      var first, rest := EncodeChar(s[0]), Encode(s[1..]);
      FirstOfEncoded(s[0], rest);
      assert (first + rest)[|first|..] == rest;
      DecodeEncode(s[1..]);
      assert s == [s[0]] + s[1..];
    }
  }

  lemma EncodedFirst(b: seq<byte>)
    requires b != [] && DecodeFirst(b).Some?
    ensures EncodeChar(DecodeFirst(b).value.0) == b[..DecodeFirst(b).value.1]
  {
    var lead: int, c := b[0], DecodeFirst(b).value.0;
    if lead < 0x80 {
      assert EncodeChar(c) == [b[0]] == b[..1];
    } else if lead < 0xE0 {
      Digits2(lead - 0xC0, Tail(b, 1));
      assert EncodeChar(c) == [b[0], b[1]] == b[..2];
    } else if lead < 0xF0 {
      Digits3(lead - 0xE0, Tail(b, 1), Tail(b, 2));
      assert EncodeChar(c) == [b[0], b[1], b[2]] == b[..3];
    } else {
      EncodedFour(b);
    }
  }

  lemma EncodedFour(b: seq<byte>)
    requires b != [] && b[0] >= 0xF0 && DecodeFirst(b).Some?
    ensures DecodeFirst(b).value.1 == 4 && EncodeChar(DecodeFirst(b).value.0) == b[..4]
  {
    Digits4(b[0] - 0xF0, Tail(b, 1), Tail(b, 2), Tail(b, 3));
    assert EncodeChar(DecodeFirst(b).value.0) == [b[0], b[1], b[2], b[3]] == b[..4];
  }

  lemma Digits2(x: nat, y: nat)
    requires y < 64
    ensures (x * 64 + y) / 64 == x && (x * 64 + y) % 64 == y
  {
  }

  lemma Digits3(x: nat, y: nat, z: nat)
    requires y < 64 && z < 64
    ensures var n := x * 4096 + y * 64 + z; n / 4096 == x && n / 64 % 64 == y && n % 64 == z
  {
    var n := x * 4096 + y * 64 + z;
    assert n / 64 == x * 64 + y;
  }

  lemma Digits4(w: nat, x: nat, y: nat, z: nat)
    requires x < 64 && y < 64 && z < 64
    ensures var n := w * 262144 + x * 4096 + y * 64 + z;
            n / 262144 == w && n / 4096 % 64 == x && n / 64 % 64 == y && n % 64 == z
  {
    var n := w * 262144 + x * 4096 + y * 64 + z;
    assert n / 64 == w * 4096 + x * 64 + y;
    assert n / 4096 == w * 64 + x;
  }

  /** And the decoder accepts nothing but encodings, so a byte string has at most one reading. */
  lemma {:induction false} EncodeDecode(b: seq<byte>)
    ensures Decode(b).Some? ==> Encode(Decode(b).value) == b
    decreases |b|
  {
    if b != [] && Decode(b).Some? {
      EncodedFirst(b);
      var n := DecodeFirst(b).value.1;
      EncodeDecode(b[n..]);
      JoinDecoded(b, DecodeFirst(b).value.0, n, Decode(b[n..]).value);
    }
  }

  lemma JoinDecoded(b: seq<byte>, c: char, n: nat, rest: string)
    requires n <= |b| && EncodeChar(c) == b[..n] && Encode(rest) == b[n..]
    ensures Encode([c] + rest) == b
  {
  }
}
