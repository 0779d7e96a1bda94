/** Signed cookies, the percent-encoding a browser may put around them, and the opaque page tokens. */
module Cookie {
  import opened Prelude
  import opened Utf8
  import Base64Url
  import Text

  /** HMAC-SHA256 as any function of key and message (section 2 of RFC 2104 is not modelled). */
  type Hmac = (seq<byte>, seq<byte>) -> seq<byte>

  function Sign(value: string, secret: string, hmac: Hmac): string {
    var bytes := Encode(value);
    Base64Url.Encode(bytes) + "." + Base64Url.Encode(hmac(Encode(secret), bytes))
  }

  function FirstDot(s: string): (i: nat)
    ensures i <= |s| && (i < |s| ==> s[i] == '.') && forall j :: 0 <= j < i ==> s[j] != '.'
  {
    if s == [] || s[0] == '.' then 0 else 1 + FirstDot(s[1..])
  }

  function Verify(signed: string, secret: string, hmac: Hmac): Option<string> {
    var dot := FirstDot(signed);
    if dot == |signed| then None
    else
      match (Base64Url.Decode(signed[..dot]), Base64Url.Decode(signed[dot + 1..]))
      case (Some(bytes), Some(provided)) => if provided == hmac(Encode(secret), bytes) then Decode(bytes) else None
      case (_, _) => None
  }

  /** `Verify` answers `value` exactly for a cookie whose two parts decode to its bytes and to their signature. */
  lemma VerifyExactly(signed: string, secret: string, hmac: Hmac, value: string)
    ensures Verify(signed, secret, hmac) == Some(value) <==>
              var dot := FirstDot(signed);
              && dot < |signed|
              && Base64Url.Decode(signed[..dot]) == Some(Encode(value))
              && Base64Url.Decode(signed[dot + 1..]) == Some(hmac(Encode(secret), Encode(value)))
  {
    DecodeEncode(value);
    var dot := FirstDot(signed);
    if dot < |signed| && Base64Url.Decode(signed[..dot]).Some? {
      EncodeDecode(Base64Url.Decode(signed[..dot]).value);
    }
  }

  lemma {:induction false} FirstDotIs(a: string, b: string)
    requires forall i :: 0 <= i < |a| ==> a[i] != '.'
    ensures FirstDot(a + "." + b) == |a|
  {
    var s := a + "." + b;
    assert s[|a|] == '.';
    assert forall j :: 0 <= j < |a| ==> s[j] == a[j];
  }

  /** A cookie verifies to the value it was signed for, for every text and every secret. */
  lemma SignVerify(value: string, secret: string, hmac: Hmac)
    ensures Verify(Sign(value, secret, hmac), secret, hmac) == Some(value)
  {
    var bytes := Encode(value);
    var a, b := Base64Url.Encode(bytes), Base64Url.Encode(hmac(Encode(secret), bytes));
    Base64Url.EncodedIsPlain(bytes);
    FirstDotIs(a, b);
    var s := a + "." + b;
    assert s[..|a|] == a && s[|a| + 1..] == b;
    Base64Url.DecodeEncode(bytes);
    Base64Url.DecodeEncode(hmac(Encode(secret), bytes));
    DecodeEncode(value);
  }

  // ---- percent-encoding ------------------------------------------------------------

  /** The characters `encodeURIComponent` leaves alone. */
  predicate Unreserved(c: char) {
    'A' <= c <= 'Z' || 'a' <= c <= 'z' || '0' <= c <= '9' || c in "-_.!~*'()"
  }

  function Hex(v: int): char
    requires 0 <= v < 16
  {
    if v < 10 then '0' + v as char else 'A' + (v - 10) as char
  }

  function HexValue(c: char): Option<int> {
    if '0' <= c <= '9' then Some(c as int - '0' as int)
    else if 'A' <= c <= 'F' then Some(c as int - 'A' as int + 10)
    else if 'a' <= c <= 'f' then Some(c as int - 'a' as int + 10)
    else None
  }

  lemma HexValueOfHex(v: int)
    requires 0 <= v < 16
    ensures HexValue(Hex(v)) == Some(v)
  {
  }

  function PercentBytes(b: seq<byte>): string {
    if b == [] then [] else ['%', Hex(b[0] / 16), Hex(b[0] % 16)] + PercentBytes(b[1..])
  }

  /** `encodeURIComponent`. */
  function Quote(s: string): string {
    if s == [] then []
    else (if Unreserved(s[0]) then [s[0]] else PercentBytes(EncodeChar(s[0]))) + Quote(s[1..])
  }

  /** Left alone are letters, digits and nine marks; of anything else every byte becomes a percent sign and two hex digits. */
  lemma QuotesByCharacter(c: char, rest: string)
    ensures Quote([c] + rest) == Quote([c]) + Quote(rest)
    ensures Quote([c]) == [c] <==>
              || 'A' <= c <= 'Z' || 'a' <= c <= 'z' || '0' <= c <= '9'
              || c == '-' || c == '_' || c == '.' || c == '!' || c == '~' || c == '*' || c == '\'' || c == '(' || c == ')'
    ensures Quote([c]) != [c] ==> Quote([c]) == PercentBytes(EncodeChar(c))
  {
    assert ([c] + rest)[1..] == rest && [c][1..] == [];
    assert EncodeChar(c) != [];
    assert |PercentBytes(EncodeChar(c))| >= 3;
  }

  lemma {:induction false} PercentByByte(b: seq<byte>, i: nat)
    requires i < |b|
    ensures var digits, p := "0123456789ABCDEF", PercentBytes(b);
            && |p| == 3 * |b| && p[3 * i] == '%'
            && p[3 * i + 1] == digits[b[i] / 16] && p[3 * i + 2] == digits[b[i] % 16]
  {
    PercentLength(b);
    if i > 0 { PercentByByte(b[1..], i - 1); }
  }

  lemma {:induction false} PercentLength(b: seq<byte>)
    ensures |PercentBytes(b)| == 3 * |b|
  {
    if b != [] { PercentLength(b[1..]); }
  }

  /** The bytes behind a percent-encoded text; a percent sign without two hex digits stands for itself. */
  function UnquoteBytes(s: string): seq<byte> {
    if s == [] then []
    else if s[0] == '%' && |s| >= 3 && HexValue(s[1]).Some? && HexValue(s[2]).Some? then
      [HexValue(s[1]).value * 16 + HexValue(s[2]).value] + UnquoteBytes(s[3..])
    else EncodeChar(s[0]) + UnquoteBytes(s[1..])
  }

  /** `unquote`; none where it would put replacement characters for bytes that are no UTF-8. */
  function Unquote(s: string): Option<string> {
    Decode(UnquoteBytes(s))
  }

  lemma UnquoteByte(x: byte, rest: string)
    ensures UnquoteBytes(['%', Hex(x / 16), Hex(x % 16)] + rest) == [x] + UnquoteBytes(rest)
  {
    var s := ['%', Hex(x / 16), Hex(x % 16)] + rest;
    HexValueOfHex(x / 16);
    HexValueOfHex(x % 16);
    assert s[3..] == rest && x / 16 * 16 + x % 16 == x;
  }

  ghost predicate Unquotes(s: string, b: seq<byte>) {
    UnquoteBytes(s) == b
  }

  /** The text unquotes to these bytes and no others. */
  ghost predicate Reads(s: string, b: seq<byte>) {
    forall c :: Unquotes(s, c) ==> c == b
  }

  lemma ReadsMeans(s: string, b: seq<byte>)
    requires Reads(s, b)
    ensures UnquoteBytes(s) == b
  {
    assert Unquotes(s, UnquoteBytes(s));
  }

  lemma ReadsByte(x: byte, rest: string, b: seq<byte>)
    requires Reads(rest, b)
    ensures Reads(['%', Hex(x / 16), Hex(x % 16)] + rest, [x] + b)
  {
    ReadsMeans(rest, b);
    UnquoteByte(x, rest);
  }

  lemma {:induction false} ReadsPercent(b: seq<byte>, rest: string, left: seq<byte>)
    requires Reads(rest, left)
    ensures Reads(PercentBytes(b) + rest, b + left)
  {
    if b == [] {
      assert PercentBytes(b) + rest == rest && b + left == left;
    } else {
      ReadsPercent(b[1..], rest, left);
      ReadsByte(b[0], PercentBytes(b[1..]) + rest, b[1..] + left);
      assert PercentBytes(b) + rest == ['%', Hex(b[0] / 16), Hex(b[0] % 16)] + (PercentBytes(b[1..]) + rest);
      assert b + left == [b[0]] + (b[1..] + left);
    }
  }

  lemma UnquotePercent(b: seq<byte>, rest: string)
    ensures UnquoteBytes(PercentBytes(b) + rest) == b + UnquoteBytes(rest)
  {
    ReadsPercent(b, rest, UnquoteBytes(rest));
    ReadsMeans(PercentBytes(b) + rest, b + UnquoteBytes(rest));
  }

  lemma {:induction false} UnquoteBytesQuote(s: string)
    ensures UnquoteBytes(Quote(s)) == Encode(s)
  {
    if s != [] {
      UnquoteBytesQuote(s[1..]);
      if Unreserved(s[0]) {
        assert Quote(s)[1..] == Quote(s[1..]);
      } else {
        UnquotePercent(EncodeChar(s[0]), Quote(s[1..]));
      }
    }
  }

  /** `unquote` undoes `encodeURIComponent`, for every text. */
  lemma UnquoteQuote(s: string)
    ensures Unquote(Quote(s)) == Some(s)
  {
    UnquoteBytesQuote(s);
    DecodeEncode(s);
  }

  /** And it leaves a text without percent signs as it is. */
  lemma {:induction false} UnquoteRawBytes(s: string)
    requires forall i :: 0 <= i < |s| ==> s[i] != '%'
    ensures UnquoteBytes(s) == Encode(s)
  {
    if s != [] { UnquoteRawBytes(s[1..]); }
  }

  lemma {:induction false} QuoteHasNoSpace(s: string)
    ensures forall i :: 0 <= i < |Quote(s)| ==> !Text.IsSpace(Quote(s)[i])
  {
    if s != [] {
      QuoteHasNoSpace(s[1..]);
      PercentHasNoSpace(EncodeChar(s[0]));
    }
  }

  lemma {:induction false} PercentHasNoSpace(b: seq<byte>)
    ensures forall i :: 0 <= i < |PercentBytes(b)| ==> !Text.IsSpace(PercentBytes(b)[i])
  {
    if b != [] { PercentHasNoSpace(b[1..]); }
  }

  // ---- the restore cookie ---------------------------------------------------------------

  /** What `_restore_cookie_key` makes of the raw cookie text. */
  function RestoreKey(raw: string, secret: string, hmac: Hmac): Option<string> {
    match Unquote(Text.Strip(raw))
    case Some(signed) => Verify(signed, secret, hmac)
    case None => None
  }

  lemma SignedIsPlain(value: string, secret: string, hmac: Hmac)
    ensures forall i :: 0 <= i < |Sign(value, secret, hmac)| ==>
              Base64Url.Plain(Sign(value, secret, hmac)[i]) || Sign(value, secret, hmac)[i] == '.'
  {
    Base64Url.EncodedIsPlain(Encode(value));
    Base64Url.EncodedIsPlain(hmac(Encode(secret), Encode(value)));
  }

  lemma RawCookie(signed: string, secret: string, hmac: Hmac)
    requires forall i :: 0 <= i < |signed| ==> !Text.IsSpace(signed[i]) && signed[i] != '%'
    ensures RestoreKey(signed, secret, hmac) == Verify(signed, secret, hmac)
  {
    Text.StripIdentity(signed);
    UnquoteRawBytes(signed);
    DecodeEncode(signed);
  }

  lemma QuotedCookie(signed: string, secret: string, hmac: Hmac)
    ensures RestoreKey(Quote(signed), secret, hmac) == Verify(signed, secret, hmac)
  {
    QuoteHasNoSpace(signed);
    Text.StripIdentity(Quote(signed));
    UnquoteQuote(signed);
  }

  /** The restore key survives both ways a browser hands the cookie back: as written, and percent-encoded. */
  lemma RestoreKeySurvives(key: string, secret: string, hmac: Hmac)
    ensures RestoreKey(Sign(key, secret, hmac), secret, hmac) == Some(key)
    ensures RestoreKey(Quote(Sign(key, secret, hmac)), secret, hmac) == Some(key)
  {
    var signed := Sign(key, secret, hmac);
    SignedIsPlain(key, secret, hmac);
    RawCookie(signed, secret, hmac);
    QuotedCookie(signed, secret, hmac);
    SignVerify(key, secret, hmac);
  }

  // ---- page tokens -----------------------------------------------------------------------

  function EncodePageToken(token: Option<seq<byte>>): Option<string> {
    if token.None? || token.value == [] then None else Some(Base64Url.Encode(token.value))
  }

  function DecodePageToken(token: Option<string>): Option<seq<byte>> {
    if token.None? || token.value == "" then None else Base64Url.Decode(token.value)
  }

  /** A token the listing returns is spelled in base64url, one that is none of it is taken for none. */
  lemma PageTokenForms(token: seq<byte>, text: string)
    ensures EncodePageToken(None) == None && EncodePageToken(Some([])) == None && DecodePageToken(None) == None && DecodePageToken(Some("")) == None
    ensures token != [] ==> EncodePageToken(Some(token)) == Some(Base64Url.Encode(token))
    ensures text != "" && Base64Url.Decode(text).None? ==> DecodePageToken(Some(text)) == None
  {
  }

  /** A non-empty page token comes back as it was; an empty one, like none, comes back as none. */
  lemma PageTokenRoundTrip(token: Option<seq<byte>>)
    ensures DecodePageToken(EncodePageToken(token)) == if token == Some([]) then None else token
  {
    if token.Some? && token.value != [] {
      Base64Url.DecodeEncode(token.value);
    }
  }
}
