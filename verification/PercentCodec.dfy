/**
  Percent encoding: `aws_uri_encode` and `canonical_uri_from_encoded` of
  `src/signing/canonical.rs`, `decode_url_field` of `src/protocol/listing.rs`.
 */
module PercentCodec {
  import opened Wire

  const PERCENT: Byte := '%' as int
  const SLASH: Byte := '/' as int

  datatype DecodeError = InvalidTriplet | NotUtf8

  datatype UriError = InvalidEncodedUri

  // ----- bytes and hexadecimal digits --------------------------------------

  predicate IsUnreserved(b: Byte) {
    IsAlphanumeric(b) || b == '-' as int || b == '.' as int || b == '_' as int || b == '~' as int
  }

  function HexDigit(n: nat): Byte
    requires n < 16
  {
    if n < 10 then '0' as int + n else 'A' as int + n - 10
  }

  function HexValue(b: Byte): (r: Option<nat>)
    ensures r.Some? ==> r.value < 16
  {
    if '0' as int <= b <= '9' as int then Some(b - '0' as int)
    else if 'a' as int <= b <= 'f' as int then Some(b - 'a' as int + 10)
    else if 'A' as int <= b <= 'F' as int then Some(b - 'A' as int + 10)
    else None
  }

  function Triplet(b: Byte): Text {
    [PERCENT, HexDigit(b / 16), HexDigit(b % 16)]
  }

  function EncodeByte(b: Byte, encodeSlash: bool): Text {
    if IsUnreserved(b) || (b == SLASH && !encodeSlash) then [b] else Triplet(b)
  }

  /** The byte of a triplet at the front of t, if there is one. */
  function TripletValue(t: Text): Option<Byte>
    requires |t| > 0 && t[0] == PERCENT
  {
    if |t| < 3 then None
    else match (HexValue(t[1]), HexValue(t[2]))
      case (Some(high), Some(low)) => Some(high * 16 + low)
      case _ => None
  }

  // ----- the three codecs ----------------------------------------------------

  function Encode(t: Text, encodeSlash: bool): Text {
    if t == [] then [] else EncodeByte(t[0], encodeSlash) + Encode(t[1..], encodeSlash)
  }

  function Prepend(head: Text, tail: Option<Text>): Option<Text> {
    match tail
    case None => None
    case Some(t) => Some(head + t)
  }

  /** Percent decoding, before any UTF-8 check. */
  function Decode(t: Text): Option<Text> {
    if t == [] then Some([])
    else if t[0] == PERCENT then
      match TripletValue(t)
      case None => None
      case Some(b) => Prepend([b], Decode(t[3..]))
    else Prepend([t[0]], Decode(t[1..]))
  }

  /** Re-canonicalisation of an encoded path: triplets survive, other bytes are encoded. */
  function Recode(t: Text): Option<Text> {
    if t == [] then Some([])
    else if t[0] == PERCENT then
      match TripletValue(t)
      case None => None
      case Some(b) => Prepend(Triplet(b), Recode(t[3..]))
    else Prepend(EncodeByte(t[0], false), Recode(t[1..]))
  }

  function CanonicalUri(path: Text): Result<Text, UriError> {
    match Recode(path)
    case None => Err(InvalidEncodedUri)
    case Some(c) => Ok(if |path| > 0 && path[0] == SLASH then c else [SLASH] + c)
  }

  function DecodeField(t: Text): Result<Text, DecodeError> {
    match Decode(t)
    case None => Err(InvalidTriplet)
    case Some(d) => if ValidUtf8(d) then Ok(d) else Err(NotUtf8)
  }

  lemma PrependConcat(a: Text, b: Text, t: Option<Text>)
    ensures Prepend(a, Prepend(b, t)) == Prepend(a + b, t)
    ensures Prepend([], t) == t
  {
    if t.Some? {
      assert a + (b + t.value) == a + b + t.value;
      assert [] + t.value == t.value;
    }
  }

  // ----- the code --------------------------------------------------------------

  lemma {:induction false} EncodeConcat(a: Text, b: Text, encodeSlash: bool)
    ensures Encode(a + b, encodeSlash) == Encode(a, encodeSlash) + Encode(b, encodeSlash)
  {
    if a == [] {
      assert a + b == b;
    } else {
      assert (a + b)[1..] == a[1..] + b;
      EncodeConcat(a[1..], b, encodeSlash);
    }
  }

  lemma EncodeOne(b: Byte, encodeSlash: bool)
    ensures Encode([b], encodeSlash) == EncodeByte(b, encodeSlash)
  {
    assert Encode([b][1..], encodeSlash) == [];
  }

  /** `aws_uri_encode`. */
  method AwsUriEncode(input: Text, encodeSlash: bool) returns (encoded: Text)
    ensures encoded == Encode(input, encodeSlash)
  {
    encoded := [];
    for i := 0 to |input|
      invariant encoded == Encode(input[..i], encodeSlash)
    {
      var b := input[i];
      EncodeConcat(input[..i], [b], encodeSlash);
      EncodeOne(b, encodeSlash);
      assert input[..i] + [b] == input[..i + 1];
      if IsUnreserved(b) || (b == SLASH && !encodeSlash) {
        encoded := encoded + [b];
      } else {
        encoded := encoded + [PERCENT];
        encoded := encoded + [HexDigit(b / 16)];
        encoded := encoded + [HexDigit(b % 16)];
      }
    }
    assert input[..|input|] == input;
  }

  /** `decode_url_field`. */
  method DecodeUrlField(value: Text) returns (r: Result<Text, DecodeError>)
    ensures r == DecodeField(value)
  {
    var decoded: Text := [];
    var index := 0;
    assert value[0..] == value;
    PrependConcat([], [], Decode(value));
    while index < |value|
      invariant 0 <= index <= |value|
      invariant Decode(value) == Prepend(decoded, Decode(value[index..]))
    {
      ghost var rest := value[index..];
      if value[index] == PERCENT {
        var high := if index + 1 < |value| then HexValue(value[index + 1]) else None;
        var low := if index + 2 < |value| then HexValue(value[index + 2]) else None;
        if high.None? || low.None? {
          assert TripletValue(rest) == None;
          return Err(InvalidTriplet);
        }
        assert rest[3..] == value[index + 3..];
        PrependConcat(decoded, [high.value * 16 + low.value], Decode(rest[3..]));
        decoded := decoded + [high.value * 16 + low.value];
        index := index + 3;
      } else {
        assert rest[1..] == value[index + 1..];
        PrependConcat(decoded, [value[index]], Decode(rest[1..]));
        decoded := decoded + [value[index]];
        index := index + 1;
      }
    }
    assert value[index..] == [] && decoded + [] == decoded;
    r := if ValidUtf8(decoded) then Ok(decoded) else Err(NotUtf8);
  }

  /** Bytes of a multi-byte character are encoded whatever the mode. */
  lemma {:induction false} RecodePlain(a: Text, rest: Text)
    requires forall i :: 0 <= i < |a| ==> a[i] != PERCENT && a[i] != SLASH
    ensures Recode(a + rest) == Prepend(Encode(a, true), Recode(rest))
  {
    if a == [] {
      assert a + rest == rest;
      PrependConcat([], [], Recode(rest));
    } else {
      assert (a + rest)[1..] == a[1..] + rest;
      RecodePlain(a[1..], rest);
      PrependConcat(EncodeByte(a[0], true), Encode(a[1..], true), Recode(rest));
    }
  }

  lemma CharBytes(t: Text)
    requires |t| > 0 && CharLength(t) > 1
    ensures forall i :: 0 <= i < CharLength(t) ==> t[i] >= 0x80
  {
  }

  /** `canonical_uri_from_encoded`; a `str` is valid UTF-8. */
  method CanonicalUriFromEncoded(path: Text) returns (r: Result<Text, UriError>)
    requires ValidUtf8(path)
    ensures r == CanonicalUri(path)
  {
    hide ValidUtf8, CharLength, HexDigit, HexValue, IsUnreserved, Recode;
    var canonical: Text := [];
    if !(|path| > 0 && path[0] == SLASH) {
      canonical := canonical + [SLASH];
    }
    ghost var lead := canonical;
    assert lead == if |path| > 0 && path[0] == SLASH then [] else [SLASH];
    var index := 0;
    assert path[0..] == path;
    while index < |path|
      invariant 0 <= index <= |path|
      invariant ValidUtf8(path[index..])
      invariant Prepend(lead, Recode(path)) == Prepend(canonical, Recode(path[index..]))
    {
      ghost var rest, before := path[index..], canonical;
      ghost var piece: Text;
      var b := path[index];
      if b == PERCENT {
        var high := if index + 1 < |path| then HexValue(path[index + 1]) else None;
        if high.None? {
          BadTriplet(rest);
          return Err(InvalidEncodedUri);
        }
        var low := if index + 2 < |path| then HexValue(path[index + 2]) else None;
        if low.None? {
          BadTriplet(rest);
          return Err(InvalidEncodedUri);
        }
        TripletStep(rest);
        assert rest[3..] == path[index + 3..];
        piece := [PERCENT, HexDigit(high.value), HexDigit(low.value)];
        canonical := canonical + [PERCENT];
        canonical := canonical + [HexDigit(high.value)];
        canonical := canonical + [HexDigit(low.value)];
        index := index + 3;
      } else if IsUnreserved(b) || b == SLASH {
        piece := [b];
        KeptStep(rest);
        assert rest[1..] == path[index + 1..];
        canonical := canonical + [b];
        index := index + 1;
      } else {
        var length := CharLength(path[index..]);
        var character := path[index..index + length];
        CharacterStep(rest);
        assert rest[..length] == character && rest[length..] == path[index + length..];
        var encoded := AwsUriEncode(character, true);
        piece := encoded;
        canonical := canonical + encoded;
        index := index + length;
      }
      assert canonical == before + piece;
      PrependConcat(before, piece, Recode(path[index..]));
    }
    assert path[index..] == [] && canonical + [] == canonical;
    RecodeEmpty();
    if canonical == [] {
      RecodeKeepsSlash(path);
      assert false;
    }
    PrependConcat([], [], Recode(path));
    r := Ok(canonical);
  }

  lemma RecodeEmpty()
    ensures Recode([]) == Some([])
  {
  }

  lemma BadTriplet(t: Text)
    requires |t| > 0 && t[0] == PERCENT && TripletValue(t).None?
    ensures Recode(t).None?
  {
  }

  lemma KeptStep(t: Text)
    requires ValidUtf8(t) && |t| > 0 && (IsUnreserved(t[0]) || t[0] == SLASH)
    ensures ValidUtf8(t[1..]) && Recode(t) == Prepend([t[0]], Recode(t[1..]))
  {
    AsciiHead(t);
  }

  lemma AsciiHead(t: Text)
    requires ValidUtf8(t) && |t| > 0 && t[0] < 0x80
    ensures ValidUtf8(t[1..])
  {
    assert CharLength(t) == 1;
  }

  lemma TripletOfDigits(high: nat, low: nat)
    requires high < 16 && low < 16
    ensures Triplet(high * 16 + low) == [PERCENT, HexDigit(high), HexDigit(low)]
  {
    hide HexDigit;
  }

  lemma TripletStep(t: Text)
    requires ValidUtf8(t) && |t| > 0 && t[0] == PERCENT && TripletValue(t).Some?
    ensures |t| >= 3 && ValidUtf8(t[3..])
    ensures Recode(t) == Prepend([PERCENT, HexDigit(HexValue(t[1]).value), HexDigit(HexValue(t[2]).value)],
                                 Recode(t[3..]))
  {
    hide ValidUtf8, HexDigit, HexValue, Recode, Triplet, Prepend, TripletValue;
    TripletDigits(t);
    RecodeTriplet(t);
    AsciiHead(t);
    AsciiHead(t[1..]);
    assert t[1..][1..] == t[2..];
    AsciiHead(t[2..]);
    assert t[2..][1..] == t[3..];
    TripletOfDigits(HexValue(t[1]).value, HexValue(t[2]).value);
  }

  lemma TripletDigits(t: Text)
    requires |t| > 0 && t[0] == PERCENT && TripletValue(t).Some?
    ensures |t| >= 3 && t[1] < 0x80 && t[2] < 0x80
    ensures HexValue(t[1]).Some? && HexValue(t[2]).Some?
    ensures TripletValue(t).value == HexValue(t[1]).value * 16 + HexValue(t[2]).value
  {
  }

  lemma RecodeTriplet(t: Text)
    requires |t| >= 3 && t[0] == PERCENT && TripletValue(t).Some?
    ensures Recode(t) == Prepend(Triplet(TripletValue(t).value), Recode(t[3..]))
  {
    hide TripletValue, Triplet, Prepend;
  }

  /** A character outside the kept set is encoded byte by byte. */
  lemma CharacterStep(t: Text)
    requires ValidUtf8(t) && |t| > 0 && t[0] != PERCENT && !IsUnreserved(t[0]) && t[0] != SLASH
    ensures var n := CharLength(t);
            && n > 0 && ValidUtf8(t[n..])
            && Recode(t) == Prepend(Encode(t[..n], true), Recode(t[n..]))
  {
    var n := CharLength(t);
    if n > 1 {
      CharBytes(t);
    }
    assert t == t[..n] + t[n..];
    RecodePlain(t[..n], t[n..]);
  }

  lemma RecodeKeepsSlash(path: Text)
    requires |path| > 0 && path[0] == SLASH && Recode(path).Some?
    ensures |Recode(path).value| > 0 && Recode(path).value[0] == SLASH
  {
  }

  // ----- round trips --------------------------------------------------------------

  lemma HexRoundTrip(n: nat)
    requires n < 16
    ensures HexValue(HexDigit(n)) == Some(n)
  {
  }

  lemma TripletRoundTrip(b: Byte, rest: Text)
    ensures TripletValue(Triplet(b) + rest) == Some(b)
    ensures (Triplet(b) + rest)[3..] == rest
  {
    HexRoundTrip(b / 16);
    HexRoundTrip(b % 16);
  }

  /** One step of each codec over the encoding of one byte. */
  lemma StepOverEncodedByte(b: Byte, encodeSlash: bool, rest: Text)
    ensures Decode(EncodeByte(b, encodeSlash) + rest) == Prepend([b], Decode(rest))
    ensures Recode(EncodeByte(b, encodeSlash) + rest) == Prepend(EncodeByte(b, encodeSlash), Recode(rest))
  {
    var e := EncodeByte(b, encodeSlash);
    if |e| == 1 {
      assert (e + rest)[1..] == rest;
    } else {
      TripletRoundTrip(b, rest);
    }
  }

  /** Decoding inverts encoding, in both slash modes. */
  lemma {:induction false} DecodeInvertsEncode(t: Text, encodeSlash: bool)
    ensures Decode(Encode(t, encodeSlash)) == Some(t)
  {
    if t != [] {
      DecodeInvertsEncode(t[1..], encodeSlash);
      StepOverEncodedByte(t[0], encodeSlash, Encode(t[1..], encodeSlash));
      assert t == [t[0]] + t[1..];
    }
  }

  /** The listing decoder returns every key the signing encoder encoded. */
  lemma DecodeFieldInvertsEncode(t: Text, encodeSlash: bool)
    requires ValidUtf8(t)
    ensures DecodeField(Encode(t, encodeSlash)) == Ok(t)
  {
    DecodeInvertsEncode(t, encodeSlash);
  }

  lemma EncodeInjective(a: Text, b: Text, encodeSlash: bool)
    requires Encode(a, encodeSlash) == Encode(b, encodeSlash)
    ensures a == b
  {
    DecodeInvertsEncode(a, encodeSlash);
    DecodeInvertsEncode(b, encodeSlash);
  }

  /** The only bytes an encoding can contain. */
  predicate IsWireByte(b: Byte) {
    IsUnreserved(b) || b == PERCENT || b == SLASH
  }

  lemma {:induction false} EncodedBytes(t: Text, encodeSlash: bool)
    ensures forall b :: b in Encode(t, encodeSlash) ==> IsWireByte(b) && (encodeSlash ==> b != SLASH)
  {
    if t != [] {
      EncodedBytes(t[1..], encodeSlash);
    }
  }

  lemma {:induction false} EncodedIsFixed(t: Text, encodeSlash: bool)
    ensures Recode(Encode(t, encodeSlash)) == Some(Encode(t, encodeSlash))
  {
    if t != [] {
      EncodedIsFixed(t[1..], encodeSlash);
      StepOverEncodedByte(t[0], encodeSlash, Encode(t[1..], encodeSlash));
    }
  }

  lemma {:induction false} RecodeConcat(a: Text, b: Text)
    requires Recode(a).Some? && Recode(b).Some?
    ensures Recode(a + b) == Some(Recode(a).value + Recode(b).value)
  {
    hide Recode, Triplet, EncodeByte, TripletValue;
    if a == [] {
      assert a + b == b;
      RecodeEmpty();
      PrependConcat([], [], Recode(b));
    } else if a[0] == PERCENT {
      RecodedTriplet(a);
      TripletFront(a, b);
      RecodedTriplet(a + b);
      assert (a + b)[3..] == a[3..] + b;
      RecodeConcat(a[3..], b);
      PrependConcat(Triplet(TripletValue(a).value), Recode(a[3..]).value, Recode(b));
    } else {
      RecodedByte(a);
      RecodedByte(a + b);
      assert (a + b)[1..] == a[1..] + b;
      RecodeConcat(a[1..], b);
      PrependConcat(EncodeByte(a[0], false), Recode(a[1..]).value, Recode(b));
    }
  }

  lemma RecodedTriplet(t: Text)
    requires |t| > 0 && t[0] == PERCENT
    ensures Recode(t).Some? ==> TripletValue(t).Some?
    ensures TripletValue(t).Some? ==>
              |t| >= 3 && Recode(t) == Prepend(Triplet(TripletValue(t).value), Recode(t[3..]))
  {
    hide Triplet;
  }

  lemma RecodedByte(t: Text)
    requires |t| > 0 && t[0] != PERCENT
    ensures Recode(t) == Prepend(EncodeByte(t[0], false), Recode(t[1..]))
  {
  }

  lemma TripletFront(a: Text, b: Text)
    requires |a| > 0 && a[0] == PERCENT && TripletValue(a).Some?
    ensures TripletValue(a + b) == TripletValue(a)
  {
    hide HexValue;
  }

  /** Rejection, meaning and idempotence of the re-canonicalisation. */
  lemma {:induction false} RecodeProperties(t: Text)
    ensures Recode(t).None? <==> Decode(t).None?
    ensures Recode(t).Some? ==>
              var c := Recode(t).value;
              && Decode(c) == Decode(t)
              && Recode(c) == Some(c)
              && (forall b :: b in c ==> IsWireByte(b))
  {
    if t == [] {
    } else if t[0] == PERCENT {
      if TripletValue(t).Some? {
        RecodeProperties(t[3..]);
        if Recode(t[3..]).Some? {
          var b, rest := TripletValue(t).value, Recode(t[3..]).value;
          TripletRoundTrip(b, rest);
        }
      }
    } else {
      RecodeProperties(t[1..]);
      if Recode(t[1..]).Some? {
        StepOverEncodedByte(t[0], false, Recode(t[1..]).value);
      }
    }
  }

  /** Signing canonicalisation keeps the decoded path, up to a leading slash, and is idempotent. */
  lemma CanonicalUriProperties(path: Text)
    ensures CanonicalUri(path).Err? <==> Decode(path).None?
    ensures CanonicalUri(path).Err? <==> DecodeField(path) == Err(InvalidTriplet)
    ensures CanonicalUri(path).Ok? ==>
              var c := CanonicalUri(path).value;
              && |c| > 0 && c[0] == SLASH
              && CanonicalUri(c) == Ok(c)
              && Decode(c).Some?
              && (Decode(c).value == if |path| > 0 && path[0] == SLASH then Decode(path).value
                                     else [SLASH] + Decode(path).value)
              && (forall b :: b in c ==> IsWireByte(b))
  {
    RecodeProperties(path);
    if Recode(path).Some? {
      var body := Recode(path).value;
      var c := CanonicalUri(path).value;
      if |path| > 0 && path[0] == SLASH {
        RecodeKeepsSlash(path);
      } else {
        assert c[1..] == body;
        StepOverEncodedByte(SLASH, false, body);
        assert EncodeByte(SLASH, false) + body == c;
      }
    }
  }

  // ----- the codecs, token by token -------------------------------------------------------------------

  const UPPER_HEX: Text := Ascii("0123456789ABCDEF")
  const LOWER_HEX: Text := Ascii("0123456789abcdef")

  predicate IsUnreservedCharacter(b: Byte) {
    || 'A' as int <= b <= 'Z' as int
    || 'a' as int <= b <= 'z' as int
    || '0' as int <= b <= '9' as int
    || b in Ascii("-._~")
  }

  /** Section 2.3 of RFC 3986 decides what is kept, and section 2.1 what the rest looks like, in upper case. */
  lemma EncodedByteExactly(b: Byte, encodeSlash: bool)
    ensures Encode([b], encodeSlash) ==
            if IsUnreservedCharacter(b) || (b == '/' as int && !encodeSlash) then [b]
            else [37, UPPER_HEX[b / 16], UPPER_HEX[b % 16]]
  {
    EncodeOne(b, encodeSlash);
    hide Encode;
    UpperDigits(b / 16);
    UpperDigits(b % 16);
    assert Ascii("-._~") == [45, 46, 95, 126];
  }

  lemma UpperDigits(n: nat)
    requires n < 16
    ensures HexDigit(n) == UPPER_HEX[n]
  {
  }

  lemma LowerDigits(n: nat)
    requires n < 16
    ensures LOWER_HEX[n] == if n < 10 then '0' as int + n else 'a' as int + n - 10
  {
  }

  /** A hexadecimal digit is read in either case. */
  lemma HexValueExactly(b: Byte, n: nat)
    requires n < 16
    ensures HexValue(b) == Some(n) <==> b == UPPER_HEX[n] || b == LOWER_HEX[n]
  {
    hide Ascii;
    UpperDigits(n);
    LowerDigits(n);
  }

  /** Decoding goes token by token, and rejects a percent sign without two digits. */
  lemma DecodedTokenExactly(t: Text)
    ensures Decode([]) == Some([])
    ensures t != [] && t[0] != '%' as int ==> Decode(t) == Prepend([t[0]], Decode(t[1..]))
    ensures t != [] && t[0] == '%' as int ==>
              Decode(t) == if |t| >= 3 && HexValue(t[1]).Some? && HexValue(t[2]).Some?
                           then Prepend([HexValue(t[1]).value * 16 + HexValue(t[2]).value], Decode(t[3..]))
                           else None
  {
  }

  /** A triplet survives re-canonicalisation with its digits in upper case; any other byte is encoded. */
  lemma RecodedTokenExactly(b: Byte, high: nat, low: nat, x: Byte, y: Byte)
    requires high < 16 && low < 16
    requires x in [UPPER_HEX[high], LOWER_HEX[high]] && y in [UPPER_HEX[low], LOWER_HEX[low]]
    ensures Recode(['%' as int, x, y]) == Some(['%' as int, UPPER_HEX[high], UPPER_HEX[low]])
    ensures b != '%' as int ==> Recode([b]) == Some(Encode([b], false))
  {
    hide Ascii, Encode, HexValue, HexDigit;
    HexValueExactly(x, high);
    HexValueExactly(y, low);
    UpperDigits(high);
    UpperDigits(low);
    EncodeOne(b, false);
    RecodeEmpty();
    var t := ['%' as int, x, y];
    assert t[3..] == [];
    TripletOfDigits(high, low);
    var triplet := Triplet(high * 16 + low);
    assert triplet + [] == triplet;
    assert Recode(t) == Prepend(triplet, Recode(t[3..]));
    if b != PERCENT {
      assert [b][1..] == [];
      assert EncodeByte(b, false) + [] == EncodeByte(b, false);
    }
  }

  /** The listing decoder tells a bad triplet from bytes that are no text. */
  lemma DecodeFieldExactly(t: Text)
    ensures DecodeField(t) == Err(InvalidTriplet) <==> Decode(t).None?
    ensures DecodeField(t) == Err(NotUtf8) <==> Decode(t).Some? && !ValidUtf8(Decode(t).value)
    ensures DecodeField(t).Ok? ==> Decode(t) == Some(DecodeField(t).value)
  {
  }
}
