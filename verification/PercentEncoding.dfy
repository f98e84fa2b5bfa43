/** Percent-encoding of a path segment, against the decoder of section 2.1 of RFC 3986. */
module PercentEncoding {
  import opened Wrappers

  type Byte = b: int | 0 <= b < 256

  /** The digits `0123456789ABCDEF`. */
  function HexDigit(n: nat): char
    requires n < 16
  {
    if n < 10 then ('0' as int + n) as char else ('A' as int + n - 10) as char
  }

  /** The unreserved characters of section 2.3. */
  predicate IsUnreserved(b: int) {
    || 'A' as int <= b <= 'Z' as int || 'a' as int <= b <= 'z' as int || '0' as int <= b <= '9' as int
    || b == '-' as int || b == '.' as int || b == '_' as int || b == '~' as int
  }

  function EncodeByte(b: Byte): string {
    if IsUnreserved(b) then [b as char] else ['%', HexDigit(b / 16), HexDigit(b % 16)]
  }

  function Encode(segment: seq<Byte>): string {
    if segment == [] then [] else EncodeByte(segment[0]) + Encode(segment[1..])
  }

  method EncodePathSegment(segment: seq<Byte>) returns (encoded: string)
    ensures encoded == Encode(segment)
  {
    encoded := [];
    for i := 0 to |segment|
      invariant encoded == Encode(segment[..i])
    {
      var byte := segment[i];
      EncodeAppend(segment[..i], [byte]);
      assert segment[..i + 1] == segment[..i] + [byte];
      if IsUnreserved(byte) {
        encoded := encoded + [byte as char];
      } else {
        encoded := encoded + ['%'];
        encoded := encoded + [HexDigit(byte / 16)];
        encoded := encoded + [HexDigit(byte % 16)];
      }
    }
    assert segment[..|segment|] == segment;
  }

  // ----- the reference decoder: triplets may use either case, anything else stands for itself

  function HexValue(c: char): Option<int> {
    if '0' <= c <= '9' then Some(c as int - '0' as int)
    else if 'A' <= c <= 'F' then Some(c as int - 'A' as int + 10)
    else if 'a' <= c <= 'f' then Some(c as int - 'a' as int + 10)
    else None
  }

  /** The byte that an encoded text starts with, and how many characters spell it. */
  function DecodeFirst(s: string): Option<(Byte, nat)>
    requires s != []
    ensures DecodeFirst(s).Some? ==> 1 <= DecodeFirst(s).value.1 <= |s|
  {
    if s[0] != '%' then if s[0] as int < 256 then Some((s[0] as int, 1)) else None
    else if |s| < 3 then None
    else
      match (HexValue(s[1]), HexValue(s[2]))
      case (Some(high), Some(low)) => Some((16 * high + low, 3))
      case _ => None
  }

  function Decode(s: string): Option<seq<Byte>>
    decreases |s|
  {
    if s == [] then Some([])
    else
      match DecodeFirst(s)
      case None => None
      case Some(first) =>
        match Decode(s[first.1..])
        case None => None
        case Some(rest) => Some([first.0] + rest)
  }

  /** Unreserved characters and upper-case triplets of other bytes, and nothing else. */
  predicate Canonical(s: string)
    decreases |s|
  {
    if s == [] then true
    else if s[0] == '%' then |s| >= 3 && CanonicalTriplet(s[1], s[2]) && Canonical(s[3..])
    else IsUnreserved(s[0] as int) && Canonical(s[1..])
  }

  predicate IsUpperHex(c: char)
    ensures IsUpperHex(c) ==> HexValue(c).Some?
  {
    '0' <= c <= '9' || 'A' <= c <= 'F'
  }

  predicate CanonicalTriplet(high: char, low: char) {
    IsUpperHex(high) && IsUpperHex(low) && !IsUnreserved(16 * HexValue(high).value + HexValue(low).value)
  }

  lemma HexDigits(n: nat)
    requires n < 16
    ensures HexValue(HexDigit(n)) == Some(n) && IsUpperHex(HexDigit(n))
  {
  }

  /** Letters, digits, `-`, `.`, `_` and `~`. */
  predicate IsPlainByte(b: Byte) {
    65 <= b <= 90 || 97 <= b <= 122 || 48 <= b <= 57 || b in {45, 46, 95, 126}
  }

  function AsText(segment: seq<Byte>): string {
    if segment == [] then [] else [segment[0] as char] + AsText(segment[1..])
  }

  /** A segment is left as it is exactly when it has nothing but letters, digits and four signs. */
  lemma {:induction false} PlainSegmentsStay(segment: seq<Byte>)
    ensures Encode(segment) == AsText(segment) <==> forall i :: 0 <= i < |segment| ==> IsPlainByte(segment[i])
    ensures |Encode(segment)| >= |AsText(segment)| == |segment|
  {
    if segment != [] {
      PlainSegmentsStay(segment[1..]);
      var first, rest := EncodeByte(segment[0]), Encode(segment[1..]);
      assert IsPlainByte(segment[0]) <==> IsUnreserved(segment[0]);
      if Encode(segment) == AsText(segment) {
        assert |first| == 1;
        assert rest == Encode(segment)[1..] == AsText(segment)[1..] == AsText(segment[1..]);
      }
      assert (forall i :: 0 <= i < |segment| ==> IsPlainByte(segment[i])) <==>
        IsPlainByte(segment[0]) && forall i :: 0 <= i < |segment[1..]| ==> IsPlainByte(segment[1..][i]);
    }
  }

  lemma {:induction false} EncodeAppend(a: seq<Byte>, b: seq<Byte>)
    ensures Encode(a + b) == Encode(a) + Encode(b)
  {
    if a == [] {
      assert a + b == b;
    } else {
      assert (a + b)[1..] == a[1..] + b;
      EncodeAppend(a[1..], b);
    }
  }

  lemma DecodeFirstOfEncoded(b: Byte, tail: string)
    ensures DecodeFirst(EncodeByte(b) + tail) == Some((b, |EncodeByte(b)|))
  {
    if !IsUnreserved(b) {
      HexDigits(b / 16);
      HexDigits(b % 16);
    }
  }

  /** Decoding undoes encoding. */
  lemma {:induction false} DecodeEncode(segment: seq<Byte>)
    ensures Decode(Encode(segment)) == Some(segment)
  {
    if segment != [] {
      var head, tail := EncodeByte(segment[0]), Encode(segment[1..]);
      DecodeFirstOfEncoded(segment[0], tail);
      assert (head + tail)[|head|..] == tail;
      DecodeEncode(segment[1..]);
      assert segment == [segment[0]] + segment[1..];
    }
  }

  /** Different segments have different encodings. */
  lemma EncodeIsInjective(a: seq<Byte>, b: seq<Byte>)
    requires Encode(a) == Encode(b)
    ensures a == b
  {
    DecodeEncode(a);
    DecodeEncode(b);
  }

  lemma {:induction false} EncodeIsCanonical(segment: seq<Byte>)
    ensures Canonical(Encode(segment))
  {
    if segment != [] {
      var b, head, tail := segment[0], EncodeByte(segment[0]), Encode(segment[1..]);
      EncodeIsCanonical(segment[1..]);
      assert (head + tail)[|head|..] == tail;
      if !IsUnreserved(b) {
        HexDigits(b / 16);
        HexDigits(b % 16);
      }
    }
  }

  lemma TripletIsItsCode(high: char, low: char)
    requires CanonicalTriplet(high, low)
    ensures 0 <= 16 * HexValue(high).value + HexValue(low).value < 256
    ensures EncodeByte(16 * HexValue(high).value + HexValue(low).value) == ['%', high, low]
  {
    var h, l := HexValue(high).value, HexValue(low).value;
    assert (16 * h + l) / 16 == h && (16 * h + l) % 16 == l;
    assert HexDigit(h) == high && HexDigit(l) == low;
  }

  /** A canonical text starts with the spelling of the byte it decodes to, and goes on canonically. */
  lemma CanonicalHead(s: string)
    requires Canonical(s) && s != []
    ensures DecodeFirst(s).Some?
    ensures var (b, n) := DecodeFirst(s).value; s == EncodeByte(b) + s[n..] && n == |EncodeByte(b)| && Canonical(s[n..])
  {
    if s[0] == '%' {
      TripletIsItsCode(s[1], s[2]);
      assert s == ['%', s[1], s[2]] + s[3..];
    } else {
      assert s == [s[0]] + s[1..];
    }
  }

  /** The encodings are exactly the canonical texts: each is the encoding of what it decodes to. */
  lemma {:induction false} CanonicalIsEncoded(s: string)
    requires Canonical(s)
    ensures Decode(s).Some? && Encode(Decode(s).value) == s
    decreases |s|
  {
    if s != [] {
      CanonicalHead(s);
      var (b, n) := DecodeFirst(s).value;
      CanonicalIsEncoded(s[n..]);
      var rest := Decode(s[n..]).value;
      assert ([b] + rest)[1..] == rest;
    }
  }

  function ReservedCount(segment: seq<Byte>): nat {
    if segment == [] then 0 else (if IsUnreserved(segment[0]) then 0 else 1) + ReservedCount(segment[1..])
  }

  /** Two extra characters for each byte that is not unreserved: between n and 3n in all. */
  lemma {:induction false} EncodedLength(segment: seq<Byte>)
    ensures |Encode(segment)| == |segment| + 2 * ReservedCount(segment)
    ensures |segment| <= |Encode(segment)| <= 3 * |segment|
  {
    if segment != [] {
      EncodedLength(segment[1..]);
    }
  }

  /** No separator of a URL path or of a session id survives unencoded. */
  lemma {:induction false} EncodedHasNoSeparator(segment: seq<Byte>)
    ensures forall c :: c in Encode(segment) ==> c == '%' || IsUnreserved(c as int)
    ensures '/' !in Encode(segment) && ':' !in Encode(segment) && '?' !in Encode(segment) && '#' !in Encode(segment)
  {
    if segment != [] {
      EncodedHasNoSeparator(segment[1..]);
      var b := segment[0];
      if !IsUnreserved(b) {
        HexDigitIsUnreserved(b / 16);
        HexDigitIsUnreserved(b % 16);
      }
      assert forall c :: c in Encode(segment) ==> c in EncodeByte(b) || c in Encode(segment[1..]);
    }
  }

  lemma HexDigitIsUnreserved(n: nat)
    requires n < 16
    ensures IsUnreserved(HexDigit(n) as int)
  {
  }
}
