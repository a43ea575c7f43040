/** base64url as Gmail carries it: encoded in full, delivered without padding, re-padded to decode
    (sections 3.2, 4 and 5 of RFC 4648). */
module Mime {
  import opened Wrappers

  type Byte = x: int | 0 <= x < 256
  type Sextet = x: int | 0 <= x < 64

  // ----- alphabet -----------------------------------------------------------

  function Digit(v: Sextet): char {
    if v < 26 then 'A' + v as char
    else if v < 52 then 'a' + (v - 26) as char
    else if v < 62 then '0' + (v - 52) as char
    else if v == 62 then '-'
    else '_'
  }

  /** Decoding maps '-' and '_' onto '+' and '/' first, so it takes either alphabet. */
  function Value(c: char): Option<Sextet> {
    if 'A' <= c <= 'Z' then Some(c as int - 'A' as int)
    else if 'a' <= c <= 'z' then Some(c as int - 'a' as int + 26)
    else if '0' <= c <= '9' then Some(c as int - '0' as int + 52)
    else if c == '-' || c == '+' then Some(62)
    else if c == '_' || c == '/' then Some(63)
    else None
  }

  lemma DigitValue(v: Sextet)
    ensures Value(Digit(v)) == Some(v) && Digit(v) != '=' && Digit(v) < 128 as char
  {
  }

  /** Table 2 of RFC 4648. */
  const UPPER := "ABCDEFGHIJKLMNOPQRSTUVWXYZ"
  const LOWER := "abcdefghijklmnopqrstuvwxyz"
  const DIGITS_AND_REST := "0123456789-_"

  lemma AlphabetExact(v: Sextet)
    ensures |UPPER| == 26 && |LOWER| == 26 && |DIGITS_AND_REST| == 12
    ensures Digit(v) == if v < 26 then UPPER[v] else if v < 52 then LOWER[v - 26] else DIGITS_AND_REST[v - 52]
  {
  }

  // ----- encoding -----------------------------------------------------------

  function Quad(a: Byte, b: Byte, c: Byte): string {
    [Digit(a / 4), Digit((a % 4) * 16 + b / 16), Digit((b % 16) * 4 + c / 64), Digit(c % 64)]
  }

  /** The value of a digit, for the laws below. */
  function At(s: string, k: nat): int { if k < |s| && Value(s[k]).Some? then Value(s[k]).value else -1 }

  /** Four digits spell the 24 bits of three bytes, most significant first. */
  lemma QuadExact(a: Byte, b: Byte, c: Byte)
    ensures var q := Quad(a, b, c);
            && |q| == 4 && (forall k :: 0 <= k < 4 ==> 0 <= At(q, k) < 64)
            && At(q, 0) * 262144 + At(q, 1) * 4096 + At(q, 2) * 64 + At(q, 3) == a * 65536 + b * 256 + c
  {
    DigitValue(a / 4);
    DigitValue((a % 4) * 16 + b / 16);
    DigitValue((b % 16) * 4 + c / 64);
    DigitValue(c % 64);
  }

  function Equals(n: nat): string { seq(n, _ => '=') }

  /** The digits alone: four for three bytes, two or three for what is left. */
  function Digits(bytes: seq<Byte>): string {
    if bytes == [] then ""
    else if |bytes| == 1 then Quad(bytes[0], 0, 0)[..2]
    else if |bytes| == 2 then Quad(bytes[0], bytes[1], 0)[..3]
    else Quad(bytes[0], bytes[1], bytes[2]) + Digits(bytes[3..])
  }

  function Encode(bytes: seq<Byte>): string { Digits(bytes) + Equals((-|bytes|) % 3) }

  function Strip(s: string): string {
    if s != "" && s[|s| - 1] == '=' then Strip(s[..|s| - 1]) else s
  }

  /** `data + "=" * (-len(data) % 4)`; `%` floors, as in Python. */
  function Repad(data: string): string { data + Equals((-|data|) % 4) }

  // ----- decoding -----------------------------------------------------------

  /** The decoder between characters: position in the quad, bits carried over, padding seen, bytes out. */
  datatype Decoder = Decoder(quad: int, left: int, pads: nat, out: seq<Byte>)

  predicate Sane(d: Decoder) {
    && 0 <= d.quad < 4
    && (d.quad == 0 ==> d.left == 0) && (d.quad == 1 ==> 0 <= d.left < 64)
    && (d.quad == 2 ==> 0 <= d.left < 16) && (d.quad == 3 ==> 0 <= d.left < 4)
  }

  /** One alphabet character: its bits complete the byte begun before it. */
  function Feed(d: Decoder, v: Sextet): (e: Decoder)
    requires Sane(d)
    ensures Sane(e)
  {
    match d.quad
    case 0 => Decoder(1, v, 0, d.out)
    case 1 => Decoder(2, v % 16, 0, d.out + [d.left * 4 + v / 16])
    case 2 => Decoder(3, v % 4, 0, d.out + [d.left * 16 + v / 4])
    case _ => Decoder(0, 0, 0, d.out + [d.left * 64 + v])
  }

  /** Characters outside the alphabet are skipped; enough padding ends the text; a broken quad is an error. */
  function Decode(s: string, d: Decoder): Option<seq<Byte>>
    requires Sane(d)
  {
    if s == "" then if d.quad == 0 then Some(d.out) else None
    else if s[0] == '=' then
      if d.quad >= 2 then
        if d.quad + d.pads + 1 >= 4 then Some(d.out) else Decode(s[1..], d.(pads := d.pads + 1))
      else Decode(s[1..], d)
    else if Value(s[0]).Some? then Decode(s[1..], Feed(d, Value(s[0]).value))
    else Decode(s[1..], d)
  }

  function Fresh(out: seq<Byte>): Decoder { Decoder(0, 0, 0, out) }

  predicate Ascii(s: string) { forall k :: 0 <= k < |s| ==> s[k] < 128 as char }

  /** Text outside ASCII is refused before any decoding. */
  function UrlsafeDecode(s: string): Option<seq<Byte>> {
    if Ascii(s) then Decode(s, Fresh([])) else None
  }

  // ----- round trip ---------------------------------------------------------

  lemma TakeDigit(v: Sextet, rest: string, d: Decoder)
    requires Sane(d)
    ensures Decode([Digit(v)] + rest, d) == Decode(rest, Feed(d, v))
  {
    DigitValue(v);
    assert ([Digit(v)] + rest)[1..] == rest;
  }

  lemma TakeTwo(v1: Sextet, v2: Sextet, rest: string, out: seq<Byte>)
    ensures Decode([Digit(v1), Digit(v2)] + rest, Fresh(out))
            == Decode(rest, Decoder(2, v2 % 16, 0, out + [v1 * 4 + v2 / 16]))
  {
    assert [Digit(v1), Digit(v2)] + rest == [Digit(v1)] + ([Digit(v2)] + rest);
    TakeDigit(v1, [Digit(v2)] + rest, Fresh(out));
    TakeDigit(v2, rest, Feed(Fresh(out), v1));
  }

  lemma TakeThree(v1: Sextet, v2: Sextet, v3: Sextet, rest: string, out: seq<Byte>)
    ensures Decode([Digit(v1), Digit(v2), Digit(v3)] + rest, Fresh(out))
            == Decode(rest, Decoder(3, v3 % 4, 0, out + [v1 * 4 + v2 / 16, (v2 % 16) * 16 + v3 / 4]))
  {
    assert [Digit(v1), Digit(v2), Digit(v3)] + rest == [Digit(v1), Digit(v2)] + ([Digit(v3)] + rest);
    TakeTwo(v1, v2, [Digit(v3)] + rest, out);
    var a, b := v1 * 4 + v2 / 16, (v2 % 16) * 16 + v3 / 4;
    TakeDigit(v3, rest, Decoder(2, v2 % 16, 0, out + [a]));
    assert (out + [a]) + [b] == out + [a, b];
  }

  lemma TakeFour(v1: Sextet, v2: Sextet, v3: Sextet, v4: Sextet, rest: string, out: seq<Byte>)
    ensures Decode([Digit(v1), Digit(v2), Digit(v3), Digit(v4)] + rest, Fresh(out))
            == Decode(rest, Fresh(out + [v1 * 4 + v2 / 16, (v2 % 16) * 16 + v3 / 4, (v3 % 4) * 64 + v4]))
  {
    assert [Digit(v1), Digit(v2), Digit(v3), Digit(v4)] + rest
           == [Digit(v1), Digit(v2), Digit(v3)] + ([Digit(v4)] + rest);
    TakeThree(v1, v2, v3, [Digit(v4)] + rest, out);
    var a, b, c := v1 * 4 + v2 / 16, (v2 % 16) * 16 + v3 / 4, (v3 % 4) * 64 + v4;
    TakeDigit(v4, rest, Decoder(3, v3 % 4, 0, out + [a, b]));
    assert (out + [a, b]) + [c] == out + [a, b, c];
  }

  lemma BytesBack(a: Byte, b: Byte, c: Byte)
    ensures (a / 4) * 4 + ((a % 4) * 16 + b / 16) / 16 == a && ((a % 4) * 16 + b / 16) % 16 == b / 16
    ensures (((a % 4) * 16 + b / 16) % 16) * 16 + ((b % 16) * 4 + c / 64) / 4 == b
    ensures ((b % 16) * 4 + c / 64) % 4 == c / 64
    ensures (((b % 16) * 4 + c / 64) % 4) * 64 + c % 64 == c
  {
  }

  lemma OneByte(a: Byte, rest: string, out: seq<Byte>)
    ensures Decode(Quad(a, 0, 0)[..2] + rest, Fresh(out)) == Decode(rest, Decoder(2, 0, 0, out + [a]))
  {
    var v1: Sextet, v2: Sextet := a / 4, (a % 4) * 16;
    BytesBack(a, 0, 0);
    assert Quad(a, 0, 0)[..2] == [Digit(v1), Digit(v2)];
    TakeTwo(v1, v2, rest, out);
  }

  lemma TwoBytes(a: Byte, b: Byte, rest: string, out: seq<Byte>)
    ensures Decode(Quad(a, b, 0)[..3] + rest, Fresh(out)) == Decode(rest, Decoder(3, 0, 0, out + [a, b]))
  {
    var v1: Sextet, v2: Sextet, v3: Sextet := a / 4, (a % 4) * 16 + b / 16, (b % 16) * 4;
    BytesBack(a, b, 0);
    assert Quad(a, b, 0)[..3] == [Digit(v1), Digit(v2), Digit(v3)];
    TakeThree(v1, v2, v3, rest, out);
  }

  lemma ThreeBytes(a: Byte, b: Byte, c: Byte, rest: string, out: seq<Byte>)
    ensures Decode(Quad(a, b, c) + rest, Fresh(out)) == Decode(rest, Fresh(out + [a, b, c]))
  {
    BytesBack(a, b, c);
    TakeFour(a / 4, (a % 4) * 16 + b / 16, (b % 16) * 4 + c / 64, c % 64, rest, out);
  }

  /** The decoder once all digits of `bytes` are read. */
  function Midway(bytes: seq<Byte>, out: seq<Byte>): Decoder {
    Decoder(if |bytes| % 3 == 0 then 0 else |bytes| % 3 + 1, 0, 0, out + bytes)
  }

  lemma FewDigits(bytes: seq<Byte>, rest: string, out: seq<Byte>)
    requires |bytes| <= 2
    ensures Decode(Digits(bytes) + rest, Fresh(out)) == Decode(rest, Midway(bytes, out))
  {
    if bytes == [] {
      assert Digits(bytes) + rest == rest && out + bytes == out;
    } else if |bytes| == 1 {
      assert bytes == [bytes[0]];
      OneByte(bytes[0], rest, out);
    } else {
      assert bytes == [bytes[0], bytes[1]];
      TwoBytes(bytes[0], bytes[1], rest, out);
    }
  }

  lemma Assoc<T>(x: seq<T>, y: seq<T>, z: seq<T>)
    ensures (x + y) + z == x + (y + z)
  {
  }

  lemma MidwayStep(head: seq<Byte>, tail: seq<Byte>, out: seq<Byte>)
    requires |head| == 3
    ensures Midway(head + tail, out) == Midway(tail, out + head)
  {
    Assoc(out, head, tail);
    assert (3 + |tail|) % 3 == |tail| % 3;
  }

  lemma {:induction false} DigitsDecode(bytes: seq<Byte>, rest: string, out: seq<Byte>)
    ensures Decode(Digits(bytes) + rest, Fresh(out)) == Decode(rest, Midway(bytes, out))
  {
    if |bytes| <= 2 {
      FewDigits(bytes, rest, out);
    } else {
      var head, tail := [bytes[0], bytes[1], bytes[2]], bytes[3..];
      assert bytes == head + tail;
      ThreeBytes(bytes[0], bytes[1], bytes[2], Digits(tail) + rest, out);
      DigitsDecode(tail, rest, out + head);
      Assoc(Quad(bytes[0], bytes[1], bytes[2]), Digits(tail), rest);
      MidwayStep(head, tail, out);
    }
  }

  lemma EncodeAscii(bytes: seq<Byte>)
    ensures Ascii(Encode(bytes))
  {
    NoPadInDigits(bytes);
  }

  lemma DecodeEncode(bytes: seq<Byte>)
    ensures UrlsafeDecode(Encode(bytes)) == Some(bytes)
  {
    var d := Midway(bytes, []);
    var pads: nat := (4 - d.quad) % 4;
    PadsOf(|bytes|);
    EncodeAscii(bytes);
    assert Encode(bytes) == Digits(bytes) + Equals(pads);
    DigitsDecode(bytes, Equals(pads), []);
    assert d.out == bytes;
    PaddingEnds(pads, d);
  }

  lemma PadsOf(n: int)
    ensures (-n) % 3 == (4 - if n % 3 == 0 then 0 else n % 3 + 1) % 4
  {
  }

  /** The padding a text of this shape ends with completes the decoding. */
  lemma PaddingEnds(pads: nat, d: Decoder)
    requires Sane(d) && d.pads == 0 && pads == (4 - d.quad) % 4
    ensures Decode(Equals(pads), d) == if d.quad == 1 then None else Some(d.out)
  {
    if pads == 0 {
      assert Equals(pads) == "";
    } else {
      assert Equals(pads)[1..] == Equals(pads - 1);
      if d.quad == 1 {
        assert Equals(2)[1..] == Equals(1) && Equals(1)[1..] == "";
        assert Decode("", d).None?;
        assert Decode(Equals(1), d).None?;
        assert Decode(Equals(2), d).None?;
      } else if d.quad == 2 {
        assert Equals(1)[0] == '=';
      }
    }
  }

  lemma {:induction false} NoPadInDigits(bytes: seq<Byte>)
    ensures forall k :: 0 <= k < |Digits(bytes)| ==> Digits(bytes)[k] != '='
    ensures Ascii(Digits(bytes))
  {
    if bytes != [] {
      QuadDigits(bytes[0], if |bytes| >= 2 then bytes[1] else 0, if |bytes| >= 3 then bytes[2] else 0);
      if |bytes| >= 3 { NoPadInDigits(bytes[3..]); }
    }
  }

  /** Digits and bytes leave the same padding. */
  lemma {:induction false} DigitsLength(bytes: seq<Byte>)
    ensures (-|Digits(bytes)|) % 4 == (-|bytes|) % 3
  {
    if |bytes| >= 3 {
      DigitsLength(bytes[3..]);
      ModShift(|Digits(bytes[3..])|, |bytes[3..]|);
    }
  }

  lemma ModShift(m: int, n: int)
    ensures (-(m + 4)) % 4 == (-m) % 4 && (-(n + 3)) % 3 == (-n) % 3
  {
  }

  lemma QuadDigits(a: Byte, b: Byte, c: Byte)
    ensures forall k :: 0 <= k < 4 ==> Quad(a, b, c)[k] != '=' && Quad(a, b, c)[k] < 128 as char
  {
    DigitValue(a / 4);
    DigitValue((a % 4) * 16 + b / 16);
    DigitValue((b % 16) * 4 + c / 64);
    DigitValue(c % 64);
  }

  lemma {:induction false} StripPadding(digits: string, pads: nat)
    requires forall k :: 0 <= k < |digits| ==> digits[k] != '='
    ensures Strip(digits + Equals(pads)) == digits
    decreases pads
  {
    var s := digits + Equals(pads);
    if pads == 0 {
      assert s == digits;
    } else {
      StripPadding(digits, pads - 1);
      assert s[..|s| - 1] == digits + Equals(pads - 1);
    }
  }

  lemma PadToFour(m: int)
    ensures (-(m + (-m) % 4)) % 4 == 0
  {
  }

  /** Encoded text is whole quads, so re-padding adds nothing to it. */
  lemma EncodeWhole(bytes: seq<Byte>)
    ensures Repad(Encode(bytes)) == Encode(bytes)
  {
    DigitsLength(bytes);
    PadToFour(|Digits(bytes)|);
    assert Encode(bytes) + Equals(0) == Encode(bytes);
  }

  /** Dropping the padding loses nothing: re-padding restores the encoded text, which decodes to the bytes.
      Text that kept its padding decodes too, since re-padding adds none. */
  lemma RoundTrip(bytes: seq<Byte>)
    ensures Repad(Strip(Encode(bytes))) == Encode(bytes)
    ensures UrlsafeDecode(Repad(Strip(Encode(bytes)))) == Some(bytes)
    ensures UrlsafeDecode(Repad(Encode(bytes))) == Some(bytes)
  {
    NoPadInDigits(bytes);
    DigitsLength(bytes);
    StripPadding(Digits(bytes), (-|bytes|) % 3);
    DecodeEncode(bytes);
    EncodeWhole(bytes);
  }

  /** What is left once everything but the alphabet and padding is taken out. */
  function Clean(s: string): string {
    if s == "" then ""
    else (if s[0] == '=' || Value(s[0]).Some? then [s[0]] else []) + Clean(s[1..])
  }

  lemma {:induction false} DecodeClean(s: string, d: Decoder)
    requires Sane(d)
    ensures Decode(s, d) == Decode(Clean(s), d)
  {
    if s != "" {
      var rest := Clean(s[1..]);
      if s[0] == '=' || Value(s[0]).Some? {
        assert ([s[0]] + rest)[1..] == rest;
        if s[0] != '=' {
          DecodeClean(s[1..], Feed(d, Value(s[0]).value));
        } else {
          DecodeClean(s[1..], d);
          DecodeClean(s[1..], d.(pads := d.pads + 1));
        }
      } else {
        assert [] + rest == rest;
        DecodeClean(s[1..], d);
      }
    }
  }

  /** A single character outside ASCII makes a text unreadable. */
  lemma NonAsciiRefused(s: string, k: nat)
    requires k < |s| && s[k] as int >= 128
    ensures UrlsafeDecode(s).None?
  {
  }

  /** Line breaks and any other ASCII outside the alphabet change nothing. */
  lemma JunkIgnored(s: string)
    requires Ascii(s)
    ensures UrlsafeDecode(s) == UrlsafeDecode(Clean(s))
  {
    DecodeClean(s, Fresh([]));
    CleanAscii(s);
  }

  lemma {:induction false} CleanAscii(s: string)
    requires Ascii(s)
    ensures Ascii(Clean(s))
  {
    if s != "" { CleanAscii(s[1..]); }
  }

  // ----- which unpadded texts decode ----------------------------------------

  predicate InAlphabet(s: string) { forall k :: 0 <= k < |s| ==> Value(s[k]).Some? }

  /** A digit moves the quad on by one. */
  lemma QuadStep(d: Decoder, v: Sextet, length: nat, pads: nat)
    requires Sane(d) && length > 0
    ensures var e := Feed(d, v);
            && e.pads == 0
            && (e.quad + (length - 1)) % 4 == (d.quad + length) % 4
            && (e.quad + (length - 1) + pads) % 4 == (d.quad + length + pads) % 4
  {
  }

  lemma {:induction false} AlphabetTail(s: string, pads: nat, d: Decoder)
    requires InAlphabet(s) && Sane(d) && d.pads == 0 && pads < 4 && (d.quad + |s| + pads) % 4 == 0
    ensures Decode(s + Equals(pads), d).Some? <==> (d.quad + |s|) % 4 != 1
  {
    var t := s + Equals(pads);
    if s == "" {
      assert t == Equals(pads);
      PaddingEnds(pads, d);
    } else {
      var v := Value(s[0]).value;
      assert t[0] == s[0] && t[1..] == s[1..] + Equals(pads);
      QuadStep(d, v, |s|, pads);
      AlphabetTail(s[1..], pads, Feed(d, v));
    }
  }

  /** Unpadded alphabet text decodes after re-padding exactly when its length is not one more than
      a multiple of four; only then does `decode_body` fall back to the empty string. */
  lemma RepadDecodes(data: string)
    requires InAlphabet(data)
    ensures UrlsafeDecode(Repad(data)).Some? <==> |data| % 4 != 1
  {
    AlphabetTail(data, (-|data|) % 4, Fresh([]));
  }
}
