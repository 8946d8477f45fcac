/** Percent-encoding, sections 2.1 and 2.3 of RFC 3986, as `urlEncode` writes it. */
module UrlEncode {

  import opened Bytes
  import opened Options

  const PERCENT: Byte := 37

  /** `isalnum` of the C locale and the four marks; these are the unreserved characters of RFC 3986. */
  predicate Unreserved(c: Byte) {
    || 48 <= c <= 57                            // digits
    || 65 <= c <= 90                            // 'A'..'Z'
    || 97 <= c <= 122                           // 'a'..'z'
    || c == 45 || c == 95 || c == 46 || c == 126  // '-' '_' '.' '~'
  }

  /** An upper-case hexadecimal digit. */
  function HexDigit(v: Byte): Byte
    requires v < 16
  {
    if v < 10 then v + 48 else v + 55
  }

  function Encoded(c: Byte): seq<Byte> {
    if Unreserved(c) then [c] else [PERCENT, HexDigit(c / 16), HexDigit(c % 16)]
  }

  /** The encoding of every byte in turn. */
  function EncodedAll(value: seq<Byte>): seq<Byte> {
    if value == [] then [] else Encoded(value[0]) + EncodedAll(value[1..])
  }

  method Encode(value: seq<Byte>) returns (escaped: seq<Byte>)
    ensures escaped == EncodedAll(value)
  {
    escaped := [];
    assert value[0..] == value;
    for i := 0 to |value|
      invariant EncodedAll(value) == escaped + EncodedAll(value[i..])
    {
      EncodedStep(value, i, escaped);
      var c := value[i];
      if Unreserved(c) {
        escaped := escaped + [c];
        continue;
      }
      escaped := escaped + [PERCENT, HexDigit(c / 16), HexDigit(c % 16)];
    }
  }

  lemma EncodedStep(value: seq<Byte>, i: nat, before: seq<Byte>)
    requires i < |value|
    ensures before + EncodedAll(value[i..]) == (before + Encoded(value[i])) + EncodedAll(value[i + 1..])
  {
    assert value[i..][1..] == value[i + 1..];
  }

  /** In characters: letters, digits and the four marks stay, any other byte is written in upper-case hexadecimal. */
  ghost predicate Stays(c: char) {
    'A' <= c <= 'Z' || 'a' <= c <= 'z' || '0' <= c <= '9' || c in "-._~"
  }

  ghost predicate IsUpperDigit(c: char, v: int) {
    (0 <= v < 10 && c as int == '0' as int + v) || (10 <= v < 16 && c as int == 'A' as int + v - 10)
  }

  ghost predicate IsEncodingOf(s: seq<Byte>, c: Byte) {
    if Stays(c as char) then s == [c]
    else
      && |s| == 3 && s[0] as char == '%'
      && IsUpperDigit(s[1] as char, c / 16) && IsUpperDigit(s[2] as char, c % 16)
  }

  lemma OneEncoded(c: Byte)
    ensures EncodedAll([c]) == Encoded(c) && IsEncodingOf(EncodedAll([c]), c)
  {
    assert [c][1..] == [];
  }

  /** What is encoded one after the other is encoded together. */
  lemma {:induction false} EncodedConcat(x: seq<Byte>, y: seq<Byte>)
    ensures EncodedAll(x + y) == EncodedAll(x) + EncodedAll(y)
  {
    if x == [] {
      assert x + y == y;
    } else {
      EncodedConcat(x[1..], y);
      assert x + y == [x[0]] + (x[1..] + y) && x == [x[0]] + x[1..];
      EncodedHead(x[0], x[1..] + y);
      EncodedHead(x[0], x[1..]);
      Associative(EncodedAll([x[0]]), EncodedAll(x[1..]), EncodedAll(y));
    }
  }

  lemma EncodedHead(c: Byte, rest: seq<Byte>)
    ensures EncodedAll([c] + rest) == EncodedAll([c]) + EncodedAll(rest)
  {
    OneEncoded(c);
    assert ([c] + rest)[1..] == rest;
  }

  lemma Associative(a: seq<Byte>, b: seq<Byte>, c: seq<Byte>)
    ensures (a + b) + c == a + (b + c)
  {
  }

  /** In characters, whatever comes before and behind a byte. */
  lemma EncodedInCharacters(x: seq<Byte>, c: Byte, y: seq<Byte>)
    ensures EncodedAll([]) == []
    ensures IsEncodingOf(EncodedAll([c]), c)
    ensures EncodedAll(x + [c] + y) == EncodedAll(x) + EncodedAll([c]) + EncodedAll(y)
  {
    OneEncoded(c);
    EncodedConcat(x + [c], y);
    EncodedConcat(x, [c]);
  }

  // The decoder of RFC 3986, the encoder's reference.

  /** The value of a hexadecimal digit in either case. */
  function HexValue(c: Byte): Option<Byte> {
    if 48 <= c <= 57 then Some(c - 48)
    else if 65 <= c <= 70 then Some(c - 55)
    else if 97 <= c <= 102 then Some(c - 87)
    else None
  }

  function PercentDecode(s: seq<Byte>): Option<seq<Byte>> {
    if s == [] then Some([])
    else if s[0] != PERCENT then
      match PercentDecode(s[1..])
      case None => None
      case Some(rest) => Some([s[0]] + rest)
    else if |s| < 3 || HexValue(s[1]).None? || HexValue(s[2]).None? then None
    else
      match PercentDecode(s[3..])
      case None => None
      case Some(rest) => Some([HexValue(s[1]).value * 16 + HexValue(s[2]).value] + rest)
  }

  lemma DecodeStep(c: Byte, rest: seq<Byte>)
    requires PercentDecode(rest).Some?
    ensures PercentDecode(Encoded(c) + rest) == Some([c] + PercentDecode(rest).value)
  {
    var s := Encoded(c) + rest;
    if Unreserved(c) {
      assert s[0] == c && s[1..] == rest;
    } else {
      assert s[0] == PERCENT && s[3..] == rest;
      assert HexValue(s[1]) == Some(c / 16) && HexValue(s[2]) == Some(c % 16);
    }
  }

  lemma {:induction false} DecodeOfEncode(x: seq<Byte>)
    ensures PercentDecode(EncodedAll(x)) == Some(x)
  {
    if x != [] {
      DecodeOfEncode(x[1..]);
      DecodeStep(x[0], EncodedAll(x[1..]));
      assert x == [x[0]] + x[1..];
    }
  }

  lemma EncodeInjective(x: seq<Byte>, y: seq<Byte>)
    requires EncodedAll(x) == EncodedAll(y)
    ensures x == y
  {
    DecodeOfEncode(x);
    DecodeOfEncode(y);
  }

  /** `s` consists of unreserved characters and upper-case "%HH" triples. */
  predicate WellFormed(s: seq<Byte>) {
    s == []
    || (Unreserved(s[0]) && WellFormed(s[1..]))
    || (|s| >= 3 && s[0] == PERCENT && UpperHex(s[1]) && UpperHex(s[2]) && WellFormed(s[3..]))
  }

  predicate UpperHex(c: Byte) {
    48 <= c <= 57 || 65 <= c <= 70
  }

  function Escapes(x: seq<Byte>): nat {
    if x == [] then 0 else (if Unreserved(x[0]) then 0 else 1) + Escapes(x[1..])
  }

  lemma {:induction false} EncodedShape(x: seq<Byte>)
    ensures WellFormed(EncodedAll(x))
    ensures |EncodedAll(x)| == |x| + 2 * Escapes(x)
  {
    if x != [] {
      EncodedShape(x[1..]);
      var s := EncodedAll(x);
      assert s[if Unreserved(x[0]) then 1 else 3..] == EncodedAll(x[1..]);
    }
  }
}
