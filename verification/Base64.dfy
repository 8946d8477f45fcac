/**
 The decoder of section 4 of RFC 4648 as `base64Decode` implements it: a loop over groups of
 four characters with optional padding and early return.

 Characters, codes and bytes are integers. A shift is a multiplication or a division by a
 power of two, a mask that keeps the low bits is a remainder, and an `|` whose operands share
 no bit is a sum.
 */
module Base64 {

  import opened Bytes

  const NOP: Byte := 255  // the table's entry for a character outside the alphabet
  const PAD: Byte := 61   // '='

  /** The 256-entry decoding table. */
  function CodeValue(c: Byte): Byte {
    if 65 <= c <= 90 then c - 65         // 'A'..'Z'
    else if 97 <= c <= 122 then c - 71   // 'a'..'z'
    else if 48 <= c <= 57 then c + 4     // '0'..'9'
    else if c == 43 then 62              // '+'
    else if c == 47 then 63              // '/'
    else NOP
  }

  function Codes(s: seq<Byte>): (r: seq<Byte>)
    ensures |r| == |s|
  {
    seq(|s|, i requires 0 <= i < |s| => CodeValue(s[i]))
  }

  predicate AllInAlphabet(s: seq<Byte>) {
    NOP !in Codes(s)
  }

  /** Position of the first '=' of `s`, or its length. */
  function FirstPad(s: seq<Byte>): (p: nat)
    ensures p <= |s|
    ensures p < |s| ==> s[p] == PAD
    ensures forall i | 0 <= i < p :: s[i] != PAD
  {
    if s == [] || s[0] == PAD then 0 else 1 + FirstPad(s[1..])
  }

  /** The characters before the first '='. */
  function Payload(s: seq<Byte>): (p: seq<Byte>)
    ensures p <= s && PAD !in p
  {
    s[..FirstPad(s)]
  }

  /** The bits of the last code that no output byte uses: four after two codes, two after three. */
  function LeftoverBits(codes: seq<Byte>): Byte {
    if |codes| % 4 == 2 then codes[|codes| - 1] % 16
    else if |codes| % 4 == 3 then codes[|codes| - 1] % 4
    else 0
  }

  /**
   The decoder's language. What follows the first '=' is ignored; a '=' may only stand at
   position 2 or 3 of a group and then the leftover bits must be zero.
   */
  predicate Accepts(s: seq<Byte>) {
    AcceptsCodes(Codes(Payload(s)), Payload(s) != s)
  }

  predicate AcceptsCodes(c: seq<Byte>, padded: bool) {
    && NOP !in c
    && |c| % 4 != 1
    && (padded ==> |c| % 4 != 0 && LeftoverBits(c) == 0)
  }

  // The three output bytes of a group.

  function First(c0: Byte, c1: Byte): Byte { (c0 * 4 + c1 / 16 % 4) % 256 }

  function Second(c1: Byte, c2: Byte): Byte { c1 * 16 % 256 + c2 / 4 % 16 }

  function Third(c2: Byte, c3: Byte): Byte { (c2 * 64 % 256 + c3) % 256 }

  /** The bytes of a string of codes, group by group. */
  function BytesOf(c: seq<Byte>): seq<Byte> {
    if |c| < 2 then []
    else if |c| == 2 then [First(c[0], c[1])]
    else if |c| == 3 then [First(c[0], c[1]), Second(c[1], c[2])]
    else [First(c[0], c[1]), Second(c[1], c[2]), Third(c[2], c[3])] + BytesOf(c[4..])
  }

  lemma {:induction false} BytesOfLength(c: seq<Byte>)
    ensures |BytesOf(c)| == 3 * |c| / 4
  {
    if |c| >= 4 {
      BytesOfLength(c[4..]);
    }
  }

  /** What the decoder leaves in `output` when it accepts `s`. */
  function Decoded(s: seq<Byte>): seq<Byte> {
    BytesOf(Codes(Payload(s)))
  }

  datatype Verdict = Continue | Return(ok: bool)

  /** What one pass of the loop, started at position `i`, appends to the output and whether it returns. */
  function Group(s: seq<Byte>, i: nat): (Verdict, seq<Byte>)
    requires i < |s|
  {
    var c0 := CodeValue(s[i]);
    if c0 == NOP || i + 1 == |s| then (Return(false), [])
    else
      var c1 := CodeValue(s[i + 1]);
      if c1 == NOP then (Return(false), [])
      else if i + 2 == |s| then (Continue, [First(c0, c1)])
      else if s[i + 2] == PAD then (Return(c1 % 16 == 0), [First(c0, c1)])
      else
        var c2 := CodeValue(s[i + 2]);
        if c2 == NOP then (Return(false), [First(c0, c1)])
        else if i + 3 == |s| then (Continue, [First(c0, c1), Second(c1, c2)])
        else if s[i + 3] == PAD then (Return(c2 % 4 == 0), [First(c0, c1), Second(c1, c2)])
        else
          var c3 := CodeValue(s[i + 3]);
          if c3 == NOP then (Return(false), [First(c0, c1), Second(c1, c2)])
          else (Continue, [First(c0, c1), Second(c1, c2), Third(c2, c3)])
  }

  /** The effect of the whole loop on the input from position `i` on. */
  function DecodeFrom(s: seq<Byte>, i: nat): (bool, seq<Byte>)
    decreases |s| - i
  {
    if i >= |s| then (true, [])
    else
      var (verdict, bytes) := Group(s, i);
      if verdict.Return? then (verdict.ok, bytes)
      else
        var (ok, rest) := DecodeFrom(s, i + 4);
        (ok, bytes + rest)
  }

  method Decode(input: seq<Byte>) returns (ok: bool, output: seq<Byte>)
    ensures ok <==> Accepts(input)
    ensures ok ==> output == Decoded(input)
    ensures |output| <= (|input| + 2) / 3 * 4
  {
    output := [];
    var i := 0;
    while i < |input|
      invariant DecodeFrom(input, 0).0 == DecodeFrom(input, i).0
      invariant DecodeFrom(input, 0).1 == output + DecodeFrom(input, i).1
      decreases |input| - i
    {
      var verdict, bytes;
      verdict, i, bytes := DecodeGroup(input, i);
      output := output + bytes;
      if verdict.Return? {
        DecodeMeaning(input);
        return verdict.ok, output;
      }
      i := i + 1;
    }
    DecodeMeaning(input);
    return true, output;
  }

  /** One pass of the loop. */
  method DecodeGroup(input: seq<Byte>, start: nat) returns (verdict: Verdict, i: nat, output: seq<Byte>)
    requires start < |input|
    ensures verdict == Group(input, start).0 && output == Group(input, start).1
    ensures verdict.Continue? ==> i == start + 3
  {
    i, output := start, [];
    var code2: Byte := 0;
    var code0 := CodeValue(input[i]);
    if code0 == NOP {
      return Return(false), i, output;
    }
    i := i + 1;
    if !(i < |input|) {
      return Return(false), i, output;
    }
    var code1 := CodeValue(input[i]);
    if code1 == NOP {
      return Return(false), i, output;
    }
    output := output + [First(code0, code1)];

    i := i + 1;
    if i < |input| {
      if input[i] == PAD {
        return Return(code1 % 16 == 0), i, output;
      }
      code2 := CodeValue(input[i]);
      if code2 == NOP {
        return Return(false), i, output;
      }
      output := output + [Second(code1, code2)];
    }

    i := i + 1;
    if i < |input| {
      if input[i] == PAD {
        return Return(code2 % 4 == 0), i, output;
      }
      var code3 := CodeValue(input[i]);
      if code3 == NOP {
        return Return(false), i, output;
      }
      output := output + [Third(code2, code3)];
    }
    return Continue, i, output;
  }

  lemma DecodeMeaning(s: seq<Byte>)
    ensures DecodeFrom(s, 0).0 <==> Accepts(s)
    ensures Accepts(s) ==> DecodeFrom(s, 0).1 == Decoded(s)
    ensures |DecodeFrom(s, 0).1| <= 3 * |s| / 4
  {
    DecodeFromMeaning(s, 0);
    assert s[0..] == s;
  }

  lemma {:induction false} DecodeFromMeaning(s: seq<Byte>, i: nat)
    requires i <= |s|
    ensures DecodeFrom(s, i).0 <==> Accepts(s[i..])
    ensures Accepts(s[i..]) ==> DecodeFrom(s, i).1 == Decoded(s[i..])
    ensures |DecodeFrom(s, i).1| <= 3 * (|s| - i) / 4
    decreases |s| - i
  {
    var r := s[i..];
    if r == [] {
    } else if |r| < 4 || PAD in r[..4] {
      LastGroup(s, i);
    } else {
      DecodeFromMeaning(s, i + 4);
      FullGroup(s, i);
    }
  }

  /** The input ends, or its first '=' stands, in the group at `i`. */
  lemma LastGroup(s: seq<Byte>, i: nat)
    requires i < |s| && (|s| < i + 4 || PAD in s[i..][..4])
    ensures DecodeFrom(s, i).0 <==> Accepts(s[i..])
    ensures Accepts(s[i..]) ==> DecodeFrom(s, i).1 == Decoded(s[i..])
    ensures |DecodeFrom(s, i).1| <= 3 * (|s| - i) / 4
  {
    if AllInAlphabet(Payload(s[i..])) {
      LastGroupDecodes(s, i);
    } else {
      LastGroupRejects(s, i);
    }
  }

  lemma LastGroupDecodes(s: seq<Byte>, i: nat)
    requires i < |s| && (|s| < i + 4 || PAD in s[i..][..4])
    requires AllInAlphabet(Payload(s[i..]))
    ensures DecodeFrom(s, i).0 <==> Accepts(s[i..])
    ensures DecodeFrom(s, i).1 == Decoded(s[i..])
  {
    PayloadOfLastGroup(s[i..]);
    var n := |Payload(s[i..])|;
    if n == 0 {
      NoCode(s, i);
    } else if n == 1 {
      OneCode(s, i);
    } else if n == 2 {
      TwoCodes(s, i);
    } else {
      ThreeCodes(s, i);
    }
  }

  lemma NoCode(s: seq<Byte>, i: nat)
    requires i < |s| && (|s| < i + 4 || PAD in s[i..][..4])
    requires AllInAlphabet(Payload(s[i..])) && |Payload(s[i..])| == 0
    ensures DecodeFrom(s, i).0 <==> Accepts(s[i..])
    ensures DecodeFrom(s, i).1 == Decoded(s[i..])
  {
    PayloadOfLastGroup(s[i..]);
  }

  lemma OneCode(s: seq<Byte>, i: nat)
    requires i < |s| && (|s| < i + 4 || PAD in s[i..][..4])
    requires AllInAlphabet(Payload(s[i..])) && |Payload(s[i..])| == 1
    ensures DecodeFrom(s, i).0 <==> Accepts(s[i..])
    ensures DecodeFrom(s, i).1 == Decoded(s[i..])
  {
    PayloadOfLastGroup(s[i..]);
    var c := Codes(Payload(s[i..]));
    assert c[0] in c;
  }

  lemma TwoCodes(s: seq<Byte>, i: nat)
    requires i < |s| && (|s| < i + 4 || PAD in s[i..][..4])
    requires AllInAlphabet(Payload(s[i..])) && |Payload(s[i..])| == 2
    ensures DecodeFrom(s, i).0 <==> Accepts(s[i..])
    ensures DecodeFrom(s, i).1 == Decoded(s[i..])
  {
    PayloadOfLastGroup(s[i..]);
    var c := Codes(Payload(s[i..]));
    assert c[0] in c && c[1] in c;
  }

  lemma ThreeCodes(s: seq<Byte>, i: nat)
    requires i < |s| && (|s| < i + 4 || PAD in s[i..][..4])
    requires AllInAlphabet(Payload(s[i..])) && |Payload(s[i..])| == 3
    ensures DecodeFrom(s, i).0 <==> Accepts(s[i..])
    ensures DecodeFrom(s, i).1 == Decoded(s[i..])
  {
    PayloadOfLastGroup(s[i..]);
    var c := Codes(Payload(s[i..]));
    assert c[0] in c && c[1] in c && c[2] in c;
  }

  lemma LastGroupRejects(s: seq<Byte>, i: nat)
    requires i < |s| && (|s| < i + 4 || PAD in s[i..][..4])
    requires !AllInAlphabet(Payload(s[i..]))
    ensures !DecodeFrom(s, i).0
    ensures |DecodeFrom(s, i).1| <= 3 * (|s| - i) / 4
  {
    PayloadOfLastGroup(s[i..]);
  }

  lemma PayloadOfLastGroup(r: seq<Byte>)
    requires r != [] && (|r| < 4 || PAD in r[..4])
    ensures Payload(r) == r[..if r[0] == PAD then 0 else if |r| == 1 || r[1] == PAD then 1
                              else if |r| == 2 || r[2] == PAD then 2 else 3]
  {
  }

  /** The group at `i` has four characters and no '='. */
  lemma FullGroup(s: seq<Byte>, i: nat)
    requires i + 4 <= |s| && PAD !in s[i..][..4]
    requires DecodeFrom(s, i + 4).0 <==> Accepts(s[i + 4..])
    requires Accepts(s[i + 4..]) ==> DecodeFrom(s, i + 4).1 == Decoded(s[i + 4..])
    requires |DecodeFrom(s, i + 4).1| <= 3 * (|s| - i - 4) / 4
    ensures DecodeFrom(s, i).0 <==> Accepts(s[i..])
    ensures Accepts(s[i..]) ==> DecodeFrom(s, i).1 == Decoded(s[i..])
    ensures |DecodeFrom(s, i).1| <= 3 * (|s| - i) / 4
  {
    var r := s[i..];
    assert r[4..] == s[i + 4..];
    AcceptsGroup(r);
    var c := Codes(r[..4]);
    assert c == [CodeValue(s[i]), CodeValue(s[i + 1]), CodeValue(s[i + 2]), CodeValue(s[i + 3])];
  }

  lemma PayloadOfGroup(r: seq<Byte>)
    requires |r| >= 4 && PAD !in r[..4]
    ensures Payload(r) == r[..4] + Payload(r[4..])
  {
    assert forall k | 0 <= k < 4 :: r[k] == r[..4][k];
  }

  lemma AcceptsGroup(r: seq<Byte>)
    requires |r| >= 4 && PAD !in r[..4]
    ensures Accepts(r) <==> AllInAlphabet(r[..4]) && Accepts(r[4..])
    ensures Decoded(r) == BytesOf(Codes(r[..4])) + Decoded(r[4..])
  {
    PayloadOfGroup(r);
    var c, d := Codes(r[..4]), Codes(Payload(r[4..]));
    assert Codes(Payload(r)) == c + d;
    assert Payload(r) == r <==> Payload(r[4..]) == r[4..];
    AcceptsConcat(c, d, Payload(r) != r);
    BytesOfConcat(c, d);
  }

  lemma AcceptsConcat(c: seq<Byte>, d: seq<Byte>, padded: bool)
    requires |c| == 4
    ensures AcceptsCodes(c + d, padded) <==> NOP !in c && AcceptsCodes(d, padded)
  {
    assert (c + d)[4..] == d;
    LeftoverOfTail(c + d);
  }

  lemma BytesOfConcat(c: seq<Byte>, d: seq<Byte>)
    requires |c| == 4
    ensures BytesOf(c + d) == BytesOf(c) + BytesOf(d)
  {
    assert (c + d)[4..] == d;
  }

  /** Nothing after the first '=' is read. */
  lemma TailIgnored(s: seq<Byte>, tail: seq<Byte>)
    requires PAD in s
    ensures Accepts(s) <==> Accepts(Payload(s) + [PAD] + tail)
    ensures Decoded(Payload(s) + [PAD] + tail) == Decoded(s)
  {
    FirstPadOfConcat(Payload(s), [PAD] + tail);
    assert Payload(s) + [PAD] + tail == Payload(s) + ([PAD] + tail);
  }

  /** On input without '=' only the alphabet and the length decide. */
  lemma PlainLanguage(s: seq<Byte>)
    requires PAD !in s
    ensures Accepts(s) <==> AllInAlphabet(s) && |s| % 4 != 1
    ensures |Decoded(s)| == 3 * |s| / 4
  {
    assert Payload(s) == s;
    BytesOfLength(Codes(s));
  }

  lemma FirstPadOfConcat(body: seq<Byte>, rest: seq<Byte>)
    requires PAD !in body && (rest != [] ==> rest[0] == PAD)
    ensures Payload(body + rest) == body
  {
    var s := body + rest;
    assert forall k | 0 <= k < |body| :: s[k] == body[k];
    assert rest != [] ==> s[|body|] == PAD;
  }

  predicate IsCodes(c: seq<Byte>) {
    forall i | 0 <= i < |c| :: c[i] < 64
  }

  function CodeNumber(c0: int, c1: int, c2: int, c3: int): int {
    c0 * 262144 + c1 * 4096 + c2 * 64 + c3
  }

  function ByteNumber(b0: int, b1: int, b2: int): int {
    b0 * 65536 + b1 * 256 + b2
  }

  /**
   Section 4 of RFC 4648 reads a group of four codes as one 24-bit number and that number as three
   bytes. `left` is what a final group of two or three codes holds beyond its one or two bytes.
   */
  predicate Represents(c: seq<Byte>, b: seq<Byte>, left: nat) {
    match |c|
    case 0 => b == [] && left == 0
    case 1 => false
    case 2 => |b| == 1 && left < 16 && CodeNumber(0, 0, c[0], c[1]) == ByteNumber(0, 0, b[0]) * 16 + left
    case 3 => |b| == 2 && left < 4 && CodeNumber(0, c[0], c[1], c[2]) == ByteNumber(0, b[0], b[1]) * 4 + left
    case _ =>
      && |b| >= 3
      && CodeNumber(c[0], c[1], c[2], c[3]) == ByteNumber(b[0], b[1], b[2])
      && Represents(c[4..], b[3..], left)
  }

  /** The codes determine the bytes and the leftover. */
  lemma {:induction false} BytesUnique(c: seq<Byte>, b: seq<Byte>, left: nat, b': seq<Byte>, left': nat)
    requires Represents(c, b, left) && Represents(c, b', left')
    ensures b == b' && left == left'
  {
    if |c| >= 4 {
      BytesUnique(c[4..], b[3..], left, b'[3..], left');
      ByteDigitsUnique(b[0], b[1], b[2], b'[0], b'[1], b'[2], 0, 0, 1);
      assert b == b[..3] + b[3..] && b' == b'[..3] + b'[3..];
    } else if |c| == 3 {
      ByteDigitsUnique(0, b[0], b[1], 0, b'[0], b'[1], left, left', 4);
    } else if |c| == 2 {
      ByteDigitsUnique(0, 0, b[0], 0, 0, b'[0], left, left', 16);
    }
  }

  lemma ByteDigitsUnique(a: Byte, b: Byte, c: Byte, a': Byte, b': Byte, c': Byte, left: nat, left': nat, w: nat)
    requires (w == 1 || w == 4 || w == 16) && left < w && left' < w
    requires ByteNumber(a, b, c) * w + left == ByteNumber(a', b', c') * w + left'
    ensures a == a' && b == b' && c == c' && left == left'
  {
    var n, n' := ByteNumber(a, b, c), ByteNumber(a', b', c');
    QuotientUnique(n, left, n', left', w);
    QuotientUnique(a * 256 + b, c, a' * 256 + b', c', 256);
    QuotientUnique(a, b, a', b', 256);
  }

  lemma QuotientUnique(q: int, r: int, q': int, r': int, w: int)
    requires w == 1 || w == 4 || w == 16 || w == 64 || w == 256
    requires 0 <= r < w && 0 <= r' < w && q * w + r == q' * w + r'
    ensures q == q' && r == r'
  {
    if w == 1 {
    } else if w == 4 {
    } else if w == 16 {
    } else if w == 64 {
    }
  }

  /** The bytes and the leftover determine the codes. */
  lemma {:induction false} CodesUnique(c: seq<Byte>, c': seq<Byte>, b: seq<Byte>, left: nat)
    requires IsCodes(c) && IsCodes(c')
    requires Represents(c, b, left) && Represents(c', b, left)
    ensures c == c'
  {
    if |c| >= 4 {
      CodesUnique(c[4..], c'[4..], b[3..], left);
      DigitsUnique(c[0], c[1], c[2], c[3], c'[0], c'[1], c'[2], c'[3]);
      assert c == c[..4] + c[4..] && c' == c'[..4] + c'[4..];
    } else if |c| == 3 {
      DigitsUnique(0, c[0], c[1], c[2], 0, c'[0], c'[1], c'[2]);
    } else if |c| == 2 {
      DigitsUnique(0, 0, c[0], c[1], 0, 0, c'[0], c'[1]);
    }
  }

  lemma DigitsUnique(a: int, b: int, c: int, d: int, a': int, b': int, c': int, d': int)
    requires 0 <= a < 64 && 0 <= b < 64 && 0 <= c < 64 && 0 <= d < 64
    requires 0 <= a' < 64 && 0 <= b' < 64 && 0 <= c' < 64 && 0 <= d' < 64
    requires CodeNumber(a, b, c, d) == CodeNumber(a', b', c', d')
    ensures a == a' && b == b' && c == c' && d == d'
  {
    QuotientUnique(a * 4096 + b * 64 + c, d, a' * 4096 + b' * 64 + c', d', 64);
    QuotientUnique(a * 64 + b, c, a' * 64 + b', c', 64);
    QuotientUnique(a, b, a', b', 64);
  }

  /** Decoding reads the groups as the RFC does. */
  lemma {:induction false} DecodedGroups(c: seq<Byte>)
    requires IsCodes(c) && |c| % 4 != 1
    ensures Represents(c, BytesOf(c), LeftoverBits(c))
  {
    if |c| >= 4 {
      DecodedGroups(c[4..]);
      LeftoverOfTail(c);
      JoinsAreDigits(c[0], c[1], c[2], c[3]);
      assert BytesOf(c)[3..] == BytesOf(c[4..]);
    } else if |c| == 3 {
      JoinsAreDigits(c[0], c[1], c[2], 0);
    } else if |c| == 2 {
      JoinsAreDigits(c[0], c[1], 0, 0);
    }
  }

  lemma LeftoverOfTail(c: seq<Byte>)
    requires |c| >= 4
    ensures LeftoverBits(c) == LeftoverBits(c[4..])
  {
  }

  lemma JoinsAreDigits(c0: Byte, c1: Byte, c2: Byte, c3: Byte)
    requires c0 < 64 && c1 < 64 && c2 < 64 && c3 < 64
    ensures First(c0, c1) * 16 + c1 % 16 == c0 * 64 + c1
    ensures Second(c1, c2) * 4 + c2 % 4 == c1 % 16 * 64 + c2
    ensures Third(c2, c3) == c2 % 4 * 64 + c3
  {
    FirstIsDigits(c0, c1);
    SecondIsDigits(c1, c2);
    ThirdIsDigits(c2, c3);
  }

  lemma FirstIsDigits(c0: Byte, c1: Byte)
    requires c0 < 64 && c1 < 64
    ensures First(c0, c1) * 16 + c1 % 16 == c0 * 64 + c1
  {
    var q: int := c1 / 16;
    assert c1 == 16 * q + c1 % 16 && q < 4;
  }

  lemma LowByte(x: int, q: int, r: int)
    requires x == 256 * q + r && 0 <= r < 256
    ensures x % 256 == r
  {
  }

  lemma SecondIsDigits(c1: Byte, c2: Byte)
    requires c1 < 64 && c2 < 64
    ensures Second(c1, c2) * 4 + c2 % 4 == c1 % 16 * 64 + c2
  {
    LowByte(c1 * 16, c1 / 16, c1 % 16 * 16);
    assert c2 / 4 < 16;
  }

  lemma ThirdIsDigits(c2: Byte, c3: Byte)
    requires c2 < 64 && c3 < 64
    ensures Third(c2, c3) == c2 % 4 * 64 + c3
  {
    LowByte(c2 * 64, c2 / 4, c2 % 4 * 64);
  }

  // The encoder of section 4 of RFC 4648, the decoder's reference.

  function CodeChar(v: Byte): Byte
    requires v < 64
  {
    if v < 26 then v + 65 else if v < 52 then v + 71 else if v < 62 then v - 4 else if v == 62 then 43 else 47
  }

  /** Table 1 of the RFC, for the encoder and the decoder. */
  lemma TableOfRfc(v: Byte)
    ensures v < 26 ==> CodeChar(v) as char == 'A' + v as char && CodeValue('A' as int + v) == v
    ensures 26 <= v < 52 ==> CodeChar(v) as char == 'a' + (v - 26) as char && CodeValue('a' as int + v - 26) == v
    ensures 52 <= v < 62 ==> CodeChar(v) as char == '0' + (v - 52) as char && CodeValue('0' as int + v - 52) == v
    ensures CodeChar(62) as char == '+' && CodeValue('+' as int) == 62
    ensures CodeChar(63) as char == '/' && CodeValue('/' as int) == 63
    ensures PAD as char == '='
    ensures var c := v as char;
      CodeValue(v) < 64 <==> 'A' <= c <= 'Z' || 'a' <= c <= 'z' || '0' <= c <= '9' || c == '+' || c == '/'
    ensures CodeValue(v) >= 64 ==> CodeValue(v) == NOP
  {
  }

  function Chars(c: seq<Byte>): (s: seq<Byte>)
    requires IsCodes(c)
    ensures |s| == |c|
  {
    seq(|c|, i requires 0 <= i < |c| => CodeChar(c[i]))
  }

  lemma CodeTable(v: Byte)
    ensures v < 64 ==> CodeValue(CodeChar(v)) == v && CodeChar(v) != PAD
    ensures CodeValue(v) != NOP ==> CodeValue(v) < 64 && CodeChar(CodeValue(v)) == v
  {
  }

  lemma CharsMeaning(c: seq<Byte>)
    requires IsCodes(c)
    ensures Codes(Chars(c)) == c && AllInAlphabet(Chars(c)) && PAD !in Chars(c)
  {
    forall i | 0 <= i < |c|
      ensures CodeValue(Chars(c)[i]) == c[i] && Chars(c)[i] != PAD
    {
      CodeTable(c[i]);
    }
  }

  lemma CodesMeaning(s: seq<Byte>)
    requires AllInAlphabet(s)
    ensures IsCodes(Codes(s)) && Chars(Codes(s)) == s
  {
    forall i | 0 <= i < |s|
      ensures Codes(s)[i] < 64 && CodeChar(Codes(s)[i]) == s[i]
    {
      CodeTable(s[i]);
      assert Codes(s)[i] in Codes(s);
    }
  }

  /** The 6-bit groups of `b`; the last one is filled with zero bits. */
  function CodesOf(b: seq<Byte>): (c: seq<Byte>)
    ensures IsCodes(c)
  {
    if b == [] then []
    else if |b| == 1 then [b[0] / 4, b[0] % 4 * 16]
    else if |b| == 2 then [b[0] / 4, b[0] % 4 * 16 + b[1] / 16, b[1] % 16 * 4]
    else [b[0] / 4, b[0] % 4 * 16 + b[1] / 16, b[1] % 16 * 4 + b[2] / 64, b[2] % 64] + CodesOf(b[3..])
  }

  function Padding(length: nat): seq<Byte> {
    if length % 4 == 2 then [PAD, PAD] else if length % 4 == 3 then [PAD] else []
  }

  function Encode(b: seq<Byte>, padded: bool): seq<Byte> {
    Chars(CodesOf(b)) + if padded then Padding(|CodesOf(b)|) else []
  }

  lemma {:induction false} EncodedGroups(b: seq<Byte>)
    ensures Represents(CodesOf(b), b, 0)
  {
    if |b| >= 3 {
      EncodedGroups(b[3..]);
      assert CodesOf(b)[4..] == CodesOf(b[3..]);
    }
  }

  lemma BytesOfCodesOf(b: seq<Byte>)
    ensures BytesOf(CodesOf(b)) == b
    ensures |CodesOf(b)| % 4 != 1 && LeftoverBits(CodesOf(b)) == 0
  {
    EncodedGroups(b);
    CodesOfLength(b);
    DecodedGroups(CodesOf(b));
    BytesUnique(CodesOf(b), b, 0, BytesOf(CodesOf(b)), LeftoverBits(CodesOf(b)));
  }

  lemma CodesOfBytesOf(c: seq<Byte>)
    requires IsCodes(c) && |c| % 4 != 1
    ensures CodesOf(BytesOf(c)) == c <==> LeftoverBits(c) == 0
  {
    EncodedGroups(BytesOf(c));
    DecodedGroups(c);
    if LeftoverBits(c) == 0 {
      CodesUnique(c, CodesOf(BytesOf(c)), BytesOf(c), 0);
    } else if CodesOf(BytesOf(c)) == c {
      BytesUnique(c, BytesOf(c), 0, BytesOf(c), LeftoverBits(c));
    }
  }

  /** Decoding what the encoder of the RFC produced, padded or not, is accepted and gives the bytes back. */
  lemma DecodeOfEncode(b: seq<Byte>, padded: bool)
    ensures Accepts(Encode(b, padded))
    ensures Decoded(Encode(b, padded)) == b
  {
    EncodedPayload(b, padded);
    BytesOfCodesOf(b);
    CodesOfLength(b);
  }

  lemma {:induction false} CodesOfLength(b: seq<Byte>)
    ensures |CodesOf(b)| % 4 != 1
  {
    if |b| >= 3 {
      CodesOfLength(b[3..]);
    }
  }

  lemma EncodedPayload(b: seq<Byte>, padded: bool)
    ensures Payload(Encode(b, padded)) == Chars(CodesOf(b))
    ensures Codes(Payload(Encode(b, padded))) == CodesOf(b) && AllInAlphabet(Payload(Encode(b, padded)))
  {
    CharsMeaning(CodesOf(b));
    FirstPadOfConcat(Chars(CodesOf(b)), if padded then Padding(|CodesOf(b)|) else []);
  }

  /** An accepted input without '=' is the encoding of its output exactly when no leftover bit is set. */
  lemma EncodeOfDecode(s: seq<Byte>)
    requires Accepts(s)
    ensures Encode(Decoded(s), false) == s <==> PAD !in s && LeftoverBits(Codes(s)) == 0
  {
    CodesMeaning(Payload(s));
    CodesOfBytesOf(Codes(Payload(s)));
    CharsMeaning(CodesOf(Decoded(s)));
    assert PAD !in s ==> Payload(s) == s;
  }

  /** `s` has whole groups and ends in exactly the padding that completes the last one. */
  predicate CanonicallyPadded(s: seq<Byte>) {
    s == Payload(s) + Padding(|Payload(s)|) && |s| % 4 == 0
  }

  lemma EncodeOfDecodePadded(s: seq<Byte>)
    requires Accepts(s)
    ensures Encode(Decoded(s), true) == s <==> CanonicallyPadded(s)
  {
    var c := Codes(Payload(s));
    CodesMeaning(Payload(s));
    CodesOfBytesOf(c);
    EncodedPayload(Decoded(s), true);
    if CodesOf(BytesOf(c)) == c {
      PaddedEncoding(s);
    } else {
      assert Codes(Payload(Encode(Decoded(s), true))) != c;
    }
  }

  lemma PaddedEncoding(s: seq<Byte>)
    requires Accepts(s) && CodesOf(Decoded(s)) == Codes(Payload(s))
    ensures Encode(Decoded(s), true) == Payload(s) + Padding(|Payload(s)|)
    ensures (|Payload(s)| + |Padding(|Payload(s)|)|) % 4 == 0
  {
    var p := Payload(s);
    CodesMeaning(p);
    assert |Codes(p)| == |p|;
    PaddingCompletes(|p|);
  }

  lemma PaddingCompletes(n: nat)
    requires n % 4 != 1
    ensures (n + |Padding(n)|) % 4 == 0
  {
  }

  /** On canonically padded inputs no two accepted strings decode to the same bytes. */
  lemma DecodeInjective(s: seq<Byte>, t: seq<Byte>)
    requires Accepts(s) && Accepts(t) && CanonicallyPadded(s) && CanonicallyPadded(t)
    requires Decoded(s) == Decoded(t)
    ensures s == t
  {
    EncodeOfDecodePadded(s);
    EncodeOfDecodePadded(t);
  }
}
