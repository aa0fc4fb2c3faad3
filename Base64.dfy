/**
 * The standard base64 encoding of section 4 of RFC 4648: three bytes become
 * four characters of a 64-character alphabet, and a final group of one or
 * two bytes is padded with `=`. Decoding is the strict form: the length must
 * be a multiple of four, every character must be in the alphabet, and `=`
 * may only pad the final group.
 */
module Base64 {
  import opened Wrappers
  import opened Text

  /** A 6-bit value, the index of one alphabet character. */
  type Sextet = x: int | 0 <= x < 64

  /** The padding character. */
  const Pad: char := '='

  /** Table 1 of section 4 of RFC 4648: `A`-`Z`, `a`-`z`, `0`-`9`, `+`, `/`. */
  function CharOf(x: Sextet): (c: char)
    ensures SextetOf(c) == Some(x)
    ensures c != Pad && c != ' '
  {
    if x < 26 then ('A' as int + x) as char
    else if x < 52 then ('a' as int + x - 26) as char
    else if x < 62 then ('0' as int + x - 52) as char
    else if x == 62 then '+'
    else '/'
  }

  /** The inverse of table 1: the value of an alphabet character, `None` for any other. */
  function SextetOf(c: char): (r: Option<Sextet>)
  {
    if 'A' <= c <= 'Z' then Some(c as int - 'A' as int)
    else if 'a' <= c <= 'z' then Some(c as int - 'a' as int + 26)
    else if '0' <= c <= '9' then Some(c as int - '0' as int + 52)
    else if c == '+' then Some(62)
    else if c == '/' then Some(63)
    else None
  }

  /** The four 6-bit groups of a 24-bit group of three bytes, most significant first. */
  function EncodeGroup(b0: Byte, b1: Byte, b2: Byte): seq<Sextet> {
    [b0 / 4, (b0 % 4) * 16 + b1 / 16, (b1 % 16) * 4 + b2 / 64, b2 % 64]
  }

  /** The three bytes of a 24-bit group given as four 6-bit groups. */
  function DecodeGroup(x0: Sextet, x1: Sextet, x2: Sextet, x3: Sextet): seq<Byte> {
    [x0 * 4 + x1 / 16, (x1 % 16) * 16 + x2 / 4, (x2 % 4) * 64 + x3]
  }

  /** Regrouping the sextets of three bytes gives the three bytes back. */
  lemma DecodeEncodeGroup(b0: Byte, b1: Byte, b2: Byte)
    ensures var x := EncodeGroup(b0, b1, b2);
      DecodeGroup(x[0], x[1], x[2], x[3]) == [b0, b1, b2]
  {
    var x := EncodeGroup(b0, b1, b2);
    assert x[1] / 16 == b0 % 4 && x[1] % 16 == b1 / 16;
    assert x[2] / 4 == b1 % 16 && x[2] % 4 == b2 / 64;
  }

  /** The four characters of a full 24-bit group. */
  function EncodeFull(b0: Byte, b1: Byte, b2: Byte): (q: string)
    ensures |q| == 4
    ensures forall i :: 0 <= i < 4 ==> SextetOf(q[i]).Some? && q[i] != Pad
  {
    var x := EncodeGroup(b0, b1, b2);
    [CharOf(x[0]), CharOf(x[1]), CharOf(x[2]), CharOf(x[3])]
  }

  /** A group of four alphabet characters; `None` if any is outside the alphabet. */
  function DecodeFull(q: string): Option<seq<Byte>>
    requires |q| == 4
  {
    var x0 := SextetOf(q[0]);
    var x1 := SextetOf(q[1]);
    var x2 := SextetOf(q[2]);
    var x3 := SextetOf(q[3]);
    if x0.Some? && x1.Some? && x2.Some? && x3.Some? then
      Some(DecodeGroup(x0.value, x1.value, x2.value, x3.value))
    else None
  }

  /** The last group, which may stand for one byte (`xx==`), two bytes (`xxx=`) or three. */
  function DecodeFinal(q: string): Option<seq<Byte>>
    requires |q| == 4
  {
    var x0 := SextetOf(q[0]);
    var x1 := SextetOf(q[1]);
    var x2 := SextetOf(q[2]);
    if q[2] == Pad && q[3] == Pad then
      if x0.Some? && x1.Some? then Some(DecodeGroup(x0.value, x1.value, 0, 0)[..1]) else None
    else if q[3] == Pad then
      if x0.Some? && x1.Some? && x2.Some? then Some(DecodeGroup(x0.value, x1.value, x2.value, 0)[..2]) else None
    else DecodeFull(q)
  }

  /** The encoding of at most three final bytes: nothing, or one group padded as needed. */
  function EncodeFinal(b: seq<Byte>): (q: string)
    requires |b| <= 3
    ensures |b| > 0 ==> |q| == 4
  {
    if |b| == 0 then ""
    else if |b| == 1 then EncodeFull(b[0], 0, 0)[..2] + [Pad, Pad]
    else if |b| == 2 then EncodeFull(b[0], b[1], 0)[..3] + [Pad]
    else EncodeFull(b[0], b[1], b[2])
  }

  /** The encoding of a byte string: full groups, then the final group. */
  function Encode(b: seq<Byte>): (s: string)
    ensures |b| > 0 ==> |s| >= 4
    decreases |b|
  {
    if |b| <= 3 then EncodeFinal(b)
    else EncodeFull(b[0], b[1], b[2]) + Encode(b[3..])
  }

  /** An encoding consists of alphabet characters and padding only, so it has no space. */
  lemma {:induction false} EncodeAlphabet(b: seq<Byte>)
    ensures forall i :: 0 <= i < |Encode(b)| ==> Encode(b)[i] == Pad || SextetOf(Encode(b)[i]).Some?
    ensures ' ' !in Encode(b)
    decreases |b|
  {
    var s := Encode(b);
    if |b| > 3 {
      EncodeAlphabet(b[3..]);
      var q := EncodeFull(b[0], b[1], b[2]);
      assert s == q + Encode(b[3..]);
      forall i | 0 <= i < |s| ensures s[i] == Pad || SextetOf(s[i]).Some? {
        if i >= 4 { assert s[i] == Encode(b[3..])[i - 4]; }
      }
    }
    assert SextetOf(' ').None?;
  }

  /** Both decodings, concatenated; `None` if either failed. */
  function Concat(first: Option<seq<Byte>>, rest: Option<seq<Byte>>): (r: Option<seq<Byte>>)
    ensures r.Some? <==> first.Some? && rest.Some?
  {
    if first.Some? && rest.Some? then Some(first.value + rest.value) else None
  }

  /** The decoding of at most four final characters. */
  function DecodeLast(s: string): Option<seq<Byte>>
    requires |s| <= 4
  {
    if |s| == 0 then Some([])
    else if |s| < 4 then None
    else DecodeFinal(s)
  }

  /**
   * Strict decoding: `None` when the length is not a multiple of four, when a
   * character is outside the alphabet, or when padding appears anywhere but
   * at the end of the last group.
   */
  function Decode(s: string): Option<seq<Byte>>
    decreases |s|
  {
    if |s| <= 4 then DecodeLast(s)
    else Concat(DecodeFull(s[..4]), Decode(s[4..]))
  }

  /** A string whose length is not a multiple of four is rejected. */
  lemma {:induction false} DecodeRejectsRaggedLength(s: string)
    requires |s| % 4 != 0
    ensures Decode(s).None?
    decreases |s|
  {
    if |s| > 4 {
      DecodeRejectsRaggedLength(s[4..]);
    }
  }

  /** A full group decodes back to its three bytes, also as the last group. */
  lemma DecodeEncodeFull(b0: Byte, b1: Byte, b2: Byte)
    ensures DecodeFull(EncodeFull(b0, b1, b2)) == Some([b0, b1, b2])
    ensures DecodeFinal(EncodeFull(b0, b1, b2)) == Some([b0, b1, b2])
  {
    DecodeEncodeGroup(b0, b1, b2);
  }

  /** The final group decodes back to the final bytes. */
  lemma DecodeEncodeFinal(b: seq<Byte>)
    requires |b| <= 3
    ensures DecodeLast(EncodeFinal(b)) == Some(b)
  {
    if |b| == 1 {
      var x := EncodeGroup(b[0], 0, 0);
      DecodeEncodeGroup(b[0], 0, 0);
      assert EncodeFinal(b) == [CharOf(x[0]), CharOf(x[1]), Pad, Pad];
      assert DecodeGroup(x[0], x[1], 0, 0)[..1] == b;
    } else if |b| == 2 {
      var x := EncodeGroup(b[0], b[1], 0);
      DecodeEncodeGroup(b[0], b[1], 0);
      assert EncodeFinal(b) == [CharOf(x[0]), CharOf(x[1]), CharOf(x[2]), Pad];
      assert DecodeGroup(x[0], x[1], x[2], 0)[..2] == b;
    } else if |b| == 3 {
      DecodeEncodeFull(b[0], b[1], b[2]);
      assert b == [b[0], b[1], b[2]];
    }
  }

  /** A full group followed by more characters decodes group by group. */
  lemma DecodeGroupThen(q: string, tail: string)
    requires |q| == 4 && |tail| > 0
    ensures Decode(q + tail) == Concat(DecodeFull(q), Decode(tail))
  {
    var s := q + tail;
    assert s[..4] == q && s[4..] == tail;
  }

  /** Past the first three bytes, the encoding is one full group followed by the encoding of the rest. */
  lemma EncodeLeadingGroup(b: seq<Byte>)
    requires |b| > 3
    ensures Encode(b) == EncodeFull(b[0], b[1], b[2]) + Encode(b[3..])
    ensures |Encode(b[3..])| > 0
  {
  }

  /** A byte string longer than a group is its first three bytes followed by the rest. */
  lemma FirstGroup(b: seq<Byte>)
    requires |b| > 3
    ensures b == [b[0], b[1], b[2]] + b[3..]
  {
  }

  /** One step of the round trip: a full leading group in front of a tail that decodes to `rest`. */
  lemma DecodeEncodeStep(b: seq<Byte>, tail: string, rest: seq<Byte>)
    requires |b| > 3 && |tail| > 0
    requires Encode(b) == EncodeFull(b[0], b[1], b[2]) + tail
    requires Decode(tail) == Some(rest) && rest == b[3..]
    ensures Decode(Encode(b)) == Some(b)
  {
    DecodeEncodeFull(b[0], b[1], b[2]);
    DecodeGroupThen(EncodeFull(b[0], b[1], b[2]), tail);
    FirstGroup(b);
  }

  /** Decoding an encoding gives the original bytes back. */
  lemma {:induction false} DecodeEncode(b: seq<Byte>)
    ensures Decode(Encode(b)) == Some(b)
    decreases |b|, 1
  {
    if |b| <= 3 {
      assert Encode(b) == EncodeFinal(b);
      assert Decode(EncodeFinal(b)) == DecodeLast(EncodeFinal(b));
      DecodeEncodeFinal(b);
    } else {
      DecodeEncodeLonger(b);
    }
  }

  /** The round trip for more than one group, from the round trip of the bytes after the first group. */
  lemma {:induction false} DecodeEncodeLonger(b: seq<Byte>)
    requires |b| > 3
    ensures Decode(Encode(b)) == Some(b)
    decreases |b|, 0
  {
    DecodeEncode(b[3..]);
    EncodeLeadingGroup(b);
    DecodeEncodeStep(b, Encode(b[3..]), b[3..]);
  }
}
