/** UTF-8 as `Buffer` reads and measures it: decoding with replacement, encoding, and byte lengths. */
module Utf8 {
  import opened Sorting

  type Byte = b: int | 0 <= b < 256

  const REPLACEMENT: char := '\U{FFFD}'
  const LF: Byte := 10

  function EncodeChar(c: char): (bs: seq<Byte>)
    ensures bs != []
    ensures c == '\n' ==> bs == [LF]
    ensures c != '\n' ==> LF !in bs
    ensures forall i :: 1 <= i < |bs| ==> bs[i] >= 0x80
  {
    var n := c as int;
    if n < 0x80 then [n]
    else if n < 0x800 then [0xC0 + n / 64, 0x80 + n % 64]
    else if n < 0x10000 then [0xE0 + n / 4096, 0x80 + n / 64 % 64, 0x80 + n % 64]
    else [0xF0 + n / 262144, 0x80 + n / 4096 % 64, 0x80 + n / 64 % 64, 0x80 + n % 64]
  }

  function Encode(s: string): seq<Byte> { if s == [] then [] else EncodeChar(s[0]) + Encode(s[1..]) }

  /** How many bytes may follow a lead byte, and the range of the first of them (section 3 of RFC 3629). */
  function Tail(lead: Byte): nat {
    if 0xC2 <= lead <= 0xDF then 1 else if 0xE0 <= lead <= 0xEF then 2 else if 0xF0 <= lead <= 0xF4 then 3 else 0
  }

  function Lowest(lead: Byte): Byte { if lead == 0xE0 then 0xA0 else if lead == 0xF0 then 0x90 else 0x80 }

  function Highest(lead: Byte): Byte { if lead == 0xED then 0x9F else if lead == 0xF4 then 0x8F else 0xBF }

  predicate Follows(lead: Byte, i: nat, b: Byte) {
    if i == 1 then Lowest(lead) <= b <= Highest(lead) else 0x80 <= b <= 0xBF
  }

  /** How far a sequence that starts at the first byte goes before it is complete or broken off. */
  function Extent(bs: seq<Byte>, i: nat): (e: nat)
    requires bs != [] && 1 <= i <= |bs|
    ensures i <= e <= |bs|
    ensures e <= i || e <= 1 + Tail(bs[0])
    decreases |bs| - i
  {
    if i <= Tail(bs[0]) && i < |bs| && Follows(bs[0], i, bs[i]) then Extent(bs, i + 1) else i
  }

  /** The payload of a byte. */
  function Bits(b: Byte, marker: int): int { b as int - marker }

  /** The code point of a complete sequence. */
  function Scalar(bs: seq<Byte>): int {
    if |bs| == 1 then bs[0]
    else if |bs| == 2 then Bits(bs[0], 0xC0) * 64 + Bits(bs[1], 0x80)
    else if |bs| == 3 then Bits(bs[0], 0xE0) * 4096 + Bits(bs[1], 0x80) * 64 + Bits(bs[2], 0x80)
    else if |bs| == 4 then
      Bits(bs[0], 0xF0) * 262144 + Bits(bs[1], 0x80) * 4096 + Bits(bs[2], 0x80) * 64 + Bits(bs[3], 0x80)
    else 0
  }

  predicate IsScalar(n: int) { 0 <= n < 0xD800 || 0xE000 <= n < 0x110000 }

  /** The first byte begins a sequence that is complete. */
  predicate Whole(bs: seq<Byte>)
    requires bs != []
  {
    bs[0] < 0x80 || (Tail(bs[0]) > 0 && Extent(bs, 1) == 1 + Tail(bs[0]))
  }

  /** One character: a complete sequence, or a replacement for what was broken off. */
  function FirstChar(bs: seq<Byte>): (c: char)
    requires bs != []
  {
    var n := Scalar(bs[..Extent(bs, 1)]);
    if Whole(bs) && IsScalar(n) then n as char else REPLACEMENT
  }

  function Decode(bs: seq<Byte>): string
    decreases |bs|
  {
    if bs == [] then [] else [FirstChar(bs)] + Decode(bs[Extent(bs, 1)..])
  }

  // ---------------------------------------------------------------- newlines

  /** A newline byte never continues a sequence: decoding stops at it as at the end of the input. */
  lemma {:induction false} ExtentAtNewline(a: seq<Byte>, b: seq<Byte>, i: nat)
    requires a != [] && 1 <= i <= |a|
    ensures Extent(a + ([LF] + b), i) == Extent(a, i)
    decreases |a| - i
  {
    var s := a + ([LF] + b);
    assert s[0] == a[0];
    if i < |a| {
      assert s[i] == a[i];
      ExtentAtNewline(a, b, i + 1);
    } else {
      assert s[i] == LF;
    }
  }

  /** So decoding can be cut at newlines, whatever the bytes are. */
  lemma {:induction false} DecodeAtNewline(a: seq<Byte>, b: seq<Byte>)
    ensures Decode(a + ([LF] + b)) == Decode(a) + (['\n'] + Decode(b))
    decreases |a|
  {
    var s := a + ([LF] + b);
    if a == [] {
      assert s == [LF] + b && Tail(s[0]) == 0;
      assert Extent(s, 1) == 1 && s[1..] == b && s[..1] == [LF];
      assert Scalar([LF]) == 10;
      assert FirstChar(s) == '\n';
      assert Decode(a) == [];
    } else {
      ExtentAtNewline(a, b, 1);
      var e := Extent(a, 1);
      assert s[..e] == a[..e] && s[e..] == a[e..] + ([LF] + b);
      DecodeAtNewline(a[e..], b);
      assert FirstChar(s) == FirstChar(a);
      AppendAssoc([FirstChar(a)], Decode(a[e..]), ['\n'] + Decode(b));
    }
  }

  lemma {:induction false} FirstCharNoNewline(bs: seq<Byte>)
    requires bs != [] && bs[0] != LF
    ensures FirstChar(bs) != '\n'
  {
    var e := Extent(bs, 1);
    if bs[0] < 0x80 {
      assert e == 1 && bs[..1][0] == bs[0];
    } else {
      assert forall i :: 0 <= i < e ==> bs[..e][i] == bs[i];
      ExtentFollows(bs, 1);
    }
  }

  lemma {:induction false} ExtentFollows(bs: seq<Byte>, i: nat)
    requires bs != [] && 1 <= i <= |bs|
    ensures forall k :: i <= k < Extent(bs, i) ==> Follows(bs[0], k, bs[k])
    decreases |bs| - i
  {
    if i <= Tail(bs[0]) && i < |bs| && Follows(bs[0], i, bs[i]) { ExtentFollows(bs, i + 1); }
  }

  lemma {:induction false} DecodeNoNewline(bs: seq<Byte>)
    requires LF !in bs
    ensures '\n' !in Decode(bs)
    decreases |bs|
  {
    if bs != [] {
      assert bs[0] in bs;
      FirstCharNoNewline(bs);
      var e := Extent(bs, 1);
      assert forall b :: b in bs[e..] ==> b in bs;
      DecodeNoNewline(bs[e..]);
    }
  }

  // ---------------------------------------------------------------- encoded text

  /** The parts of a number of at most 16 bits, and of 21 bits, that go into the bytes. */
  lemma ThreeParts(n: nat)
    ensures n == n / 4096 * 4096 + n / 64 % 64 * 64 + n % 64
    ensures n / 64 == n / 4096 * 64 + n / 64 % 64
  {}

  lemma {:induction false} FourParts(n: nat)
    ensures n == n / 262144 * 262144 + n / 4096 % 64 * 4096 + n / 64 % 64 * 64 + n % 64
    ensures n / 4096 == n / 262144 * 64 + n / 4096 % 64
  {
    ThreeParts(n);
  }

  ghost predicate Complete(bs: seq<Byte>, n: int) {
    && bs != [] && (bs[0] < 0x80 <==> |bs| == 1) && |bs| == 1 + Tail(bs[0]) && Scalar(bs) == n
    && forall i :: 1 <= i < |bs| ==> Follows(bs[0], i, bs[i])
  }

  lemma {:induction false} ThreeBytes(n: nat)
    requires 0x800 <= n < 0x10000 && IsScalar(n)
    ensures Complete([0xE0 + n / 4096, 0x80 + n / 64 % 64, 0x80 + n % 64], n)
  {
    ThreeParts(n);
  }

  lemma {:induction false} FourBytes(n: nat)
    requires 0x10000 <= n < 0x110000
    ensures Complete([0xF0 + n / 262144, 0x80 + n / 4096 % 64, 0x80 + n / 64 % 64, 0x80 + n % 64], n)
  {
    FourParts(n);
  }

  lemma {:induction false} CharShape(c: char)
    ensures Complete(EncodeChar(c), c as int) && IsScalar(c as int)
  {
    var n := c as int;
    if 0x800 <= n < 0x10000 {
      hide Complete;
      ThreeBytes(n);
    } else if 0x10000 <= n {
      hide Complete;
      FourBytes(n);
    }
  }

  lemma {:induction false} ExtentOfWhole(bs: seq<Byte>, rest: seq<Byte>, i: nat)
    requires bs != [] && |bs| == 1 + Tail(bs[0]) && 1 <= i <= |bs|
    requires forall k :: 1 <= k < |bs| ==> Follows(bs[0], k, bs[k])
    ensures Extent(bs + rest, i) == |bs|
    decreases |bs| - i
  {
    assert (bs + rest)[0] == bs[0];
    if i < |bs| {
      assert (bs + rest)[i] == bs[i];
      ExtentOfWhole(bs, rest, i + 1);
    }
  }

  lemma {:induction false} FirstCharEncoded(c: char, rest: seq<Byte>)
    ensures Extent(EncodeChar(c) + rest, 1) == |EncodeChar(c)| && FirstChar(EncodeChar(c) + rest) == c
  {
    hide EncodeChar, Scalar, Follows, Extent;
    CharShape(c);
    ExtentOfWhole(EncodeChar(c), rest, 1);
    assert (EncodeChar(c) + rest)[..|EncodeChar(c)|] == EncodeChar(c);
  }

  /** Text survives the round trip through bytes. */
  lemma {:induction false} DecodeEncode(s: string)
    ensures Decode(Encode(s)) == s
  {
    hide EncodeChar, Extent, FirstChar;
    if s != [] {
      DecodeEncode(s[1..]);
      FirstCharEncoded(s[0], Encode(s[1..]));
      assert Encode(s)[|EncodeChar(s[0])|..] == Encode(s[1..]);
    }
  }

  /** Encoded text can be cut at any newline byte. */
  lemma {:induction false} EncodeCut(t: string, x: seq<Byte>, y: seq<Byte>) returns (u: string, v: string)
    requires Encode(t) == x + ([LF] + y)
    ensures t == u + (['\n'] + v) && Encode(u) == x && Encode(v) == y
    decreases |t|
  {
    var whole := x + ([LF] + y);
    assert whole[|x|] == LF;
    assert t != [];
    var first, rest := EncodeChar(t[0]), Encode(t[1..]);
    assert whole == first + rest;
    if x == [] {
      assert first[0] == LF && LF in first;
      assert first == [LF] && rest == whole[1..] && y == whole[1..];
      u, v := [], t[1..];
    } else {
      NoNewlineInside(t[0], x, y, rest);
      var x' := x[|first|..];
      assert x == first + x' && rest == x' + ([LF] + y) by {
        assert first == whole[..|first|] && x == whole[..|x|] && rest == whole[|first|..];
      }
      var u';
      u', v := EncodeCut(t[1..], x', y);
      u := [t[0]] + u';
      assert u[1..] == u' && t == [t[0]] + t[1..];
      AppendAssoc([t[0]], u', ['\n'] + v);
    }
  }

  lemma {:induction false} NoNewlineInside(c: char, x: seq<Byte>, y: seq<Byte>, rest: seq<Byte>)
    requires x + ([LF] + y) == EncodeChar(c) + rest && x != []
    ensures |EncodeChar(c)| <= |x|
  {
    var whole, first := x + ([LF] + y), EncodeChar(c);
    assert whole[|x|] == LF;
    forall i | 1 <= i < |first| ensures whole[i] != LF { assert whole[i] == first[i]; }
  }

  // ---------------------------------------------------------------- how long the decoded text is

  /** Each sequence that is broken off is measured as the three bytes of its replacement. */
  function Overshoot(bs: seq<Byte>): (o: nat)
    decreases |bs|
  {
    if bs == [] then 0
    else
      var e := Extent(bs, 1);
      assert Whole(bs) || e <= 3;
      (if Whole(bs) then 0 else 3 - e) + Overshoot(bs[e..])
  }

  lemma {:induction false} WholeScalar(bs: seq<Byte>)
    requires bs != [] && Whole(bs)
    ensures var n := Scalar(bs[..Extent(bs, 1)]);
      IsScalar(n) && |EncodeChar(n as char)| == Extent(bs, 1)
  {
    var e := Extent(bs, 1);
    assert forall i :: 0 <= i < e ==> bs[..e][i] == bs[i];
    ExtentFollows(bs, 1);
    assert e > 1 ==> Follows(bs[0], 1, bs[1]);
    assert e > 2 ==> Follows(bs[0], 2, bs[2]);
    assert e > 3 ==> Follows(bs[0], 3, bs[3]);
  }

  lemma {:induction false} FirstLength(bs: seq<Byte>)
    requires bs != []
    ensures |EncodeChar(FirstChar(bs))| == if Whole(bs) then Extent(bs, 1) else 3
  {
    hide Extent, Scalar, Whole, IsScalar;
    if Whole(bs) { WholeScalar(bs); }
  }

  /** The length that is measured, for all bytes. */
  lemma {:induction false} MeasuredLength(bs: seq<Byte>)
    ensures |Encode(Decode(bs))| == |bs| + Overshoot(bs)
    decreases |bs|
  {
    hide EncodeChar, FirstChar, Extent, Whole;
    if bs != [] {
      var e := Extent(bs, 1);
      MeasuredLength(bs[e..]);
      FirstLength(bs);
      assert Decode(bs)[1..] == Decode(bs[e..]);
    }
  }

  lemma {:induction false} OvershootAtNewline(a: seq<Byte>, b: seq<Byte>)
    ensures Overshoot(a + ([LF] + b)) == Overshoot(a) + Overshoot(b)
    decreases |a|
  {
    var s := a + ([LF] + b);
    if a == [] {
      assert s == [LF] + b && Extent(s, 1) == 1 && s[1..] == b;
    } else {
      ExtentAtNewline(a, b, 1);
      var e := Extent(a, 1);
      assert s[e..] == a[e..] + ([LF] + b);
      OvershootAtNewline(a[e..], b);
    }
  }
}
