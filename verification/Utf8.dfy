/** UTF-8 as section 4 of RFC 3629 defines it; a byte that starts no valid sequence decodes to U+FFFD of width 1. */
module Utf8 {
  import opened ByteText

  const REPLACEMENT: int := 0xFFFD

  datatype Decoded = Decoded(rune: int, width: nat)

  predicate IsScalar(r: int) {
    0 <= r < 0xD800 || 0xE000 <= r <= 0x10FFFF
  }

  predicate IsContinuation(b: Byte) {
    0x80 <= b < 0xC0
  }

  /** The second byte rules out overlong forms, surrogates and values above U+10FFFF. */
  predicate SecondFits(first: Byte, second: Byte) {
    && (if first == 0xE0 then 0xA0 else if first == 0xF0 then 0x90 else 0x80) <= second
    && second <= (if first == 0xED then 0x9F else if first == 0xF4 then 0x8F else 0xBF)
  }

  /** The number of bytes a sequence starting with this byte has, 0 for a byte that starts none. */
  function SequenceWidth(first: Byte): nat {
    if first < 0x80 then 1
    else if 0xC2 <= first < 0xE0 then 2
    else if 0xE0 <= first < 0xF0 then 3
    else if 0xF0 <= first < 0xF5 then 4
    else 0
  }

  predicate StartsSequence(s: Bytes) {
    && s != []
    && var w := SequenceWidth(s[0]);
       && 0 < w <= |s|
       && (w >= 2 ==> SecondFits(s[0], s[1]))
       && (w >= 3 ==> IsContinuation(s[2]))
       && (w >= 4 ==> IsContinuation(s[3]))
  }

  function Payload(b: Byte): int {
    b as int - 0x80
  }

  function Decode(s: Bytes): (d: Decoded)
    requires s != []
    ensures 1 <= d.width <= |s| && IsScalar(d.rune)
    ensures !StartsSequence(s) ==> d == Decoded(REPLACEMENT, 1)
    ensures StartsSequence(s) ==> d.width == SequenceWidth(s[0])
  {
    if !StartsSequence(s) then Decoded(REPLACEMENT, 1)
    else if s[0] < 0x80 then Decoded(s[0] as int, 1)
    else if s[0] < 0xE0 then Decoded((s[0] as int - 0xC0) * 64 + Payload(s[1]), 2)
    else if s[0] < 0xF0 then Decoded((s[0] as int - 0xE0) * 4096 + Payload(s[1]) * 64 + Payload(s[2]), 3)
    else Decoded((s[0] as int - 0xF0) * 262144 + Payload(s[1]) * 4096 + Payload(s[2]) * 64 + Payload(s[3]), 4)
  }

  function Tail(r: int): Byte {
    (0x80 + r % 64) as Byte
  }

  function Encode(r: int): (s: Bytes)
    requires IsScalar(r)
    ensures 1 <= |s| <= 4
  {
    if r < 0x80 then [r as Byte]
    else if r < 0x800 then [(0xC0 + r / 64) as Byte, Tail(r)]
    else if r < 0x10000 then [(0xE0 + r / 4096) as Byte, Tail(r / 64), Tail(r)]
    else [(0xF0 + r / 262144) as Byte, Tail(r / 4096), Tail(r / 64), Tail(r)]
  }

  /** What is written is read back, whatever follows it. */
  lemma DecodeEncoded(r: int, rest: Bytes)
    requires IsScalar(r)
    ensures Decode(Encode(r) + rest) == Decoded(r, |Encode(r)|)
  {
    var s := Encode(r) + rest;
    assert s[..|Encode(r)|] == Encode(r);
    if 0x800 <= r < 0x10000 {
      assert r / 64 / 64 == r / 4096;
    } else if r >= 0x10000 {
      assert r / 64 / 64 == r / 4096 && r / 4096 / 64 == r / 262144;
    }
  }

  /**
   A scalar takes one to four bytes, by its size; the first byte tells how many, each other one carries six of
   its bits, and together they make up the scalar.
   */
  lemma EncodeIsUtf8(r: int)
    requires IsScalar(r)
    ensures var s := Encode(r);
            && |s| == (if r <= 0x7F then 1 else if r <= 0x7FF then 2 else if r <= 0xFFFF then 3 else 4)
            && (forall i | 1 <= i < |s| :: 0x80 <= s[i] <= 0xBF)
            && match |s|
               case 1 => s[0] as int == r
               case 2 => 0xC0 <= s[0] <= 0xDF && r == (s[0] as int - 0xC0) * 64 + (s[1] as int - 0x80)
               case 3 => 0xE0 <= s[0] <= 0xEF
                         && r == ((s[0] as int - 0xE0) * 64 + (s[1] as int - 0x80)) * 64 + (s[2] as int - 0x80)
               case _ => 0xF0 <= s[0] <= 0xF7
                         && r == (((s[0] as int - 0xF0) * 64 + (s[1] as int - 0x80)) * 64 + (s[2] as int - 0x80)) * 64
                                 + (s[3] as int - 0x80)
  {
    assert r / 64 / 64 == r / 4096 && r / 4096 / 64 == r / 262144;
  }

  lemma SixBits(high: nat, low: nat)
    requires low < 64
    ensures (high * 64 + low) / 64 == high && (high * 64 + low) % 64 == low
  {
  }

  lemma ThreeBytesArePrefix(s: Bytes)
    requires StartsSequence(s) && SequenceWidth(s[0]) == 3
    ensures Encode(Decode(s).rune) <= s
  {
    var r := Decode(s).rune;
    var high := (s[0] as int - 0xE0) * 64 + Payload(s[1]);
    SixBits(s[0] as int - 0xE0, Payload(s[1]));
    SixBits(high, Payload(s[2]));
    assert r == high * 64 + Payload(s[2]) && r / 4096 == high / 64;
    assert Encode(r) == [s[0], s[1], s[2]];
  }

  lemma FourBytesArePrefix(s: Bytes)
    requires StartsSequence(s) && SequenceWidth(s[0]) == 4
    ensures Encode(Decode(s).rune) <= s
  {
    var r := Decode(s).rune;
    var top := (s[0] as int - 0xF0) * 64 + Payload(s[1]);
    var high := top * 64 + Payload(s[2]);
    SixBits(s[0] as int - 0xF0, Payload(s[1]));
    SixBits(top, Payload(s[2]));
    SixBits(high, Payload(s[3]));
    assert r == high * 64 + Payload(s[3]) && r / 4096 == high / 64 == top && r / 262144 == top / 64;
    assert Encode(r) == [s[0], s[1], s[2], s[3]];
  }

  lemma DecodedIsPrefix(s: Bytes)
    requires StartsSequence(s)
    ensures Encode(Decode(s).rune) <= s
  {
    var w := SequenceWidth(s[0]);
    if w == 3 {
      ThreeBytesArePrefix(s);
    } else if w == 4 {
      FourBytesArePrefix(s);
    } else if w == 2 {
      SixBits(s[0] as int - 0xC0, Payload(s[1]));
      assert Encode(Decode(s).rune) == [s[0], s[1]];
    } else {
      assert Encode(Decode(s).rune) == [s[0]];
    }
  }

  /**
   Reading a byte string yields the scalar whose encoding it starts with, and U+FFFD and one byte when it starts
   with no encoding at all.
   */
  lemma DecodeIsExact(s: Bytes)
    requires s != []
    ensures forall r | IsScalar(r) && Encode(r) <= s :: Decode(s) == Decoded(r, |Encode(r)|)
    ensures (forall r | IsScalar(r) :: !(Encode(r) <= s)) ==> Decode(s) == Decoded(0xFFFD, 1)
  {
    hide Decode, Encode, StartsSequence;
    forall r | IsScalar(r) && Encode(r) <= s ensures Decode(s) == Decoded(r, |Encode(r)|) {
      assert s == Encode(r) + s[|Encode(r)|..];
      DecodeEncoded(r, s[|Encode(r)|..]);
    }
    if StartsSequence(s) {
      DecodedIsPrefix(s);
    }
  }

  /** Two strings that agree on the sequence decode alike, whatever follows it. */
  lemma DecodeIsLocal(s: Bytes, t: Bytes)
    requires s != [] && StartsSequence(s) && SequenceWidth(s[0]) <= |t|
             && s[..SequenceWidth(s[0])] == t[..SequenceWidth(s[0])]
    ensures StartsSequence(t) && Decode(t) == Decode(s)
  {
    var w := SequenceWidth(s[0]);
    assert forall i | 0 <= i < w :: s[i] == s[..w][i] == t[..w][i] == t[i];
  }

  /** The runes of a byte string. */
  function Runes(s: Bytes): (rs: seq<int>)
    ensures forall i | 0 <= i < |rs| :: IsScalar(rs[i])
    decreases |s|
  {
    if s == [] then [] else [Decode(s).rune] + Runes(s[Decode(s).width..])
  }

  function EncodeAll(rs: seq<int>): Bytes
    requires forall i | 0 <= i < |rs| :: IsScalar(rs[i])
  {
    if rs == [] then [] else Encode(rs[0]) + EncodeAll(rs[1..])
  }

  lemma {:induction false} RunesOfEncoded(rs: seq<int>)
    requires forall i | 0 <= i < |rs| :: IsScalar(rs[i])
    ensures Runes(EncodeAll(rs)) == rs
  {
    if rs != [] {
      RunesOfEncoded(rs[1..]);
      DecodeEncoded(rs[0], EncodeAll(rs[1..]));
      assert EncodeAll(rs)[|Encode(rs[0])|..] == EncodeAll(rs[1..]);
    }
  }
}
