/**
 What the sanitizer guarantees: its segmentation covers the text, a control sequence is the longest
 match of its shape, the output is safe, no longer than the input and stable, and when the sanitizer
 distributes over concatenation.
 */
module TermSafeTheorems {
  import opened ByteText
  import opened Utf8
  import opened TermSafe

  // ---------------------------------------------------------------------------------------------
  // Segmentation
  // ---------------------------------------------------------------------------------------------

  function Bytewise(segments: seq<Segment>): Bytes {
    if segments == [] then [] else segments[0].bytes + Bytewise(segments[1..])
  }

  /** A dropped segment opens with an introducer; a kept one is the bytes of a single rune, which is none. */
  predicate SegmentOk(g: Segment) {
    g.bytes != [] &&
    if g.Dropped? then IsIntroducer(Decode(g.bytes).rune)
    else Decode(g.bytes) == Decoded(g.rune, |g.bytes|) && !IsIntroducer(g.rune)
  }

  /** A rune decodes alike without what follows it. */
  lemma RuneIsWhole(s: Bytes)
    requires s != []
    ensures Decode(s[..Decode(s).width]) == Decode(s)
  {
    var t := s[..Decode(s).width];
    if StartsSequence(s) {
      DecodeIsLocal(s, t);
    } else {
      assert t == [s[0]] && !StartsSequence(t);
    }
  }

  lemma FirstSegment(s: Bytes)
    requires s != []
    ensures var cut := if SequenceEnd(s) > 0 then SequenceEnd(s) else Decode(s).width;
            && 0 < cut <= |s|
            && Segments(s) == [Segments(s)[0]] + Segments(s[cut..])
            && Segments(s)[0].bytes == s[..cut] && SegmentOk(Segments(s)[0])
  {
    hide Decode, SequenceEnd;
    if SequenceEnd(s) > 0 {
      IntroducerIsWhole(s);
    } else {
      RuneIsWhole(s);
    }
  }

  /** The segments, put together again, are the text: none is empty, none overlaps another. */
  lemma {:induction false} SegmentsCoverText(s: Bytes)
    ensures Bytewise(Segments(s)) == s
    ensures forall i | 0 <= i < |Segments(s)| :: SegmentOk(Segments(s)[i])
    decreases |s|
  {
    hide Segments, SegmentOk, Decode, SequenceEnd;
    if s == [] {
      assert Segments(s) == [] by { NoSegments(); }
    } else {
      FirstSegment(s);
      var cut := if SequenceEnd(s) > 0 then SequenceEnd(s) else Decode(s).width;
      SegmentsCoverText(s[cut..]);
      assert s == s[..cut] + s[cut..];
    }
  }

  lemma NoSegments()
    ensures Segments([]) == []
  {
  }

  /** A sequence contains the whole rune that introduces it. */
  lemma IntroducerIsWhole(s: Bytes)
    requires s != [] && SequenceEnd(s) > 0
    ensures Decode(s[..SequenceEnd(s)]) == Decode(s) && Decode(s).width <= SequenceEnd(s)
  {
    var t := s[..SequenceEnd(s)];
    DecodeIsLocal(s, t);
  }

  /** Parameter bytes, then intermediate bytes, then at most one final byte, from i to k. */
  ghost predicate CsiShape(s: Bytes, i: nat, k: nat)
    requires i <= k <= |s|
  {
    exists a, b :: i <= a <= b <= k && CsiParts(s, i, a, b, k)
  }

  ghost predicate CsiParts(s: Bytes, i: nat, a: nat, b: nat, k: nat)
    requires i <= a <= b <= k <= |s|
  {
    && (forall j | i <= j < a :: 0x30 <= s[j] <= 0x3F)
    && (forall j | a <= j < b :: 0x20 <= s[j] <= 0x2F)
    && (b == k || (b + 1 == k && 0x40 <= s[b] <= 0x7E))
  }

  lemma {:induction false} ParameterRunIsRun(s: Bytes, i: nat)
    requires i <= |s|
    ensures var j := ParameterRun(s, i);
            (forall k | i <= k < j :: IsParameter(s[k])) && (j < |s| ==> !IsParameter(s[j]))
    decreases |s| - i
  {
    if i < |s| && IsParameter(s[i]) {
      ParameterRunIsRun(s, i + 1);
    }
  }

  lemma {:induction false} IntermediateRunIsRun(s: Bytes, i: nat)
    requires i <= |s|
    ensures var j := IntermediateRun(s, i);
            (forall k | i <= k < j :: IsIntermediate(s[k])) && (j < |s| ==> !IsIntermediate(s[j]))
    decreases |s| - i
  {
    if i < |s| && IsIntermediate(s[i]) {
      IntermediateRunIsRun(s, i + 1);
    }
  }

  /** The end of a control sequence is the longest match of its shape. */
  lemma CsiEndIsLongest(s: Bytes, start: nat, k: nat)
    requires start <= k <= |s|
    ensures CsiShape(s, start, CsiEnd(s, start))
    ensures CsiShape(s, start, k) ==> k <= CsiEnd(s, start)
  {
    var p := ParameterRun(s, start);
    var q := IntermediateRun(s, p);
    ParameterRunIsRun(s, start);
    IntermediateRunIsRun(s, p);
    assert CsiParts(s, start, p, q, CsiEnd(s, start));
    if CsiShape(s, start, k) {
      var a, b :| start <= a <= b <= k && CsiParts(s, start, a, b, k);
      assert a <= p && b <= q;
    }
  }

  /** ESC, intermediate bytes up to k, and one final byte at k. */
  predicate IsEscapeShape(s: Bytes, k: nat) {
    1 <= k < |s| && (forall j | 1 <= j < k :: 0x20 <= s[j] <= 0x2F) && 0x30 <= s[k] <= 0x7E
  }

  /**
   An ESC that opens no control sequence and no control string takes its intermediate and final bytes with it,
   or goes alone.
   */
  lemma EscapeEndIsItsShape(s: Bytes, k: nat)
    requires |s| > 1 && s[0] == 0x1B
    requires s[1] !in {'[' as Byte, ']' as Byte, 'P' as Byte, 'X' as Byte, '^' as Byte, '_' as Byte}
    ensures IsEscapeShape(s, k) ==> EscapeEnd(s) == k + 1
    ensures EscapeEnd(s) > 1 ==> IsEscapeShape(s, EscapeEnd(s) - 1)
  {
    IntermediateRunIsRun(s, 1);
    var i := IntermediateRun(s, 1);
    if IsEscapeShape(s, k) {
      assert i == k;
    }
  }

  /** The runes a control string ends at. */
  predicate EndsString(r: int) {
    r in {0x07, 0x18, 0x1A, 0x1B, 0x9C}
  }

  /** No rune from start up to k can end a string. */
  predicate IsPayload(s: Bytes, start: nat, k: nat)
    requires start <= k <= |s|
  {
    Aligned(s[start..], k - start) && forall j | start <= j < k && Aligned(s[start..], j - start) ::
      !EndsString(Decode(s[j..]).rune)
  }

  lemma PayloadExtends(s: Bytes, start: nat, k: nat)
    requires start < |s| && !EndsString(Decode(s[start..]).rune)
    requires start + Decode(s[start..]).width <= k <= |s| && IsPayload(s, start + Decode(s[start..]).width, k)
    ensures IsPayload(s, start, k)
  {
    hide Decode, Aligned;
    var next := start + Decode(s[start..]).width;
    assert s[start..][next - start..] == s[next..];
    AlignedStep(s[start..], k - start);
    forall j | start <= j < k && Aligned(s[start..], j - start) ensures !EndsString(Decode(s[j..]).rune) {
      if j > start {
        AlignedStep(s[start..], j - start);
      }
    }
  }

  /**
   A control string ends at the first rune that can end it, which is dropped with it; an ESC that begins no
   string terminator is left; without such a rune the string is the rest of the text.
   */
  lemma {:induction false} StringEndIsFirstTerminator(s: Bytes, start: nat) returns (k: nat)
    requires start <= |s|
    ensures start <= k <= |s| && IsPayload(s, start, k)
    ensures k < |s| ==> EndsString(Decode(s[k..]).rune)
    ensures StringEnd(s, start) ==
            if k == |s| then k
            else if Decode(s[k..]).rune != 0x1B then k + Decode(s[k..]).width
            else if k + 1 < |s| && s[k + 1] == '\\' as Byte then k + 2 else k
    decreases |s| - start
  {
    hide Decode, IsPayload, StringEnd, EndsString;
    if start < |s| && !EndsString(Decode(s[start..]).rune) {
      StringEndStep(s, start);
      k := StringEndIsFirstTerminator(s, start + Decode(s[start..]).width);
      PayloadExtends(s, start, k);
    } else {
      k := start;
      NoPayload(s, start);
      if start < |s| {
        StringEndStep(s, start);
      }
    }
  }

  lemma NoPayload(s: Bytes, start: nat)
    requires start <= |s|
    ensures IsPayload(s, start, start) && StringEnd(s, |s|) == |s|
  {
  }

  lemma StringEndStep(s: Bytes, i: nat)
    requires i < |s|
    ensures StringEnd(s, i) ==
            if !EndsString(Decode(s[i..]).rune) then StringEnd(s, i + Decode(s[i..]).width)
            else if Decode(s[i..]).rune != ESC then i + Decode(s[i..]).width
            else if i + 1 < |s| && s[i + 1] == BACKSLASH then i + 2 else i
  {
    hide Decode;
  }

  /**
   Which introducer starts the text decides what ends its sequence: ESC [ and U+009B open a control sequence,
   ESC ] P X ^ _ and U+009D, U+0090, U+0098, U+009E, U+009F a control string, both after two bytes; any other
   ESC an escape sequence; no other rune opens one.
   */
  lemma SequenceEndByIntroducer(s: Bytes)
    requires s != []
    ensures var r, e := Decode(s).rune, SequenceEnd(s);
            && (r == 0x1B && |s| == 1 ==> e == 1)
            && (r == 0x1B && |s| > 1 ==>
                  if s[1] == '[' as Byte then e == CsiEnd(s, 2)
                  else if s[1] as int as char in "]PX^_" then e == StringEnd(s, 2)
                  else s[0] == 0x1B && e == EscapeEnd(s))
            && (r == 0x9B ==> |s| >= 2 && e == CsiEnd(s, 2))
            && (r in {0x9D, 0x90, 0x98, 0x9E, 0x9F} ==> |s| >= 2 && e == StringEnd(s, 2))
            && (e == 0 <==> r !in {0x1B, 0x9B, 0x9D, 0x90, 0x98, 0x9E, 0x9F})
  {
    hide CsiEnd, StringEnd, IntermediateRun;
  }

  // ---------------------------------------------------------------------------------------------
  // The output
  // ---------------------------------------------------------------------------------------------

  /** The runes the sanitizer writes. */
  function Output(segments: seq<Segment>, keepLayout: bool, format: set<int>): (rs: seq<int>)
    ensures forall i | 0 <= i < |rs| :: IsScalar(rs[i])
  {
    if segments == [] then []
    else (if segments[0].Kept? && IsScalar(segments[0].rune) then [Mapped(segments[0].rune, keepLayout, format)]
          else [])
         + Output(segments[1..], keepLayout, format)
  }

  /** The sanitizer would write the rune as it is. */
  predicate IsClean(r: int, keepLayout: bool, format: set<int>) {
    IsScalar(r) && !IsIntroducer(r) && Mapped(r, keepLayout, format) == r
  }

  lemma {:induction false} OutputIsClean(segments: seq<Segment>, keepLayout: bool, format: set<int>)
    ensures forall i | 0 <= i < |Output(segments, keepLayout, format)| ::
            IsClean(Output(segments, keepLayout, format)[i], keepLayout, format)
    ensures |Output(segments, keepLayout, format)| <= |segments|
    ensures WriteAll(segments, keepLayout, format) == EncodeAll(Output(segments, keepLayout, format))
  {
    hide Encode, Mapped, IsClean;
    if segments != [] {
      OutputIsClean(segments[1..], keepLayout, format);
      var o := Output(segments[1..], keepLayout, format);
      if segments[0].Kept? && IsScalar(segments[0].rune) {
        var m := Mapped(segments[0].rune, keepLayout, format);
        MappedIsClean(segments[0].rune, keepLayout, format);
        assert Output(segments, keepLayout, format) == [m] + o;
        EncodeAllCons(m, o);
      } else {
        assert Output(segments, keepLayout, format) == o;
      }
    }
  }

  lemma MappedIsClean(r: int, keepLayout: bool, format: set<int>)
    requires IsScalar(r)
    ensures IsClean(Mapped(r, keepLayout, format), keepLayout, format)
  {
  }

  lemma EncodeAllCons(r: int, rs: seq<int>)
    requires IsScalar(r) && forall i | 0 <= i < |rs| :: IsScalar(rs[i])
    ensures EncodeAll([r] + rs) == Encode(r) + EncodeAll(rs)
  {
    hide Encode;
    assert ([r] + rs)[1..] == rs;
  }

  /**
   The output is valid UTF-8 and holds no control and no format rune, newline and tab excepted where
   the layout is kept. (A space is not a format character.)
   */
  lemma SanitizedIsSafe(s: Bytes, keepLayout: bool, format: set<int>)
    requires SPACE !in format
    ensures var rs := Runes(Sanitized(s, keepLayout, format));
            && Sanitized(s, keepLayout, format) == EncodeAll(rs)
            && forall i | 0 <= i < |rs| ::
               !IsUnsafe(rs[i], format) || (keepLayout && (rs[i] == NEWLINE || rs[i] == TAB))
  {
    var o := Output(Segments(s), keepLayout, format);
    OutputIsClean(Segments(s), keepLayout, format);
    RunesOfEncoded(o);
    forall i | 0 <= i < |o| ensures !IsUnsafe(o[i], format) || (keepLayout && (o[i] == NEWLINE || o[i] == TAB)) {
      assert IsClean(o[i], keepLayout, format);
    }
  }

  lemma {:induction false} CleanTextIsKept(rs: seq<int>, keepLayout: bool, format: set<int>)
    requires forall i | 0 <= i < |rs| :: IsScalar(rs[i]) && IsClean(rs[i], keepLayout, format)
    ensures Sanitized(EncodeAll(rs), keepLayout, format) == EncodeAll(rs)
  {
    hide Encode, Decode, Mapped, SequenceEnd, IsIntroducer, Sanitized;
    if rs == [] {
      SanitizedEmpty(keepLayout, format);
    } else {
      assert IsClean(rs[0], keepLayout, format);
      var rest := EncodeAll(rs[1..]);
      DecodeEncoded(rs[0], rest);
      SanitizedStep(EncodeAll(rs), keepLayout, format);
      assert EncodeAll(rs)[|Encode(rs[0])|..] == rest;
      CleanTextIsKept(rs[1..], keepLayout, format);
    }
  }

  /** A second pass changes nothing. */
  lemma SanitizedIsStable(s: Bytes, keepLayout: bool, format: set<int>)
    ensures Sanitized(Sanitized(s, keepLayout, format), keepLayout, format) == Sanitized(s, keepLayout, format)
  {
    OutputIsClean(Segments(s), keepLayout, format);
    CleanTextIsKept(Output(Segments(s), keepLayout, format), keepLayout, format);
  }

  // ---------------------------------------------------------------------------------------------
  // Rune boundaries
  // ---------------------------------------------------------------------------------------------

  /** Reading rune by rune from the start stops at n. */
  predicate Aligned(s: Bytes, n: nat)
    decreases n
  {
    n == 0 || (s != [] && Decode(s).width <= n && Aligned(s[Decode(s).width..], n - Decode(s).width))
  }

  lemma AlignedStep(s: Bytes, n: nat)
    requires n > 0
    ensures Aligned(s, n) <==> s != [] && Decode(s).width <= n && Aligned(s[Decode(s).width..], n - Decode(s).width)
  {
    hide Decode;
  }

  lemma {:induction false} AlignedThen(s: Bytes, n: nat, m: nat)
    requires Aligned(s, n) && n <= |s| && Aligned(s[n..], m)
    ensures Aligned(s, n + m)
    decreases n
  {
    hide Decode, Aligned;
    if n == 0 {
      assert s[0..] == s;
    } else {
      AlignedStep(s, n);
      AlignedStep(s, n + m);
      var w := Decode(s).width;
      assert s[w..][n - w..] == s[n..];
      AlignedThen(s[w..], n - w, m);
    }
  }

  lemma {:induction false} RunesAfter(s: Bytes, n: nat)
    requires n <= |s| && Aligned(s, n)
    ensures |Runes(s[n..])| <= |Runes(s)|
    decreases n
  {
    hide Decode, Aligned, Runes;
    if n == 0 {
      assert s[0..] == s;
    } else {
      AlignedStep(s, n);
      var w := Decode(s).width;
      assert s[w..][n - w..] == s[n..];
      RunesAfter(s[w..], n - w);
      assert |Runes(s)| == 1 + |Runes(s[w..])| by { RunesStep(s); }
    }
  }

  lemma RunesStep(s: Bytes)
    requires s != []
    ensures Runes(s) == [Decode(s).rune] + Runes(s[Decode(s).width..])
  {
    hide Decode;
  }

  lemma AsciiStep(s: Bytes, n: nat)
    requires n < |s| && Aligned(s, n) && s[n] < 0x80
    ensures Aligned(s, n + 1)
  {
    assert Aligned(s[n..], 1) by {
      assert s[n..][0] == s[n];
      assert Aligned(s[n..][1..], 0);
    }
    AlignedThen(s, n, 1);
  }

  lemma {:induction false} ParameterRunAligned(s: Bytes, i: nat)
    requires i <= |s| && Aligned(s, i)
    ensures Aligned(s, ParameterRun(s, i))
    decreases |s| - i
  {
    hide Aligned;
    if i < |s| && IsParameter(s[i]) {
      AsciiStep(s, i);
      ParameterRunAligned(s, i + 1);
    }
  }

  lemma {:induction false} IntermediateRunAligned(s: Bytes, i: nat)
    requires i <= |s| && Aligned(s, i)
    ensures Aligned(s, IntermediateRun(s, i))
    decreases |s| - i
  {
    hide Aligned;
    if i < |s| && IsIntermediate(s[i]) {
      AsciiStep(s, i);
      IntermediateRunAligned(s, i + 1);
    }
  }

  lemma CsiEndAligned(s: Bytes, i: nat)
    requires i <= |s| && Aligned(s, i)
    ensures Aligned(s, CsiEnd(s, i))
  {
    hide Aligned;
    ParameterRunAligned(s, i);
    var p := ParameterRun(s, i);
    IntermediateRunAligned(s, p);
    var q := IntermediateRun(s, p);
    if q < |s| && IsFinal(s[q]) {
      AsciiStep(s, q);
    }
  }

  lemma RuneStep(s: Bytes, n: nat)
    requires n < |s| && Aligned(s, n)
    ensures Aligned(s, n + Decode(s[n..]).width)
  {
    hide Decode;
    assert Aligned(s[n..], Decode(s[n..]).width);
    AlignedThen(s, n, Decode(s[n..]).width);
  }

  lemma EscapeIsOneByte(s: Bytes)
    requires s != [] && Decode(s).rune == ESC
    ensures s[0] == 0x1B && Decode(s).width == 1
  {
  }

  lemma {:induction false} StringEndAligned(s: Bytes, i: nat)
    requires i <= |s| && Aligned(s, i)
    ensures Aligned(s, StringEnd(s, i))
    decreases |s| - i
  {
    hide Aligned, Decode;
    if i < |s| {
      RuneStep(s, i);
      var d := Decode(s[i..]);
      if d.rune == ESC {
        EscapeIsOneByte(s[i..]);
        if i + 1 < |s| && s[i + 1] == BACKSLASH {
          AsciiStep(s, i + 1);
        }
      } else if d.rune != BEL && d.rune != CAN && d.rune != SUB && d.rune != C1_ST {
        StringEndAligned(s, i + d.width);
      }
    }
  }

  lemma SequenceEndAligned(s: Bytes)
    requires s != []
    ensures Aligned(s, SequenceEnd(s))
  {
    hide Aligned, Decode, CsiEnd, StringEnd, IntermediateRun;
    assert Aligned(s, 0) by { AlignedAtStart(s); }
    var d := Decode(s);
    assert s[0..] == s;
    RuneStep(s, 0);
    if d.rune == ESC {
      EscapeIsOneByte(s);
      if |s| > 1 {
        if s[1] < 0x80 {
          AsciiStep(s, 1);
          CsiEndAligned(s, 2);
          StringEndAligned(s, 2);
        }
        IntermediateRunAligned(s, 1);
        var i := IntermediateRun(s, 1);
        if i < |s| && IsEscapeFinal(s[i]) {
          AsciiStep(s, i);
        }
      }
    } else if d.rune == C1_CSI {
      CsiEndAligned(s, d.width);
    } else if IsStringIntroducer(d.rune) {
      StringEndAligned(s, d.width);
    }
  }

  lemma AlignedAtStart(s: Bytes)
    ensures Aligned(s, 0)
  {
  }

  /** Dropping sequences and mapping runes never makes the text longer. */
  lemma {:induction false} OutputIsNoLonger(s: Bytes, keepLayout: bool, format: set<int>)
    ensures |Output(Segments(s), keepLayout, format)| <= |Runes(s)|
    decreases |s|
  {
    hide Decode, SequenceEnd, Aligned, Mapped;
    if s != [] {
      var n := SequenceEnd(s);
      var cut := if n > 0 then n else Decode(s).width;
      assert Segments(s)[1..] == Segments(s[cut..]);
      OutputIsNoLonger(s[cut..], keepLayout, format);
      if n > 0 {
        SequenceEndAligned(s);
        RunesAfter(s, n);
      }
    }
  }

  lemma SanitizedIsNoLonger(s: Bytes, keepLayout: bool, format: set<int>)
    ensures |Runes(Sanitized(s, keepLayout, format))| <= |Runes(s)|
  {
    OutputIsClean(Segments(s), keepLayout, format);
    RunesOfEncoded(Output(Segments(s), keepLayout, format));
    OutputIsNoLonger(s, keepLayout, format);
  }

  // ---------------------------------------------------------------------------------------------
  // Concatenation
  // ---------------------------------------------------------------------------------------------

  predicate OpensNothing(s: Bytes) {
    forall i | 0 <= i < |Runes(s)| :: !IsIntroducer(Runes(s)[i])
  }

  /** A rune that fits into the left part is read there as well. */
  lemma DecodeLeft(a: Bytes, b: Bytes)
    requires a != [] && Decode(a + b).width <= |a|
    ensures Decode(a) == Decode(a + b)
  {
    if StartsSequence(a + b) {
      assert (a + b)[..SequenceWidth((a + b)[0])] == a[..SequenceWidth((a + b)[0])];
      DecodeIsLocal(a + b, a);
    }
  }

  lemma OpensNothingAfter(a: Bytes)
    requires a != [] && OpensNothing(a)
    ensures !IsIntroducer(Decode(a).rune) && OpensNothing(a[Decode(a).width..])
  {
    hide Decode, IsIntroducer;
    var w := Decode(a).width;
    RunesStep(a);
    assert Runes(a)[0] == Decode(a).rune;
    forall i | 0 <= i < |Runes(a[w..])| ensures !IsIntroducer(Runes(a[w..])[i]) {
      assert Runes(a[w..])[i] == Runes(a)[i + 1];
    }
  }

  lemma StepIntoLeft(a: Bytes, b: Bytes, keepLayout: bool, format: set<int>)
    requires a != [] && OpensNothing(a) && Decode(a + b).width <= |a|
    ensures var w := Decode(a).width;
            && w == Decode(a + b).width && OpensNothing(a[w..]) && (a + b)[w..] == a[w..] + b
            && var out := Encode(Mapped(Decode(a).rune, keepLayout, format));
               && Sanitized(a + b, keepLayout, format) == out + Sanitized(a[w..] + b, keepLayout, format)
               && Sanitized(a, keepLayout, format) == out + Sanitized(a[w..], keepLayout, format)
  {
    hide Decode, Encode, Mapped, SequenceEnd, Sanitized, IsIntroducer, OpensNothing, Runes;
    DecodeLeft(a, b);
    OpensNothingAfter(a);
    assert (a + b)[Decode(a).width..] == a[Decode(a).width..] + b;
    SanitizedStep(a, keepLayout, format);
    SanitizedStep(a + b, keepLayout, format);
  }

  /** Where the left part ends at a rune boundary of the whole, the two parts are sanitized separately. */
  lemma {:induction false} AlignedDistributes(a: Bytes, b: Bytes, keepLayout: bool, format: set<int>)
    requires OpensNothing(a) && Aligned(a + b, |a|)
    ensures Sanitized(a + b, keepLayout, format) == Sanitized(a, keepLayout, format) + Sanitized(b, keepLayout, format)
    decreases |a|
  {
    hide Decode, Encode, Mapped, SequenceEnd, Sanitized, OpensNothing;
    if a == [] {
      SanitizedEmpty(keepLayout, format);
      assert a + b == b;
    } else {
      StepIntoLeft(a, b, keepLayout, format);
      AlignedDistributes(a[Decode(a).width..], b, keepLayout, format);
    }
  }

  lemma PrintableStep(s: Bytes, i: nat, keepLayout: bool, format: set<int>)
    requires i < |s| && 0x20 <= s[i] <= 0x7E
    ensures |Sanitized(s[i + 1..], keepLayout, format)| <= |Sanitized(s[i..], keepLayout, format)|
  {
    hide Encode, Mapped, Sanitized;
    SanitizedStep(s[i..], keepLayout, format);
    assert s[i..][1..] == s[i + 1..];
  }

  lemma {:induction false} ParameterRunPrintable(s: Bytes, i: nat)
    requires i <= |s|
    ensures forall j | i <= j < CsiEnd(s, i) :: 0x20 <= s[j] <= 0x7E
  {
    ParameterRunIsRun(s, i);
    IntermediateRunIsRun(s, ParameterRun(s, i));
  }

  lemma {:induction false} PrintableRunIsWritten(s: Bytes, i: nat, j: nat, keepLayout: bool, format: set<int>)
    requires i <= j <= |s| && forall k | i <= k < j :: 0x20 <= s[k] <= 0x7E
    ensures |Sanitized(s[j..], keepLayout, format)| <= |Sanitized(s[i..], keepLayout, format)|
    decreases j - i
  {
    hide Sanitized;
    if i < j {
      PrintableStep(s, i, keepLayout, format);
      PrintableRunIsWritten(s, i + 1, j, keepLayout, format);
    }
  }

  /** A control string reads through printable bytes. */
  lemma {:induction false} StringReadsPrintable(s: Bytes, i: nat, j: nat)
    requires i <= j <= |s| && forall k | i <= k < j :: 0x20 <= s[k] <= 0x7E
    ensures StringEnd(s, i) == StringEnd(s, j)
    decreases j - i
  {
    if i < j {
      assert Decode(s[i..]) == Decoded(s[i] as int, 1);
      StringReadsPrintable(s, i + 1, j);
    }
  }

  lemma CsiEndShifts(s: Bytes, i: nat, k: nat)
    requires i + k <= |s|
    ensures CsiEnd(s[i..], k) == CsiEnd(s, i + k) - i
  {
    ParameterRunShifts(s, i, k);
    IntermediateRunShifts(s, i, ParameterRun(s[i..], k));
  }

  lemma {:induction false} ParameterRunShifts(s: Bytes, i: nat, k: nat)
    requires i + k <= |s|
    ensures ParameterRun(s[i..], k) == ParameterRun(s, i + k) - i
    decreases |s| - k
  {
    if i + k < |s| && IsParameter(s[i + k]) {
      ParameterRunShifts(s, i, k + 1);
    }
  }

  lemma {:induction false} IntermediateRunShifts(s: Bytes, i: nat, k: nat)
    requires i + k <= |s|
    ensures IntermediateRun(s[i..], k) == IntermediateRun(s, i + k) - i
    decreases |s| - k
  {
    if i + k < |s| && IsIntermediate(s[i + k]) {
      IntermediateRunShifts(s, i, k + 1);
    }
  }

  lemma {:induction false} StringEndShifts(s: Bytes, i: nat, k: nat)
    requires i + k <= |s|
    ensures StringEnd(s[i..], k) == StringEnd(s, i + k) - i
    decreases |s| - k
  {
    hide Decode, StringEnd, EndsString;
    if i + k < |s| {
      assert s[i..][k..] == s[i + k..];
      StringEndStep(s, i + k);
      StringEndStep(s[i..], k);
      if !EndsString(Decode(s[i + k..]).rune) {
        StringEndShifts(s, i, k + Decode(s[i + k..]).width);
      }
    } else {
      NoPayload(s, i);
      NoPayload(s[i..], 0);
    }
  }

  /** Inside a payload, a control sequence read on its own skips printable bytes only. */
  lemma CsiInPayload(s: Bytes, i: nat, keepLayout: bool, format: set<int>) returns (e: nat)
    requires i < |s| && Decode(s[i..]).rune == C1_CSI
    ensures i < e <= |s| && StringEnd(s, i) == StringEnd(s, e)
    ensures Sanitized(s[i..], keepLayout, format) == Sanitized(s[e..], keepLayout, format)
  {
    hide Decode, Sanitized, CsiEnd;
    var w := Decode(s[i..]).width;
    e := i + SequenceEnd(s[i..]);
    SanitizedStep(s[i..], keepLayout, format);
    assert s[i..][e - i..] == s[e..];
    CsiEndShifts(s, i, w);
    ParameterRunPrintable(s, i + w);
    StringReadsPrintable(s, i + w, e);
  }

  lemma SequenceIsString(s: Bytes)
    requires s != [] && IsStringIntroducer(Decode(s).rune)
    ensures SequenceEnd(s) == StringEnd(s, Decode(s).width) > 0 && !EndsString(Decode(s).rune)
  {
    hide Decode;
  }

  /** Inside a payload, a control string read on its own ends where the payload ends. */
  lemma StringInPayload(s: Bytes, i: nat, keepLayout: bool, format: set<int>)
    requires i < |s| && IsStringIntroducer(Decode(s[i..]).rune)
    ensures Sanitized(s[i..], keepLayout, format) == Sanitized(s[StringEnd(s, i)..], keepLayout, format)
  {
    hide Decode, Sanitized, StringEnd, SequenceEnd, EndsString;
    var w := Decode(s[i..]).width;
    SequenceIsString(s[i..]);
    SanitizedStep(s[i..], keepLayout, format);
    StringEndShifts(s, i, w);
    StringEndStep(s, i);
    assert s[i..][StringEnd(s[i..], w)..] == s[StringEnd(s, i)..];
  }

  lemma EscapeInPayload(s: Bytes, i: nat, keepLayout: bool, format: set<int>)
    requires i < |s| && Decode(s[i..]).rune == ESC
    ensures Sanitized(s[i..], keepLayout, format) == Sanitized(s[StringEnd(s, i)..], keepLayout, format)
  {
    hide Decode, Sanitized;
    EscapeIsOneByte(s[i..]);
    if i + 1 < |s| && s[i + 1] == BACKSLASH {
      SanitizedStep(s[i..], keepLayout, format);
      assert SequenceEnd(s[i..]) == 2 && s[i..][2..] == s[i + 2..];
    }
  }

  lemma RuneInPayload(s: Bytes, i: nat, keepLayout: bool, format: set<int>)
    requires i < |s| && !IsIntroducer(Decode(s[i..]).rune)
    ensures |Sanitized(s[i + Decode(s[i..]).width..], keepLayout, format)| <= |Sanitized(s[i..], keepLayout, format)|
  {
    hide Decode, Sanitized, SequenceEnd, Encode, Mapped, IsIntroducer;
    SanitizedStep(s[i..], keepLayout, format);
    assert s[i..][Decode(s[i..]).width..] == s[i + Decode(s[i..]).width..];
  }

  /** Reading a payload on its own writes at least as much as what follows the control string. */
  lemma {:induction false} PayloadIsNoShorter(s: Bytes, i: nat, keepLayout: bool, format: set<int>)
    requires i <= |s|
    ensures |Sanitized(s[StringEnd(s, i)..], keepLayout, format)| <= |Sanitized(s[i..], keepLayout, format)|
    decreases |s| - i
  {
    hide Decode, Sanitized;
    if i < |s| {
      var d := Decode(s[i..]);
      if d.rune == ESC {
        EscapeInPayload(s, i, keepLayout, format);
      } else if d.rune == C1_CSI {
        var e := CsiInPayload(s, i, keepLayout, format);
        PayloadIsNoShorter(s, e, keepLayout, format);
      } else if IsStringIntroducer(d.rune) {
        StringInPayload(s, i, keepLayout, format);
      } else {
        RuneInPayload(s, i, keepLayout, format);
        PayloadIsNoShorter(s, i + d.width, keepLayout, format);
      }
    }
  }

  /** No byte of s starts a sequence in the text s + rest. */
  ghost predicate Stray(s: Bytes, rest: Bytes) {
    forall i | 0 <= i < |s| :: !StartsSequence((s + rest)[i..])
  }

  /** Bytes that start no sequence are written as U+FFFD, three bytes each. */
  lemma {:induction false} StrayBytes(s: Bytes, rest: Bytes, keepLayout: bool, format: set<int>)
    requires REPLACEMENT !in format && Stray(s, rest)
    ensures |Sanitized(s + rest, keepLayout, format)| == 3 * |s| + |Sanitized(rest, keepLayout, format)|
    decreases |s|
  {
    hide Sanitized;
    if s == [] {
      assert s + rest == rest;
    } else {
      assert (s + rest)[0..] == s + rest && (s + rest)[1..] == s[1..] + rest;
      SanitizedStep(s + rest, keepLayout, format);
      assert !StartsSequence((s + rest)[0..]);
      forall i | 0 <= i < |s[1..]| ensures !StartsSequence((s[1..] + rest)[i..]) {
        assert (s[1..] + rest)[i..] == (s + rest)[i + 1..];
      }
      StrayBytes(s[1..], rest, keepLayout, format);
    }
  }

  /** The tail bytes of a sequence cut in two start no sequence, on either side of the cut. */
  lemma CutSequence(a: Bytes, b: Bytes)
    requires a != [] && |a| < Decode(a + b).width
    ensures var w := Decode(a + b).width;
            && w - |a| <= |b|
            && Stray(a, []) && Stray(b[..w - |a|], b[w - |a|..])
  {
    var s := a + b;
    var w := Decode(s).width;
    forall i | 0 <= i < |a| ensures !StartsSequence((a + [])[i..]) {
      assert (a + [])[i..][0] == s[i];
    }
    var c, rest := b[..w - |a|], b[w - |a|..];
    forall i | 0 <= i < |c| ensures !StartsSequence((c + rest)[i..]) {
      assert (c + rest)[i..][0] == s[|a| + i];
    }
  }

  /** What follows a cut rune, read after the rune or on its own. */
  lemma AfterCutRune(s: Bytes, keepLayout: bool, format: set<int>)
    requires s != [] && Decode(s).width >= 2
    ensures |Sanitized(s, keepLayout, format)| <= 4 + |Sanitized(s[Decode(s).width..], keepLayout, format)|
  {
    hide Decode, Sanitized, Encode, CsiEnd, StringEnd;
    var w := Decode(s).width;
    SanitizedStep(s, keepLayout, format);
    var r := Decode(s).rune;
    if r == ESC {
      EscapeIsOneByte(s);
    } else if r == C1_CSI {
      var e := CsiEnd(s, w);
      ParameterRunPrintable(s, w);
      PrintableRunIsWritten(s, w, e, keepLayout, format);
    } else if IsStringIntroducer(r) {
      PayloadIsNoShorter(s, w, keepLayout, format);
    }
  }

  lemma CutIsNotDistributed(a: Bytes, b: Bytes, keepLayout: bool, format: set<int>)
    requires REPLACEMENT !in format && a != [] && |a| < Decode(a + b).width
    ensures |Sanitized(a + b, keepLayout, format)| < |Sanitized(a, keepLayout, format)|
            + |Sanitized(b, keepLayout, format)|
  {
    hide Decode, Sanitized, StartsSequence;
    var w := Decode(a + b).width;
    CutSequence(a, b);
    AfterCutRune(a + b, keepLayout, format);
    var c, rest := b[..w - |a|], b[w - |a|..];
    assert (a + b)[w..] == rest && c + rest == b && a + [] == a;
    StrayBytes(a, [], keepLayout, format);
    StrayBytes(c, rest, keepLayout, format);
    SanitizedEmpty(keepLayout, format);
  }

  lemma {:induction false} MisalignedIsShorter(a: Bytes, b: Bytes, keepLayout: bool, format: set<int>)
    requires REPLACEMENT !in format && OpensNothing(a) && !Aligned(a + b, |a|)
    ensures |Sanitized(a + b, keepLayout, format)| < |Sanitized(a, keepLayout, format)|
            + |Sanitized(b, keepLayout, format)|
    decreases |a|
  {
    hide Decode, Encode, Mapped, SequenceEnd, Sanitized, OpensNothing;
    if Decode(a + b).width <= |a| {
      StepIntoLeft(a, b, keepLayout, format);
      MisalignedIsShorter(a[Decode(a).width..], b, keepLayout, format);
    } else {
      CutIsNotDistributed(a, b, keepLayout, format);
    }
  }

  /**
   For a left part that opens no sequence, sanitizing distributes over concatenation exactly when the
   cut does not fall inside a rune of the whole. (U+FFFD is not a format character.)
   */
  lemma DistributesExactlyWhenAligned(a: Bytes, b: Bytes, keepLayout: bool, format: set<int>)
    requires REPLACEMENT !in format && OpensNothing(a)
    ensures Sanitized(a + b, keepLayout, format) == Sanitized(a, keepLayout, format) + Sanitized(b, keepLayout, format)
            <==> Aligned(a + b, |a|)
  {
    hide Sanitized;
    if Aligned(a + b, |a|) {
      AlignedDistributes(a, b, keepLayout, format);
    } else {
      MisalignedIsShorter(a, b, keepLayout, format);
    }
  }

  /** A cut inside U+009B: neither half opens a sequence, the whole does, and its payload is dropped. */
  lemma CutIntroducerIsNotDistributed(keepLayout: bool)
    ensures OpensNothing([0xC2])
    ensures Sanitized([0xC2] + [0x9B, 0x41], keepLayout, {}) != Sanitized([0xC2], keepLayout, {})
            + Sanitized([0x9B, 0x41], keepLayout, {})
  {
    var a, b: Bytes := [0xC2], [0x9B, 0x41];
    assert a + b == [0xC2, 0x9B, 0x41];
    assert Decode(a) == Decoded(REPLACEMENT, 1);
    assert Runes(a) == [REPLACEMENT];
    assert Decode(a + b).width == 2;
    DistributesExactlyWhenAligned(a, b, keepLayout, {});
  }
}
