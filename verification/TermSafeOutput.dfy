/**
 What the sanitizer writes, rune by rune: which runes of the text are kept, which become spaces, and which
 texts it leaves as they are.
 */
module TermSafeOutput {
  import opened ByteText
  import opened Utf8
  import opened TermSafe
  import opened TermSafeTheorems

  /** What segment i drops is a whole escape sequence of the rest of the text. */
  lemma {:induction false} DroppedIsSequence(s: Bytes, i: nat)
    requires i < |Segments(s)|
    ensures Bytewise(Segments(s)[i..]) != []
    ensures Segments(s)[i].Dropped? ==> |Segments(s)[i].bytes| == SequenceEnd(Bytewise(Segments(s)[i..]))
    ensures Segments(s)[i].Kept? ==> SequenceEnd(Bytewise(Segments(s)[i..])) == 0
    decreases i
  {
    hide Decode, SequenceEnd;
    SegmentsCoverText(s);
    assert Segments(s)[0..] == Segments(s);
    if i > 0 {
      var cut := if SequenceEnd(s) > 0 then SequenceEnd(s) else Decode(s).width;
      FirstSegment(s);
      assert Segments(s)[i..] == Segments(s[cut..])[i - 1..];
      DroppedIsSequence(s[cut..], i - 1);
    }
  }

  /** The runes that are no part of a dropped sequence, in order. */
  function KeptRunes(segments: seq<Segment>): seq<int> {
    if segments == [] then []
    else (if segments[0].Kept? then [segments[0].rune] else []) + KeptRunes(segments[1..])
  }

  /** The rune is written as a space: it is a C0 or C1 control, DEL, or a format rune, and not kept as layout. */
  predicate Blanked(r: int, keepLayout: bool, format: set<int>) {
    && (0 <= r <= 0x1F || 0x7F <= r <= 0x9F || r in format)
    && !(keepLayout && (r == '\n' as int || r == '\t' as int))
  }

  /** The runes written are the runes read, one for one, the blanked ones as spaces. */
  predicate WrittenAs(read: seq<int>, written: seq<int>, keepLayout: bool, format: set<int>) {
    && |written| == |read|
    && forall i | 0 <= i < |read| :: written[i] == if Blanked(read[i], keepLayout, format) then 0x20 else read[i]
  }

  lemma {:induction false} OutputIsKept(segments: seq<Segment>, keepLayout: bool, format: set<int>)
    requires forall i | 0 <= i < |segments| && segments[i].Kept? :: IsScalar(segments[i].rune)
    ensures WrittenAs(KeptRunes(segments), Output(segments, keepLayout, format), keepLayout, format)
  {
    if segments != [] {
      OutputIsKept(segments[1..], keepLayout, format);
    }
  }

  /**
   The output is the UTF-8 of the runes outside the dropped sequences, in order, each as it is unless it is a
   control or format rune, and then as a space.
   */
  lemma SanitizedRuneByRune(s: Bytes, keepLayout: bool, format: set<int>)
    ensures var out := Sanitized(s, keepLayout, format);
            out == EncodeAll(Runes(out)) && WrittenAs(KeptRunes(Segments(s)), Runes(out), keepLayout, format)
  {
    hide Decode, Encode, SequenceEnd, Output, KeptRunes, WrittenAs;
    SegmentsCoverText(s);
    forall i | 0 <= i < |Segments(s)| && Segments(s)[i].Kept? ensures IsScalar(Segments(s)[i].rune) {
      assert SegmentOk(Segments(s)[i]);
    }
    OutputIsKept(Segments(s), keepLayout, format);
    OutputIsClean(Segments(s), keepLayout, format);
    RunesOfEncoded(Output(Segments(s), keepLayout, format));
  }

  /**
   A text is returned as it is exactly when it is valid UTF-8 and none of its runes is blanked; the runes that
   open sequences are controls and so among those. (A space is not a format character.)
   */
  lemma KeptExactlyWhenPlain(s: Bytes, keepLayout: bool, format: set<int>)
    requires 0x20 !in format
    ensures Sanitized(s, keepLayout, format) == s <==>
            s == EncodeAll(Runes(s)) && forall r | r in Runes(s) :: !Blanked(r, keepLayout, format)
  {
    hide Decode, Encode, Sanitized, Runes;
    var rs := Runes(s);
    if Sanitized(s, keepLayout, format) == s {
      SanitizedIsSafe(s, keepLayout, format);
    }
    if s == EncodeAll(rs) && forall r | r in rs :: !Blanked(r, keepLayout, format) {
      forall i | 0 <= i < |rs| ensures IsClean(rs[i], keepLayout, format) {
        assert rs[i] in rs;
      }
      CleanTextIsKept(rs, keepLayout, format);
    }
  }
}
