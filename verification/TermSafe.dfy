/**
 Neutralising terminal control in text that comes from a server: escape sequences are dropped whole,
 remaining control and format runes become spaces. The sequence shapes are those of sections 5.4
 (control sequences) and 5.6 (control strings) of ECMA-48.

 The Unicode format category is a table of the standard library; here it is the parameter `format`.
 */
module TermSafe {
  import opened ByteText
  import opened Utf8

  const BEL: int := 0x07
  const TAB: int := 0x09
  const NEWLINE: int := 0x0A
  const CAN: int := 0x18
  const SUB: int := 0x1A
  const ESC: int := 0x1B
  const SPACE: int := 0x20
  const C1_DCS: int := 0x90
  const C1_SOS: int := 0x98
  const C1_CSI: int := 0x9B
  const C1_ST: int := 0x9C
  const C1_OSC: int := 0x9D
  const C1_PM: int := 0x9E
  const C1_APC: int := 0x9F
  const BACKSLASH: Byte := 0x5C

  predicate IsParameter(b: Byte) { 0x30 <= b <= 0x3F }

  predicate IsIntermediate(b: Byte) { 0x20 <= b <= 0x2F }

  predicate IsFinal(b: Byte) { 0x40 <= b <= 0x7E }

  predicate IsEscapeFinal(b: Byte) { 0x30 <= b <= 0x7E }

  predicate IsControl(r: int) {
    0 <= r < 0x20 || 0x7F <= r < 0xA0
  }

  predicate IsUnsafe(r: int, format: set<int>) {
    IsControl(r) || r in format
  }

  /** The runes that open a sequence. */
  predicate IsIntroducer(r: int) {
    r == ESC || r == C1_CSI || IsStringIntroducer(r)
  }

  predicate IsStringIntroducer(r: int) {
    r == C1_OSC || r == C1_DCS || r == C1_SOS || r == C1_PM || r == C1_APC
  }

  // ---------------------------------------------------------------------------------------------
  // Where a sequence ends
  // ---------------------------------------------------------------------------------------------

  function ParameterRun(s: Bytes, i: nat): (j: nat)
    requires i <= |s|
    ensures i <= j <= |s|
    decreases |s| - i
  {
    if i < |s| && IsParameter(s[i]) then ParameterRun(s, i + 1) else i
  }

  function IntermediateRun(s: Bytes, i: nat): (j: nat)
    requires i <= |s|
    ensures i <= j <= |s|
    decreases |s| - i
  {
    if i < |s| && IsIntermediate(s[i]) then IntermediateRun(s, i + 1) else i
  }

  function CsiEnd(s: Bytes, start: nat): (e: nat)
    requires start <= |s|
    ensures start <= e <= |s|
  {
    var i := IntermediateRun(s, ParameterRun(s, start));
    if i < |s| && IsFinal(s[i]) then i + 1 else i
  }

  /** The end of a control string whose payload starts at i. */
  function StringEnd(s: Bytes, i: nat): (e: nat)
    requires i <= |s|
    ensures i <= e <= |s|
    decreases |s| - i
  {
    if i == |s| then i
    else
      var d := Decode(s[i..]);
      if d.rune == BEL || d.rune == CAN || d.rune == SUB || d.rune == C1_ST then i + d.width
      else if d.rune == ESC then (if i + 1 < |s| && s[i + 1] == BACKSLASH then i + 2 else i)
      else StringEnd(s, i + d.width)
  }

  function EscapeEnd(s: Bytes): (e: nat)
    requires s != [] && s[0] == 0x1B
    ensures 1 <= e <= |s|
  {
    if |s| == 1 then 1
    else if s[1] == '[' as Byte then CsiEnd(s, 2)
    else if s[1] == ']' as Byte || s[1] == 'P' as Byte || s[1] == 'X' as Byte || s[1] == '^' as Byte
            || s[1] == '_' as Byte
    then StringEnd(s, 2)
    else
      var i := IntermediateRun(s, 1);
      if i < |s| && IsEscapeFinal(s[i]) then i + 1 else 1
  }

  /** The length of the escape sequence that starts the text, 0 when it starts with none. */
  function SequenceEnd(s: Bytes): (e: nat)
    requires s != []
    ensures e <= |s| && (e > 0 <==> IsIntroducer(Decode(s).rune))
  {
    var d := Decode(s);
    if d.rune == ESC then EscapeEnd(s)
    else if d.rune == C1_CSI then CsiEnd(s, d.width)
    else if IsStringIntroducer(d.rune) then StringEnd(s, d.width)
    else 0
  }

  // ---------------------------------------------------------------------------------------------
  // The greedy segmentation
  // ---------------------------------------------------------------------------------------------

  /** A text is read as escape sequences, dropped, and single runes, kept or mapped. */
  datatype Segment = Dropped(bytes: Bytes) | Kept(bytes: Bytes, rune: int)

  function Segments(s: Bytes): (segments: seq<Segment>)
    decreases |s|
  {
    if s == [] then []
    else
      var n := SequenceEnd(s);
      if n > 0 then [Dropped(s[..n])] + Segments(s[n..])
      else
        var d := Decode(s);
        [Kept(s[..d.width], d.rune)] + Segments(s[d.width..])
  }

  function Mapped(r: int, keepLayout: bool, format: set<int>): (m: int)
    requires IsScalar(r)
    ensures IsScalar(m)
  {
    if keepLayout && (r == NEWLINE || r == TAB) then r
    else if IsUnsafe(r, format) then SPACE
    else r
  }

  function Written(segment: Segment, keepLayout: bool, format: set<int>): Bytes {
    if segment.Kept? && IsScalar(segment.rune) then Encode(Mapped(segment.rune, keepLayout, format)) else []
  }

  function WriteAll(segments: seq<Segment>, keepLayout: bool, format: set<int>): Bytes {
    if segments == [] then []
    else Written(segments[0], keepLayout, format) + WriteAll(segments[1..], keepLayout, format)
  }

  /** The specification of the sanitizer. */
  function Sanitized(s: Bytes, keepLayout: bool, format: set<int>): Bytes {
    WriteAll(Segments(s), keepLayout, format)
  }

  // ---------------------------------------------------------------------------------------------
  // The scanner
  // ---------------------------------------------------------------------------------------------

  method CsiLen(s: Bytes, start: nat) returns (n: nat)
    requires start <= |s|
    ensures n == CsiEnd(s, start)
  {
    var i := start;
    while i < |s| && IsParameter(s[i])
      invariant start <= i <= |s| && ParameterRun(s, i) == ParameterRun(s, start)
    {
      i := i + 1;
    }
    ghost var p := i;
    while i < |s| && IsIntermediate(s[i])
      invariant p <= i <= |s| && IntermediateRun(s, i) == IntermediateRun(s, p)
    {
      i := i + 1;
    }
    if i < |s| && IsFinal(s[i]) {
      return i + 1;
    }
    return i;
  }

  method StringLen(s: Bytes, start: nat) returns (n: nat)
    requires start <= |s|
    ensures n == StringEnd(s, start)
  {
    var i := start;
    while i < |s|
      invariant start <= i <= |s| && StringEnd(s, i) == StringEnd(s, start)
      decreases |s| - i
    {
      var d := Decode(s[i..]);
      if d.rune == BEL || d.rune == CAN || d.rune == SUB || d.rune == C1_ST {
        return i + d.width;
      } else if d.rune == ESC {
        if i + 1 < |s| && s[i + 1] == BACKSLASH {
          return i + 2;
        }
        return i;
      }
      i := i + d.width;
    }
    return |s|;
  }

  method EscapeLen(s: Bytes) returns (n: nat)
    requires s != [] && s[0] == 0x1B
    ensures n == EscapeEnd(s)
  {
    if |s| == 1 {
      return 1;
    }
    if s[1] == '[' as Byte {
      n := CsiLen(s, 2);
      return;
    }
    if s[1] == ']' as Byte || s[1] == 'P' as Byte || s[1] == 'X' as Byte || s[1] == '^' as Byte || s[1] == '_' as Byte {
      n := StringLen(s, 2);
      return;
    }
    var i := 1;
    while i < |s| && IsIntermediate(s[i])
      invariant 1 <= i <= |s| && IntermediateRun(s, i) == IntermediateRun(s, 1)
    {
      i := i + 1;
    }
    if i < |s| && IsEscapeFinal(s[i]) {
      return i + 1;
    }
    return 1;
  }

  method SequenceLen(s: Bytes) returns (n: nat)
    requires s != []
    ensures n == SequenceEnd(s)
  {
    var d := Decode(s);
    if d.rune == ESC {
      n := EscapeLen(s);
    } else if d.rune == C1_CSI {
      n := CsiLen(s, d.width);
    } else if IsStringIntroducer(d.rune) {
      n := StringLen(s, d.width);
    } else {
      n := 0;
    }
  }

  /** One step of the walk: a sequence is skipped, a rune is written. */
  lemma SanitizedStep(s: Bytes, keepLayout: bool, format: set<int>)
    requires s != []
    ensures Sanitized(s, keepLayout, format) ==
            if SequenceEnd(s) > 0 then Sanitized(s[SequenceEnd(s)..], keepLayout, format)
            else
              Encode(Mapped(Decode(s).rune, keepLayout, format))
              + Sanitized(s[Decode(s).width..], keepLayout, format)
  {
    hide SequenceEnd, Decode, Encode, Mapped;
    assert Segments(s)[1..] == Segments(s[if SequenceEnd(s) > 0 then SequenceEnd(s) else Decode(s).width..]);
  }

  /** Walks the text rune by rune, skipping whole sequences, and terminates. */
  method Sanitize(value: Bytes, keepLayout: bool, format: set<int>) returns (out: Bytes)
    ensures out == Sanitized(value, keepLayout, format)
  {
    hide Sanitized, SequenceEnd, Decode, Encode, Mapped;
    out := [];
    var i := 0;
    assert value[0..] == value;
    while i < |value|
      invariant 0 <= i <= |value|
      invariant Sanitized(value, keepLayout, format) == out + Sanitized(value[i..], keepLayout, format)
      decreases |value| - i
    {
      ghost var rest := value[i..];
      SanitizedStep(rest, keepLayout, format);
      var n := SequenceLen(value[i..]);
      if n > 0 {
        assert value[i + n..] == rest[n..];
        i := i + n;
      } else {
        var d := Decode(value[i..]);
        assert value[i + d.width..] == rest[d.width..];
        i := i + d.width;
        out := out + Encode(Mapped(d.rune, keepLayout, format));
      }
    }
    assert value[i..] == [];
    SanitizedEmpty(keepLayout, format);
  }

  lemma SanitizedEmpty(keepLayout: bool, format: set<int>)
    ensures Sanitized([], keepLayout, format) == []
  {
  }

  method Cell(value: Bytes, format: set<int>) returns (out: Bytes)
    ensures out == Sanitized(value, false, format)
  {
    out := Sanitize(value, false, format);
  }

  method Text(value: Bytes, format: set<int>) returns (out: Bytes)
    ensures out == Sanitized(value, true, format)
  {
    out := Sanitize(value, true, format);
  }
}
