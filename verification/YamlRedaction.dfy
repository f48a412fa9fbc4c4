/**
 The length-preserving redactor of YAML text, which overwrites a byte buffer in place line by line.

 The buffer algorithm is proved to be a fold of a pure line function over the lines of the input;
 what the redactor promises is then proved about that fold.
 */
module YamlRedaction {
  import opened ByteText

  const TAB: Byte := 9
  const NEWLINE: Byte := 10
  const RETURN: Byte := 13
  const SPACE: Byte := 32
  const HASH: Byte := 35
  const PLUS: Byte := 43
  const DASH: Byte := 45
  const COLON: Byte := 58
  const GREATER: Byte := 62
  const UNDERSCORE: Byte := 95
  const BAR: Byte := 124

  /** "**REDACTED**" */
  const SENTINEL: Bytes := [42, 42, 82, 69, 68, 65, 67, 84, 69, 68, 42, 42]

  predicate IsDigit(b: Byte) {
    48 <= b <= 57
  }

  /** The classes of bytes the scanner runs over. */
  datatype Class = Blank | KeyByte | Chomp | InLine

  predicate InClass(c: Class, b: Byte) {
    match c
    case Blank => b == SPACE || b == TAB
    case KeyByte => 97 <= b <= 122 || 65 <= b <= 90 || IsDigit(b) || b == UNDERSCORE || b == DASH
    case Chomp => b == DASH || b == PLUS || IsDigit(b)
    case InLine => b != NEWLINE
  }

  /** The end of the run of class c that starts at i. */
  function Span(v: Bytes, c: Class, i: nat): (j: nat)
    requires i <= |v|
    ensures i <= j <= |v|
    ensures j < |v| ==> !InClass(c, v[j])
    decreases |v| - i
  {
    if i < |v| && InClass(c, v[i]) then Span(v, c, i + 1) else i
  }

  /** The sentinel cut or padded with spaces to n bytes. */
  function Fill(n: nat): (f: Bytes)
    ensures |f| == n && (n > 0 ==> f[0] == SENTINEL[0])
    ensures forall i | 0 <= i < n :: f[i] == SPACE || f[i] in SENTINEL
  {
    if n >= |SENTINEL| then SENTINEL + seq(n - |SENTINEL|, _ => SPACE) else SENTINEL[..n]
  }

  predicate IsBlockMarker(v: Bytes) {
    && v != []
    && (v[0] == BAR || v[0] == GREATER)
    && var j := Span(v, Blank, Span(v, Chomp, 1));
       j == |v| || v[j] == HASH
  }

  /** Where the key name of a line starts: after the indentation and an optional "- " item prefix. */
  function KeyStart(v: Bytes): (k: nat)
    ensures Span(v, Blank, 0) <= k <= |v|
  {
    var p := Span(v, Blank, 0);
    if p + 1 < |v| && v[p] == DASH && v[p + 1] == SPACE then Span(v, Blank, p + 2) else p
  }

  function KeyEnd(v: Bytes): (e: nat)
    ensures KeyStart(v) <= e <= |v|
  {
    Span(v, KeyByte, KeyStart(v))
  }

  /** What a line read as a key line asks for: nothing, a block opened by its key, a value to redact. */
  datatype Reading = Untouched | Opens(indent: nat) | Redacts(from: nat)

  function ReadKey(v: Bytes, denylist: set<Bytes>): (r: Reading)
    ensures r.Redacts? ==> KeyEnd(v) <= r.from < |v|
    ensures r.Redacts? || r.Opens? ==> v[KeyStart(v)..KeyEnd(v)] in denylist
    ensures r.Opens? ==> r.indent == KeyStart(v)
  {
    var p := Span(v, Blank, 0);
    if p == |v| || v[p] == HASH then Untouched
    else if v[KeyStart(v)..KeyEnd(v)] !in denylist then Untouched
    else ReadSeparator(v, KeyStart(v), KeyEnd(v))
  }

  /** What follows a denylisted key. */
  function ReadSeparator(v: Bytes, keyIndent: nat, keyEnd: nat): (r: Reading)
    requires keyEnd <= |v|
    ensures r.Redacts? ==> keyEnd <= r.from < |v|
    ensures r.Opens? ==> r.indent == keyIndent
  {
    if keyEnd == |v| then Untouched
    else if v[keyEnd] != COLON then Redacts(keyEnd)
    else ReadValue(v, keyIndent, keyEnd + 1)
  }

  /** What follows the colon after a denylisted key. */
  function ReadValue(v: Bytes, keyIndent: nat, from: nat): (r: Reading)
    requires from <= |v|
    ensures r.Redacts? ==> from <= r.from < |v|
    ensures r.Opens? ==> r.indent == keyIndent
  {
    if from < |v| && !InClass(Blank, v[from]) && v[from] != HASH then Untouched
    else
      var q := Span(v, Blank, from);
      if q == |v| || v[q] == HASH then Untouched
      else if IsBlockMarker(v[q..]) then Opens(keyIndent)
      else Redacts(q)
  }

  /** Whether the scanner is inside a block scalar, and the column of the key that opened it. */
  datatype State = Normal | Block(indent: nat)

  function Indent(v: Bytes): nat {
    Span(v, Blank, 0)
  }

  /** The line belongs to the block scalar: blank, or indented deeper than the key. */
  predicate Continues(st: State, v: Bytes) {
    st.Block? && (Indent(v) == |v| || Indent(v) > st.indent)
  }

  function Overwrite(v: Bytes, from: nat): (w: Bytes)
    requires from <= |v|
    ensures |w| == |v|
  {
    v[..from] + Fill(|v| - from)
  }

  /** One line without its line ending. */
  function RedactVisible(v: Bytes, st: State, denylist: set<Bytes>): (r: (Bytes, State))
    ensures |r.0| == |v|
  {
    if Continues(st, v) then
      (if Indent(v) == |v| then v else Overwrite(v, Indent(v)), st)
    else
      match ReadKey(v, denylist)
      case Untouched => (v, Normal)
      case Opens(indent) => (v, Block(indent))
      case Redacts(from) => (Overwrite(v, from), Normal)
  }

  /** The length of the line without a trailing carriage return. */
  function VisibleLength(line: Bytes): (n: nat)
    ensures n <= |line|
  {
    if line != [] && line[|line| - 1] == RETURN then |line| - 1 else |line|
  }

  function RedactLine(line: Bytes, st: State, denylist: set<Bytes>): (Bytes, State) {
    var n := VisibleLength(line);
    var (v, next) := RedactVisible(line[..n], st, denylist);
    (v + line[n..], next)
  }

  /** The fold of the line function. */
  function RedactLines(lines: seq<Bytes>, st: State, denylist: set<Bytes>): (r: seq<Bytes>)
    ensures |r| == |lines|
  {
    if lines == [] then []
    else
      var (line, next) := RedactLine(lines[0], st, denylist);
      [line] + RedactLines(lines[1..], next, denylist)
  }

  /** The lines of a text: the pieces between its newlines. */
  function Split(s: Bytes): (lines: seq<Bytes>)
    ensures lines != []
    decreases |s|
  {
    var e := Span(s, InLine, 0);
    if e == |s| then [s] else [s[..e]] + Split(s[e + 1..])
  }

  function Join(lines: seq<Bytes>): Bytes {
    if lines == [] then []
    else if |lines| == 1 then lines[0]
    else lines[0] + [NEWLINE] + Join(lines[1..])
  }

  /** The specification of the whole redaction. */
  function Redacted(s: Bytes, denylist: set<Bytes>): Bytes {
    Join(RedactLines(Split(s), Normal, denylist))
  }

  // ---------------------------------------------------------------------------------------------
  // The buffer algorithm
  // ---------------------------------------------------------------------------------------------

  /** b is the text a with the part that starts at `start` replaced by w. */
  ghost predicate Spliced(a: Bytes, b: Bytes, start: nat, w: Bytes) {
    && |b| == |a|
    && start + |w| <= |a|
    && forall i {:trigger b[i]} | 0 <= i < |a| :: b[i] == if start <= i < start + |w| then w[i - start] else a[i]
  }

  /** The line v stands in the text at start. */
  ghost predicate At(text: Bytes, start: nat, v: Bytes) {
    start + |v| <= |text| && forall i | 0 <= i < |v| :: text[start + i] == v[i]
  }

  lemma ByteAt(text: Bytes, start: nat, v: Bytes, i: nat)
    requires At(text, start, v) && i < |v|
    ensures start + i < |text| && text[start + i] == v[i]
  {
  }

  lemma SpliceNothing(a: Bytes, start: nat, v: Bytes)
    requires At(a, start, v)
    ensures Spliced(a, a, start, v)
  {
  }

  lemma SpliceTail(a: Bytes, b: Bytes, start: nat, v: Bytes, from: nat)
    requires At(a, start, v) && from <= |v| && Spliced(a, b, start + from, Fill(|v| - from))
    ensures Spliced(a, b, start, Overwrite(v, from))
  {
  }

  /** Advances over a run of one class inside the line. */
  method Skip(out: array<Byte>, start: nat, end: nat, c: Class, from: nat, ghost v: Bytes) returns (p: nat)
    requires At(out[..], start, v) && start <= from <= end == start + |v|
    ensures p == start + Span(v, c, from - start)
  {
    p := from;
    while p < end && InClass(c, out[p])
      invariant from <= p <= end
      invariant Span(v, c, p - start) == Span(v, c, from - start)
    {
      assert out[p] == v[p - start];
      p := p + 1;
    }
    assert p < end ==> out[p] == v[p - start];
  }

  /** Overwrites out[start..end] with the sentinel. */
  method RedactFill(out: array<Byte>, start: nat, end: nat)
    requires start <= end <= out.Length
    modifies out
    ensures Spliced(old(out[..]), out[..], start, Fill(end - start))
  {
    var n := end - start;
    var i := 0;
    while i < n
      invariant 0 <= i <= n
      invariant forall k | 0 <= k < out.Length ::
                  out[k] == if start <= k < start + i then Fill(n)[k - start] else old(out[k])
    {
      out[start + i] := if i < |SENTINEL| then SENTINEL[i] else SPACE;
      i := i + 1;
    }
  }

  /** Overwrites the line from the given position to its end. */
  method RedactTail(out: array<Byte>, start: nat, from: nat, end: nat, ghost v: Bytes)
    requires At(out[..], start, v) && start <= from <= end == start + |v|
    modifies out
    ensures Spliced(old(out[..]), out[..], start, Overwrite(v, from - start))
  {
    ghost var before := out[..];
    RedactFill(out, from, end);
    SpliceTail(before, out[..], start, v, from - start);
  }

  method IsBlockMarkerAt(out: array<Byte>, start: nat, end: nat, ghost v: Bytes) returns (marker: bool)
    requires At(out[..], start, v) && end == start + |v|
    ensures marker == IsBlockMarker(v)
  {
    if start == end || (out[start] != BAR && out[start] != GREATER) {
      return false;
    }
    var i := Skip(out, start, end, Chomp, start + 1, v);
    i := Skip(out, start, end, Blank, i, v);
    return i == end || out[i] == HASH;
  }

  /** Finds the key name of a line. */
  method FindKey(out: array<Byte>, start: nat, end: nat, ghost v: Bytes) returns (keyStart: nat, keyEnd: nat)
    requires At(out[..], start, v) && end == start + |v|
    ensures keyStart == start + KeyStart(v) && keyEnd == start + KeyEnd(v)
  {
    hide Span, At, InClass;
    keyStart := Skip(out, start, end, Blank, start, v);
    if keyStart + 1 < end {
      ByteAt(out[..], start, v, keyStart - start);
      ByteAt(out[..], start, v, keyStart + 1 - start);
    }
    if keyStart + 1 < end && out[keyStart] == DASH && out[keyStart + 1] == SPACE {
      keyStart := Skip(out, start, end, Blank, keyStart + 2, v);
    }
    keyEnd := Skip(out, start, end, KeyByte, keyStart, v);
  }

  /** Reads what follows the colon. */
  method ReadValueAt(out: array<Byte>, start: nat, end: nat, keyIndent: nat, from: nat, ghost v: Bytes)
    returns (reading: Reading)
    requires At(out[..], start, v) && start <= from <= end == start + |v|
    ensures reading == ReadValue(v, keyIndent, from - start)
  {
    if from < end && !InClass(Blank, out[from]) && out[from] != HASH {
      return Untouched;
    }
    var p := Skip(out, start, end, Blank, from, v);
    if p >= end || out[p] == HASH {
      return Untouched;
    }
    var marker := IsBlockMarkerAt(out, p, end, v[p - start..]);
    return if marker then Opens(keyIndent) else Redacts(p - start);
  }

  /** Reads what follows a denylisted key. */
  method ReadSeparatorAt(out: array<Byte>, start: nat, end: nat, keyIndent: nat, keyEnd: nat, ghost v: Bytes)
    returns (reading: Reading)
    requires At(out[..], start, v) && start <= keyEnd <= end == start + |v|
    ensures reading == ReadSeparator(v, keyIndent, keyEnd - start)
  {
    if keyEnd >= end {
      return Untouched;
    }
    if out[keyEnd] != COLON {
      return Redacts(keyEnd - start);
    }
    reading := ReadValueAt(out, start, end, keyIndent, keyEnd + 1, v);
  }

  /** Reads one line as a key line. */
  method ReadKeyAt(out: array<Byte>, start: nat, end: nat, denylist: set<Bytes>, ghost v: Bytes)
    returns (reading: Reading)
    requires At(out[..], start, v) && end == start + |v|
    ensures reading == ReadKey(v, denylist)
  {
    hide ReadSeparator;
    var p := Skip(out, start, end, Blank, start, v);
    if p >= end || out[p] == HASH {
      return Untouched;
    }
    var keyStart, keyEnd := FindKey(out, start, end, v);
    var key := out[keyStart..keyEnd];
    assert key == v[KeyStart(v)..KeyEnd(v)];
    if key !in denylist {
      return Untouched;
    }
    reading := ReadSeparatorAt(out, start, end, keyStart - start, keyEnd, v);
  }

  /** Reads one line as a key line and redacts its inline value or reports the block it opens. */
  method TryRedactKey(out: array<Byte>, start: nat, end: nat, denylist: set<Bytes>, ghost v: Bytes)
      returns (inBlock: bool, keyIndent: nat)
    requires At(out[..], start, v) && end == start + |v|
    modifies out
    ensures Spliced(old(out[..]), out[..], start, RedactVisible(v, Normal, denylist).0)
    ensures StateOf(inBlock, keyIndent) == RedactVisible(v, Normal, denylist).1
  {
    hide ReadKey, Spliced, At;
    inBlock, keyIndent := false, 0;
    SpliceNothing(out[..], start, v);
    var reading := ReadKeyAt(out, start, end, denylist, v);
    match reading {
      case Untouched =>
      case Opens(indent) => inBlock, keyIndent := true, indent;
      case Redacts(from) => RedactTail(out, start, start + from, end, v);
    }
  }

  /** One line of the buffer, in the given state of the line machine. */
  method RedactBufferLine(out: array<Byte>, start: nat, end: nat, denylist: set<Bytes>, inBlock: bool, keyIndent: nat,
                          ghost v: Bytes)
      returns (stillInBlock: bool, nextIndent: nat)
    requires At(out[..], start, v) && end == start + |v|
    modifies out
    ensures Spliced(old(out[..]), out[..], start, RedactVisible(v, StateOf(inBlock, keyIndent), denylist).0)
    ensures StateOf(stillInBlock, nextIndent) == RedactVisible(v, StateOf(inBlock, keyIndent), denylist).1
  {
    hide ReadKey, Spliced, At;
    stillInBlock, nextIndent := inBlock, keyIndent;
    SpliceNothing(out[..], start, v);
    if inBlock {
      var p := Skip(out, start, end, Blank, start, v);
      if p == end {
        return;
      }
      if p - start > keyIndent {
        RedactTail(out, start, p, end, v);
        return;
      }
    }
    stillInBlock, nextIndent := TryRedactKey(out, start, end, denylist, v);
  }

  function Remaining(s: Bytes, st: State, denylist: set<Bytes>): Bytes {
    Join(RedactLines(Split(s), st, denylist))
  }

  function StateOf(inBlock: bool, keyIndent: nat): State {
    if inBlock then Block(keyIndent) else Normal
  }

  /** The text done up to pos, and what the fold makes of the rest. */
  function Whole(text: Bytes, pos: nat, st: State, denylist: set<Bytes>): Bytes
    requires pos <= |text|
  {
    text[..pos] + Remaining(text[pos..], st, denylist)
  }

  lemma WholeAtStart(text: Bytes, denylist: set<Bytes>)
    ensures Whole(text, 0, Normal, denylist) == Redacted(text, denylist)
  {
    assert text[0..] == text;
  }

  lemma WholeAtEnd(text: Bytes, st: State, denylist: set<Bytes>)
    ensures Whole(text, |text|, st, denylist) == text
  {
    assert text[..|text|] == text;
    NothingRemains(st, denylist);
  }

  /** The line that starts at pos: redacts its visible part and says where the next one starts. */
  method RedactNextLine(out: array<Byte>, pos: nat, denylist: set<Bytes>, inBlock: bool, keyIndent: nat)
      returns (next: nat, stillInBlock: bool, nextIndent: nat)
    requires pos < out.Length
    modifies out
    ensures pos < next <= out.Length
    ensures Whole(out[..], next, StateOf(stillInBlock, nextIndent), denylist) ==
            Whole(old(out[..]), pos, StateOf(inBlock, keyIndent), denylist)
  {
    hide RedactVisible, Remaining, Spliced, StateOf;
    ghost var text, st := out[..], StateOf(inBlock, keyIndent);
    var lineEnd := Skip(out, pos, out.Length, InLine, pos, text[pos..]);
    var visibleEnd := lineEnd;
    if visibleEnd > pos && out[visibleEnd - 1] == RETURN {
      visibleEnd := visibleEnd - 1;
    }
    VisibleIs(text, pos, lineEnd, visibleEnd);
    ghost var line := text[pos..visibleEnd];
    stillInBlock, nextIndent := RedactBufferLine(out, pos, visibleEnd, denylist, inBlock, keyIndent, line);
    AdvanceOneLine(text, out[..], pos, visibleEnd, lineEnd, st, denylist);
    next := if lineEnd < out.Length then lineEnd + 1 else lineEnd;
  }

  lemma VisibleIs(text: Bytes, pos: nat, lineEnd: nat, visibleEnd: nat)
    requires pos <= visibleEnd <= lineEnd <= |text|
    requires visibleEnd == if lineEnd > pos && text[lineEnd - 1] == RETURN then lineEnd - 1 else lineEnd
    ensures visibleEnd == pos + VisibleLength(text[pos..lineEnd])
    ensures At(text, pos, text[pos..visibleEnd])
  {
  }

  /** The whole buffer: refines the fold over its lines. */
  method RedactInPlace(out: array<Byte>, denylist: set<Bytes>)
    modifies out
    ensures out[..] == Redacted(old(out[..]), denylist)
  {
    hide *;
    var pos, inBlock, keyIndent := 0, false, 0;
    WholeAtStart(out[..], denylist);
    assert StateOf(false, 0) == Normal by { StartsNormal(); }
    while pos < out.Length
      invariant pos <= out.Length
      invariant Whole(out[..], pos, StateOf(inBlock, keyIndent), denylist) == Redacted(old(out[..]), denylist)
      decreases out.Length - pos
    {
      pos, inBlock, keyIndent := RedactNextLine(out, pos, denylist, inBlock, keyIndent);
    }
    WholeAtEnd(out[..], StateOf(inBlock, keyIndent), denylist);
  }

  lemma StartsNormal()
    ensures StateOf(false, 0) == Normal
  {
  }

  /** Replacing the visible part of one line keeps the rest of the text where it stands. */
  lemma SpliceLine(a: Bytes, b: Bytes, pos: nat, visibleEnd: nat, lineEnd: nat, w: Bytes)
    requires pos <= visibleEnd <= lineEnd <= |a| && |w| == visibleEnd - pos && Spliced(a, b, pos, w)
    ensures |b| == |a| && b[..lineEnd] == a[..pos] + (w + a[pos..lineEnd][visibleEnd - pos..])
    ensures lineEnd < |a| ==> b[..lineEnd + 1] == a[..pos] + (w + a[pos..lineEnd][visibleEnd - pos..]) + [a[lineEnd]]
    ensures lineEnd < |a| ==> b[lineEnd + 1..] == a[pos..][lineEnd - pos + 1..]
  {
  }

  /** The fold over what remains, one line at a time. */
  lemma FoldOneLine(s: Bytes, st: State, denylist: set<Bytes>)
    ensures var e := Span(s, InLine, 0);
            var (line, next) := RedactLine(s[..e], st, denylist);
            Remaining(s, st, denylist) ==
              if e == |s| then line else line + [NEWLINE] + Remaining(s[e + 1..], next, denylist)
  {
    hide RedactLine;
    var e := Span(s, InLine, 0);
    if e == |s| {
      assert s[..e] == s;
    } else {
      assert Split(s)[1..] == Split(s[e + 1..]);
    }
  }

  /** A redacted line is its redacted visible part with the line's own ending. */
  lemma RedactLineByParts(line: Bytes, st: State, denylist: set<Bytes>, n: nat)
    requires n == VisibleLength(line)
    ensures RedactLine(line, st, denylist) == (RedactVisible(line[..n], st, denylist).0 + line[n..],
                                               RedactVisible(line[..n], st, denylist).1)
  {
    hide RedactVisible;
  }

  lemma NothingRemains(st: State, denylist: set<Bytes>)
    ensures Remaining([], st, denylist) == []
  {
    assert Split([]) == [[]];
  }

  /** Redacting one line of the buffer moves it from what remains to what is done. */
  lemma AdvanceOneLine(a: Bytes, b: Bytes, pos: nat, visibleEnd: nat, lineEnd: nat, st: State, denylist: set<Bytes>)
    requires pos <= visibleEnd <= lineEnd <= |a| && lineEnd == pos + Span(a[pos..], InLine, 0)
    requires visibleEnd == pos + VisibleLength(a[pos..lineEnd])
    requires Spliced(a, b, pos, RedactVisible(a[pos..visibleEnd], st, denylist).0)
    ensures |a| == |b|
    ensures var p := if lineEnd < |a| then lineEnd + 1 else lineEnd;
            b[..p] + Remaining(b[p..], RedactVisible(a[pos..visibleEnd], st, denylist).1, denylist)
            == a[..pos] + Remaining(a[pos..], st, denylist)
  {
    hide RedactVisible, RedactLine, Remaining, Spliced, VisibleLength;
    var line := a[pos..lineEnd];
    assert a[pos..][..lineEnd - pos] == line;
    assert line[..visibleEnd - pos] == a[pos..visibleEnd];
    var (w, next) := RedactVisible(a[pos..visibleEnd], st, denylist);
    RedactLineByParts(line, st, denylist, visibleEnd - pos);
    FoldOneLine(a[pos..], st, denylist);
    SpliceLine(a, b, pos, visibleEnd, lineEnd, w);
    if lineEnd < |a| {
      Regroup(a[..pos], w + line[visibleEnd - pos..], [NEWLINE], Remaining(b[lineEnd + 1..], next, denylist));
    } else {
      assert b[lineEnd..] == [];
      NothingRemains(next, denylist);
    }
  }

  lemma Regroup(a: Bytes, b: Bytes, c: Bytes, d: Bytes)
    ensures a + b + c + d == a + (b + c + d)
  {
  }
}
