/**
 What the redaction guarantees: the shape of the text is kept, a second pass changes nothing, and a
 line is overwritten exactly where it holds the value of a denylisted key.
 */
module YamlRedactionTheorems {
  import opened ByteText
  import opened YamlRedaction
  import opened YamlShapes

  // ---------------------------------------------------------------------------------------------
  // Splitting and joining
  // ---------------------------------------------------------------------------------------------

  predicate IsLine(line: Bytes) {
    NEWLINE !in line
  }

  lemma {:induction false} JoinSplit(s: Bytes)
    ensures Join(Split(s)) == s
    ensures forall i | 0 <= i < |Split(s)| :: IsLine(Split(s)[i])
    decreases |s|
  {
    var e := Span(s, InLine, 0);
    SpanIsRun(s, InLine, 0);
    if e < |s| {
      JoinSplit(s[e + 1..]);
      assert s == s[..e] + [s[e]] + s[e + 1..];
      assert Split(s)[1..] == Split(s[e + 1..]);
      assert Join(Split(s)) == s[..e] + [NEWLINE] + s[e + 1..];
    }
  }

  lemma {:induction false} SplitJoin(lines: seq<Bytes>)
    requires lines != [] && forall i | 0 <= i < |lines| :: IsLine(lines[i])
    ensures Split(Join(lines)) == lines
  {
    var s := Join(lines);
    SpanUntil(s, InLine, 0, |lines[0]|);
    hide Span;
    if |lines| > 1 {
      SplitJoin(lines[1..]);
      assert s[..|lines[0]|] == lines[0];
      assert s[|lines[0]| + 1..] == Join(lines[1..]);
    }
  }

  // ---------------------------------------------------------------------------------------------
  // Shape
  // ---------------------------------------------------------------------------------------------

  lemma OverwriteBytes(v: Bytes, from: nat)
    requires from <= |v|
    ensures var w := Overwrite(v, from);
            && w[..from] == v[..from] && w[from..] == Fill(|v| - from)
            && (from < |v| ==> w[from] == SENTINEL[0])
            && forall i | from <= i < |v| :: w[i] != NEWLINE && w[i] != RETURN
  {
    var w := Overwrite(v, from);
    forall i | from <= i < |v| ensures w[i] != NEWLINE && w[i] != RETURN {
      assert w[i] == Fill(|v| - from)[i - from];
    }
  }

  /** Where the overwritten part of a line starts: its length when the line is left as it is. */
  function SecretFrom(v: Bytes, st: State, denylist: set<Bytes>): (from: nat)
    ensures from <= |v|
  {
    if Continues(st, v) then Indent(v)
    else
      match ReadKey(v, denylist)
      case Redacts(from) => from
      case _ => |v|
  }

  lemma VisibleIsOverwritten(v: Bytes, st: State, denylist: set<Bytes>)
    ensures RedactVisible(v, st, denylist).0 == Overwrite(v, SecretFrom(v, st, denylist))
  {
    hide ReadKey;
    assert Overwrite(v, |v|) == v;
  }

  lemma LineKeepsShape(line: Bytes, st: State, denylist: set<Bytes>)
    requires IsLine(line)
    ensures var r := RedactLine(line, st, denylist).0; |r| == |line| && IsLine(r)
  {
    hide RedactVisible, SecretFrom, Overwrite;
    var n := VisibleLength(line);
    var from := SecretFrom(line[..n], st, denylist);
    VisibleIsOverwritten(line[..n], st, denylist);
    OverwriteBytes(line[..n], from);
    var w := Overwrite(line[..n], from);
    forall i | 0 <= i < n ensures w[i] != NEWLINE {
      assert i < from ==> w[i] == w[..from][i] == line[..n][..from][i];
    }
  }

  lemma {:induction false} LinesKeepShape(lines: seq<Bytes>, st: State, denylist: set<Bytes>)
    requires forall i | 0 <= i < |lines| :: IsLine(lines[i])
    ensures var r := RedactLines(lines, st, denylist);
            forall i | 0 <= i < |lines| :: |r[i]| == |lines[i]| && IsLine(r[i])
  {
    hide RedactLine;
    if lines != [] {
      LineKeepsShape(lines[0], st, denylist);
      LinesKeepShape(lines[1..], RedactLine(lines[0], st, denylist).1, denylist);
    }
  }

  /** Texts whose lines have the same lengths have their newlines at the same places. */
  lemma {:induction false} SameShape(a: seq<Bytes>, b: seq<Bytes>)
    requires |a| == |b| && forall i | 0 <= i < |a| :: |a[i]| == |b[i]| && IsLine(a[i]) && IsLine(b[i])
    ensures |Join(a)| == |Join(b)|
    ensures forall i | 0 <= i < |Join(a)| :: Join(a)[i] == NEWLINE <==> Join(b)[i] == NEWLINE
  {
    if |a| == 1 {
      assert forall i | 0 <= i < |a[0]| :: a[0][i] != NEWLINE && b[0][i] != NEWLINE;
    } else if |a| > 1 {
      SameShape(a[1..], b[1..]);
      var n := |a[0]|;
      forall i | 0 <= i < |Join(a)| ensures Join(a)[i] == NEWLINE <==> Join(b)[i] == NEWLINE {
        if i < n {
          assert Join(a)[i] == a[0][i] && Join(b)[i] == b[0][i];
        } else if i > n {
          assert Join(a)[i] == Join(a[1..])[i - n - 1] && Join(b)[i] == Join(b[1..])[i - n - 1];
        }
      }
    }
  }

  /** The redacted text has the length of the input and exactly its newline positions. */
  lemma RedactionKeepsShape(s: Bytes, denylist: set<Bytes>)
    ensures |Redacted(s, denylist)| == |s|
    ensures forall i | 0 <= i < |s| :: Redacted(s, denylist)[i] == NEWLINE <==> s[i] == NEWLINE
  {
    JoinSplit(s);
    LinesKeepShape(Split(s), Normal, denylist);
    SameShape(Split(s), RedactLines(Split(s), Normal, denylist));
  }

  // ---------------------------------------------------------------------------------------------
  // Idempotence
  // ---------------------------------------------------------------------------------------------

  /** A run that ends where, or before, the overwritten part starts is still the same run. */
  lemma SpanSurvives(v: Bytes, w: Bytes, c: Class, i: nat, from: nat)
    requires |w| == |v| && i <= from <= |v| && Span(v, c, i) <= from && w[..from] == v[..from]
    requires from < |v| ==> w[from] == SENTINEL[0] && !InClass(c, SENTINEL[0])
    requires from == |v| ==> w == v
    ensures Span(w, c, i) == Span(v, c, i)
  {
    var j := Span(v, c, i);
    SpanIsRun(v, c, i);
    forall k | i <= k < j ensures InClass(c, w[k]) {
      assert w[k] == w[..from][k] == v[..from][k] == v[k];
    }
    if j < from {
      assert w[j] == w[..from][j] == v[..from][j] == v[j];
    }
    SpanUntil(w, c, i, j);
  }

  lemma IndentSurvives(v: Bytes, from: nat)
    requires Indent(v) <= from < |v|
    ensures Indent(Overwrite(v, from)) == Indent(v)
  {
    hide Overwrite;
    OverwriteBytes(v, from);
    SpanSurvives(v, Overwrite(v, from), Blank, 0, from);
  }

  lemma KeyStartSurvives(v: Bytes, from: nat)
    requires KeyStart(v) <= from < |v|
    ensures KeyStart(Overwrite(v, from)) == KeyStart(v)
  {
    hide Overwrite;
    var w := Overwrite(v, from);
    OverwriteBytes(v, from);
    IndentSurvives(v, from);
    var p := Indent(v);
    assert forall k | 0 <= k < from :: w[k] == w[..from][k] == v[..from][k] == v[k];
    if p + 1 < |v| && v[p] == DASH && v[p + 1] == SPACE {
      SpanSurvives(v, w, Blank, p + 2, from);
    }
  }

  lemma KeySurvives(v: Bytes, from: nat)
    requires KeyEnd(v) <= from < |v|
    ensures var w := Overwrite(v, from);
            KeyStart(w) == KeyStart(v) && KeyEnd(w) == KeyEnd(v)
                && w[KeyStart(w)..KeyEnd(w)] == v[KeyStart(v)..KeyEnd(v)]
  {
    hide Overwrite, KeyStart;
    var w := Overwrite(v, from);
    OverwriteBytes(v, from);
    KeyStartSurvives(v, from);
    SpanSurvives(v, w, KeyByte, KeyStart(v), from);
    assert w[KeyStart(v)..KeyEnd(v)] == w[..from][KeyStart(v)..KeyEnd(v)] == v[..from][KeyStart(v)..KeyEnd(v)];
  }

  lemma ValueSurvives(v: Bytes, keyIndent: nat, valueFrom: nat, from: nat)
    requires valueFrom <= |v| && ReadValue(v, keyIndent, valueFrom) == Redacts(from)
    ensures ReadValue(Overwrite(v, from), keyIndent, valueFrom) == Redacts(from)
  {
    hide Overwrite;
    var w := Overwrite(v, from);
    OverwriteBytes(v, from);
    assert forall k | 0 <= k < from :: w[k] == w[..from][k] == v[..from][k] == v[k];
    SpanSurvives(v, w, Blank, valueFrom, from);
  }

  lemma ReadingSurvives(v: Bytes, denylist: set<Bytes>, from: nat)
    requires ReadKey(v, denylist) == Redacts(from)
    ensures ReadKey(Overwrite(v, from), denylist) == Redacts(from)
  {
    hide Overwrite, ReadValue, KeyStart, KeyEnd;
    var w := Overwrite(v, from);
    OverwriteBytes(v, from);
    IndentSurvives(v, from);
    KeySurvives(v, from);
    assert forall k | 0 <= k < from :: w[k] == w[..from][k] == v[..from][k] == v[k];
    if v[KeyEnd(v)] == COLON {
      ValueSurvives(v, KeyStart(v), KeyEnd(v) + 1, from);
    }
  }

  lemma VisibleIsStable(v: Bytes, st: State, denylist: set<Bytes>)
    ensures RedactVisible(RedactVisible(v, st, denylist).0, st, denylist) == RedactVisible(v, st, denylist)
  {
    hide Overwrite, ReadKey;
    var from := SecretFrom(v, st, denylist);
    VisibleIsOverwritten(v, st, denylist);
    OverwriteBytes(v, from);
    var w := Overwrite(v, from);
    if from == |v| {
      assert w == v by { assert w[..from] == w && v[..from] == v; }
    } else {
      OverwriteTwice(v, from);
      IndentSurvives(v, from);
      if !Continues(st, v) {
        ReadingSurvives(v, denylist, from);
      }
    }
  }

  lemma OverwriteTwice(v: Bytes, from: nat)
    requires from <= |v|
    ensures Overwrite(Overwrite(v, from), from) == Overwrite(v, from)
  {
  }

  lemma LineIsStable(line: Bytes, st: State, denylist: set<Bytes>)
    ensures RedactLine(RedactLine(line, st, denylist).0, st, denylist) == RedactLine(line, st, denylist)
  {
    hide RedactVisible, SecretFrom, Overwrite;
    var n := VisibleLength(line);
    var v := line[..n];
    var w := RedactVisible(v, st, denylist).0;
    var r := w + line[n..];
    VisibleIsStable(v, st, denylist);
    VisibleIsOverwritten(v, st, denylist);
    OverwriteBytes(v, SecretFrom(v, st, denylist));
    var from := SecretFrom(v, st, denylist);
    if n == |line| && n > 0 && n - 1 < from {
      assert w[n - 1] == w[..from][n - 1] == v[..from][n - 1] == line[n - 1];
    }
    assert VisibleLength(r) == n;
    assert r[..n] == w && r[n..] == line[n..];
  }

  lemma {:induction false} LinesAreStable(lines: seq<Bytes>, st: State, denylist: set<Bytes>)
    ensures RedactLines(RedactLines(lines, st, denylist), st, denylist) == RedactLines(lines, st, denylist)
  {
    hide RedactLine;
    if lines != [] {
      LineIsStable(lines[0], st, denylist);
      LinesAreStable(lines[1..], RedactLine(lines[0], st, denylist).1, denylist);
    }
  }

  /** Redacting what is already redacted changes nothing. */
  lemma RedactionIsIdempotent(s: Bytes, denylist: set<Bytes>)
    ensures Redacted(Redacted(s, denylist), denylist) == Redacted(s, denylist)
  {
    JoinSplit(s);
    LinesKeepShape(Split(s), Normal, denylist);
    var r := RedactLines(Split(s), Normal, denylist);
    SplitJoin(r);
    LinesAreStable(Split(s), Normal, denylist);
  }

  // ---------------------------------------------------------------------------------------------
  // What is overwritten
  // ---------------------------------------------------------------------------------------------

  /** The line without a trailing carriage return. */
  function Visible(line: Bytes): (v: Bytes)
    ensures line == v || line == v + [13]
    ensures line == v ==> line == [] || line[|line| - 1] != 13
  {
    line[..VisibleLength(line)]
  }

  /** The line is blank or indented deeper than column k: up to there it has nothing but blanks. */
  predicate Deeper(line: Bytes, k: nat) {
    var v := Visible(line);
    forall i | 0 <= i <= k && i < |v| :: IsBlank(v[i])
  }

  lemma DeeperIsIndent(line: Bytes, k: nat)
    ensures var v := Visible(line); Deeper(line, k) <==> Indent(v) == |v| || Indent(v) > k
  {
    var v := Visible(line);
    BlankSpan(v, 0, Indent(v));
  }

  ghost predicate OpensBlock(line: Bytes, denylist: set<Bytes>, k: nat) {
    OpensSecret(Visible(line), denylist, k)
  }

  /**
   Line i continues the block scalar of a denylisted key: some earlier line j, not itself inside such
   a block, opens it at column k, and every line from there up to i is blank or indented deeper.
   */
  ghost predicate InsideSecret(lines: seq<Bytes>, denylist: set<Bytes>, i: nat)
    requires i < |lines|
    decreases i
  {
    exists j: nat, k: nat ::
      && j < i
      && !InsideSecret(lines, denylist, j)
      && OpensBlock(lines[j], denylist, k)
      && forall t | j < t <= i :: Deeper(lines[t], k)
  }

  /** The block line j opens at column k is still open before line i. */
  ghost predicate OpenBlock(lines: seq<Bytes>, denylist: set<Bytes>, i: nat, j: nat, k: nat)
    requires i <= |lines|
  {
    && j < i
    && !InsideSecret(lines, denylist, j)
    && OpensBlock(lines[j], denylist, k)
    && forall t | j < t < i :: Deeper(lines[t], k)
  }

  /** The state the fold is in before line i. */
  function StateAt(lines: seq<Bytes>, denylist: set<Bytes>, i: nat): State
    requires i <= |lines|
  {
    if i == 0 then Normal else RedactLine(lines[i - 1], StateAt(lines, denylist, i - 1), denylist).1
  }

  lemma NextState(line: Bytes, st: State, denylist: set<Bytes>)
    ensures RedactLine(line, st, denylist).1 ==
            if st.Block? && Deeper(line, st.indent) then st
            else if ReadKey(Visible(line), denylist).Opens? then Block(ReadKey(Visible(line), denylist).indent)
            else Normal
    ensures forall k: nat :: OpensBlock(line, denylist, k) <==> ReadKey(Visible(line), denylist) == Opens(k)
  {
    hide ReadKey, OpensSecret, CarriesValue, Deeper;
    ReadingIsShape(Visible(line), denylist);
    if st.Block? {
      DeeperIsIndent(line, st.indent);
    }
  }

  ghost predicate HasOpenBlock(lines: seq<Bytes>, denylist: set<Bytes>, i: nat, k: nat)
    requires i <= |lines|
  {
    exists j: nat :: OpenBlock(lines, denylist, i, j, k)
  }

  /** The fold is in a block opened at column k exactly when such a block is open before line i. */
  lemma {:induction false} StateMeansOpenBlock(lines: seq<Bytes>, denylist: set<Bytes>, i: nat, k: nat)
    requires i <= |lines|
    ensures StateAt(lines, denylist, i) == Block(k) <==> HasOpenBlock(lines, denylist, i, k)
    decreases i, 0
  {
    hide ReadKey, RedactLine, Deeper, HasOpenBlock, InsideSecret, OpensBlock;
    if i == 0 {
      NoneOpen(lines, denylist, k);
    } else {
      NextState(lines[i - 1], StateAt(lines, denylist, i - 1), denylist);
      StateMeansOpenBlock(lines, denylist, i - 1, k);
      ContinuesMeansInside(lines, denylist, i - 1);
      OpenBlockStep(lines, denylist, i, k);
    }
  }

  lemma NoneOpen(lines: seq<Bytes>, denylist: set<Bytes>, k: nat)
    ensures !HasOpenBlock(lines, denylist, 0, k)
  {
  }

  /** A block is open before a line when it was before the last one, which is deeper, or when the last one opened it. */
  lemma OpenBlockStep(lines: seq<Bytes>, denylist: set<Bytes>, i: nat, k: nat)
    requires 0 < i <= |lines|
    ensures HasOpenBlock(lines, denylist, i, k) <==>
            || (HasOpenBlock(lines, denylist, i - 1, k) && Deeper(lines[i - 1], k))
            || (OpensBlock(lines[i - 1], denylist, k) && !InsideSecret(lines, denylist, i - 1))
  {
    hide ReadKey, Deeper, InsideSecret, OpensBlock;
    if HasOpenBlock(lines, denylist, i - 1, k) && Deeper(lines[i - 1], k) {
      var j: nat :| OpenBlock(lines, denylist, i - 1, j, k);
      assert OpenBlock(lines, denylist, i, j, k);
    }
    if OpensBlock(lines[i - 1], denylist, k) && !InsideSecret(lines, denylist, i - 1) {
      assert OpenBlock(lines, denylist, i, i - 1, k);
    }
    if j: nat :| OpenBlock(lines, denylist, i, j, k) {
      assert j < i - 1 ==> OpenBlock(lines, denylist, i - 1, j, k) && Deeper(lines[i - 1], k);
    }
  }

  lemma {:induction false} ContinuesMeansInside(lines: seq<Bytes>, denylist: set<Bytes>, i: nat)
    requires i < |lines|
    ensures InsideSecret(lines, denylist, i) <==>
            var st := StateAt(lines, denylist, i); st.Block? && Deeper(lines[i], st.indent)
    decreases i, 1
  {
    hide ReadKey, RedactLine, Deeper, OpensBlock;
    var st := StateAt(lines, denylist, i);
    if InsideSecret(lines, denylist, i) {
      var j: nat, k: nat :|
        j < i && !InsideSecret(lines, denylist, j) && OpensBlock(lines[j], denylist, k)
            && forall t | j < t <= i :: Deeper(lines[t], k);
      assert OpenBlock(lines, denylist, i, j, k);
      StateMeansOpenBlock(lines, denylist, i, k);
    }
    if st.Block? && Deeper(lines[i], st.indent) {
      StateMeansOpenBlock(lines, denylist, i, st.indent);
      var j: nat :| OpenBlock(lines, denylist, i, j, st.indent);
    }
  }

  lemma {:induction false} LineOfFold(lines: seq<Bytes>, denylist: set<Bytes>, from: nat, i: nat)
    requires from <= i < |lines|
    ensures RedactLines(lines[from..], StateAt(lines, denylist, from), denylist)[i - from] ==
            RedactLine(lines[i], StateAt(lines, denylist, i), denylist).0
    decreases i - from
  {
    hide RedactLine;
    if from < i {
      assert lines[from..][1..] == lines[from + 1..];
      LineOfFold(lines, denylist, from + 1, i);
    }
  }

  /** The line's own text starts at p, after the indentation. */
  predicate TextStarts(v: Bytes, p: int) {
    BlanksEnd(v, 0, p) && p < |v|
  }

  /** The part of line i that must not be shown starts at m. */
  ghost predicate SecretStarts(lines: seq<Bytes>, denylist: set<Bytes>, i: nat, m: nat)
    requires i < |lines|
  {
    SecretOfLine(Visible(lines[i]), InsideSecret(lines, denylist, i), denylist, m)
  }

  ghost predicate SecretOfLine(v: Bytes, inside: bool, denylist: set<Bytes>, m: nat) {
    if inside then TextStarts(v, m) else CarriesValue(v, denylist, m)
  }

  /** The text that stands in for a secret, padded with spaces. */
  function MaskAt(i: nat): char {
    if i < 12 then "**REDACTED**"[i] else ' '
  }

  /** From m on the visible part of the line is masked; the rest of it, and its ending, are kept. */
  predicate MaskedFrom(line: Bytes, masked: Bytes, m: nat) {
    && |masked| == |line|
    && forall p | 0 <= p < |line| ::
       if m <= p < |Visible(line)| then Char(masked[p]) == MaskAt(p - m) else masked[p] == line[p]
  }

  /**
   Every line of the output, told without the line machine and the scanner: a line inside the block scalar of
   a denylisted key is masked from its indentation on; a line outside any that carries the value of a
   denylisted key is masked from that value on; every other line is left as it is.
   */
  lemma OnlySecretsAreOverwritten(s: Bytes, denylist: set<Bytes>, i: nat)
    requires i < |Split(s)|
    ensures var lines, masked := Split(s), Split(Redacted(s, denylist));
            && |masked| == |lines|
            && (forall m: nat | SecretStarts(lines, denylist, i, m) :: MaskedFrom(lines[i], masked[i], m))
            && ((forall m: nat :: !SecretStarts(lines, denylist, i, m)) ==> masked[i] == lines[i])
  {
    hide InsideSecret, ReadKey, Overwrite, KeyStart, KeyEnd, RedactLine, StateAt, MaskedFrom, SecretOfLine;
    var lines := Split(s);
    JoinSplit(s);
    LinesKeepShape(lines, Normal, denylist);
    SplitJoin(RedactLines(lines, Normal, denylist));
    LineOfRedacted(lines, denylist, i);
    ContinuesMeansInside(lines, denylist, i);
    var v, inside := Visible(lines[i]), InsideSecret(lines, denylist, i);
    LineByState(lines[i], StateAt(lines, denylist, i), denylist, inside);
    forall m: nat ensures SecretOfLine(v, inside, denylist, m) <==> SecretStarts(lines, denylist, i, m) {
    }
  }

  lemma LineOfRedacted(lines: seq<Bytes>, denylist: set<Bytes>, i: nat)
    requires i < |lines|
    ensures RedactLines(lines, Normal, denylist)[i] == RedactLine(lines[i], StateAt(lines, denylist, i), denylist).0
  {
    hide RedactLine;
    assert lines[0..] == lines;
    LineOfFold(lines, denylist, 0, i);
  }

  /** Line by line: where the machine overwrites is where the secret starts. */
  lemma LineByState(line: Bytes, st: State, denylist: set<Bytes>, inside: bool)
    requires inside <==> st.Block? && Deeper(line, st.indent)
    ensures forall m: nat | SecretOfLine(Visible(line), inside, denylist, m) ::
              MaskedFrom(line, RedactLine(line, st, denylist).0, m)
    ensures (forall m: nat :: !SecretOfLine(Visible(line), inside, denylist, m)) ==>
              RedactLine(line, st, denylist).0 == line
  {
    hide ReadKey, Overwrite, KeyStart, KeyEnd, MaskedFrom, CarriesValue, OpensSecret, Deeper;
    var v := Visible(line);
    OverwriteNothing(v);
    assert v + line[|v|..] == line;
    ReadingIsShape(v, denylist);
    if st.Block? {
      DeeperIsIndent(line, st.indent);
    }
    forall m: int ensures TextStarts(v, m) <==> m == Indent(v) < |v| {
      BlankSpan(v, 0, m);
    }
    var reading := ReadKey(v, denylist);
    assert !inside && reading.Redacts? ==> SecretOfLine(v, inside, denylist, reading.from);
    assert inside && Indent(v) < |v| ==> SecretOfLine(v, inside, denylist, Indent(v));
    forall m: nat | m <= |v| ensures MaskedFrom(line, Overwrite(v, m) + line[|v|..], m) {
      OverwriteMasks(line, m);
    }
  }

  lemma OverwriteMasks(line: Bytes, m: nat)
    requires m <= |Visible(line)|
    ensures MaskedFrom(line, Overwrite(Visible(line), m) + line[|Visible(line)|..], m)
  {
    var v := Visible(line);
    var masked := Overwrite(v, m) + line[|v|..];
    forall p | 0 <= p < |line|
      ensures if m <= p < |v| then Char(masked[p]) == MaskAt(p - m) else masked[p] == line[p]
    {
      if m <= p < |v| {
        assert masked[p] == Fill(|v| - m)[p - m];
      }
    }
  }

  lemma OverwriteNothing(v: Bytes)
    ensures Overwrite(v, |v|) == v
  {
  }
}
