/**
 The shape of a line that carries the value of a denylisted key, or opens a block with it, told of the bytes
 alone; and the proof that the scanner reads exactly these lines so.
 */
module YamlShapes {
  import opened ByteText
  import opened YamlRedaction

  function Char(b: Byte): char {
    b as int as char
  }

  predicate IsBlank(b: Byte) {
    Char(b) == ' ' || Char(b) == '\t'
  }

  predicate IsName(b: Byte) {
    'a' <= Char(b) <= 'z' || 'A' <= Char(b) <= 'Z' || '0' <= Char(b) <= '9' || Char(b) == '_' || Char(b) == '-'
  }

  predicate AllBlank(v: Bytes, i: int, j: int) {
    0 <= i <= j <= |v| && forall k | i <= k < j :: IsBlank(v[k])
  }

  /** The blanks that start at i, all of them, end at j. */
  predicate BlanksEnd(v: Bytes, i: int, j: int) {
    AllBlank(v, i, j) && (j < |v| ==> !IsBlank(v[j]))
  }

  /** The name bytes that start at i, all of them, end at j. */
  predicate NameEnds(v: Bytes, i: int, j: int) {
    0 <= i <= j <= |v| && (forall k | i <= k < j :: IsName(v[k])) && (j < |v| ==> !IsName(v[j]))
  }

  /** After its indentation, which ends at p, the line is a "- " item. */
  predicate IsItem(v: Bytes, p: int) {
    0 <= p && p + 1 < |v| && Char(v[p]) == '-' && Char(v[p + 1]) == ' '
  }

  /** The line is no comment, and k is where its key would start: after the indentation and the "- " of an item. */
  ghost predicate KeyStarts(v: Bytes, k: int) {
    exists p: int ::
      && BlanksEnd(v, 0, p) && p < |v| && Char(v[p]) != '#'
      && if IsItem(v, p) then BlanksEnd(v, p + 2, k) else k == p
  }

  /** The line has a denylisted key from k to e, and something follows it. */
  ghost predicate HasSecretKey(v: Bytes, denylist: set<Bytes>, k: int, e: int) {
    KeyStarts(v, k) && NameEnds(v, k, e) && v[k..e] in denylist && e < |v|
  }

  /** The text marks a block scalar: a bar or an angle, indicators, blanks and at most a comment. */
  ghost predicate MarksBlock(w: Bytes) {
    && w != [] && (Char(w[0]) == '|' || Char(w[0]) == '>')
    && exists i, j ::
         && 1 <= i <= |w| && (forall k | 1 <= k < i :: IsIndicator(w[k]))
         && AllBlank(w, i, j) && (j < |w| ==> Char(w[j]) == '#')
  }

  predicate IsIndicator(b: Byte) {
    Char(b) == '+' || Char(b) == '-' || '0' <= Char(b) <= '9'
  }

  /** After the colon at e, blanks and then a value from m on that is no comment. */
  predicate ValueStarts(v: Bytes, e: int, m: int) {
    && 0 <= e < |v| && Char(v[e]) == ':' && e + 1 < m && BlanksEnd(v, e + 1, m)
    && m < |v| && Char(v[m]) != '#'
  }

  /** The line carries the value of a denylisted key from m on: after the colon, or from what stands in its place. */
  ghost predicate CarriesValue(v: Bytes, denylist: set<Bytes>, m: int) {
    exists k, e ::
      && HasSecretKey(v, denylist, k, e)
      && if Char(v[e]) == ':' then ValueStarts(v, e, m) && !MarksBlock(v[m..]) else m == e
  }

  /** The line opens a block scalar with a denylisted key at column k. */
  ghost predicate OpensSecret(v: Bytes, denylist: set<Bytes>, k: int) {
    exists e, m :: HasSecretKey(v, denylist, k, e) && ValueStarts(v, e, m) && MarksBlock(v[m..])
  }

  // ---------------------------------------------------------------------------------------------
  // The scanner
  // ---------------------------------------------------------------------------------------------

  lemma {:induction false} SpanIsRun(v: Bytes, c: Class, i: nat)
    requires i <= |v|
    ensures forall k | i <= k < Span(v, c, i) :: InClass(c, v[k])
    decreases |v| - i
  {
    if i < |v| && InClass(c, v[i]) {
      SpanIsRun(v, c, i + 1);
    }
  }

  lemma {:induction false} SpanUntil(v: Bytes, c: Class, i: nat, j: nat)
    requires i <= j <= |v| && (forall k | i <= k < j :: InClass(c, v[k])) && (j < |v| ==> !InClass(c, v[j]))
    ensures Span(v, c, i) == j
    decreases j - i
  {
    if i < j {
      SpanUntil(v, c, i + 1, j);
    }
  }

  lemma BlankSpan(v: Bytes, i: nat, j: int)
    requires i <= |v|
    ensures BlanksEnd(v, i, j) <==> j == Span(v, Blank, i)
  {
    SpanIsRun(v, Blank, i);
    if BlanksEnd(v, i, j) {
      SpanUntil(v, Blank, i, j);
    }
  }

  lemma NameSpan(v: Bytes, i: nat, j: int)
    requires i <= |v|
    ensures NameEnds(v, i, j) <==> j == Span(v, KeyByte, i)
  {
    SpanIsRun(v, KeyByte, i);
    if NameEnds(v, i, j) {
      SpanUntil(v, KeyByte, i, j);
    }
  }

  lemma MarkerIsShape(w: Bytes)
    ensures IsBlockMarker(w) <==> MarksBlock(w)
  {
    if w != [] {
      var i := Span(w, Chomp, 1);
      SpanIsRun(w, Chomp, 1);
      BlankSpan(w, i, Span(w, Blank, i));
      if MarksBlock(w) {
        var a, b :| 1 <= a <= |w| && (forall k | 1 <= k < a :: IsIndicator(w[k]))
          && AllBlank(w, a, b) && (b < |w| ==> Char(w[b]) == '#');
        assert a < b ==> IsBlank(w[a]);
        SpanUntil(w, Chomp, 1, a);
        BlankSpan(w, a, b);
      }
    }
  }

  lemma KeyStartIsShape(v: Bytes, k: int)
    ensures var p := Span(v, Blank, 0); KeyStarts(v, k) <==> p < |v| && v[p] != HASH && k == KeyStart(v)
  {
    hide Span;
    var p := Span(v, Blank, 0);
    forall q ensures BlanksEnd(v, 0, q) <==> q == p {
      BlankSpan(v, 0, q);
    }
    if IsItem(v, p) {
      BlankSpan(v, p + 2, k);
    }
  }

  lemma KeyIsShape(v: Bytes, denylist: set<Bytes>, k: int, e: int)
    ensures var p := Span(v, Blank, 0);
            HasSecretKey(v, denylist, k, e) <==>
            && p < |v| && v[p] != HASH && k == KeyStart(v) && e == KeyEnd(v) && e < |v|
            && v[KeyStart(v)..KeyEnd(v)] in denylist
  {
    hide Span, KeyStart, KeyStarts, NameEnds;
    KeyStartIsShape(v, k);
    if k == KeyStart(v) {
      NameSpan(v, k, e);
    }
  }

  lemma ValueIsShape(v: Bytes, e: nat, m: int)
    requires e < |v| && v[e] == COLON
    ensures ValueStarts(v, e, m) <==>
            && m == Span(v, Blank, e + 1) && m < |v| && v[m] != HASH
            && (InClass(Blank, v[e + 1]) || v[e + 1] == HASH)
  {
    hide Span;
    BlankSpan(v, e + 1, m);
    BlankSpan(v, e + 1, Span(v, Blank, e + 1));
  }

  lemma ColonFirst(v: Bytes, e: int, m: int)
    ensures ValueStarts(v, e, m) ==> 0 <= e < |v| && v[e] == COLON
  {
  }

  /**
   The scanner asks for the value from m on to be overwritten exactly when the line carries a denylisted key's
   value there, and enters a block at column k exactly when the line opens one with such a key.
   */
  lemma ReadingIsShape(v: Bytes, denylist: set<Bytes>)
    ensures forall m: nat :: ReadKey(v, denylist) == Redacts(m) <==> CarriesValue(v, denylist, m)
    ensures forall k: nat :: ReadKey(v, denylist) == Opens(k) <==> OpensSecret(v, denylist, k)
  {
    hide Span, KeyStart, KeyEnd, HasSecretKey, ValueStarts, IsBlockMarker, MarksBlock;
    var k, e := KeyStart(v), KeyEnd(v);
    forall a, b ensures HasSecretKey(v, denylist, a, b) ==> a == k && b == e {
      KeyIsShape(v, denylist, a, b);
    }
    KeyIsShape(v, denylist, k, e);
    forall m ensures ValueStarts(v, e, m) ==> e < |v| && v[e] == COLON {
      ColonFirst(v, e, m);
    }
    if e < |v| && v[e] == COLON {
      var q := Span(v, Blank, e + 1);
      forall m ensures ValueStarts(v, e, m) ==> m == q {
        ValueIsShape(v, e, m);
      }
      ValueIsShape(v, e, q);
      MarkerIsShape(v[q..]);
    }
  }
}
