/** The title at the end of a folder path, in which Grafana writes a slash of a title as "\/". */
module FolderLeaf {

  predicate IsSeparator(path: string, i: int)
    requires 0 <= i < |path|
  {
    path[i] == '/' && !(i > 0 && path[i - 1] == '\\')
  }

  /** Replaces every "\/" by "/", from the left. */
  function Unescape(s: string): string {
    if s == "" then ""
    else if |s| > 1 && s[0] == '\\' && s[1] == '/' then "/" + Unescape(s[2..])
    else [s[0]] + Unescape(s[1..])
  }

  /** The position of the last separator, or -1. */
  function LastSeparator(path: string, n: nat): (i: int)
    requires n <= |path|
    ensures -1 <= i < n
    ensures i >= 0 ==> IsSeparator(path, i)
    ensures forall j | i < j < n :: !IsSeparator(path, j)
  {
    if n == 0 then -1 else if IsSeparator(path, n - 1) then n - 1 else LastSeparator(path, n - 1)
  }

  function LeafOf(path: string): string {
    Unescape(path[LastSeparator(path, |path|) + 1..])
  }

  method FolderLeaf(path: string) returns (leaf: string)
    ensures leaf == LeafOf(path)
  {
    var i := |path| - 1;
    while i >= 0
      invariant -1 <= i < |path|
      invariant LastSeparator(path, |path|) == LastSeparator(path, i + 1)
    {
      if path[i] != '/' || (i > 0 && path[i - 1] == '\\') {
        i := i - 1;
        continue;
      }
      return Unescape(path[i + 1..]);
    }
    assert path[0..] == path;
    return Unescape(path);
  }

  // ---------------------------------------------------------------------------------------------
  // Paths as Grafana writes them
  // ---------------------------------------------------------------------------------------------

  function Escape(title: string): string {
    if title == "" then "" else (if title[0] == '/' then "\\/" else [title[0]]) + Escape(title[1..])
  }

  /** The escaped titles, joined by slashes. */
  function Path(titles: seq<string>): string
    requires titles != []
  {
    if |titles| == 1 then Escape(titles[0]) else Path(titles[..|titles| - 1]) + "/" + Escape(titles[|titles| - 1])
  }

  predicate EndsInBackslash(title: string) {
    title != "" && title[|title| - 1] == '\\'
  }

  lemma {:induction false} EscapeConcat(a: string, b: string)
    ensures Escape(a + b) == Escape(a) + Escape(b)
  {
    if a == "" {
      assert a + b == b;
    } else {
      assert (a + b)[1..] == a[1..] + b;
      EscapeConcat(a[1..], b);
    }
  }

  lemma {:induction false} UnescapeUndoesEscape(title: string)
    ensures Unescape(Escape(title)) == title
    ensures Escape(title) != "" ==> Escape(title)[0] != '/'
  {
    if title != "" {
      UnescapeUndoesEscape(title[1..]);
      if title[0] == '/' {
        assert Escape(title)[2..] == Escape(title[1..]);
      } else {
        assert Escape(title)[1..] == Escape(title[1..]);
      }
      assert title == [title[0]] + title[1..];
    }
  }

  /** An escaped title has no separator of its own, and ends as the title does. */
  lemma {:induction false} EscapedHasNoSeparator(title: string)
    ensures forall i | 0 <= i < |Escape(title)| :: Escape(title)[i] == '/' ==> i > 0 && Escape(title)[i - 1] == '\\'
    ensures (Escape(title) == "" <==> title == "")
            && (title != "" ==> Escape(title)[|Escape(title)| - 1] == title[|title| - 1])
  {
    if title != "" {
      EscapedHasNoSeparator(title[1..]);
      var head := if title[0] == '/' then "\\/" else [title[0]];
      assert Escape(title) == head + Escape(title[1..]);
      forall i | 0 <= i < |Escape(title)| && Escape(title)[i] == '/' ensures i > 0 && Escape(title)[i - 1] == '\\' {
        if i >= |head| {
          assert Escape(title)[i] == Escape(title[1..])[i - |head|];
        }
      }
    }
  }

  /** Where a path ends in a separator and an escaped title, the leaf is that title. */
  lemma LeafAfterSeparator(front: string, title: string)
    requires front == "" || front[|front| - 1] != '\\'
    ensures LeafOf(front + "/" + Escape(title)) == title
  {
    hide Escape, Unescape, LastSeparator;
    var path, e, at := front + "/" + Escape(title), Escape(title), |front|;
    EscapedHasNoSeparator(title);
    AfterSeparator(front, e);
    forall j | at < j < |path| ensures !IsSeparator(path, j) {
      assert path[j] == e[j - at - 1] && (j - at - 1 > 0 ==> path[j - 1] == e[j - at - 2]);
    }
    assert IsSeparator(path, at);
    assert LastSeparator(path, |path|) == at;
    UnescapeUndoesEscape(title);
  }

  lemma AfterSeparator(front: string, e: string)
    ensures var path, at := front + "/" + e, |front|;
            && |path| == at + 1 + |e| && path[at] == '/' && path[at + 1..] == e
            && (forall j | at < j < |path| :: path[j] == e[j - at - 1])
            && (front != "" ==> path[at - 1] == front[at - 1])
  {
  }

  lemma LeafOfRoot(title: string)
    ensures LeafOf(Escape(title)) == title
  {
    EscapedHasNoSeparator(title);
    assert LastSeparator(Escape(title), |Escape(title)|) == -1;
    assert Escape(title)[0..] == Escape(title);
    UnescapeUndoesEscape(title);
  }

  /** The last character of a path is the last title's, or the separator before an empty title. */
  lemma EndOfPath(titles: seq<string>)
    requires titles != []
    ensures var last := titles[|titles| - 1];
            Path(titles) != "" && Path(titles)[|Path(titles)| - 1] == '\\' <==> EndsInBackslash(last)
  {
    EscapedHasNoSeparator(titles[|titles| - 1]);
  }

  /** A parent ending in a backslash reads as one title with its child. */
  function Merged(titles: seq<string>): seq<string>
    requires |titles| > 1 && EndsInBackslash(titles[|titles| - 2])
  {
    var parent, child := titles[|titles| - 2], titles[|titles| - 1];
    titles[..|titles| - 2] + [parent[..|parent| - 1] + "/" + child]
  }

  lemma MergedTitle(p: string, child: string)
    ensures Escape(p + "\\") + "/" + Escape(child) == Escape(p + "/" + child)
  {
    EscapeConcat(p, "\\");
    EscapeConcat(p + "/", child);
    EscapeConcat(p, "/");
    EscapedSeparators();
    hide Escape;
    assert Escape(p) + "\\" + "/" == Escape(p) + "\\/";
  }

  lemma EscapedSeparators()
    ensures Escape("\\") == "\\" && Escape("/") == "\\/"
  {
    assert "/"[..0] == "" && "\\"[..0] == "";
  }

  lemma PathSnoc(front: seq<string>, last: string)
    ensures Path(front + [last]) == if front == [] then Escape(last) else Path(front) + "/" + Escape(last)
  {
    assert (front + [last])[..|front|] == front;
  }

  lemma Regroup(a: string, b: string, c: string)
    ensures a + "/" + b + "/" + c == a + "/" + (b + "/" + c)
  {
    assert a + "/" + b + "/" + c == (a + "/" + b) + ("/" + c) == a + ("/" + b) + ("/" + c);
  }

  lemma MergedIsSamePath(titles: seq<string>)
    requires |titles| > 1 && EndsInBackslash(titles[|titles| - 2])
    ensures Path(Merged(titles)) == Path(titles)
  {
    hide Path, Escape;
    var n := |titles|;
    var front, parent, child := titles[..n - 2], titles[n - 2], titles[n - 1];
    var p := parent[..|parent| - 1];
    assert parent == p + "\\";
    assert titles == front + [parent] + [child];
    assert Merged(titles) == front + [p + "/" + child];
    PathOfTwo(front, parent, child);
    MergedTitle(p, child);
    PathSnoc(front, p + "/" + child);
  }

  lemma PathOfTwo(front: seq<string>, parent: string, child: string)
    ensures Path(front + [parent] + [child]) ==
            if front == [] then Escape(parent) + "/" + Escape(child)
            else Path(front) + "/" + (Escape(parent) + "/" + Escape(child))
  {
    hide Path, Escape;
    PathSnoc(front + [parent], child);
    PathSnoc(front, parent);
    if front != [] {
      Regroup(Path(front), Escape(parent), Escape(child));
    }
  }

  /** What the path of the titles reads as. */
  function ReadTitle(titles: seq<string>): (title: string)
    requires titles != []
    ensures |title| >= |titles[|titles| - 1]|
    ensures title == titles[|titles| - 1] <==> |titles| == 1 || !EndsInBackslash(titles[|titles| - 2])
    decreases |titles|
  {
    if |titles| == 1 || !EndsInBackslash(titles[|titles| - 2]) then titles[|titles| - 1] else ReadTitle(Merged(titles))
  }

  lemma {:induction false} LeafIsReadTitle(titles: seq<string>)
    requires titles != []
    ensures LeafOf(Path(titles)) == ReadTitle(titles)
    decreases |titles|
  {
    var n := |titles|;
    if n == 1 {
      LeafOfRoot(titles[0]);
    } else if EndsInBackslash(titles[n - 2]) {
      MergedIsSamePath(titles);
      LeafIsReadTitle(Merged(titles));
    } else {
      EndOfPath(titles[..n - 1]);
      LeafAfterSeparator(Path(titles[..n - 1]), titles[n - 1]);
    }
  }

  /** The round trip: the last title comes back exactly when its parent's title does not end in a backslash. */
  lemma LeafRoundTrip(titles: seq<string>)
    requires titles != []
    ensures LeafOf(Path(titles)) == titles[|titles| - 1] <==> |titles| == 1 || !EndsInBackslash(titles[|titles| - 2])
  {
    LeafIsReadTitle(titles);
  }

  /** An instance of it: the folder "bs\" with a child "Child" reads as "bs/Child". */
  lemma BackslashParentIsMisread()
    ensures LeafOf(Path(["bs\\", "Child"])) == "bs/Child"
  {
    hide Path, Escape, LeafOf, Unescape, LastSeparator;
    MergedIsSamePath(["bs\\", "Child"]);
    assert Merged(["bs\\", "Child"]) == ["bs/Child"] by { MergedCase(); }
    LeafIsReadTitle(["bs/Child"]);
  }

  lemma MergedCase()
    ensures Merged(["bs\\", "Child"]) == ["bs/Child"]
  {
    var titles := ["bs\\", "Child"];
    assert titles[..0] == [] && "bs\\"[..2] == "bs";
    assert "bs" + "/" + "Child" == "bs/Child";
  }
}
