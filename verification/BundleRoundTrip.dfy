/** Reading a bundle back: what a successful write leaves is read as the same bundle. */
module BundleRoundTrip {
  import opened Options
  import opened AlertModels
  import opened RouteTree
  import opened BundlePlan
  import opened Sequences
  import opened Sorting
  import opened BundleFiles

  // ---------------------------------------------------------------------------------------------
  // Reading
  // ---------------------------------------------------------------------------------------------

  /** Each entry is there and valid, and no ID is declared twice. */
  method ValidateContactPoints(points: seq<Option<ContactPoint>>) returns (ok: bool)
    ensures ok <==> ValidPoints(points)
  {
    var seen: set<string> := {};
    for i := 0 to |points|
      invariant forall k | 0 <= k < i ::
                points[k].Some? && ValidPoint(points[k].value) && PointID(points[k].value) in seen
      invariant forall id | id in seen :: exists k :: 0 <= k < i && points[k].Some? && PointID(points[k].value) == id
      invariant forall k, l | 0 <= k < l < i ::
                points[k].Some? && points[l].Some? ==> PointID(points[k].value) != PointID(points[l].value)
    {
      hide ValidPoint, PointID;
      if points[i].None? || !ValidPoint(points[i].value) {
        return false;
      }
      var id := PointID(points[i].value);
      if id in seen {
        return false;
      }
      seen := seen + {id};
    }
    return true;
  }

  predicate ReadablePoints(c: Contents) {
    && |TopFound(c, POINTS_BASE)| <= 1
    && forall n | n in TopFound(c, POINTS_BASE) :: c.top[n].doc.PointsDoc? && ValidPoints(c.top[n].doc.points)
  }

  predicate ReadablePolicies(c: Contents, routeOK: Route -> bool) {
    && |TopFound(c, POLICIES_BASE)| <= 1
    && forall n | n in TopFound(c, POLICIES_BASE) :: c.top[n].doc.RouteDoc? && routeOK(c.top[n].doc.route)
  }

  /** The contact points of the bundle; no file means they are not managed, which is not an empty list. */
  ghost predicate PointsOf(c: Contents, points: Option<seq<Option<ContactPoint>>>) {
    && (points.None? <==> TopFound(c, POINTS_BASE) == {})
    && forall n | n in TopFound(c, POINTS_BASE) :: c.top[n].doc == PointsDoc(points.value)
  }

  ghost predicate PoliciesOf(c: Contents, policies: Option<Route>) {
    && (policies.None? <==> TopFound(c, POLICIES_BASE) == {})
    && forall n | n in TopFound(c, POLICIES_BASE) :: c.top[n].doc == RouteDoc(policies.value)
  }

  method ReadContactPointsFile(c: Contents) returns (points: Option<Option<seq<Option<ContactPoint>>>>)
    ensures points.Some? <==> ReadablePoints(c)
    ensures points.Some? ==> PointsOf(c, points.value)
  {
    var path := BundleFilePath(c, POINTS_BASE);
    if path.None? {
      return None;
    }
    if path.value.None? {
      return Some(None);
    }
    var doc := c.top[path.value.value].doc;
    assert path.value.value in TopFound(c, POINTS_BASE);
    if !doc.PointsDoc? {
      return None;
    }
    var valid := ValidateContactPoints(doc.points);
    points := if valid then Some(Some(doc.points)) else None;
  }

  /** routeOK is the generated validation of a route. */
  method ReadPolicyFile(c: Contents, routeOK: Route -> bool) returns (policies: Option<Option<Route>>)
    ensures policies.Some? <==> ReadablePolicies(c, routeOK)
    ensures policies.Some? ==> PoliciesOf(c, policies.value)
  {
    var path := BundleFilePath(c, POLICIES_BASE);
    if path.None? {
      return None;
    }
    if path.value.None? {
      return Some(None);
    }
    var doc := c.top[path.value.value].doc;
    assert path.value.value in TopFound(c, POLICIES_BASE);
    if !doc.RouteDoc? || !routeOK(doc.route) {
      return None;
    }
    policies := Some(Some(doc.route));
  }

  predicate Readable(c: Contents, routeOK: Route -> bool) {
    ReadableFiles(c) && ReadablePoints(c) && ReadablePolicies(c, routeOK)
  }

  /** The groups of the files, sorted; keys is the order the directories list them in. */
  ghost predicate GroupsOf(c: Contents, keys: seq<Key>, groups: seq<Option<Group>>) {
    Enumerates(keys, c) && ReadableFiles(c) && groups == Wrap(Sort(GroupsAt(c, keys), GroupLeq))
  }

  /** b is what reading the disk yields. */
  ghost predicate ReadAs(c: Contents, b: FileBundle) {
    && (exists keys :: GroupsOf(c, keys, b.groups))
    && PointsOf(c, b.points) && PoliciesOf(c, b.policies)
  }

  method ReadBundle(c: Contents, routeOK: Route -> bool) returns (b: Option<FileBundle>)
    ensures b.Some? <==> Readable(c, routeOK)
    ensures b.Some? ==> ReadAs(c, b.value)
  {
    hide ReadableFiles, ReadablePoints, ReadablePolicies, PointsOf, PoliciesOf, Enumerates, Sort;
    var groups, keys := ReadGroupFiles(c);
    if groups.None? {
      return None;
    }
    var points := ReadContactPointsFile(c);
    if points.None? {
      return None;
    }
    var policies := ReadPolicyFile(c, routeOK);
    if policies.None? {
      return None;
    }
    b := Some(FileBundle(Wrap(groups.value), points.value, policies.value));
    assert GroupsOf(c, keys, b.value.groups);
  }

  // ---------------------------------------------------------------------------------------------
  // What a write leaves under rules/
  // ---------------------------------------------------------------------------------------------

  lemma {:induction false} BundleFileByFold(a: string, b: string)
    requires Fold(a) == Fold(b)
    ensures Fold(Ext(a)) == Fold(Ext(b))
    ensures IsBundleFile(a) <==> IsBundleFile(b)
    ensures Ext(a) == "" <==> Ext(b) == ""
    decreases |a|
  {
    hide IsBundleFile, Fold;
    FoldSize(a);
    FoldSize(b);
    if a != "" {
      var n := |a| - 1;
      FoldFront(a);
      FoldFront(b);
      BundleFileByFold(a[..n], b[..n]);
      ExtSnoc(a);
      ExtSnoc(b);
      FoldConcat(Ext(a[..n]), [a[n]]);
      FoldConcat(Ext(b[..n]), [b[n]]);
      assert a[n] == '.' <==> b[n] == '.' by { FoldedDot(a[n], b[n]); }
    }
    IsBundleFileByExt(a, b);
  }

  lemma FoldSize(a: string)
    ensures |a| == |Fold(a)|
  {
  }

  lemma FoldFront(a: string)
    requires a != ""
    ensures var n := |a| - 1;
            && Fold(a[..n]) == Fold(a)[..n] && Fold([a[n]]) == [Fold(a)[n]]
            && Fold(a)[n] == LowerChar(a[n])
  {
  }

  lemma FoldedDot(a: char, b: char)
    requires LowerChar(a) == LowerChar(b)
    ensures a == '.' <==> b == '.'
  {
  }

  lemma ExtSnoc(a: string)
    requires a != ""
    ensures var n := |a| - 1;
            Ext(a) ==
            if a[n] == '.' then "." else if Ext(a[..n]) == "" then "" else Ext(a[..n]) + [a[n]]
  {
  }

  lemma IsBundleFileByExt(a: string, b: string)
    requires Fold(Ext(a)) == Fold(Ext(b))
    ensures IsBundleFile(a) <==> IsBundleFile(b)
  {
    hide Fold, Ext;
  }

  /** After the groups are written, each group's file holds the stripped group, and every other file is as it was. */
  lemma {:induction false} WrittenFiles(c: Contents, groups: seq<Group>, f: Format)
    requires ValidContents(c) && !Collides(groups, f)
    ensures var after := WrittenAll(c, groups, f);
            && (forall i | 0 <= i < |groups| ::
                  KeyOf(groups[i], f) in after.files && after.files[KeyOf(groups[i], f)].FileLeaf?
                  && after.files[KeyOf(groups[i], f)].doc == GroupDoc(StripGroup(groups[i]))
                  && Fold(after.files[KeyOf(groups[i], f)].name) == KeyOf(groups[i], f).1)
            && (forall k | k !in Keys(groups, f) ::
                  (k in after.files <==> k in c.files) && (k in c.files ==> after.files[k] == c.files[k]))
            && after.top == c.top
  {
    hide Fold, Sanitize, StripGroup, FormatExt;
    if groups != [] {
      var front, last := groups[..|groups| - 1], groups[|groups| - 1];
      assert groups == front + [last];
      KeysSnoc(front, last, f);
      WrittenFiles(c, front, f);
      var before := WrittenAll(c, front, f);
      var key := KeyOf(last, f);
      forall i | 0 <= i < |front| ensures KeyOf(front[i], f) != key {
        assert Keys(front, f)[i] == KeyOf(front[i], f);
      }
      assert key in before.files ==> key in c.files && before.files[key] == c.files[key];
    }
  }

  /** Exactly the files of the bundle are read after a write that prunes every folder. */
  lemma OnlyWrittenAreRead(c: Contents, groups: seq<Group>, f: Format)
    requires ValidContents(c) && !Collides(groups, f)
    ensures var after := Pruned(WrittenAll(c, groups, f), KeySet(groups, f), None);
            && (forall k :: k in ReadKeys(after) <==> k in Keys(groups, f))
            && (forall i | 0 <= i < |groups| ::
                  KeyOf(groups[i], f) in after.files && after.files[KeyOf(groups[i], f)].FileLeaf?
                  && after.files[KeyOf(groups[i], f)].doc == GroupDoc(StripGroup(groups[i])))
  {
    hide Fold, IsBundleFile, StripGroup, WrittenAll, ValidContents, Collides, KeyOf;
    WrittenFiles(c, groups, f);
    var written := WrittenAll(c, groups, f);
    var after := Pruned(written, KeySet(groups, f), None);
    forall i | 0 <= i < |groups| ensures IsBundleFile(written.files[KeyOf(groups[i], f)].name) {
      WrittenName(groups[i], f);
      BundleFileByFold(written.files[KeyOf(groups[i], f)].name, GroupFile(groups[i], f).1);
    }
    forall k ensures k in ReadKeys(after) <==> k in Keys(groups, f) {
      if k in Keys(groups, f) {
        var i :| 0 <= i < |groups| && Keys(groups, f)[i] == k;
        assert k == KeyOf(groups[i], f) && k in KeySet(groups, f);
      }
    }
    forall i | 0 <= i < |groups| ensures KeyOf(groups[i], f) in after.files {
      assert Keys(groups, f)[i] in KeySet(groups, f);
    }
  }

  lemma WrittenName(g: Group, f: Format)
    ensures IsBundleFile(GroupFile(g, f).1) && KeyOf(g, f).1 == Fold(GroupFile(g, f).1)
  {
    WrittenNameIsBundleFile(g.title, f);
  }

  // ---------------------------------------------------------------------------------------------
  // The groups read back
  // ---------------------------------------------------------------------------------------------

  function StripAll(groups: seq<Group>): seq<Group> {
    seq(|groups|, i requires 0 <= i < |groups| => StripGroup(groups[i]))
  }

  lemma UIDsAlike(a: Group, b: Group)
    requires |Present(a.rules)| == |Present(b.rules)|
    requires forall i | 0 <= i < |Present(a.rules)| :: Present(a.rules)[i].uid == Present(b.rules)[i].uid
    ensures DeclaredUIDs(a) <= DeclaredUIDs(b)
  {
    hide Present;
    forall x | x in Present(a.rules) && x.uid != "" ensures x.uid in DeclaredUIDs(b) {
      var i :| 0 <= i < |Present(a.rules)| && Present(a.rules)[i] == x;
      assert Present(b.rules)[i] in Present(b.rules);
    }
  }

  lemma StrippedDeclares(g: Group)
    ensures GroupID(StripGroup(g)) == GroupID(g) && DeclaredUIDs(StripGroup(g)) == DeclaredUIDs(g)
  {
    hide Present, MapSlots, DeclaredUIDs, GroupID;
    PresentOfMapped(g.rules, StripRule);
    assert StripGroup(g).rules == MapSlots(g.rules, StripRule);
    StrippedKeepsID(g);
    UIDsAlike(StripGroup(g), g);
    UIDsAlike(g, StripGroup(g));
  }

  lemma StrippedKeepsID(g: Group)
    ensures GroupID(StripGroup(g)) == GroupID(g)
  {
  }

  lemma StrippedOnce(a: seq<Option<Rule>>, b: seq<Option<Rule>>)
    requires |a| == |b| && forall i | 0 <= i < |b| ::
             a[i].Some? == b[i].Some? && (b[i].Some? ==> a[i].value == StripRule(b[i].value))
    ensures UIDsOnce(a) <==> UIDsOnce(b)
  {
  }

  lemma StrippedIsValid(g: Group)
    ensures ValidGroup(StripGroup(g)) <==> ValidGroup(g)
    ensures GroupID(StripGroup(g)) == GroupID(g) && DeclaredUIDs(StripGroup(g)) == DeclaredUIDs(g)
  {
    hide Present, GroupID, DeclaredUIDs, UIDsOnce;
    StrippedDeclares(g);
    var a, b := StripGroup(g).rules, g.rules;
    assert forall i | 0 <= i < |b| :: a[i].Some? == b[i].Some? && (b[i].Some? ==> a[i].value == StripRule(b[i].value));
    StrippedOnce(a, b);
    assert forall i | 0 <= i < |b| && b[i].Some? :: ValidRule(a[i].value) <==> ValidRule(b[i].value);
  }

  /** Every key is a rule-group file. */
  predicate HoldGroups(c: Contents, keys: seq<Key>) {
    forall k | k in keys :: k in c.files && c.files[k].FileLeaf? && c.files[k].doc.GroupDoc?
  }

  lemma GroupsAtConcat(c: Contents, a: seq<Key>, b: seq<Key>)
    requires HoldGroups(c, a + b)
    ensures HoldGroups(c, a) && HoldGroups(c, b) && GroupsAt(c, a + b) == GroupsAt(c, a) + GroupsAt(c, b)
  {
    assert forall k | k in a || k in b :: k in a + b;
  }

  /** Taking one key out takes its group out. */
  lemma GroupTakenOut(c: Contents, keys: seq<Key>, i: nat)
    requires HoldGroups(c, keys) && i < |keys|
    ensures var rest := keys[..i] + keys[i + 1..];
            && HoldGroups(c, [keys[i]]) && HoldGroups(c, rest)
            && multiset(GroupsAt(c, keys)) == multiset(GroupsAt(c, rest)) + multiset(GroupsAt(c, [keys[i]]))
  {
    hide GroupsAt, HoldGroups;
    var before, one, behind := keys[..i], [keys[i]], keys[i + 1..];
    assert keys == before + one + behind;
    GroupsAtConcat(c, before + one, behind);
    GroupsAtConcat(c, before, one);
    assert HoldGroups(c, before + behind) by { HeldParts(c, keys, i); }
    GroupsAtConcat(c, before, behind);
  }

  lemma HeldParts(c: Contents, keys: seq<Key>, i: nat)
    requires HoldGroups(c, keys) && i < |keys|
    ensures HoldGroups(c, keys[..i] + keys[i + 1..])
  {
  }

  /** The groups the files of the keys hold, whatever the order of the keys. */
  lemma {:induction false} GroupsPermuted(c: Contents, a: seq<Key>, b: seq<Key>)
    requires multiset(a) == multiset(b) && HoldGroups(c, a) && HoldGroups(c, b)
    ensures multiset(GroupsAt(c, a)) == multiset(GroupsAt(c, b))
    decreases |a|
  {
    hide GroupsAt, HoldGroups;
    SameSize(a, b);
    if a == [] {
      assert b == a;
    } else {
      assert a[0] in a && a[0] in b;
      var i :| 0 <= i < |b| && b[i] == a[0];
      GroupTakenOut(c, a, 0);
      GroupTakenOut(c, b, i);
      TakenOut(a, 0);
      TakenOut(b, i);
      var restA, restB := a[..0] + a[1..], b[..i] + b[i + 1..];
      CancelOne(multiset(restA), multiset(restB), multiset{a[0]});
      GroupsPermuted(c, restA, restB);
    }
  }

  lemma CancelOne<T>(a: multiset<T>, b: multiset<T>, x: multiset<T>)
    requires a + x == b + x
    ensures a == b
  {
    assert a == (a + x) - x && b == (b + x) - x;
  }

  lemma GroupLeqIsTotalPreorder()
    ensures IsTotalPreorder(GroupLeq)
  {
    forall a: Group, b: Group ensures GroupLeq(a, b) || GroupLeq(b, a) {
      PairLeqIsTotal((a.folderUID, a.title), (b.folderUID, b.title));
    }
    forall a: Group, b: Group, c: Group | GroupLeq(a, b) && GroupLeq(b, c) ensures GroupLeq(a, c) {
      PairLeqIsTransitive((a.folderUID, a.title), (b.folderUID, b.title), (c.folderUID, c.title));
    }
  }

  /** No two of the groups clash. */
  ghost predicate AllApart(groups: seq<Group>) {
    forall i, j | 0 <= i < j < |groups| :: Apart(groups[i], groups[j])
  }

  lemma IDsTellApart(groups: seq<Group>, i: nat, j: nat)
    requires AllApart(groups) && i < |groups| && j < |groups|
    ensures GroupID(groups[i]) == GroupID(groups[j]) ==> i == j
  {
    hide GroupID, DeclaredUIDs;
    if i < j {
      assert Apart(groups[i], groups[j]);
    } else if j < i {
      assert Apart(groups[j], groups[i]);
    }
  }

  lemma ApartAreToldApart(groups: seq<Group>)
    requires AllApart(groups)
    ensures TellsApart(groups, GroupLeq)
  {
    hide DeclaredUIDs, AllApart;
    forall x, y | x in groups && y in groups && GroupLeq(x, y) && GroupLeq(y, x) ensures x == y {
      PairLeqIsTotal((x.folderUID, x.title), (y.folderUID, y.title));
      assert GroupID(x) == GroupID(y);
      var i :| 0 <= i < |groups| && groups[i] == x;
      var j :| 0 <= j < |groups| && groups[j] == y;
      IDsTellApart(groups, i, j);
    }
  }

  /** In whatever order the directory lists the files, the same sorted groups are read. */
  lemma OrderDoesNotMatter(c: Contents, keys: seq<Key>, others: seq<Key>)
    requires Distinct(keys) && Distinct(others) && forall k :: k in keys <==> k in others
    requires HoldGroups(c, others) && AllApart(GroupsAt(c, others))
    ensures Sort(GroupsAt(c, keys), GroupLeq) == Sort(GroupsAt(c, others), GroupLeq)
  {
    hide AllApart, Distinct, Sort, GroupLeq, GroupsAt;
    SameElementsPermuted(keys, others);
    assert HoldGroups(c, keys);
    GroupsPermuted(c, keys, others);
    var a, b := GroupsAt(c, keys), GroupsAt(c, others);
    SortPermutes(a, GroupLeq);
    SortPermutes(b, GroupLeq);
    GroupLeqIsTotalPreorder();
    SortSorts(a, GroupLeq);
    SortSorts(b, GroupLeq);
    ApartAreToldApart(b);
    SortHasSameElements(b, GroupLeq);
    ToldApartStays(b, Sort(b, GroupLeq));
    SortedIsUnique(Sort(b, GroupLeq), Sort(a, GroupLeq), GroupLeq);
  }

  lemma ToldApartStays(a: seq<Group>, b: seq<Group>)
    requires TellsApart(a, GroupLeq) && forall x :: x in b <==> x in a
    ensures TellsApart(b, GroupLeq)
  {
    hide GroupLeq;
  }

  // ---------------------------------------------------------------------------------------------
  // The round trip
  // ---------------------------------------------------------------------------------------------

  /** A bundle that could have been read: valid parts, and nothing declared twice. */
  ghost predicate ValidBundle(b: FileBundle, routeOK: Route -> bool) {
    && (forall g | g in Present(b.groups) :: ValidGroup(g))
    && AllApart(Present(b.groups))
    && (b.points.Some? ==> ValidPoints(b.points.value))
    && (b.policies.Some? ==> routeOK(RouteBody(b.policies.value)))
  }

  /** The bundle without its read-only keys and nil entries, its groups sorted. */
  function Canonical(b: FileBundle): FileBundle {
    FileBundle(Wrap(Sort(StripAll(Present(b.groups)), GroupLeq)),
               if b.points.Some? then Some(StripPoints(b.points.value)) else None,
               if b.policies.Some? then Some(RouteBody(b.policies.value)) else None)
  }

  /** The rules half of the disk after the write. */
  lemma GroupsRoundTrip(c: Contents, groups: seq<Group>, f: Format, keys: seq<Key>)
    requires ValidContents(c) && !Collides(groups, f) && AllApart(groups) && forall g | g in groups :: ValidGroup(g)
    requires Enumerates(keys, Pruned(WrittenAll(c, groups, f), KeySet(groups, f), None))
    ensures var after := Pruned(WrittenAll(c, groups, f), KeySet(groups, f), None);
            && ReadableFiles(after)
            && Sort(GroupsAt(after, keys), GroupLeq) == Sort(StripAll(groups), GroupLeq)
  {
    hide WrittenAll, Pruned, ValidContents, StripGroup, KeyOf, ValidGroup, Apart, GroupLeq, Sort, Collides, IsRead;
    var after := Pruned(WrittenAll(c, groups, f), KeySet(groups, f), None);
    OnlyWrittenAreRead(c, groups, f);
    var own := Keys(groups, f);
    forall k | k in own ensures exists i :: 0 <= i < |groups| && k == KeyOf(groups[i], f) {
      var i :| 0 <= i < |own| && own[i] == k;
    }
    KeysAreDistinct(groups, f);
    assert GroupsAt(after, own) == StripAll(groups);
    StrippedApart(groups);
    AfterIsReadable(after, groups, f);
    OrderDoesNotMatter(after, keys, own);
  }

  lemma KeysAreDistinct(groups: seq<Group>, f: Format)
    requires !Collides(groups, f)
    ensures Distinct(Keys(groups, f))
  {
    hide KeyOf;
    forall i, j | 0 <= i < j < |groups| ensures Keys(groups, f)[i] != Keys(groups, f)[j] {
      assert KeyOf(groups[i], f) != KeyOf(groups[j], f);
    }
  }

  lemma StrippedApart(groups: seq<Group>)
    requires AllApart(groups)
    ensures AllApart(StripAll(groups))
  {
    hide StripGroup, GroupID, DeclaredUIDs;
    forall i, j | 0 <= i < j < |groups| ensures Apart(StripAll(groups)[i], StripAll(groups)[j]) {
      StrippedIsValid(groups[i]);
      StrippedIsValid(groups[j]);
      assert Apart(groups[i], groups[j]);
    }
  }

  lemma AfterIsReadable(after: Contents, groups: seq<Group>, f: Format)
    requires AllApart(groups) && forall g | g in groups :: ValidGroup(g)
    requires forall k :: k in ReadKeys(after) <==> k in Keys(groups, f)
    requires forall i | 0 <= i < |groups| ::
               KeyOf(groups[i], f) in after.files && after.files[KeyOf(groups[i], f)].FileLeaf?
               && after.files[KeyOf(groups[i], f)].doc == GroupDoc(StripGroup(groups[i]))
    ensures ReadableFiles(after)
  {
    hide KeyOf, ValidGroup, StripGroup, IsRead, GroupID, DeclaredUIDs, ReadKeys;
    var own := Keys(groups, f);
    forall k | k in ReadKeys(after)
      ensures k in after.files && after.files[k].FileLeaf? && after.files[k].doc.GroupDoc?
              && ValidGroup(after.files[k].doc.group)
    {
      var i :| 0 <= i < |own| && own[i] == k;
      assert groups[i] in groups;
      StrippedIsValid(groups[i]);
    }
    forall k, l | k in ReadKeys(after) && l in ReadKeys(after) && k != l
      ensures Apart(after.files[k].doc.group, after.files[l].doc.group)
    {
      var i :| 0 <= i < |own| && own[i] == k;
      var j :| 0 <= j < |own| && own[j] == l;
      StrippedIsValid(groups[i]);
      StrippedIsValid(groups[j]);
      assert i < j ==> Apart(groups[i], groups[j]);
      assert j < i ==> Apart(groups[j], groups[i]);
    }
  }

  lemma TopAfterWrite(c: Contents, base: string, f: Format, doc: Option<Doc>)
    ensures var after := TopWritten(c, base, f, doc);
            && TopFound(after, base) == (if doc.Some? then {base + FormatExt(f)} else {})
            && HoldsTop(after, base, f, doc)
            && after.files == c.files && after.folders == c.folders
            && forall n | n !in TopNames(base) ::
               (n in after.top <==> n in c.top) && (n in c.top ==> after.top[n] == c.top[n])
  {
  }

  lemma StrippedPointsValid(points: seq<Option<ContactPoint>>)
    requires ValidPoints(points)
    ensures ValidPoints(StripPoints(points))
  {
    var stripped := StripPoints(points);
    forall i | 0 <= i < |points|
      ensures stripped[i].Some? && ValidPoint(stripped[i].value)
              && PointID(stripped[i].value) == PointID(points[i].value)
    {
      assert stripped[i] == Some(StripPoint(points[i].value));
    }
  }

  function PointsDocOf(b: FileBundle): Option<Doc> {
    if b.points.Some? then Some(PointsDoc(StripPoints(b.points.value))) else None
  }

  function PoliciesDocOf(b: FileBundle): Option<Doc> {
    if b.policies.Some? then Some(RouteDoc(RouteBody(b.policies.value))) else None
  }

  /** One top-level file of the disk, and whether there is one. */
  predicate HoldsTop(c: Contents, base: string, f: Format, doc: Option<Doc>) {
    && TopFound(c, base) == (if doc.Some? then {base + FormatExt(f)} else {})
    && (doc.Some? ==>
          base + FormatExt(f) in c.top && c.top[base + FormatExt(f)].FileLeaf?
              && c.top[base + FormatExt(f)].doc == doc.value)
  }

  lemma TopsAfterWrite(c: Contents, b: FileBundle, f: Format)
    ensures var after := BundleWritten(c, b, f, None);
            HoldsTop(after, POINTS_BASE, f, PointsDocOf(b)) && HoldsTop(after, POLICIES_BASE, f, PoliciesDocOf(b))
  {
    hide Pruned, WrittenAll, StripPoints, TopWritten, TopFound, TopNames;
    var pruned := Pruned(WrittenAll(c, Present(b.groups), f), KeySet(Present(b.groups), f), None);
    var middle := TopWritten(pruned, POINTS_BASE, f, PointsDocOf(b));
    TopAfterWrite(pruned, POINTS_BASE, f, PointsDocOf(b));
    TopAfterWrite(middle, POLICIES_BASE, f, PoliciesDocOf(b));
    var after := TopWritten(middle, POLICIES_BASE, f, PoliciesDocOf(b));
    assert after == BundleWritten(c, b, f, None);
    SameTop(after, middle);
    FormatIsName(POINTS_BASE, f);
    BasesDiffer();
  }

  lemma PointsRoundTrip(after: Contents, b: FileBundle, f: Format)
    requires HoldsTop(after, POINTS_BASE, f, PointsDocOf(b)) && (b.points.Some? ==> ValidPoints(b.points.value))
    ensures ReadablePoints(after)
    ensures forall points | PointsOf(after, points) :: points == Canonical(b).points
  {
    hide TopFound, StripPoints, ValidPoints, Sort;
    if b.points.Some? {
      StrippedPointsValid(b.points.value);
      assert POINTS_BASE + FormatExt(f) in TopFound(after, POINTS_BASE);
    }
  }

  lemma PoliciesRoundTrip(after: Contents, b: FileBundle, f: Format, routeOK: Route -> bool)
    requires HoldsTop(after, POLICIES_BASE, f, PoliciesDocOf(b))
             && (b.policies.Some? ==> routeOK(RouteBody(b.policies.value)))
    ensures ReadablePolicies(after, routeOK)
    ensures forall policies | PoliciesOf(after, policies) :: policies == Canonical(b).policies
  {
    hide TopFound, Sort;
    if b.policies.Some? {
      assert POLICIES_BASE + FormatExt(f) in TopFound(after, POLICIES_BASE);
    }
  }

  lemma SameTop(after: Contents, before: Contents)
    requires forall n | n !in TopNames(POLICIES_BASE) ::
             (n in after.top <==> n in before.top) && (n in before.top ==> after.top[n] == before.top[n])
    ensures TopFound(after, POINTS_BASE) == TopFound(before, POINTS_BASE)
  {
    BasesDiffer();
  }

  /**
   The round trip: whatever the directory held before, after a write of a valid bundle that prunes every
   folder the disk can be read, and what is read is the bundle stripped and sorted.
   */
  lemma WrittenBundleReadsBack(c: Contents, b: FileBundle, f: Format, routeOK: Route -> bool, r: FileBundle)
    requires ValidContents(c) && ValidBundle(b, routeOK) && !Collides(Present(b.groups), f)
    ensures var after := BundleWritten(c, b, f, None);
            Readable(after, routeOK) && (ReadAs(after, r) ==> r == Canonical(b))
  {
    hide Pruned, WrittenAll, TopWritten, Present, ValidContents, Collides, PointsOf, PoliciesOf, Sort, Enumerates,
      ReadablePoints, ReadablePolicies, ReadableFiles, StripAll, GroupsAt, TopFound, ReadKeys, HoldsTop;
    var groups := Present(b.groups);
    var after := BundleWritten(c, b, f, None);
    var pruned := Pruned(WrittenAll(c, groups, f), KeySet(groups, f), None);
    TopsAfterWrite(c, b, f);
    PointsRoundTrip(after, b, f);
    PoliciesRoundTrip(after, b, f, routeOK);
    SameFiles(c, b, f);
    var keys := Enumeration(pruned);
    GroupsRoundTrip(c, groups, f, keys);
    ReadableByFiles(after, pruned);
    if ReadAs(after, r) {
      var ks :| GroupsOf(after, ks, r.groups);
      EnumeratesByFiles(after, pruned, ks);
      GroupsRoundTrip(c, groups, f, ks);
      assert r.groups == Canonical(b).groups;
    }
  }

  lemma SameFiles(c: Contents, b: FileBundle, f: Format)
    ensures var groups := Present(b.groups);
            BundleWritten(c, b, f, None).files == Pruned(WrittenAll(c, groups, f), KeySet(groups, f), None).files
  {
    hide Pruned, WrittenAll;
  }

  lemma ReadableByFiles(a: Contents, b: Contents)
    requires a.files == b.files
    ensures ReadableFiles(a) <==> ReadableFiles(b)
  {
    SameReadKeys(a, b);
  }

  lemma SameReadKeys(a: Contents, b: Contents)
    requires a.files == b.files
    ensures ReadKeys(a) == ReadKeys(b)
  {
  }

  lemma EnumeratesByFiles(a: Contents, b: Contents, keys: seq<Key>)
    requires a.files == b.files && Enumerates(keys, a) && ReadableFiles(a)
    ensures Enumerates(keys, b) && ReadableFiles(b) && GroupsAt(a, keys) == GroupsAt(b, keys)
  {
    hide IsRead, ValidGroup, Apart;
    SameReadKeys(a, b);
  }

  /** Any finite set of files can be listed. */
  lemma Enumeration(c: Contents) returns (keys: seq<Key>)
    ensures Enumerates(keys, c)
  {
    hide ReadKeys;
    keys := [];
    var left := ReadKeys(c);
    while left != {}
      invariant left <= ReadKeys(c) && Distinct(keys) && forall k :: k in keys <==> k in ReadKeys(c) && k !in left
      decreases |left|
    {
      var k :| k in left;
      left := left - {k};
      keys := keys + [k];
    }
  }

  // ---------------------------------------------------------------------------------------------
  // What a write does not touch
  // ---------------------------------------------------------------------------------------------

  /**
   Pruning is exact: after a successful write a file under rules/ is one just written, or one that was there
   and is not the layout's, or one in a folder the caller did not name; and none just written is missing.
   */
  lemma PruningIsExact(c: Contents, groups: seq<Group>, f: Format, keep: Option<seq<string>>, k: Key)
    requires ValidContents(c) && !Collides(groups, f)
    ensures var after := Pruned(WrittenAll(c, groups, f), KeySet(groups, f), keep);
            && (k in KeySet(groups, f) ==> k in after.files && after.files[k].FileLeaf?)
            && (k !in KeySet(groups, f) ==>
                  && (k in after.files <==>
                        k in c.files && !(Prunable(keep, k.0) && c.files[k].FileLeaf? && IsBundleFile(c.files[k].name)))
                  && (k in after.files ==> after.files[k] == c.files[k]))
  {
    hide Fold, IsBundleFile, WrittenAll, ValidContents, Collides, KeyOf, Prunable;
    WrittenFiles(c, groups, f);
    if k in KeySet(groups, f) {
      var i :| 0 <= i < |groups| && Keys(groups, f)[i] == k;
      assert k == KeyOf(groups[i], f);
    }
  }

  /** With folders named, an unwritten file of any other folder is untouched. */
  lemma OtherFoldersAreKept(c: Contents, groups: seq<Group>, f: Format, keep: seq<string>, k: Key)
    requires ValidContents(c) && !Collides(groups, f) && k in c.files && k !in KeySet(groups, f)
    requires forall uid | uid in keep :: Fold(Sanitize(uid)) != k.0
    ensures var after := Pruned(WrittenAll(c, groups, f), KeySet(groups, f), Some(keep));
            k in after.files && after.files[k] == c.files[k]
  {
    hide Fold, Sanitize, IsBundleFile, WrittenAll, ValidContents, Collides, KeySet, Pruned;
    PruningIsExact(c, groups, f, Some(keep), k);
  }
}
