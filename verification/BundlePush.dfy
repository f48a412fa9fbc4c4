/**
 A bundle read from disk and pushed: what the theorems about plans and pushes assume of a bundle is what
 reading it checks, and pushing it again changes nothing.
 */
module BundlePush {
  import opened Options
  import opened AlertModels
  import opened GroupPlan
  import opened BundlePlan
  import opened BundleFiles
  import opened BundleRoundTrip
  import opened PushRuns
  import opened PushConvergence
  import opened PushTheorems
  import opened ApplyConvergence
  import opened PointConvergence
  import opened Sequences
  import opened Sorting
  import RouteTree

  /** The bundle as it is pushed: no contact points when there is no file of them. */
  function AsPushed(b: FileBundle): Bundle {
    Bundle(b.groups, if b.points.Some? then b.points.value else [], b.policies)
  }

  /** What reading checks: valid groups that declare nothing twice, and valid contact points with IDs of their own. */
  ghost predicate Checked(b: Bundle) {
    && (forall g | g in Present(b.groups) :: ValidGroup(g))
    && AllApart(Present(b.groups))
    && ValidPoints(b.contactPoints)
  }

  // ---------------------------------------------------------------------------------------------
  // A bundle that was read is checked
  // ---------------------------------------------------------------------------------------------

  lemma ApartMeansDistinct(groups: seq<Group>)
    requires AllApart(groups)
    ensures Distinct(groups)
  {
    hide GroupID, DeclaredUIDs;
    forall i, j | 0 <= i < j < |groups| ensures groups[i] != groups[j] {
      assert Apart(groups[i], groups[j]);
    }
  }

  lemma ApartEitherWay(groups: seq<Group>, g: Group, h: Group)
    requires AllApart(groups) && g in groups && h in groups && g != h
    ensures Apart(g, h)
  {
    hide GroupID, DeclaredUIDs;
    var i :| 0 <= i < |groups| && groups[i] == g;
    var j :| 0 <= j < |groups| && groups[j] == h;
    if i < j {
      assert Apart(groups[i], groups[j]);
    } else {
      assert Apart(groups[j], groups[i]);
    }
  }

  lemma PermutedStayApart(a: seq<Group>, b: seq<Group>)
    requires AllApart(a) && multiset(a) == multiset(b)
    ensures AllApart(b)
  {
    hide Apart, Distinct;
    ApartMeansDistinct(a);
    PermutedIsDistinct(a, b);
    SameSize(a, b);
    forall i, j | 0 <= i < j < |b| ensures Apart(b[i], b[j]) {
      DistinctAt(b, i, j);
      assert b[i] in a && b[j] in a;
      ApartEitherWay(a, b[i], b[j]);
    }
  }

  lemma DistinctAt<T>(s: seq<T>, i: nat, j: nat)
    requires Distinct(s) && i < j < |s|
    ensures s[i] != s[j]
  {
  }

  lemma FilesApart(c: Contents, keys: seq<Key>)
    requires Enumerates(keys, c) && ReadableFiles(c)
    ensures HoldGroups(c, keys)
    ensures AllApart(GroupsAt(c, keys)) && forall g | g in GroupsAt(c, keys) :: ValidGroup(g)
  {
    hide Apart, ValidGroup, IsBundleFile;
    var groups := GroupsAt(c, keys);
    forall i, j | 0 <= i < j < |groups| ensures Apart(groups[i], groups[j]) {
      assert keys[i] in keys && keys[j] in keys && keys[i] != keys[j];
    }
    forall g | g in groups ensures ValidGroup(g) {
      var i :| 0 <= i < |groups| && groups[i] == g;
      assert keys[i] in keys;
    }
  }

  /** Every bundle that is read from disk is checked. */
  lemma ReadBundleIsChecked(c: Contents, b: FileBundle)
    requires ReadableFiles(c) && ReadablePoints(c) && ReadAs(c, b)
    ensures Checked(AsPushed(b))
  {
    hide ValidGroup, AllApart, ReadableFiles, GroupsAt, Sort, Enumerates, GroupLeq, PoliciesOf, ValidPoint, PointID;
    var keys :| GroupsOf(c, keys, b.groups);
    FilesApart(c, keys);
    var groups := GroupsAt(c, keys);
    SortPermutes(groups, GroupLeq);
    SortHasSameElements(groups, GroupLeq);
    PermutedStayApart(groups, Sort(groups, GroupLeq));
    PresentOfWrap(Sort(groups, GroupLeq));
    if b.points.Some? {
      var n :| n in TopFound(c, POINTS_BASE);
      assert c.top[n].doc == PointsDoc(b.points.value);
    }
  }

  // ---------------------------------------------------------------------------------------------
  // What a checked bundle has
  // ---------------------------------------------------------------------------------------------

  lemma HeldIsDeclared(g: Group, uid: string)
    requires Holds(g, uid)
    ensures uid in DeclaredUIDs(g)
  {
    hide Present;
  }

  /** No two groups of it share an address or a uid. */
  lemma CheckedGroupsAreReadable(b: Bundle)
    requires Checked(b)
    ensures ReadableGroups(Present(b.groups))
  {
    hide Holds, DeclaredUIDs, Present, ValidGroup;
    var groups := Present(b.groups);
    forall i, j | 0 <= i < j < |groups|
      ensures RefOf(groups[i]) != RefOf(groups[j]) && forall uid | Holds(groups[i], uid) :: !Holds(groups[j], uid)
    {
      assert Apart(groups[i], groups[j]);
      forall uid | Holds(groups[i], uid) ensures !Holds(groups[j], uid) {
        HeldIsDeclared(groups[i], uid);
        if Holds(groups[j], uid) {
          HeldIsDeclared(groups[j], uid);
        }
      }
    }
  }

  lemma {:induction false} AllPresent<T>(slots: seq<Option<T>>)
    requires forall i | 0 <= i < |slots| :: slots[i].Some?
    ensures |Present(slots)| == |slots| && forall i | 0 <= i < |slots| :: Present(slots)[i] == slots[i].value
  {
    if slots != [] {
      AllPresent(slots[..|slots| - 1]);
    }
  }

  /** No group of it has a uid twice. */
  lemma CheckedGroupHasNoUIDTwice(b: Bundle, g: Group)
    requires Checked(b) && g in Present(b.groups)
    ensures NoUIDTwice(Present(g.rules))
  {
    hide Present, ValidRule, AllApart, ValidPoints;
    assert ValidGroup(g);
    AllPresent(g.rules);
  }

  lemma PointsAreDistinct(points: seq<Option<ContactPoint>>)
    requires ValidPoints(points)
    ensures forall p, q | p in Present(points) && q in Present(points) && PointID(p) == PointID(q) :: p == q
    ensures forall p | p in Present(points) :: PointID(p) != ""
  {
    hide Present, PointID;
    forall p, q | p in Present(points) && q in Present(points) && PointID(p) == PointID(q) ensures p == q {
      PresentMember(points, p);
      PresentMember(points, q);
      var i :| 0 <= i < |points| && points[i] == Some(p);
      var j :| 0 <= j < |points| && points[j] == Some(q);
      assert i < j ==> PointID(points[i].value) != PointID(points[j].value);
      assert j < i ==> PointID(points[j].value) != PointID(points[i].value);
    }
    forall p | p in Present(points) ensures PointID(p) != "" {
      PresentMember(points, p);
      var i :| 0 <= i < |points| && points[i] == Some(p);
      NamedPoint(p);
    }
  }

  lemma NamedPoint(p: ContactPoint)
    requires ValidPoint(p)
    ensures PointID(p) != ""
  {
  }

  lemma PointOfEntry(env: Env, plan: seq<Change>, c: Change) returns (p: ContactPoint)
    requires Planned(env.local, env.remote) == Some(plan) && c in plan && c.kind == ContactPointKind
    ensures p in Present(env.local.contactPoints) && c == PointChange(p, env.remote.contactPoints) && c.id == PointID(p)
  {
    hide PointMatch, PointChange, Present, TreeChanges, GroupChanges;
    var points := Present(env.local.contactPoints);
    PlanHoldsGroups(env.local, env.remote, c);
    ChangesInOrder(points, env.remote.contactPoints);
    var changes := PointChanges(points, env.remote.contactPoints).value;
    var i :| 0 <= i < |changes| && changes[i] == c;
    p := points[i];
    PointIsPlanned(env, plan, p);
  }

  lemma GroupOfEntry(env: Env, plan: seq<Change>, c: Change) returns (g: Group)
    requires Planned(env.local, env.remote) == Some(plan) && c in plan && c.kind == RuleGroupKind
    ensures g in Present(env.local.groups) && c == GroupChange(g, Present(env.remote.groups)) && c.id == GroupID(g)
  {
    hide Planned, Present, FindGroup, DetailLines, AddedLines, Sort, GroupID;
    PlanHoldsGroups(env.local, env.remote, c);
    var groups := Present(env.local.groups);
    var changes := GroupChanges(groups, Present(env.remote.groups));
    var i :| 0 <= i < |changes| && changes[i] == c;
    g := groups[i];
  }

  /** Its plan has one entry for each ID of a kind. */
  lemma CheckedPlanHasUniqueIDs(env: Env, plan: seq<Change>)
    requires Checked(env.local) && Planned(env.local, env.remote) == Some(plan)
    ensures IDsAreUnique(plan)
  {
    hide Planned, Present, PointChange, GroupChange, GroupID, PointID, ValidPoints, ValidGroup;
    forall c, d | c in plan && d in plan && c.kind == d.kind && c.id == d.id ensures c == d {
      match c.kind {
        case ContactPointKind =>
          PointsAreDistinct(env.local.contactPoints);
          var p := PointOfEntry(env, plan, c);
          var q := PointOfEntry(env, plan, d);
        case PolicyTreeKind =>
          PlanHoldsGroups(env.local, env.remote, c);
          PlanHoldsGroups(env.local, env.remote, d);
        case RuleGroupKind =>
          var g := GroupOfEntry(env, plan, c);
          var h := GroupOfEntry(env, plan, d);
          SameIDSameGroup(Present(env.local.groups), g, h);
      }
    }
  }

  lemma SameIDSameGroup(groups: seq<Group>, g: Group, h: Group)
    requires AllApart(groups) && g in groups && h in groups && GroupID(g) == GroupID(h)
    ensures g == h
  {
    hide DeclaredUIDs, AllApart, GroupID;
    if g != h {
      ApartEitherWay(groups, g, h);
    }
  }

  // ---------------------------------------------------------------------------------------------
  // Pushing again
  // ---------------------------------------------------------------------------------------------

  /** Grafana as it was when the push was planned, and after its requests. */
  datatype History = History(groups: seq<Server>, points: seq<Points>, tree: Option<RouteTree.Route>)

  /** Grafana answered the plan with what it held, and took the requests one after the other. */
  ghost predicate Went(env: Env, requests: seq<Write>, h: History, hides: Hides) {
    && Took(h.groups, GroupBodies(requests)) && Shows(h.groups[0], env)
    && TakesAll(h.points, requests, hides) && Lists(env.remote.contactPoints, h.points[0])
    && TreeAfter(env.remote.policies, requests, h.tree)
  }

  /** What is fetched of Grafana afterwards. */
  ghost predicate Fetched(local: Bundle, again: Bundle, h: History) {
    && h.groups != [] && h.points != []
    && (forall g | g in Present(local.groups) ::
          Remote(h.groups[|h.groups| - 1], RefOf(g)) == FindGroup(Present(again.groups), RefOf(g)))
    && Lists(again.contactPoints, h.points[|h.points| - 1])
    && again.policies == h.tree
  }

  /**
   The bundle says nothing a push cannot settle: every rule has a uid, and no point that is written a secret in
   the clear.
   */
  ghost predicate Settleable(env: Env, hides: Hides) {
    && (forall g | g in Present(env.local.groups) :: EveryRuleHasUID(Present(g.rules)))
    && forall p | p in Present(env.local.contactPoints) :: PointSettles(p, env.remote.contactPoints, hides)
  }

  predicate AllUnchanged(plan: seq<Change>) {
    forall c | c in plan :: c.action == Unchanged
  }

  lemma GroupEntrySettles(env: Env, plan: seq<Change>, requests: seq<Write>, h: History, hides: Hides, again: Bundle,
                          g: Group)
    requires Checked(env.local) && Succeeds(env, plan, requests) && Went(env, requests, h, hides)
             && Fetched(env.local, again, h)
    requires g in Present(env.local.groups)
    ensures GroupChange(g, Present(again.groups)).action == Unchanged <==> EveryRuleHasUID(Present(g.rules))
  {
    hide Checked, Succeeds, Took, Shows, TakesAll, Lists, TreeAfter, Present, DetailLines, AddedLines, Sort,
      FindGroup, EveryRuleHasUID, GroupBodies, NoUIDTwice, ReadableGroups;
    CheckedGroupsAreReadable(env.local);
    CheckedGroupHasNoUIDTwice(env.local, g);
    AcceptedApplyConverges(env, plan, requests, h.groups, g);
    assert Remote(h.groups[|h.groups| - 1], RefOf(g)) == FindGroup(Present(again.groups), RefOf(g));
  }

  lemma PointEntrySettles(env: Env, plan: seq<Change>, requests: seq<Write>, h: History, hides: Hides, again: Bundle,
                          p: ContactPoint)
    requires Checked(env.local) && Succeeds(env, plan, requests) && Went(env, requests, h, hides)
             && Fetched(env.local, again, h)
    requires Planned(env.local, again).Some? && p in Present(env.local.contactPoints)
    ensures PointChange(p, again.contactPoints).action == Unchanged <==>
            PointSettles(p, env.remote.contactPoints, hides)
  {
    hide Succeeds, Took, Shows, TakesAll, Lists, TreeAfter, Present, PointChange, PointSettles, Planned, PointMatch,
      ValidPoints, PointID, AllApart, ValidGroup;
    PointsAreDistinct(env.local.contactPoints);
    NotAmbiguous(env.(remote := again), Planned(env.local, again).value, p);
    PointsConverge(env, plan, requests, h.points, hides, again.contactPoints, p);
  }

  /**
   Pushing twice: after the push of a checked bundle that nothing stopped and in which nothing failed, the
   plan of pushing it again is all Unchanged exactly when every rule carries a uid and no contact point
   that was written holds a secret in the clear.
   */
  lemma SecondPushIsUnchanged(env: Env, plan: seq<Change>, requests: seq<Write>, h: History, hides: Hides,
                              again: Bundle)
    requires Checked(env.local) && Succeeds(env, plan, requests) && Went(env, requests, h, hides)
             && Fetched(env.local, again, h)
    requires Planned(env.local, again).Some?
    ensures AllUnchanged(Planned(env.local, again).value) <==> Settleable(env, hides)
  {
    hide Checked, Succeeds, Took, Shows, TakesAll, Lists, TreeAfter, Present, PointChange, GroupChange, PointSettles,
      Planned, PointID, GroupID, EveryRuleHasUID, TreeChanges;
    var second, plan2 := env.(remote := again), Planned(env.local, again).value;
    forall g | g in Present(env.local.groups)
      ensures GroupChange(g, Present(again.groups)).action == Unchanged <==> EveryRuleHasUID(Present(g.rules))
      ensures GroupChange(g, Present(again.groups)) in plan2
    {
      GroupEntrySettles(env, plan, requests, h, hides, again, g);
      GroupIsPlanned(second, plan2, g);
    }
    forall p | p in Present(env.local.contactPoints)
      ensures PointChange(p, again.contactPoints).action == Unchanged <==>
              PointSettles(p, env.remote.contactPoints, hides)
      ensures PointChange(p, again.contactPoints) in plan2
    {
      PointEntrySettles(env, plan, requests, h, hides, again, p);
      PointIsPlanned(second, plan2, p);
    }
    if Settleable(env, hides) {
      forall c | c in plan2 ensures c.action == Unchanged {
        match c.kind {
          case ContactPointKind =>
            var p := PointOfEntry(second, plan2, c);
          case PolicyTreeKind =>
            PlanHoldsGroups(env.local, again, c);
            TreeEntrySettles(env, plan, requests, h, hides, again, c);
          case RuleGroupKind =>
            var g := GroupOfEntry(second, plan2, c);
        }
      }
    }
  }

  lemma GroupIsPlanned(env: Env, plan: seq<Change>, g: Group)
    requires Planned(env.local, env.remote) == Some(plan) && g in Present(env.local.groups)
    ensures GroupChange(g, Present(env.remote.groups)) in plan
  {
    hide Planned, Present, FindGroup, DetailLines, AddedLines, Sort, GroupID;
    var groups := Present(env.local.groups);
    var i :| 0 <= i < |groups| && groups[i] == g;
    assert GroupChanges(groups, Present(env.remote.groups))[i] == GroupChange(g, Present(env.remote.groups));
    PlanHoldsGroups(env.local, env.remote, GroupChange(g, Present(env.remote.groups)));
  }

  lemma TreeEntrySettles(env: Env, plan: seq<Change>, requests: seq<Write>, h: History, hides: Hides, again: Bundle,
                         c: Change)
    requires Succeeds(env, plan, requests) && Went(env, requests, h, hides) && Fetched(env.local, again, h)
    requires c in TreeChanges(env.local.policies, again.policies)
    ensures c.action == Unchanged
  {
    hide Succeeds, Took, Shows, TakesAll, Lists, TreeAfter, Present, RouteTree.EqualRoutes;
    TreeConverges(env, plan, requests, h.tree);
  }

  /**
   Pushing it again can be planned exactly when no contact point without a uid bears a name several listed
   points have.
   */
  lemma SecondPlanExists(env: Env, plan: seq<Change>, requests: seq<Write>, h: History, hides: Hides, again: Bundle)
    requires Checked(env.local) && Succeeds(env, plan, requests) && Went(env, requests, h, hides)
             && Fetched(env.local, again, h)
    ensures Planned(env.local, again).Some? <==> NoneAmbiguous(Present(env.local.contactPoints), again.contactPoints)
  {
    hide Succeeds, Took, Shows, TakesAll, TreeAfter, Present, PointMatch, ValidPoints, PointID, AllApart, ValidGroup,
      Shares, Lists, PointChanges;
    var points, listing := Present(env.local.contactPoints), again.contactPoints;
    EachRemotePointIsAddressedOnce(points, listing);
    if NoneAmbiguous(points, listing) {
      PointsAreDistinct(env.local.contactPoints);
      forall i, j | 0 <= i < j < |points| ensures !Shares(points[i], points[j], listing) {
        PointsKeepOwnIDs(env.local.contactPoints, i, j);
        assert points[i] in points && points[j] in points;
        SharedAfterwards(env, plan, requests, h.points, hides, listing, points[i], points[j]);
      }
    }
    PlannedWithPoints(env.local, again);
  }

  lemma PlannedWithPoints(local: Bundle, remote: Bundle)
    ensures Planned(local, remote).Some? <==> PointChanges(Present(local.contactPoints), remote.contactPoints).Some?
  {
    hide PointChanges, TreeChanges, GroupChanges;
  }

  lemma PointsKeepOwnIDs(points: seq<Option<ContactPoint>>, i: nat, j: nat)
    requires ValidPoints(points) && i < j < |Present(points)|
    ensures PointID(Present(points)[i]) != PointID(Present(points)[j])
  {
    hide PointID, ValidPoint;
    AllPresent(points);
  }

  /** The same for every bundle that is read from disk. */
  lemma ReadBundleSettles(c: Contents, b: FileBundle, env: Env, plan: seq<Change>, requests: seq<Write>, h: History,
                          hides: Hides, again: Bundle)
    requires ReadableFiles(c) && ReadablePoints(c) && ReadAs(c, b) && env.local == AsPushed(b)
    requires !env.dryRun && Planned(env.local, env.remote) == Some(plan)
    requires !Applied(env, plan).stopped && Applied(env, plan).failed == []
    requires multiset(requests) == multiset(Applied(env, plan).requests)
    requires Went(env, requests, h, hides) && Fetched(env.local, again, h)
    ensures Planned(env.local, again).Some? <==> NoneAmbiguous(Present(env.local.contactPoints), again.contactPoints)
    ensures Planned(env.local, again).Some? ==>
            (AllUnchanged(Planned(env.local, again).value) <==> Settleable(env, hides))
  {
    hide Planned, Applied, Went, Fetched, Settleable, AllUnchanged, Checked, AsPushed, IDsAreUnique, ReadableFiles,
      ReadablePoints, ReadAs, NoneAmbiguous, Present;
    ReadBundleIsChecked(c, b);
    CheckedPlanHasUniqueIDs(env, plan);
    SecondPlanExists(env, plan, requests, h, hides, again);
    if Planned(env.local, again).Some? {
      SecondPushIsUnchanged(env, plan, requests, h, hides, again);
    }
  }
}
