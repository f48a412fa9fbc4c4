/** The plan of a whole bundle: one entry per local object, sorted by kind and then ID. */
module BundlePlan {
  import opened Options
  import opened JsonValues
  import opened AlertModels
  import opened GroupPlan
  import opened RouteTree
  import opened Sorting

  datatype ContactPoint = ContactPoint(uid: string, name: string, provenance: string, rest: map<string, Json>)

  datatype Bundle = Bundle(groups: seq<Option<Group>>, contactPoints: seq<Option<ContactPoint>>,
                           policies: Option<Route>)

  datatype Action = Create | Unchanged | Update

  datatype Kind = ContactPointKind | PolicyTreeKind | RuleGroupKind

  datatype Change = Change(action: Action, kind: Kind, id: string, detail: seq<string>)

  const POLICY_TREE_ID := "policies"

  function ActionFor(equal: bool): Action {
    if equal then Unchanged else Update
  }

  /** The kinds sort as their names do. */
  function KindRank(k: Kind): nat {
    match k
    case ContactPointKind => 0
    case PolicyTreeKind => 1
    case RuleGroupKind => 2
  }

  predicate ChangeLeq(a: Change, b: Change) {
    KindRank(a.kind) < KindRank(b.kind) || (a.kind == b.kind && StringLeq(a.id, b.id))
  }

  lemma ChangeLeqIsTotalPreorder()
    ensures IsTotalPreorder(ChangeLeq)
  {
    forall a: Change, b: Change ensures ChangeLeq(a, b) || ChangeLeq(b, a) {
      StringLeqIsTotal(a.id, b.id);
    }
    forall a: Change, b: Change, c: Change | ChangeLeq(a, b) && ChangeLeq(b, c) ensures ChangeLeq(a, c) {
      if a.kind == b.kind == c.kind {
        StringLeqIsTransitive(a.id, b.id, c.id);
      }
    }
  }

  /** Groups by folder UID and then title. */
  predicate GroupLeq(a: Group, b: Group) {
    PairLeq((a.folderUID, a.title), (b.folderUID, b.title))
  }

  // ---------------------------------------------------------------------------------------------
  // Contact points
  // ---------------------------------------------------------------------------------------------

  const POINT_KEYS: set<string> := {"uid", "name", "provenance"}

  function PointID(p: ContactPoint): string {
    if p.uid != "" then p.uid else p.name
  }

  /** The encoded contact point without the read-only provenance. */
  function PointFields(p: ContactPoint): map<string, Json> {
    (p.rest - POINT_KEYS)
    + (if p.uid != "" then map["uid" := Str(p.uid)] else map[])
    + (if p.name != "" then map["name" := Str(p.name)] else map[])
  }

  function ContactPointBody(local: ContactPoint, uid: string): ContactPoint {
    local.(uid := uid, provenance := "")
  }

  /** What is compared is the body the push would send under the remote uid. */
  predicate EqualContactPoints(local: ContactPoint, remote: ContactPoint) {
    EqualRedacted(DropEmpty(Obj(PointFields(ContactPointBody(local, remote.uid)))), DropEmpty(Obj(PointFields(remote))))
  }

  datatype Match = NoMatch | Found(at: nat) | Ambiguous

  predicate Addresses(local: ContactPoint, remote: Option<ContactPoint>) {
    remote.Some? && if local.uid != "" then remote.value.uid == local.uid
        else local.name != "" && remote.value.name == local.name
  }

  /** The slots of the remote points a local one addresses. */
  function Matched(local: ContactPoint, remote: seq<Option<ContactPoint>>): seq<nat> {
    if remote == [] then []
    else
      Matched(local, remote[..|remote| - 1])
      + (if Addresses(local, remote[|remote| - 1]) then [|remote| - 1] else [])
  }

  /** By uid when it has one, and then the first one; otherwise by a name only one remote point may have. */
  function PointMatch(local: ContactPoint, remote: seq<Option<ContactPoint>>): (m: Match)
    ensures m.Found? ==> m.at < |remote| && Addresses(local, remote[m.at])
    ensures m.NoMatch? <==> forall i | 0 <= i < |remote| :: !Addresses(local, remote[i])
  {
    MatchedAddresses(local, remote);
    var found := Matched(local, remote);
    assert found != [] ==> found[0] in found;
    assert found == [] ==> forall i: nat :: i !in found;
    if found == [] then NoMatch
    else if local.uid != "" || |found| == 1 then Found(found[0])
    else Ambiguous
  }

  lemma {:induction false} MatchedAddresses(local: ContactPoint, remote: seq<Option<ContactPoint>>)
    ensures forall i: nat :: i in Matched(local, remote) <==> i < |remote| && Addresses(local, remote[i])
    ensures forall j, k | 0 <= j < k < |Matched(local, remote)| :: Matched(local, remote)[j] < Matched(local, remote)[k]
  {
    if remote != [] {
      var front := remote[..|remote| - 1];
      MatchedAddresses(local, front);
      forall i: nat ensures i in Matched(local, remote) <==> i < |remote| && Addresses(local, remote[i]) {
        assert i in Matched(local, remote) <==>
          i in Matched(local, front) || (i == |remote| - 1 && Addresses(local, remote[i]));
        if i < |remote| - 1 {
          assert front[i] == remote[i];
        }
      }
      forall j | 0 <= j < |Matched(local, front)| ensures Matched(local, front)[j] < |remote| - 1 {
        assert Matched(local, front)[j] in Matched(local, front);
      }
    }
  }

  method MatchContactPoint(local: ContactPoint, remote: seq<Option<ContactPoint>>) returns (m: Match)
    ensures m == PointMatch(local, remote)
  {
    if local.uid != "" {
      for i := 0 to |remote|
        invariant Matched(local, remote[..i]) == []
      {
        assert remote[..i + 1][..i] == remote[..i];
        if remote[i].Some? && remote[i].value.uid == local.uid {
          FirstMatched(local, remote, i);
          return Found(i);
        }
      }
      assert remote[..|remote|] == remote;
      return NoMatch;
    }
    var matched: seq<nat> := [];
    for i := 0 to |remote|
      invariant matched == Matched(local, remote[..i])
    {
      assert remote[..i + 1][..i] == remote[..i];
      if remote[i].Some? && local.name != "" && remote[i].value.name == local.name {
        matched := matched + [i];
      }
    }
    assert remote[..|remote|] == remote;
    if |matched| == 0 {
      return NoMatch;
    } else if |matched| == 1 {
      return Found(matched[0]);
    } else {
      return Ambiguous;
    }
  }

  lemma FirstMatched(local: ContactPoint, remote: seq<Option<ContactPoint>>, i: nat)
    requires i < |remote| && Matched(local, remote[..i]) == [] && Addresses(local, remote[i])
    ensures Matched(local, remote) != [] && Matched(local, remote)[0] == i
  {
    MatchedAddresses(local, remote);
    MatchedAddresses(local, remote[..i]);
    assert i in Matched(local, remote);
    forall j | 0 <= j < i ensures !Addresses(local, remote[j]) {
      assert remote[..i][j] == remote[j];
      assert j !in Matched(local, remote[..i]);
    }
    assert Matched(local, remote)[0] in Matched(local, remote);
  }

  function PointChange(p: ContactPoint, remote: seq<Option<ContactPoint>>): Change {
    var m := PointMatch(p, remote);
    Change(if m.Found? then ActionFor(EqualContactPoints(p, remote[m.at].value)) else Create, ContactPointKind,
           PointID(p), [])
  }

  /** The remote slots the points address. */
  function Addressed(points: seq<ContactPoint>, remote: seq<Option<ContactPoint>>): set<nat> {
    set p | p in points && PointMatch(p, remote).Found? :: PointMatch(p, remote).at
  }

  /** The entries of the points, or nothing when a point is ambiguous or two address one remote point. */
  function PointChanges(points: seq<ContactPoint>, remote: seq<Option<ContactPoint>>): Option<seq<Change>> {
    if points == [] then Some([])
    else
      var front, p := points[..|points| - 1], points[|points| - 1];
      var before, m := PointChanges(front, remote), PointMatch(p, remote);
      if before.None? || m.Ambiguous? || (m.Found? && m.at in Addressed(front, remote)) then None
      else Some(before.value + [PointChange(p, remote)])
  }

  lemma PointChangesSnoc(points: seq<ContactPoint>, p: ContactPoint, remote: seq<Option<ContactPoint>>)
    ensures PointChanges(points + [p], remote) ==
            var m := PointMatch(p, remote);
            if PointChanges(points, remote).None? || m.Ambiguous?
               || (m.Found? && m.at in Addressed(points, remote)) then None
            else Some(PointChanges(points, remote).value + [PointChange(p, remote)])
    ensures Addressed(points + [p], remote) ==
            Addressed(points, remote) + if PointMatch(p, remote).Found? then {PointMatch(p, remote).at} else {}
  {
    hide PointMatch, PointChange;
    assert (points + [p])[..|points|] == points;
    assert forall x :: x in points + [p] <==> x in points || x == p;
  }

  lemma {:induction false} FailureSpreads(points: seq<ContactPoint>, more: seq<ContactPoint>,
                                          remote: seq<Option<ContactPoint>>)
    requires PointChanges(points, remote).None?
    ensures PointChanges(points + more, remote).None?
    decreases |more|
  {
    if more == [] {
      assert points + more == points;
    } else {
      FailureSpreads(points, more[..|more| - 1], remote);
      PointChangesSnoc(points + more[..|more| - 1], more[|more| - 1], remote);
      assert points + more == points + more[..|more| - 1] + [more[|more| - 1]];
    }
  }

  method PlanContactPoints(local: seq<Option<ContactPoint>>, remote: seq<Option<ContactPoint>>)
    returns (changes: Option<seq<Change>>)
    ensures changes == PointChanges(Present(local), remote)
  {
    hide PointMatch, EqualContactPoints, PointChanges, Addressed, Present;
    var planned: seq<Change> := [];
    var matched: map<nat, string> := map[];
    NothingPlanned(local, remote);
    for i := 0 to |local|
      invariant PointChanges(Present(local[..i]), remote) == Some(planned)
      invariant matched.Keys == Addressed(Present(local[..i]), remote)
    {
      PresentPrefix(local, i);
      PresentConcat(local[..i + 1], local[i + 1..]);
      assert local[..i + 1] + local[i + 1..] == local;
      if local[i].Some? {
        var point := local[i].value;
        PointChangesSnoc(Present(local[..i]), point, remote);
        var m := MatchContactPoint(point, remote);
        if m.Ambiguous? || (m.Found? && m.at in matched) {
          FailureSpreads(Present(local[..i + 1]), Present(local[i + 1..]), remote);
          return None;
        }
        var action := Create;
        if m.Found? {
          matched := matched[m.at := PointID(point)];
          action := ActionFor(EqualContactPoints(point, remote[m.at].value));
        }
        planned := planned + [Change(action, ContactPointKind, PointID(point), [])];
      }
    }
    assert local[..|local|] == local;
    changes := Some(planned);
  }

  lemma NothingPlanned(local: seq<Option<ContactPoint>>, remote: seq<Option<ContactPoint>>)
    ensures PointChanges(Present(local[..0]), remote) == Some([]) && Addressed(Present(local[..0]), remote) == {}
  {
  }

  /** The two points address one remote point. */
  predicate Shares(p: ContactPoint, q: ContactPoint, remote: seq<Option<ContactPoint>>) {
    PointMatch(p, remote).Found? && PointMatch(p, remote) == PointMatch(q, remote)
  }

  predicate NoneShares(points: seq<ContactPoint>, remote: seq<Option<ContactPoint>>) {
    forall i, j | 0 <= i < j < |points| :: !Shares(points[i], points[j], remote)
  }

  predicate NoneAmbiguous(points: seq<ContactPoint>, remote: seq<Option<ContactPoint>>) {
    forall p | p in points :: !PointMatch(p, remote).Ambiguous?
  }

  lemma NoneSharesSnoc(points: seq<ContactPoint>, p: ContactPoint, remote: seq<Option<ContactPoint>>)
    ensures NoneShares(points + [p], remote) <==>
            && NoneShares(points, remote)
            && !(PointMatch(p, remote).Found? && PointMatch(p, remote).at in Addressed(points, remote))
  {
    hide PointMatch;
    var all := points + [p];
    if NoneShares(all, remote) {
      forall i, j | 0 <= i < j < |points| ensures !Shares(points[i], points[j], remote) {
        assert !Shares(all[i], all[j], remote);
      }
      forall q | q in points ensures !Shares(q, p, remote) {
        var i :| 0 <= i < |points| && points[i] == q;
        assert !Shares(all[i], all[|points|], remote);
      }
    }
  }

  /**
   Contact points are planned exactly when none is ambiguous and no two address one remote point, so
   no remote contact point is ever written twice by one push.
   */
  lemma {:induction false} EachRemotePointIsAddressedOnce(points: seq<ContactPoint>, remote: seq<Option<ContactPoint>>)
    ensures PointChanges(points, remote).Some? <==> NoneAmbiguous(points, remote) && NoneShares(points, remote)
  {
    hide PointMatch, PointChange, PointChanges, NoneShares, Addressed;
    if points == [] {
      NoPoints(remote);
    } else {
      var front, p := points[..|points| - 1], points[|points| - 1];
      assert points == front + [p];
      EachRemotePointIsAddressedOnce(front, remote);
      PointChangesSnoc(front, p, remote);
      NoneSharesSnoc(front, p, remote);
      assert forall x :: x in points <==> x in front || x == p;
    }
  }

  lemma NoPoints(remote: seq<Option<ContactPoint>>)
    ensures PointChanges([], remote).Some? && NoneShares([], remote)
  {
  }

  /**
   A point with a uid matches the first remote point of it; one without matches the only remote point of its
   name, and is ambiguous exactly when there are several.
   */
  lemma PointMatchIsExact(local: ContactPoint, remote: seq<Option<ContactPoint>>)
    ensures var m := PointMatch(local, remote);
            && (m.Ambiguous? <==>
                  local.uid == "" && exists i, j ::
                    0 <= i < j < |remote| && Addresses(local, remote[i]) && Addresses(local, remote[j]))
            && (m.NoMatch? <==> forall i | 0 <= i < |remote| :: !Addresses(local, remote[i]))
            && (m.Found? ==>
                  m.at < |remote| && Addresses(local, remote[m.at])
                      && forall i | 0 <= i < m.at :: !Addresses(local, remote[i]))
  {
    hide Addresses, Matched;
    MatchedAddresses(local, remote);
    var found := Matched(local, remote);
    if |found| > 1 {
      assert found[0] in found && found[1] in found && found[0] < found[1];
    }
    if i, j :| 0 <= i < j < |remote| && Addresses(local, remote[i]) && Addresses(local, remote[j]) {
      assert i in found && j in found;
    }
    if found != [] {
      forall i | 0 <= i < found[0] && i < |remote| ensures !Addresses(local, remote[i]) {
        assert i !in found;
      }
    }
  }

  // ---------------------------------------------------------------------------------------------
  // The tree, the groups and the whole plan
  // ---------------------------------------------------------------------------------------------

  /** Nothing when the bundle has no tree; the tree always exists in Grafana. */
  function TreeChanges(local: Option<Route>, remote: Option<Route>): seq<Change> {
    if local.None? then []
    else [Change(if remote.Some? then ActionFor(EqualRoutes(local.value, remote.value)) else Create, PolicyTreeKind,
                 POLICY_TREE_ID, [])]
  }

  /** The first group of that folder and title. */
  function FindGroup(groups: seq<Group>, ref: GroupRef): (found: Option<Group>)
    ensures found.Some? ==> found.value in groups && RefOf(found.value) == ref
    ensures found.None? <==> forall g | g in groups :: RefOf(g) != ref
  {
    if groups == [] then None else if RefOf(groups[0]) == ref then Some(groups[0]) else FindGroup(groups[1..], ref)
  }

  /** The group at k is the first of that folder and title. */
  predicate FirstGroupAt(groups: seq<Group>, ref: GroupRef, k: int) {
    0 <= k < |groups| && RefOf(groups[k]) == ref && forall j | 0 <= j < k :: RefOf(groups[j]) != ref
  }

  /** The group found is the first of its folder and title, and there is none exactly when no group has them. */
  lemma {:induction false} FindGroupIsFirst(groups: seq<Group>, ref: GroupRef)
    ensures forall k | FirstGroupAt(groups, ref, k) :: FindGroup(groups, ref) == Some(groups[k])
    ensures FindGroup(groups, ref).None? <==> forall k :: !FirstGroupAt(groups, ref, k)
  {
    if groups != [] {
      var rest := groups[1..];
      assert forall j | 0 <= j < |rest| :: rest[j] == groups[j + 1];
      if RefOf(groups[0]) == ref {
        assert FirstGroupAt(groups, ref, 0);
      } else {
        FindGroupIsFirst(rest, ref);
        forall k ensures FirstGroupAt(groups, ref, k) <==> FirstGroupAt(rest, ref, k - 1) {
          FirstGroupShifts(groups, ref, k);
        }
        if FindGroup(rest, ref).Some? {
          var k :| FirstGroupAt(rest, ref, k);
          assert FirstGroupAt(groups, ref, k + 1);
        }
      }
    }
  }

  lemma FirstGroupShifts(groups: seq<Group>, ref: GroupRef, k: int)
    requires groups != [] && RefOf(groups[0]) != ref
    ensures FirstGroupAt(groups, ref, k) <==> FirstGroupAt(groups[1..], ref, k - 1)
  {
    var rest := groups[1..];
    assert forall j | 0 <= j < |rest| :: rest[j] == groups[j + 1];
    if FirstGroupAt(rest, ref, k - 1) {
      forall j | 0 <= j < k ensures RefOf(groups[j]) != ref {
        assert j > 0 ==> rest[j - 1] == groups[j];
      }
    }
  }

  function AddedLines(rules: seq<Rule>): seq<string> {
    if rules == [] then [] else AddedLines(rules[..|rules| - 1]) + [RuleDetail(ADDED, rules[|rules| - 1])]
  }

  method CreatedRuleDetails(rules: seq<Option<Rule>>) returns (details: seq<string>)
    ensures details == Sort(AddedLines(Present(rules)), StringLeq)
  {
    details := [];
    for i := 0 to |rules|
      invariant details == AddedLines(Present(rules[..i]))
    {
      PresentPrefix(rules, i);
      if rules[i].Some? {
        assert (Present(rules[..i]) + [rules[i].value])[..|Present(rules[..i])|] == Present(rules[..i]);
        details := details + [RuleDetail(ADDED, rules[i].value)];
      }
    }
    assert rules[..|rules|] == rules;
    details := Sort(details, StringLeq);
  }

  lemma {:induction false} AddedLinesInOrder(rules: seq<Rule>)
    ensures |AddedLines(rules)| == |rules|
    ensures forall i | 0 <= i < |rules| :: AddedLines(rules)[i] == RuleDetail(ADDED, rules[i])
  {
    hide RuleDetail;
    if rules != [] {
      AddedLinesInOrder(rules[..|rules| - 1]);
    }
  }

  /** A created group is planned with one line for each of its rules, sorted. */
  lemma CreatedEntryListsEveryRule(rules: seq<Rule>)
    ensures multiset(Sort(AddedLines(rules), StringLeq)) ==
            multiset(seq(|rules|, i requires 0 <= i < |rules| => RuleDetail(ADDED, rules[i])))
    ensures IsSorted(Sort(AddedLines(rules), StringLeq), StringLeq)
  {
    hide RuleDetail, AddedLines, Sort, StringLeq;
    AddedLinesInOrder(rules);
    SortPermutes(AddedLines(rules), StringLeq);
    StringLeqIsTotalPreorder();
    SortSorts(AddedLines(rules), StringLeq);
    assert AddedLines(rules) == seq(|rules|, i requires 0 <= i < |rules| => RuleDetail(ADDED, rules[i]));
  }

  function GroupChange(g: Group, remotes: seq<Group>): Change {
    var held := FindGroup(remotes, RefOf(g));
    if held.None? then Change(Create, RuleGroupKind, GroupID(g), Sort(AddedLines(Present(g.rules)), StringLeq))
    else var detail := DetailLines(g, held.value); Change(ActionFor(|detail| == 0), RuleGroupKind, GroupID(g), detail)
  }

  function GroupChanges(groups: seq<Group>, remotes: seq<Group>): seq<Change> {
    seq(|groups|, i requires 0 <= i < |groups| => GroupChange(groups[i], remotes))
  }

  method PlanRuleGroups(local: seq<Option<Group>>, remote: seq<Option<Group>>) returns (changes: seq<Change>)
    ensures changes == GroupChanges(Present(local), Present(remote))
  {
    hide DetailLines, FindGroup, AddedLines, Sort, StringLeq;
    changes := [];
    for i := 0 to |local|
      invariant changes == GroupChanges(Present(local[..i]), Present(remote))
    {
      hide Present, GroupChanges;
      PresentPrefix(local, i);
      if local[i].Some? {
        var group := local[i].value;
        var held := FindGroup(Present(remote), RefOf(group));
        var change := Change(Create, RuleGroupKind, GroupID(group), []);
        if held.None? {
          var detail := CreatedRuleDetails(group.rules);
          change := change.(detail := detail);
        } else {
          var detail := GroupDetail(group, held.value);
          change := change.(action := ActionFor(|detail| == 0), detail := detail);
        }
        assert change == GroupChange(group, Present(remote));
        GroupChangesSnoc(Present(local[..i]), group, Present(remote));
        changes := changes + [change];
      }
    }
    assert local[..|local|] == local;
  }

  lemma GroupChangesSnoc(groups: seq<Group>, g: Group, remotes: seq<Group>)
    ensures GroupChanges(groups + [g], remotes) == GroupChanges(groups, remotes) + [GroupChange(g, remotes)]
  {
    hide GroupChange;
  }

  /** What pushing local onto remote would do, or nothing when the contact points cannot be planned. */
  function Planned(local: Bundle, remote: Bundle): Option<seq<Change>> {
    var points := PointChanges(Present(local.contactPoints), remote.contactPoints);
    if points.None? then None
    else Some(Sort(points.value + TreeChanges(local.policies, remote.policies)
                   + GroupChanges(Present(local.groups), Present(remote.groups)), ChangeLeq))
  }

  method Plan(local: Bundle, remote: Bundle) returns (changes: Option<seq<Change>>)
    ensures changes == Planned(local, remote)
  {
    var points := PlanContactPoints(local.contactPoints, remote.contactPoints);
    if points.None? {
      return None;
    }
    var groups := PlanRuleGroups(local.groups, remote.groups);
    changes := Some(Sort(points.value + TreeChanges(local.policies, remote.policies) + groups, ChangeLeq));
  }

  /** The plan is sorted by kind and then ID. */
  lemma PlanIsSorted(local: Bundle, remote: Bundle)
    requires Planned(local, remote).Some?
    ensures IsSorted(Planned(local, remote).value, ChangeLeq)
  {
    hide ChangeLeq, PointChanges, GroupChanges, Sort;
    ChangeLeqIsTotalPreorder();
    SortSorts(PointChanges(Present(local.contactPoints), remote.contactPoints).value
      + TreeChanges(local.policies, remote.policies)
              + GroupChanges(Present(local.groups), Present(remote.groups)), ChangeLeq);
  }

  /** Every rule group of the bundle has its entry in the plan, and every entry of that kind is one of them. */
  lemma PlanHoldsGroups(local: Bundle, remote: Bundle, change: Change)
    requires Planned(local, remote).Some?
    ensures change in Planned(local, remote).value && change.kind == RuleGroupKind <==>
            change in GroupChanges(Present(local.groups), Present(remote.groups))
    ensures change in Planned(local, remote).value && change.kind == PolicyTreeKind <==>
            change in TreeChanges(local.policies, remote.policies)
    ensures change in Planned(local, remote).value && change.kind == ContactPointKind <==>
            change in PointChanges(Present(local.contactPoints), remote.contactPoints).value
  {
    hide GroupChange, PointChange, EqualRoutes;
    var points := PointChanges(Present(local.contactPoints), remote.contactPoints).value;
    var tree := TreeChanges(local.policies, remote.policies);
    var groups := GroupChanges(Present(local.groups), Present(remote.groups));
    SortHasSameElements(points + tree + groups, ChangeLeq);
    assert change in points + tree + groups <==> change in points || change in tree || change in groups;
    PointKinds(Present(local.contactPoints), remote.contactPoints);
    GroupKinds(Present(local.groups), Present(remote.groups));
  }

  lemma {:induction false} PointKinds(points: seq<ContactPoint>, remote: seq<Option<ContactPoint>>)
    requires PointChanges(points, remote).Some?
    ensures |PointChanges(points, remote).value| == |points|
    ensures forall i | 0 <= i < |points| :: PointChanges(points, remote).value[i] == PointChange(points[i], remote)
    ensures forall c | c in PointChanges(points, remote).value :: c.kind == ContactPointKind
  {
    hide PointMatch, EqualContactPoints;
    if points != [] {
      PointKinds(points[..|points| - 1], remote);
    }
  }

  lemma GroupKinds(groups: seq<Group>, remotes: seq<Group>)
    ensures forall c | c in GroupChanges(groups, remotes) :: c.kind == RuleGroupKind
  {
    hide DetailLines, AddedLines;
    forall c | c in GroupChanges(groups, remotes) ensures c.kind == RuleGroupKind {
      var i :| 0 <= i < |groups| && c == GroupChange(groups[i], remotes);
    }
  }
}
