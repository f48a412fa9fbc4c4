/** What a push does to the entries of its plan, and what a dry run says about the apply. */
module PushTheorems {
  import opened Options
  import opened AlertModels
  import opened GroupPlan
  import opened BundlePlan
  import opened Sorting
  import opened PushRuns
  import JsonValues
  import RouteTree
  import PushApply

  // ---------------------------------------------------------------------------------------------
  // A run that nothing stops is its items, one after the other
  // ---------------------------------------------------------------------------------------------

  function AllItems(env: Env, changes: seq<Change>): seq<Item> {
    var pending := PendingOf(changes);
    var targets := Targets(env, ByID(pending, RuleGroupKind), Present(env.local.groups));
    PointItems(env, ByID(pending, ContactPointKind), Present(env.local.contactPoints)) + TreeItems(env, pending)
    + BlockedItems(env, targets) + GroupItems(env, Writable(env, targets))
  }

  lemma {:induction false} ProcessWithoutStop(env: Env, p: Progress, items: seq<Item>)
    requires !Process(env, p, items).stopped
    ensures Process(env, p, items) == ProcessAll(env, p, items)
  {
    hide Sent, Outcome;
    if items != [] {
      ProcessWithoutStop(env, p, items[..|items| - 1]);
    }
  }

  lemma {:induction false} ProcessAllConcat(env: Env, p: Progress, a: seq<Item>, b: seq<Item>)
    ensures ProcessAll(env, p, a + b) == ProcessAll(env, ProcessAll(env, p, a), b)
    decreases |b|
  {
    hide Step;
    if b == [] {
      assert a + b == a;
    } else {
      assert (a + b)[..|a + b| - 1] == a + b[..|b| - 1];
      ProcessAllConcat(env, p, a, b[..|b| - 1]);
    }
  }

  lemma UnstoppedRunIsItsItems(env: Env, changes: seq<Change>)
    requires !Applied(env, changes).stopped
    ensures Applied(env, changes) == ProcessAll(env, Progress(UnchangedOf(changes), [], [], false),
                                                AllItems(env, changes))
  {
    hide Process, ProcessAll, PointItems, TreeItems, BlockedItems, GroupItems, Writable, Targets, ByID, Present,
      FolderCheckFails;
    var pending := PendingOf(changes);
    var targets := Targets(env, ByID(pending, RuleGroupKind), Present(env.local.groups));
    var start := Progress(UnchangedOf(changes), [], [], false);
    var a, b := PointItems(env, ByID(pending, ContactPointKind), Present(env.local.contactPoints)),
      TreeItems(env, pending);
    var c, d := BlockedItems(env, targets), GroupItems(env, Writable(env, targets));
    var points := Process(env, start, a);
    var tree := Process(env, points, b);
    var blocked := Process(env, tree, c);
    ProcessWithoutStop(env, start, a);
    ProcessWithoutStop(env, points, b);
    ProcessWithoutStop(env, tree, c);
    if env.stopOnError {
      ProcessWithoutStop(env, blocked, d);
    }
    ProcessAllConcat(env, start, a, b);
    ProcessAllConcat(env, start, a + b, c);
    ProcessAllConcat(env, start, a + b + c, d);
  }

  function ChangesOf(items: seq<Item>): seq<Change> {
    seq(|items|, i requires 0 <= i < |items| => items[i].change)
  }

  function FailedChanges(failed: seq<FailedChange>): seq<Change> {
    seq(|failed|, i requires 0 <= i < |failed| => failed[i].change)
  }

  ghost function Reported(p: Progress): multiset<Change> {
    multiset(p.applied) + multiset(FailedChanges(p.failed))
  }

  lemma StepReports(env: Env, p: Progress, item: Item)
    ensures Reported(Step(env, p, item)) == Reported(p) + multiset{item.change}
  {
    hide Outcome, Sent, Stops;
    var after := Step(env, p, item);
    if Outcome(env, item.verdict).Some? {
      assert FailedChanges(after.failed) == FailedChanges(p.failed) + [item.change];
    } else {
      assert after.applied == p.applied + [item.change] && after.failed == p.failed;
    }
  }

  /** Every item ends up applied or failed, once. */
  lemma {:induction false} ItemsAreRecorded(env: Env, p: Progress, items: seq<Item>)
    ensures Reported(ProcessAll(env, p, items)) == Reported(p) + multiset(ChangesOf(items))
  {
    hide Step, Reported;
    if items != [] {
      var front, last := items[..|items| - 1], items[|items| - 1];
      ItemsAreRecorded(env, p, front);
      assert ChangesOf(items) == ChangesOf(front) + [last.change];
      StepReports(env, ProcessAll(env, p, front), last);
    }
  }

  // ---------------------------------------------------------------------------------------------
  // The items are the pending entries
  // ---------------------------------------------------------------------------------------------

  /** One ID of a kind is one entry. */
  predicate IDsAreUnique(changes: seq<Change>) {
    forall c, d | c in changes && d in changes && c.kind == d.kind && c.id == d.id :: c == d
  }

  lemma CountSnoc(changes: seq<Change>, last: Change, c: Change)
    ensures multiset(changes + [last])[c] == multiset(changes)[c] + if c == last then 1 else 0
  {
  }

  lemma {:induction false} PendingCount(changes: seq<Change>, c: Change)
    ensures multiset(PendingOf(changes))[c] == if c.action != Unchanged then multiset(changes)[c] else 0
  {
    if changes != [] {
      var front, last := changes[..|changes| - 1], changes[|changes| - 1];
      PendingCount(front, c);
      assert changes == front + [last];
      CountSnoc(front, last, c);
      CountSnoc(PendingOf(front), last, c);
      PendingSnoc(front, last);
    }
  }

  lemma {:induction false} UnchangedCount(changes: seq<Change>, c: Change)
    ensures multiset(UnchangedOf(changes))[c] == if c.action == Unchanged then multiset(changes)[c] else 0
  {
    if changes != [] {
      var front, last := changes[..|changes| - 1], changes[|changes| - 1];
      UnchangedCount(front, c);
      assert changes == front + [last];
      CountSnoc(front, last, c);
      CountSnoc(UnchangedOf(front), last, c);
      assert UnchangedOf(changes) ==
        if last.action == Unchanged then UnchangedOf(front) + [last] else UnchangedOf(front);
    }
  }

  lemma PendingMember(changes: seq<Change>, c: Change)
    ensures multiset(PendingOf(changes))[c] == if c.action != Unchanged then multiset(changes)[c] else 0
    ensures multiset(UnchangedOf(changes))[c] == if c.action == Unchanged then multiset(changes)[c] else 0
    ensures c in PendingOf(changes) <==> c in changes && c.action != Unchanged
  {
    hide PendingOf, UnchangedOf;
    PendingCount(changes, c);
    UnchangedCount(changes, c);
    assert c in PendingOf(changes) <==> c in multiset(PendingOf(changes));
    assert c in changes <==> c in multiset(changes);
  }

  lemma {:induction false} IndexedByID(changes: seq<Change>, kind: Kind)
    ensures forall id | id in ByID(changes, kind) :: ByID(changes, kind)[id] in changes
    ensures forall id | id in ByID(changes, kind) ::
            ByID(changes, kind)[id].kind == kind && ByID(changes, kind)[id].id == id
    ensures forall c | c in changes && c.kind == kind :: c.id in ByID(changes, kind)
  {
    if changes != [] {
      IndexedByID(changes[..|changes| - 1], kind);
      assert changes == changes[..|changes| - 1] + [changes[|changes| - 1]];
    }
  }

  /** Of several entries of one kind and ID the last counts. */
  lemma {:induction false} LastOfIDCounts(changes: seq<Change>, i: nat)
    requires i < |changes|
    requires forall j | i < j < |changes| && changes[j].kind == changes[i].kind :: changes[j].id != changes[i].id
    ensures var byID := ByID(changes, changes[i].kind);
            changes[i].id in byID && byID[changes[i].id] == changes[i]
  {
    if i < |changes| - 1 {
      LastOfIDCounts(changes[..|changes| - 1], i);
    }
  }

  /** Looking an object's ID up finds the entry planned for it, when that one is pending, and nothing otherwise. */
  lemma LookupFindsOwnEntry(plan: seq<Change>, c: Change)
    requires IDsAreUnique(plan) && c in plan
    ensures var pending := ByID(PendingOf(plan), c.kind);
            (c.id in pending <==> c.action != Unchanged) && (c.id in pending ==> pending[c.id] == c)
  {
    hide PendingOf, ByID;
    IndexedByID(PendingOf(plan), c.kind);
    PendingMember(plan, c);
    var pending := ByID(PendingOf(plan), c.kind);
    if c.id in pending {
      PendingMember(plan, pending[c.id]);
    }
  }

  lemma PendingSnoc(changes: seq<Change>, c: Change)
    ensures PendingOf(changes + [c]) == if c.action != Unchanged then PendingOf(changes) + [c] else PendingOf(changes)
  {
    assert (changes + [c])[..|changes|] == changes;
  }

  lemma ChangesSnoc(items: seq<Item>, item: Item)
    ensures ChangesOf(items + [item]) == ChangesOf(items) + [item.change]
  {
  }

  predicate AllIn(changes: seq<Change>, plan: seq<Change>) {
    forall c | c in changes :: c in plan
  }

  lemma AllInSnoc(changes: seq<Change>, c: Change, plan: seq<Change>)
    requires AllIn(changes + [c], plan)
    ensures AllIn(changes, plan) && c in plan
  {
    assert c in changes + [c];
    assert forall d | d in changes :: d in changes + [d] && d in changes + [c];
  }

  /** What looking the points up yields is their pending entries. */
  predicate PointsPending(env: Env, plan: seq<Change>, points: seq<ContactPoint>)
    requires PointChanges(points, env.remote.contactPoints).Some?
  {
    ChangesOf(PointItems(env, ByID(PendingOf(plan), ContactPointKind), points)) ==
    PendingOf(PointChanges(points, env.remote.contactPoints).value)
  }

  lemma PointPending(env: Env, plan: seq<Change>, front: seq<ContactPoint>, p: ContactPoint)
    requires IDsAreUnique(plan) && PointChanges(front, env.remote.contactPoints).Some?
             && PointsPending(env, plan, front)
    requires PointChanges(front + [p], env.remote.contactPoints).Some?
             && PointChange(p, env.remote.contactPoints) in plan
    ensures PointsPending(env, plan, front + [p])
  {
    hide PointVerdict, PointMatch, ByID, EqualContactPoints, IDsAreUnique, PointChanges, PointItems, PendingOf,
      ChangesOf;
    var c := PointChange(p, env.remote.contactPoints);
    PointChangesSnoc(front, p, env.remote.contactPoints);
    PendingSnoc(PointChanges(front, env.remote.contactPoints).value, c);
    LookupFindsOwnEntry(plan, c);
    PointItemsSnoc(env, ByID(PendingOf(plan), ContactPointKind), front, p);
    ChangesSnoc(PointItems(env, ByID(PendingOf(plan), ContactPointKind), front), Item(c, PointVerdict(env, p)));
  }

  lemma NoPointsPending(env: Env, plan: seq<Change>)
    ensures PointChanges([], env.remote.contactPoints).Some? && PointsPending(env, plan, [])
  {
  }

  lemma {:induction false} PointItemsArePending(env: Env, plan: seq<Change>, points: seq<ContactPoint>)
    requires IDsAreUnique(plan) && PointChanges(points, env.remote.contactPoints).Some?
    requires AllIn(PointChanges(points, env.remote.contactPoints).value, plan)
    ensures PointsPending(env, plan, points)
  {
    hide PointVerdict, PointMatch, ByID, IDsAreUnique, PointItems, PendingOf, ChangesOf, PointsPending, AllIn,
      PointChange, PointChanges, Addressed;
    if points == [] {
      NoPointsPending(env, plan);
    } else {
      var front, p := points[..|points| - 1], points[|points| - 1];
      assert points == front + [p];
      PointChangesSnoc(front, p, env.remote.contactPoints);
      AllInSnoc(PointChanges(front, env.remote.contactPoints).value, PointChange(p, env.remote.contactPoints), plan);
      PointItemsArePending(env, plan, front);
      PointPending(env, plan, front, p);
    }
  }

  function TargetChanges(targets: seq<Target>): seq<Change> {
    seq(|targets|, i requires 0 <= i < |targets| => targets[i].change)
  }

  lemma TargetChangesSnoc(targets: seq<Target>, t: Target)
    ensures TargetChanges(targets + [t]) == TargetChanges(targets) + [t.change]
  {
  }

  predicate GroupsPending(env: Env, plan: seq<Change>, groups: seq<Group>) {
    TargetChanges(Targets(env, ByID(PendingOf(plan), RuleGroupKind), groups)) ==
    PendingOf(GroupChanges(groups, Present(env.remote.groups)))
  }

  lemma GroupPending(env: Env, plan: seq<Change>, front: seq<Group>, g: Group)
    requires IDsAreUnique(plan) && GroupsPending(env, plan, front) && GroupChange(g, Present(env.remote.groups)) in plan
    ensures GroupsPending(env, plan, front + [g])
  {
    hide FindGroup, ByID, DetailLines, AddedLines, IDsAreUnique, Present, GroupID, TargetChanges, PendingOf, Targets;
    var remotes := Present(env.remote.groups);
    var c := GroupChange(g, remotes);
    assert GroupChanges(front + [g], remotes) == GroupChanges(front, remotes) + [c];
    PendingSnoc(GroupChanges(front, remotes), c);
    LookupFindsOwnEntry(plan, c);
    TargetsSnoc(env, ByID(PendingOf(plan), RuleGroupKind), front, g);
    TargetChangesSnoc(Targets(env, ByID(PendingOf(plan), RuleGroupKind), front),
                      Target(c, g, FindGroup(remotes, RefOf(g))));
  }

  lemma NoGroupsPending(env: Env, plan: seq<Change>)
    ensures GroupsPending(env, plan, [])
  {
  }

  lemma {:induction false} TargetsArePending(env: Env, plan: seq<Change>, groups: seq<Group>)
    requires IDsAreUnique(plan) && AllIn(GroupChanges(groups, Present(env.remote.groups)), plan)
    ensures GroupsPending(env, plan, groups)
  {
    hide GroupChange, IDsAreUnique, Present, GroupsPending, AllIn;
    if groups == [] {
      NoGroupsPending(env, plan);
    } else {
      var front, g := groups[..|groups| - 1], groups[|groups| - 1];
      var remotes := Present(env.remote.groups);
      assert groups == front + [g];
      assert GroupChanges(groups, remotes) == GroupChanges(front, remotes) + [GroupChange(g, remotes)];
      AllInSnoc(GroupChanges(front, remotes), GroupChange(g, remotes), plan);
      TargetsArePending(env, plan, front);
      GroupPending(env, plan, front, g);
    }
  }

  /** The changes of the targets, counted where the run files them. */
  ghost function Filed(env: Env, targets: seq<Target>): multiset<Change> {
    multiset(ChangesOf(BlockedItems(env, targets))) + multiset(ChangesOf(GroupItems(env, Writable(env, targets))))
  }

  lemma FiledSnoc(env: Env, targets: seq<Target>, t: Target)
    ensures Filed(env, targets + [t]) == Filed(env, targets) + multiset{t.change}
  {
    hide GroupVerdict, Blocked, FolderFailure;
    assert (targets + [t])[..|targets|] == targets;
    var b, w := BlockedItems(env, targets), Writable(env, targets);
    if Blocked(env, t) {
      assert Writable(env, targets + [t]) == w;
      ChangesSnoc(b, Item(t.change, Refuse(FolderFailure(env.folder(t.local.folderUID)))));
    } else {
      assert BlockedItems(env, targets + [t]) == b;
      assert GroupItems(env, w + [t]) == GroupItems(env, w) + [Item(t.change, GroupVerdict(env, t))];
      ChangesSnoc(GroupItems(env, w), Item(t.change, GroupVerdict(env, t)));
    }
  }

  /** The blocked and the writable targets are all the targets. */
  lemma {:induction false} TargetsSplit(env: Env, targets: seq<Target>)
    ensures Filed(env, targets) == multiset(TargetChanges(targets))
  {
    if targets != [] {
      hide Filed;
      var front, last := targets[..|targets| - 1], targets[|targets| - 1];
      TargetsSplit(env, front);
      assert targets == front + [last];
      FiledSnoc(env, front, last);
      TargetChangesSnoc(front, last);
    }
  }

  lemma {:induction false} FirstTreeFinds(changes: seq<Change>)
    ensures FirstTree(changes).None? <==> forall c | c in changes :: c.kind != PolicyTreeKind
    ensures FirstTree(changes).Some? ==>
            FirstTree(changes).value in changes && FirstTree(changes).value.kind == PolicyTreeKind
  {
    if changes != [] && changes[0].kind != PolicyTreeKind {
      FirstTreeFinds(changes[1..]);
    }
  }

  lemma TreeItemsArePending(env: Env, plan: seq<Change>)
    requires forall c: Change | c.kind == PolicyTreeKind ::
             c in plan <==> c in TreeChanges(env.local.policies, env.remote.policies)
    ensures ChangesOf(TreeItems(env, PendingOf(plan))) ==
            PendingOf(TreeChanges(env.local.policies, env.remote.policies))
  {
    hide TreeVerdict, PendingOf, FirstTree;
    var tree := TreeChanges(env.local.policies, env.remote.policies);
    FirstTreeFinds(PendingOf(plan));
    var first := FirstTree(PendingOf(plan));
    if first.Some? {
      PendingMember(plan, first.value);
    }
    assert PendingOf([]) == [] by { NothingPending(); }
    if tree != [] {
      PendingMember(plan, tree[0]);
      PendingSnoc([], tree[0]);
      assert [] + [tree[0]] == tree;
      assert tree[0] in tree;
    }
  }

  lemma NothingPending()
    ensures PendingOf([]) == []
  {
  }

  lemma {:induction false} PendingConcat(a: seq<Change>, b: seq<Change>)
    ensures PendingOf(a + b) == PendingOf(a) + PendingOf(b)
    decreases |b|
  {
    if b == [] {
      assert a + b == a;
    } else {
      assert (a + b)[..|a + b| - 1] == a + b[..|b| - 1];
      PendingConcat(a, b[..|b| - 1]);
    }
  }

  lemma PendingOfPermutation(a: seq<Change>, b: seq<Change>)
    requires multiset(a) == multiset(b)
    ensures multiset(PendingOf(a)) == multiset(PendingOf(b))
  {
    forall c ensures multiset(PendingOf(a))[c] == multiset(PendingOf(b))[c] {
      PendingMember(a, c);
      PendingMember(b, c);
    }
  }

  lemma PlanSplits(changes: seq<Change>)
    ensures multiset(UnchangedOf(changes)) + multiset(PendingOf(changes)) == multiset(changes)
  {
    forall c ensures (multiset(UnchangedOf(changes)) + multiset(PendingOf(changes)))[c] == multiset(changes)[c] {
      PendingMember(changes, c);
    }
  }

  lemma ItemsArePending(env: Env, plan: seq<Change>)
    requires Planned(env.local, env.remote) == Some(plan) && IDsAreUnique(plan)
    ensures multiset(ChangesOf(AllItems(env, plan))) == multiset(PendingOf(plan))
  {
    hide PointItems, TreeItems, Targets, BlockedItems, GroupItems, Writable, ByID, PendingOf, Present, IDsAreUnique,
      PointChanges, TreeChanges, GroupChanges, Sort;
    var points := PointChanges(Present(env.local.contactPoints), env.remote.contactPoints).value;
    var tree := TreeChanges(env.local.policies, env.remote.policies);
    var groups := GroupChanges(Present(env.local.groups), Present(env.remote.groups));
    forall c: Change
      ensures c in points ==> c in plan
      ensures c.kind == PolicyTreeKind ==> (c in plan <==> c in tree)
      ensures c in groups ==> c in plan
    {
      PlanHoldsGroups(env.local, env.remote, c);
    }
    var pending := PendingOf(plan);
    var targets := Targets(env, ByID(pending, RuleGroupKind), Present(env.local.groups));
    PointItemsArePending(env, plan, Present(env.local.contactPoints));
    TreeItemsArePending(env, plan);
    TargetsArePending(env, plan, Present(env.local.groups));
    TargetsSplit(env, targets);
    var a, b := PointItems(env, ByID(pending, ContactPointKind), Present(env.local.contactPoints)),
      TreeItems(env, pending);
    var c, d := BlockedItems(env, targets), GroupItems(env, Writable(env, targets));
    assert ChangesOf(a + b + c + d) == ChangesOf(a) + ChangesOf(b) + ChangesOf(c) + ChangesOf(d);
    PendingConcat(points + tree, groups);
    PendingConcat(points, tree);
    SortPermutes(points + tree + groups, ChangeLeq);
    PendingOfPermutation(plan, points + tree + groups);
  }

  /**
   Conservation: in a run that nothing stops, the applied and the failed entries together are the plan,
   each entry exactly once.
   */
  lemma EveryEntryIsReportedOnce(env: Env, plan: seq<Change>)
    requires Planned(env.local, env.remote) == Some(plan) && IDsAreUnique(plan)
    requires !Applied(env, plan).stopped
    ensures Reported(Applied(env, plan)) == multiset(plan)
  {
    hide Planned, Applied, AllItems, UnchangedOf, PendingOf, ProcessAll, IDsAreUnique;
    UnstoppedRunIsItsItems(env, plan);
    ItemsAreRecorded(env, Progress(UnchangedOf(plan), [], [], false), AllItems(env, plan));
    ItemsArePending(env, plan);
    PlanSplits(plan);
    assert FailedChanges([]) == [];
  }

  // ---------------------------------------------------------------------------------------------
  // Writes
  // ---------------------------------------------------------------------------------------------

  /** What the items that are not refused would send. */
  function Writes(items: seq<Item>): seq<Write> {
    if items == [] then []
    else
      Writes(items[..|items| - 1])
      + if items[|items| - 1].verdict.Send? then [items[|items| - 1].verdict.value] else []
  }

  lemma {:induction false} RequestsAreWrites(env: Env, p: Progress, items: seq<Item>)
    ensures ProcessAll(env, p, items).requests == p.requests + if env.dryRun then [] else Writes(items)
  {
    hide Outcome;
    if items != [] {
      RequestsAreWrites(env, p, items[..|items| - 1]);
    }
  }

  /** An Unchanged entry is never attempted: each write belongs to a pending entry. */
  lemma NoWriteForUnchanged(env: Env, plan: seq<Change>)
    requires Planned(env.local, env.remote) == Some(plan) && IDsAreUnique(plan)
    requires !Applied(env, plan).stopped
    ensures Applied(env, plan).requests == if env.dryRun then [] else Writes(AllItems(env, plan))
    ensures forall item | item in AllItems(env, plan) :: item.change in plan && item.change.action != Unchanged
  {
    hide Planned, Applied, AllItems, PendingOf, ProcessAll, IDsAreUnique, Writes;
    UnstoppedRunIsItsItems(env, plan);
    RequestsAreWrites(env, Progress(UnchangedOf(plan), [], [], false), AllItems(env, plan));
    ItemsArePending(env, plan);
    forall item | item in AllItems(env, plan) ensures item.change in plan && item.change.action != Unchanged {
      var i :| 0 <= i < |AllItems(env, plan)| && AllItems(env, plan)[i] == item;
      assert ChangesOf(AllItems(env, plan))[i] == item.change;
      assert item.change in multiset(ChangesOf(AllItems(env, plan)));
      assert item.change in multiset(PendingOf(plan));
      PendingMember(plan, item.change);
    }
  }

  // ---------------------------------------------------------------------------------------------
  // What is never written
  // ---------------------------------------------------------------------------------------------

  /** The write keeps the stored provenance; an object of another provisioner has no such write. */
  predicate Mirrors(stored: string, unclaimed: bool) {
    (stored == "" && unclaimed) || (stored == "api" && !unclaimed)
  }

  /** A point of the bundle that addresses no remote one, as its create sends it. */
  predicate CreatesPoint(env: Env, q: ContactPoint, body: ContactPoint) {
    && q in Present(env.local.contactPoints) && PointMatch(q, env.remote.contactPoints).NoMatch?
    && body == ContactPointBody(q, q.uid)
  }

  /** A point of the bundle as its update sends it, to the remote point it addresses and under that one's provenance. */
  predicate UpdatesPoint(env: Env, q: ContactPoint, uid: string, body: ContactPoint, unclaimed: bool) {
    && q in Present(env.local.contactPoints)
    && var m := PointMatch(q, env.remote.contactPoints);
       && m.Found?
       && var held := env.remote.contactPoints[m.at].value;
          held.uid == uid && body == ContactPointBody(q, uid) && Mirrors(held.provenance, unclaimed)
  }

  /** The body a group of the bundle is written with. */
  function PlannedBody(env: Env, g: Group): Group {
    WriteBody(g, ResolvedOrg(FindGroup(Present(env.remote.groups), RefOf(g)), env.orgID))
  }

  predicate WritesGroup(env: Env, g: Group, ref: GroupRef, body: Group) {
    g in Present(env.local.groups) && RefOf(g) == ref && body == PlannedBody(env, g)
  }

  /**
   A request the push may make. Each carries an object of the bundle: a create no redacted secret, an update
   mirrors what the object it addresses is stored with, a group's rules agree on it, and every rule written
   claims an organization.
   */
  ghost predicate MayWrite(env: Env, w: Write) {
    match w
    case PostPoint(p, unclaimed) =>
      && p.provenance == "" && unclaimed == env.uiEditable
      && JsonValues.CollectRedacted(JsonValues.Obj(PointFields(p)), "") == {}
      && exists q :: CreatesPoint(env, q, p)
    case PutPoint(uid, p, unclaimed) =>
      p.uid == uid && p.provenance == "" && exists q :: UpdatesPoint(env, q, uid, p, unclaimed)
    case PutTree(tree, unclaimed) =>
      && RouteTree.ClaimsNothing(tree)
      && env.local.policies.Some? && tree == RouteTree.RouteBody(env.local.policies.value)
      && (if env.remote.policies.Some? then Mirrors(env.remote.policies.value.provenance, unclaimed)
          else unclaimed == env.uiEditable)
    case PutGroup(ref, body, unclaimed) =>
      && RefOf(body) == ref && (forall r | r in Present(body.rules) :: r.orgID.Some? && r.provenance == "")
      && (exists g :: WritesGroup(env, g, ref, body))
      && var held := FindGroup(Present(env.remote.groups), ref);
         if held.None? then unclaimed == env.uiEditable
         else
           var rules := Present(held.value.rules);
           !Mixed(rules) && Mirrors(if rules == [] then "" else rules[0].provenance, unclaimed)
  }

  ghost predicate AllMayBeWritten(env: Env, requests: seq<Write>) {
    forall w | w in requests :: MayWrite(env, w)
  }

  ghost predicate ItemsMayBeWritten(env: Env, items: seq<Item>) {
    forall item | item in items && item.verdict.Send? :: MayWrite(env, item.verdict.value)
  }

  lemma StepMayBeWritten(env: Env, p: Progress, item: Item)
    requires AllMayBeWritten(env, p.requests) && ItemsMayBeWritten(env, [item])
    ensures AllMayBeWritten(env, Step(env, p, item).requests)
  {
    hide MayWrite, Outcome;
    assert item in [item];
  }

  lemma {:induction false} RunMayBeWritten(env: Env, p: Progress, items: seq<Item>)
    requires AllMayBeWritten(env, p.requests) && ItemsMayBeWritten(env, items)
    ensures AllMayBeWritten(env, Process(env, p, items).requests)
    ensures AllMayBeWritten(env, ProcessAll(env, p, items).requests)
  {
    hide Step, MayWrite, AllMayBeWritten;
    if items != [] {
      var front, last := items[..|items| - 1], items[|items| - 1];
      assert items == front + [last] && last in items;
      RunMayBeWritten(env, p, front);
      if !Process(env, p, front).stopped {
        StepMayBeWritten(env, Process(env, p, front), last);
      }
      StepMayBeWritten(env, ProcessAll(env, p, front), last);
    }
  }

  lemma PointMayBeWritten(env: Env, p: ContactPoint)
    requires p in Present(env.local.contactPoints)
    ensures PointVerdict(env, p).Send? ==> MayWrite(env, PointVerdict(env, p).value)
  {
    hide PointMatch, Present;
    var m := PointMatch(p, env.remote.contactPoints);
    if PointVerdict(env, p).Send? {
      if m.NoMatch? {
        assert PointFields(ContactPointBody(p, p.uid)) == PointFields(p);
        assert CreatesPoint(env, p, ContactPointBody(p, p.uid));
      } else {
        var held := env.remote.contactPoints[m.at].value;
        assert UpdatesPoint(env, p, held.uid, ContactPointBody(p, held.uid), PointVerdict(env, p).value.unclaimed);
      }
    }
  }

  lemma {:induction false} PointItemsMayBeWritten(env: Env, pending: map<string, Change>, points: seq<ContactPoint>)
    requires forall p | p in points :: p in Present(env.local.contactPoints)
    ensures ItemsMayBeWritten(env, PointItems(env, pending, points))
  {
    hide PointVerdict, MayWrite, Present;
    if points != [] {
      PointItemsMayBeWritten(env, pending, points[..|points| - 1]);
      PointMayBeWritten(env, points[|points| - 1]);
    }
  }

  lemma TreeMayBeWritten(env: Env, tree: RouteTree.Route)
    requires env.local.policies == Some(tree)
    ensures TreeVerdict(env, tree).Send? ==> MayWrite(env, TreeVerdict(env, tree).value)
  {
    RouteTree.BodyClaimsNothing(tree);
  }

  lemma GroupMayBeWritten(env: Env, t: Target)
    requires t.remote == FindGroup(Present(env.remote.groups), RefOf(t.local)) && t.local in Present(env.local.groups)
    ensures GroupVerdict(env, t).Send? ==> MayWrite(env, GroupVerdict(env, t).value)
  {
    hide Present, Mixed, ResolvedOrg, FindGroup;
    var org := ResolvedOrg(t.remote, env.orgID);
    WrittenRules(t.local, org);
    assert WritesGroup(env, t.local, RefOf(t.local), WriteBody(t.local, org));
    if EveryRuleHasOrg(t.local, org) {
      var pinned := PinAll(Present(t.local.rules), t.local.folderUID, t.local.title, org);
      forall r | r in pinned ensures r.orgID.Some? && r.provenance == "" {
        var i :| 0 <= i < |pinned| && pinned[i] == r;
        assert Present(t.local.rules)[i] in Present(t.local.rules);
      }
    }
  }

  /** The targets are groups of the bundle and carry the remote group of their own folder and title. */
  ghost predicate OwnRemotes(env: Env, targets: seq<Target>) {
    forall t | t in targets ::
      t.local in Present(env.local.groups) && t.remote == FindGroup(Present(env.remote.groups), RefOf(t.local))
  }

  lemma {:induction false} TargetsHaveOwnRemotes(env: Env, pending: map<string, Change>, groups: seq<Group>)
    requires forall g | g in groups :: g in Present(env.local.groups)
    ensures OwnRemotes(env, Targets(env, pending, groups))
    ensures OwnRemotes(env, Writable(env, Targets(env, pending, groups)))
  {
    hide FindGroup, Present, Blocked, GroupID;
    if groups != [] {
      TargetsHaveOwnRemotes(env, pending, groups[..|groups| - 1]);
    }
    WritableAmong(env, Targets(env, pending, groups));
  }

  lemma {:induction false} WritableAmong(env: Env, targets: seq<Target>)
    ensures forall t | t in Writable(env, targets) :: t in targets
  {
    hide Blocked;
    if targets != [] {
      WritableAmong(env, targets[..|targets| - 1]);
      assert targets == targets[..|targets| - 1] + [targets[|targets| - 1]];
    }
  }

  lemma {:induction false} BlockedMayBeWritten(env: Env, targets: seq<Target>)
    ensures ItemsMayBeWritten(env, BlockedItems(env, targets))
  {
    hide MayWrite, Blocked;
    if targets != [] {
      BlockedMayBeWritten(env, targets[..|targets| - 1]);
    }
  }

  lemma GroupItemsMayBeWritten(env: Env, targets: seq<Target>)
    requires OwnRemotes(env, targets)
    ensures ItemsMayBeWritten(env, GroupItems(env, targets))
  {
    hide MayWrite, GroupVerdict, FindGroup, Present;
    forall item | item in GroupItems(env, targets) && item.verdict.Send? ensures MayWrite(env, item.verdict.value) {
      var i :| 0 <= i < |targets| && item == GroupItems(env, targets)[i];
      assert targets[i] in targets;
      GroupMayBeWritten(env, targets[i]);
    }
  }

  /**
   Whatever the plan, the options and Grafana's answers, a push never writes an object of another
   provisioner, a group whose rules disagree about their owner, a create holding a redacted secret, or a rule
   without an organization, and no write changes who owns what it updates.
   */
  lemma EveryWriteIsAllowed(env: Env, plan: seq<Change>)
    ensures AllMayBeWritten(env, Applied(env, plan).requests)
  {
    hide Process, ProcessAll, PointItems, TreeItems, Targets, BlockedItems, Writable, GroupItems, FolderCheckFails,
      Present, ByID, UnchangedOf, PendingOf, ItemsMayBeWritten, OwnRemotes, MayWrite;
    var pending := PendingOf(plan);
    var start := Progress(UnchangedOf(plan), [], [], false);
    var points := PointItems(env, ByID(pending, ContactPointKind), Present(env.local.contactPoints));
    PointItemsMayBeWritten(env, ByID(pending, ContactPointKind), Present(env.local.contactPoints));
    RunMayBeWritten(env, start, points);
    TreeItemsMayBeWritten(env, pending);
    RunMayBeWritten(env, Process(env, start, points), TreeItems(env, pending));
    var tree := Process(env, Process(env, start, points), TreeItems(env, pending));
    var targets := Targets(env, ByID(pending, RuleGroupKind), Present(env.local.groups));
    TargetsHaveOwnRemotes(env, ByID(pending, RuleGroupKind), Present(env.local.groups));
    BlockedMayBeWritten(env, targets);
    RunMayBeWritten(env, tree, BlockedItems(env, targets));
    GroupItemsMayBeWritten(env, Writable(env, targets));
    RunMayBeWritten(env, Process(env, tree, BlockedItems(env, targets)), GroupItems(env, Writable(env, targets)));
  }

  lemma TreeItemsMayBeWritten(env: Env, changes: seq<Change>)
    ensures ItemsMayBeWritten(env, TreeItems(env, changes))
  {
    hide MayWrite, TreeVerdict, FirstTree;
    if env.local.policies.Some? {
      TreeMayBeWritten(env, env.local.policies.value);
    }
  }

  // ---------------------------------------------------------------------------------------------
  // A dry run predicts the apply
  // ---------------------------------------------------------------------------------------------

  /** Grafana accepts every write. */
  ghost predicate AcceptsAll(env: Env) {
    forall w :: env.answer(w) == Accept
  }

  /** The two runs so far agree on everything but the requests, and the dry one made none. */
  predicate Agree(dry: Progress, wet: Progress) {
    dry == wet.(requests := []) && dry.requests == []
  }

  lemma {:induction false} DryProcess(dry: Env, wet: Env, p: Progress, q: Progress, items: seq<Item>)
    requires dry == wet.(dryRun := true) && !wet.dryRun && AcceptsAll(wet) && Agree(p, q)
    ensures Agree(Process(dry, p, items), Process(wet, q, items))
    ensures Agree(ProcessAll(dry, p, items), ProcessAll(wet, q, items))
  {
    if items != [] {
      DryProcess(dry, wet, p, q, items[..|items| - 1]);
    }
  }

  /**
   The two runs are given the same bundles, answers and settings, whether or not each is a dry run and stops on
   failures.
   */
  ghost predicate SameInput(a: Env, b: Env) {
    a.(dryRun := b.dryRun, stopOnError := b.stopOnError) == b
  }

  lemma {:induction false} DryPointItems(dry: Env, wet: Env, pending: map<string, Change>, points: seq<ContactPoint>)
    requires SameInput(dry, wet)
    ensures PointItems(dry, pending, points) == PointItems(wet, pending, points)
  {
    hide PointMatch, ProvenanceHeader;
    if points != [] {
      DryPointItems(dry, wet, pending, points[..|points| - 1]);
    }
  }

  lemma {:induction false} DryTargets(dry: Env, wet: Env, pending: map<string, Change>, groups: seq<Group>)
    requires SameInput(dry, wet)
    ensures Targets(dry, pending, groups) == Targets(wet, pending, groups)
  {
    hide FindGroup;
    if groups != [] {
      DryTargets(dry, wet, pending, groups[..|groups| - 1]);
    }
  }

  lemma {:induction false} DryGroups(dry: Env, wet: Env, targets: seq<Target>)
    requires SameInput(dry, wet)
    ensures BlockedItems(dry, targets) == BlockedItems(wet, targets) && Writable(dry, targets) == Writable(wet, targets)
    ensures GroupItems(dry, targets) == GroupItems(wet, targets)
    ensures FolderCheckFails(dry, targets) == FolderCheckFails(wet, targets)
  {
    hide GroupHeader, EveryRuleHasOrg, ResolvedOrg, WriteBody;
    assert forall t: Target :: GroupVerdict(dry, t) == GroupVerdict(wet, t);
    if targets != [] {
      DryGroups(dry, wet, targets[..|targets| - 1]);
    }
  }

  /**
   A dry run writes nothing and reports what an apply whose every write is accepted reports: the same
   applied and failed entries, with the same failures, and the same verdict on whether it stopped.
   */
  lemma DryRunPredictsApply(wet: Env, plan: seq<Change>)
    requires !wet.dryRun && AcceptsAll(wet)
    ensures Agree(Applied(wet.(dryRun := true), plan), Applied(wet, plan))
  {
    hide Process, ProcessAll, PointItems, Targets, BlockedItems, Writable, GroupItems, FolderCheckFails, Present,
      ByID, UnchangedOf, PendingOf;
    var dry := wet.(dryRun := true);
    var pending := PendingOf(plan);
    var start := Progress(UnchangedOf(plan), [], [], false);
    var byID := ByID(pending, ContactPointKind);
    DryPointItems(dry, wet, byID, Present(wet.local.contactPoints));
    var points := PointItems(wet, byID, Present(wet.local.contactPoints));
    DryProcess(dry, wet, start, start, points);
    var p, q := Process(dry, start, points), Process(wet, start, points);
    assert TreeItems(dry, pending) == TreeItems(wet, pending);
    DryProcess(dry, wet, p, q, TreeItems(wet, pending));
    p, q := Process(dry, p, TreeItems(wet, pending)), Process(wet, q, TreeItems(wet, pending));
    DryTargets(dry, wet, ByID(pending, RuleGroupKind), Present(wet.local.groups));
    var targets := Targets(wet, ByID(pending, RuleGroupKind), Present(wet.local.groups));
    DryGroups(dry, wet, targets);
    DryGroups(dry, wet, Writable(wet, targets));
    DryProcess(dry, wet, p, q, BlockedItems(wet, targets));
    p, q := Process(dry, p, BlockedItems(wet, targets)), Process(wet, q, BlockedItems(wet, targets));
    DryProcess(dry, wet, p, q, GroupItems(wet, Writable(wet, targets)));
  }

  /** Without a failure the strict run is the lax one; it stops exactly when the lax one has a failure. */
  lemma {:induction false} StrictProcess(strict: Env, lax: Env, p: Progress, items: seq<Item>)
    requires strict.stopOnError && !strict.dryRun && lax == strict.(stopOnError := false) && AcceptsAll(strict)
    requires !p.stopped && p.failed == [] && NoneDead(items)
    ensures !Process(lax, p, items).stopped && Process(lax, p, items) == ProcessAll(lax, p, items)
    ensures Process(strict, p, items).stopped <==> Process(lax, p, items).failed != []
    ensures !Process(strict, p, items).stopped ==> Process(strict, p, items) == Process(lax, p, items)
  {
    if items != [] {
      var front, last := items[..|items| - 1], items[|items| - 1];
      assert items == front + [last] && last in items;
      StrictProcess(strict, lax, p, front);
    }
  }

  /** No refusal is a dead session: only an answer says that. */
  predicate NoneDead(items: seq<Item>) {
    forall item | item in items :: item.verdict != Refuse(Unauthorized)
  }

  lemma {:induction false} PointItemsAlive(env: Env, pending: map<string, Change>, points: seq<ContactPoint>)
    ensures NoneDead(PointItems(env, pending, points))
  {
    hide PointMatch;
    if points != [] {
      PointItemsAlive(env, pending, points[..|points| - 1]);
    }
  }

  lemma {:induction false} GroupItemsAlive(env: Env, targets: seq<Target>)
    ensures NoneDead(BlockedItems(env, targets)) && NoneDead(GroupItems(env, targets))
  {
    hide Blocked, EveryRuleHasOrg, ResolvedOrg, Mixed, Present;
    if targets != [] {
      GroupItemsAlive(env, targets[..|targets| - 1]);
    }
  }

  /** A failure once filed stays. */
  lemma {:induction false} FailuresStay(env: Env, p: Progress, items: seq<Item>)
    ensures |p.failed| <= |Process(env, p, items).failed| && |p.failed| <= |ProcessAll(env, p, items).failed|
  {
    hide Outcome, Sent;
    if items != [] {
      FailuresStay(env, p, items[..|items| - 1]);
    }
  }

  /** The items of a run that may stop on failures and of one that may not are the same. */
  lemma StrictItems(strict: Env, lax: Env, changes: seq<Change>)
    requires SameInput(lax, strict)
    ensures var pending := PendingOf(changes);
            var byID := ByID(pending, RuleGroupKind);
            var targets := Targets(strict, byID, Present(strict.local.groups));
            && PointItems(lax, ByID(pending, ContactPointKind), Present(lax.local.contactPoints)) ==
               PointItems(strict, ByID(pending, ContactPointKind), Present(strict.local.contactPoints))
            && TreeItems(lax, pending) == TreeItems(strict, pending)
            && Targets(lax, byID, Present(lax.local.groups)) == targets
            && BlockedItems(lax, targets) == BlockedItems(strict, targets)
            && GroupItems(lax, Writable(lax, targets)) == GroupItems(strict, Writable(strict, targets))
            && FolderCheckFails(lax, targets) == FolderCheckFails(strict, targets)
  {
    hide PointItems, Targets, BlockedItems, Writable, GroupItems, FolderCheckFails, Present, ByID, PendingOf;
    var pending := PendingOf(changes);
    DryPointItems(lax, strict, ByID(pending, ContactPointKind), Present(strict.local.contactPoints));
    DryTargets(lax, strict, ByID(pending, RuleGroupKind), Present(strict.local.groups));
    var targets := Targets(strict, ByID(pending, RuleGroupKind), Present(strict.local.groups));
    DryGroups(lax, strict, targets);
    DryGroups(lax, strict, Writable(strict, targets));
  }

  lemma TreeAlive(env: Env, changes: seq<Change>)
    ensures NoneDead(TreeItems(env, changes))
  {
    hide FirstTree;
  }

  /** When every write is accepted, stopping on failures cuts a run short exactly when the lax run has a failure. */
  lemma StrictRun(strict: Env, plan: seq<Change>)
    requires strict.stopOnError && !strict.dryRun && AcceptsAll(strict)
    ensures var lax := Applied(strict.(stopOnError := false), plan);
            && (Applied(strict, plan).stopped <==> lax.stopped || lax.failed != [])
            && (!Applied(strict, plan).stopped ==> Applied(strict, plan) == lax)
  {
    hide Process, ProcessAll, PointItems, TreeItems, Targets, BlockedItems, Writable, GroupItems, FolderCheckFails,
      Present, ByID, UnchangedOf, PendingOf, NoneDead;
    var lax, pending := strict.(stopOnError := false), PendingOf(plan);
    var start := Progress(UnchangedOf(plan), [], [], false);
    var points := PointItems(strict, ByID(pending, ContactPointKind), Present(strict.local.contactPoints));
    var targets := Targets(strict, ByID(pending, RuleGroupKind), Present(strict.local.groups));
    StrictItems(strict, lax, plan);
    PointItemsAlive(strict, ByID(pending, ContactPointKind), Present(strict.local.contactPoints));
    TreeAlive(strict, pending);
    GroupItemsAlive(strict, targets);
    GroupItemsAlive(strict, Writable(strict, targets));
    var a := Process(lax, start, points);
    var b := Process(lax, a, TreeItems(strict, pending));
    var c := Process(lax, b, BlockedItems(strict, targets));
    LaxGoesOn(lax, start, points);
    LaxGoesOn(lax, a, TreeItems(strict, pending));
    LaxGoesOn(lax, b, BlockedItems(strict, targets));
    FailuresStay(lax, a, TreeItems(strict, pending));
    FailuresStay(lax, b, BlockedItems(strict, targets));
    FailuresStay(lax, c, GroupItems(strict, Writable(strict, targets)));
    StrictProcess(strict, lax, start, points);
    if a.failed == [] {
      StrictProcess(strict, lax, a, TreeItems(strict, pending));
      if b.failed == [] && !FolderCheckFails(strict, targets) {
        StrictProcess(strict, lax, b, BlockedItems(strict, targets));
        if c.failed == [] {
          StrictProcess(strict, lax, c, GroupItems(strict, Writable(strict, targets)));
        }
      }
    }
  }

  lemma {:induction false} LaxGoesOn(lax: Env, p: Progress, items: seq<Item>)
    requires !lax.stopOnError && !lax.dryRun && AcceptsAll(lax) && !p.stopped && NoneDead(items)
    ensures !Process(lax, p, items).stopped
  {
    if items != [] {
      var front, last := items[..|items| - 1], items[|items| - 1];
      assert items == front + [last] && last in items;
      LaxGoesOn(lax, p, front);
    }
  }

  /**
   A dry run, asked to stop on failures or not, reports what an apply that does not stop and whose every
   write is accepted reports. An apply that may stop does so exactly when the dry run stopped or shows a
   failure, and otherwise reports the same.
   */
  lemma DryPushPredictsApply(wet: Env, plan: seq<Change>)
    requires !wet.dryRun && AcceptsAll(wet)
    ensures var dry := Applied(PushApply.Effective(wet.(dryRun := true)), plan);
            && Agree(dry, Applied(wet.(stopOnError := false), plan))
            && (Applied(wet, plan).stopped <==> dry.stopped || (wet.stopOnError && dry.failed != []))
            && (!Applied(wet, plan).stopped ==> Agree(dry, Applied(wet, plan)))
  {
    hide Applied;
    DryRunPredictsApply(wet.(stopOnError := false), plan);
    if wet.stopOnError {
      StrictRun(wet, plan);
    } else {
      assert wet == wet.(stopOnError := false);
    }
  }

  lemma {:induction false} RefusalsStand(dry: Env, wet: Env, p: Progress, q: Progress, items: seq<Item>)
    requires dry == wet.(dryRun := true) && !wet.dryRun
    requires forall f | f in p.failed :: f in q.failed
    ensures forall f | f in ProcessAll(dry, p, items).failed :: f in ProcessAll(wet, q, items).failed
  {
    if items != [] {
      RefusalsStand(dry, wet, p, q, items[..|items| - 1]);
    }
  }

  lemma DryItems(wet: Env, plan: seq<Change>)
    ensures AllItems(wet.(dryRun := true), plan) == AllItems(wet, plan)
  {
    hide PointItems, Targets, BlockedItems, Writable, GroupItems, Present, ByID, PendingOf;
    var dry, pending := wet.(dryRun := true), PendingOf(plan);
    DryPointItems(dry, wet, ByID(pending, ContactPointKind), Present(wet.local.contactPoints));
    assert TreeItems(dry, pending) == TreeItems(wet, pending);
    DryTargets(dry, wet, ByID(pending, RuleGroupKind), Present(wet.local.groups));
    var targets := Targets(wet, ByID(pending, RuleGroupKind), Present(wet.local.groups));
    DryGroups(dry, wet, targets);
    DryGroups(dry, wet, Writable(wet, targets));
  }

  /** What a dry run refuses an apply refuses too, with the same failure, whatever Grafana answers the other writes. */
  lemma DryRunRefusalsStand(wet: Env, plan: seq<Change>)
    requires !wet.dryRun && !Applied(wet, plan).stopped && !Applied(wet.(dryRun := true), plan).stopped
    ensures forall f | f in Applied(wet.(dryRun := true), plan).failed :: f in Applied(wet, plan).failed
  {
    hide Applied, AllItems, ProcessAll;
    var dry := wet.(dryRun := true);
    UnstoppedRunIsItsItems(dry, plan);
    UnstoppedRunIsItsItems(wet, plan);
    DryItems(wet, plan);
    var start := Progress(UnchangedOf(plan), [], [], false);
    RefusalsStand(dry, wet, start, start, AllItems(wet, plan));
  }
}
