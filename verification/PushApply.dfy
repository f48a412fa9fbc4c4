/** The push itself: an object accumulating its result while it works through the plan. */
module PushApply {
  import opened Options
  import opened AlertModels
  import opened GroupPlan
  import opened BundlePlan
  import opened Sorting
  import opened PushRuns
  import opened ScopedPush
  import opened Sequences
  import RouteTree
  import JsonValues

  class PushRun {
    const env: Env
    var applied: seq<Change>
    var failed: seq<FailedChange>
    var requests: seq<Write>

    constructor (env: Env)
      ensures this.env == env && applied == [] && failed == [] && requests == []
    {
      this.env := env;
      applied, failed, requests := [], [], [];
    }

    /** What has been done so far, as a value. */
    ghost function Now(stopped: bool): Progress
      reads this
    {
      Progress(applied, failed, requests, stopped)
    }

    /** One request, and Grafana's answer to it. */
    method Request(w: Write) returns (failure: Option<Failure>)
      modifies this`requests
      ensures requests == old(requests) + [w]
      ensures failure == AnswerFailure(env.answer(w))
    {
      requests := requests + [w];
      failure := AnswerFailure(env.answer(w));
    }

    /** Files one outcome and says whether the push must stop. */
    method Record(change: Change, failure: Option<Failure>) returns (stop: bool)
      modifies this`applied, this`failed
      ensures Now(stop) == Recorded(env, old(Now(false)), change, failure)
    {
      if failure.None? {
        applied := applied + [change];
        return false;
      }
      failed := failed + [FailedChange(change, failure.value)];
      stop := env.stopOnError || failure.value == Unauthorized;
    }

    method RecordUnchanged(changes: seq<Change>) returns (pending: seq<Change>)
      modifies this`applied
      ensures pending == PendingOf(changes) && applied == old(applied) + UnchangedOf(changes)
    {
      pending := [];
      for i := 0 to |changes|
        invariant pending == PendingOf(changes[..i]) && applied == old(applied) + UnchangedOf(changes[..i])
      {
        assert changes[..i + 1][..i] == changes[..i];
        if changes[i].action == Unchanged {
          applied := applied + [changes[i]];
        } else {
          pending := pending + [changes[i]];
        }
      }
      assert changes[..|changes|] == changes;
    }

    method CreateContactPoint(p: ContactPoint) returns (failure: Option<Failure>)
      modifies this`requests
      ensures failure == Outcome(env, CreateVerdict(env, p))
              && requests == old(requests) + Sent(env, CreateVerdict(env, p))
    {
      if JsonValues.CollectRedacted(JsonValues.Obj(PointFields(p)), "") != {} {
        return Some(RedactedSecrets);
      }
      if env.dryRun {
        return None;
      }
      failure := Request(PostPoint(ContactPointBody(p, p.uid), env.uiEditable));
    }

    method UpdateContactPoint(p: ContactPoint, held: ContactPoint) returns (failure: Option<Failure>)
      modifies this`requests
      ensures failure == Outcome(env, UpdateVerdict(p, held))
              && requests == old(requests) + Sent(env, UpdateVerdict(p, held))
    {
      var header := ProvenanceHeader(held.provenance);
      if header.None? {
        return Some(ForeignProvenance);
      }
      if env.dryRun {
        return None;
      }
      failure := Request(PutPoint(held.uid, ContactPointBody(p, held.uid), header.value));
    }

    method PushContactPoint(p: ContactPoint) returns (failure: Option<Failure>)
      modifies this`requests
      ensures failure == Outcome(env, PointVerdict(env, p))
              && requests == old(requests) + Sent(env, PointVerdict(env, p))
    {
      hide CreateVerdict, UpdateVerdict, Outcome, Sent;
      var m := MatchContactPoint(p, env.remote.contactPoints);
      match m {
        case Ambiguous => AmbiguousOutcome(env); return Some(AmbiguousMatch);
        case NoMatch => failure := CreateContactPoint(p);
        case Found(at) => failure := UpdateContactPoint(p, env.remote.contactPoints[at].value);
      }
    }

    method PushPolicyTree(tree: RouteTree.Route) returns (failure: Option<Failure>)
      modifies this`requests
      ensures failure == Outcome(env, TreeVerdict(env, tree))
              && requests == old(requests) + Sent(env, TreeVerdict(env, tree))
    {
      var header := Some(env.uiEditable);
      if env.remote.policies.Some? {
        header := ProvenanceHeader(env.remote.policies.value.provenance);
        if header.None? {
          return Some(ForeignProvenance);
        }
      }
      if env.dryRun {
        return None;
      }
      failure := Request(PutTree(RouteTree.RouteBody(tree), header.value));
    }

    method PushRuleGroup(t: Target) returns (failure: Option<Failure>)
      modifies this`requests
      ensures failure == Outcome(env, GroupVerdict(env, t))
              && requests == old(requests) + Sent(env, GroupVerdict(env, t))
    {
      hide WriteBody, EveryRuleHasOrg, ResolvedOrg, GroupHeader;
      var header: Result<bool> := Send(env.uiEditable);
      if t.remote.Some? {
        header := GroupProvenanceHeader(t.remote.value.rules);
      }
      if header.Refuse? {
        return Some(header.failure);
      }
      var org := ResolveOrgID(t.remote, env.orgID);
      var claimed := RequireOrgID(t.local, org);
      if !claimed {
        return Some(NoOrganization);
      }
      if env.dryRun {
        return None;
      }
      var body := RuleGroupBody(t.local, org);
      failure := Request(PutGroup(RefOf(t.local), body, header.value));
    }

    /** Every planned contact point, in the order the bundle lists them. */
    method ApplyContactPoints(changes: seq<Change>) returns (stop: bool)
      modifies this
      ensures Now(stop) ==
              Process(env, old(Now(false)), PointItems(env, ByID(changes, ContactPointKind),
                                                       Present(env.local.contactPoints)))
    {
      hide PointVerdict, Outcome, Sent, Present, PointItems, Process, ByID;
      var pending := ByID(changes, ContactPointKind);
      var points := env.local.contactPoints;
      ghost var start := Now(false);
      NothingToDo(env, pending, start);
      for i := 0 to |points|
        invariant Now(false) == Process(env, start, PointItems(env, pending, Present(points[..i])))
      {
        PresentPrefix(points, i);
        if points[i].Some? && PointID(points[i].value) in pending {
          var point := points[i].value;
          var change := pending[PointID(point)];
          PointItemsSnoc(env, pending, Present(points[..i]), point);
          ProcessSnoc(env, start, PointItems(env, pending, Present(points[..i])),
                      Item(change, PointVerdict(env, point)));
          var failure := PushContactPoint(point);
          stop := Record(change, failure);
          if stop {
            StopsHere(env, pending, start, points, i + 1);
            return;
          }
        } else if points[i].Some? {
          PointItemsSnoc(env, pending, Present(points[..i]), points[i].value);
        }
      }
      assert points[..|points|] == points;
      stop := false;
    }

    method ApplyPolicyTree(changes: seq<Change>) returns (stop: bool)
      modifies this
      ensures Now(stop) == Process(env, old(Now(false)), TreeItems(env, changes))
    {
      hide TreeVerdict, Outcome, Sent, Process, FirstTree;
      var change := FirstTree(changes);
      ghost var start := Now(false);
      if change.None? || env.local.policies.None? {
        assert Process(env, start, []) == start by { ProcessNothing(env, start); }
        return false;
      }
      ProcessOne(env, start, Item(change.value, TreeVerdict(env, env.local.policies.value)));
      var failure := PushPolicyTree(env.local.policies.value);
      stop := Record(change.value, failure);
    }

    /** Pairs each planned group with the local group it was planned from and its remote counterpart. */
    method RuleGroupTargets(changes: seq<Change>) returns (targets: seq<Target>)
      ensures targets == Targets(env, ByID(changes, RuleGroupKind), Present(env.local.groups))
    {
      hide FindGroup, ByID, GroupID;
      var pending := ByID(changes, RuleGroupKind);
      var groups := env.local.groups;
      targets := [];
      for i := 0 to |groups|
        invariant targets == Targets(env, pending, Present(groups[..i]))
      {
        PresentPrefix(groups, i);
        if groups[i].Some? {
          var group := groups[i].value;
          TargetsSnoc(env, pending, Present(groups[..i]), group);
          if GroupID(group) in pending {
            targets := targets + [Target(pending[GroupID(group)], group,
                                         FindGroup(Present(env.remote.groups), RefOf(group)))];
          }
        }
      }
      assert groups[..|groups|] == groups;
    }

    /** Asks for each folder once; fails when one could not be asked for, else says which cannot be written into. */
    method CheckFolders(targets: seq<Target>) returns (blocked: Option<map<string, Failure>>)
      ensures blocked.None? <==> FolderCheckFails(env, targets)
      ensures blocked.Some? ==> BlocksExactly(env, targets, blocked.value)
    {
      var found: map<string, Failure> := map[];
      var checked: set<string> := {};
      for i := 0 to |targets|
        invariant forall k | 0 <= k < i :: targets[k].local.folderUID in checked
        invariant forall uid | uid in found :: uid in checked
        invariant forall uid | uid in checked :: env.folder(uid) != Unavailable
        invariant forall uid | uid in checked :: uid in found <==> env.folder(uid) in {Missing, Forbidden}
        invariant forall uid | uid in found :: found[uid] == FolderFailure(env.folder(uid))
      {
        var uid := targets[i].local.folderUID;
        if uid !in checked {
          checked := checked + {uid};
          match env.folder(uid) {
            case Forbidden => found := found[uid := FolderForbidden];
            case Unavailable => return None;
            case Missing => found := found[uid := FolderMissing];
            case Exists =>
          }
        }
      }
      blocked := Some(found);
    }

    /** The targets of the folders that can be written into; the others are recorded as failed. */
    method RecordBlocked(targets: seq<Target>, blocked: map<string, Failure>)
      returns (writable: seq<Target>, stop: bool)
      requires BlocksExactly(env, targets, blocked)
      modifies this`applied, this`failed
      ensures Now(stop) == Process(env, old(Now(false)), BlockedItems(env, targets))
      ensures !stop ==> writable == Writable(env, targets)
    {
      ghost var start := Now(false);
      writable := [];
      NothingBlocked(env, start);
      for i := 0 to |targets|
        invariant Now(false) == Process(env, start, BlockedItems(env, targets[..i]))
        invariant writable == Writable(env, targets[..i])
      {
        hide *;
        var t := targets[i];
        BlockedStep(env, start, targets, blocked, i);
        if t.local.folderUID !in blocked {
          writable := writable + [t];
        } else {
          stop := Record(t.change, Some(blocked[t.local.folderUID]));
          if stop {
            return;
          }
        }
      }
      assert targets[..|targets|] == targets;
      stop := false;
    }

    /** One write at a time, up to the first failure. */
    method ApplyRuleGroupsInOrder(targets: seq<Target>) returns (stop: bool)
      modifies this
      ensures Now(stop) == Process(env, old(Now(false)), GroupItems(env, targets))
    {
      hide Process, GroupVerdict, Outcome, Sent;
      ghost var start := Now(false);
      ghost var items := GroupItems(env, targets);
      ProcessNothing(env, start);
      for i := 0 to |targets|
        invariant Now(false) == Process(env, start, items[..i])
      {
        assert items[..i + 1] == items[..i] + [items[i]];
        ProcessSnoc(env, start, items[..i], items[i]);
        var failure := PushRuleGroup(targets[i]);
        stop := Record(targets[i].change, failure);
        if stop {
          StoppedStays(env, start, items[..i + 1], items[i + 1..]);
          assert items[..i + 1] + items[i + 1..] == items;
          return;
        }
      }
      assert items[..|targets|] == items;
      stop := false;
    }

    /** Every write is made, in an order nobody controls. */
    method WriteAll(targets: seq<Target>) returns (outcomes: seq<Option<Failure>>)
      modifies this`requests
      ensures |outcomes| == |targets|
      ensures forall i | 0 <= i < |targets| :: outcomes[i] == Outcome(env, GroupVerdict(env, targets[i]))
      ensures old(requests) <= requests
      ensures multiset(requests) == multiset(old(requests)) + SentOver(env, GroupItems(env, targets), |targets|, {})
    {
      hide GroupVerdict, Outcome, Sent, SentOver;
      ghost var items := GroupItems(env, targets);
      outcomes := seq(|targets|, _ => None);
      var remaining := Indices(|targets|);
      NothingSentYet(env, items, remaining);
      while remaining != {}
        invariant forall i | i in remaining :: 0 <= i < |targets|
        invariant |outcomes| == |targets|
        invariant forall i | 0 <= i < |targets| && i !in remaining ::
                  outcomes[i] == Outcome(env, GroupVerdict(env, targets[i]))
        invariant old(requests) <= requests
        invariant multiset(requests) == multiset(old(requests)) + SentOver(env, items, |items|, remaining)
        decreases |remaining|
      {
        var i: int :| i in remaining;
        var failure := PushRuleGroup(targets[i]);
        SentOne(env, items, |items|, remaining, i);
        outcomes := outcomes[i := failure];
        remaining := remaining - {i};
      }
    }

    /** The concurrent writes; their outcomes are recorded in the order of the targets. */
    method ApplyRuleGroupsConcurrently(targets: seq<Target>) returns (fatal: bool)
      requires !env.stopOnError
      modifies this
      ensures Now(fatal).(requests := []) == ProcessAll(env, old(Now(false)), GroupItems(env, targets)).(requests := [])
      ensures old(requests) <= requests
      ensures multiset(requests) == multiset(ProcessAll(env, old(Now(false)), GroupItems(env, targets)).requests)
    {
      hide GroupVerdict, Outcome, Sent, ProcessAll, SentOver;
      ghost var start := Now(false);
      ghost var items := GroupItems(env, targets);
      var outcomes := WriteAll(targets);
      ghost var made := requests;
      AllSent(env, start, items, |items|);
      fatal := false;
      ProcessAllNothing(env, start);
      for i := 0 to |targets|
        invariant Now(fatal).(requests := []) == ProcessAll(env, start, items[..i]).(requests := [])
        invariant requests == made
      {
        assert items[..i + 1] == items[..i] + [items[i]];
        ProcessAllSnoc(env, start, items[..i], items[i]);
        var stop := Record(targets[i].change, outcomes[i]);
        fatal := fatal || stop;
      }
      assert items[..|targets|] == items;
    }

    method ApplyRuleGroups(changes: seq<Change>) returns (stop: bool)
      modifies this
      ensures var done := AfterGroups(env, old(Now(false)),
                                      Targets(env, ByID(changes, RuleGroupKind), Present(env.local.groups)));
              && Now(stop).(requests := []) == done.(requests := [])
              && multiset(requests) == multiset(done.requests)
              && (env.stopOnError ==> requests == done.requests)
      ensures old(requests) <= requests
    {
      hide Process, ProcessAll, BlockedItems, Writable, GroupItems, FolderCheckFails, Present, ByID;
      var targets := RuleGroupTargets(changes);
      var blocked := CheckFolders(targets);
      if blocked.None? {
        return true;
      }
      var writable;
      writable, stop := RecordBlocked(targets, blocked.value);
      if stop {
        return;
      }
      if env.stopOnError {
        RequestsGrow(env, Now(false), GroupItems(env, writable));
        stop := ApplyRuleGroupsInOrder(writable);
      } else {
        stop := ApplyRuleGroupsConcurrently(writable);
      }
    }

    /** A whole plan: contact points, then the tree, then the rule groups. */
    method Apply(changes: seq<Change>) returns (stop: bool)
      requires applied == [] && failed == [] && requests == []
      modifies this
      ensures Now(stop).(requests := []) == Applied(env, changes).(requests := [])
      ensures Arrived(env, requests, Applied(env, changes).requests)
    {
      hide Process, PointItems, TreeItems, ByID, AfterGroups, Targets, Present;
      var pending := RecordUnchanged(changes);
      assert Now(false) == Progress(UnchangedOf(changes), [], [], false);
      PointRequests(env, ByID(pending, ContactPointKind), Now(false));
      stop := ApplyContactPoints(pending);
      if stop {
        return;
      }
      TreeRequests(env, pending, Now(false));
      stop := ApplyPolicyTree(pending);
      if stop {
        return;
      }
      ghost var before := Now(false);
      stop := ApplyRuleGroups(pending);
      GroupRequests(env, before, Targets(env, ByID(pending, RuleGroupKind), Present(env.local.groups)), requests);
    }
  }

  /**
   The requests of a run as they arrive: each once, phase after phase, and those of the groups in an order nobody
   controls when they are written concurrently.
   */
  predicate Arrived(env: Env, arrived: seq<Write>, requests: seq<Write>) {
    && multiset(arrived) == multiset(requests) && InPhases(arrived)
    && (if env.stopOnError then arrived == requests else SameBeforeGroups(arrived, requests))
  }

  /** The two differ in the order of the group writes at most. */
  predicate SameBeforeGroups(a: seq<Write>, b: seq<Write>) {
    |a| == |b| && forall i | 0 <= i < |a| :: a[i] == b[i] || (Phase(a[i]) == 2 && Phase(b[i]) == 2)
  }

  /** Contact points, the tree and the groups, in that order. */
  function Phase(w: Write): nat {
    match w
    case PostPoint(_, _) => 0
    case PutPoint(_, _, _) => 0
    case PutTree(_, _) => 1
    case PutGroup(_, _, _) => 2
  }

  predicate InPhases(requests: seq<Write>) {
    forall i, j | 0 <= i < j < |requests| :: Phase(requests[i]) <= Phase(requests[j])
  }

  predicate UpToPhase(requests: seq<Write>, phase: nat) {
    InPhases(requests) && forall w | w in requests :: Phase(w) <= phase
  }

  /** Whatever the items send is of that phase. */
  predicate SendsPhase(items: seq<Item>, phase: nat) {
    forall item | item in items && item.verdict.Send? :: Phase(item.verdict.value) == phase
  }

  lemma {:induction false} ProcessInPhase(env: Env, p: Progress, items: seq<Item>, phase: nat)
    requires SendsPhase(items, phase) && UpToPhase(p.requests, phase)
    ensures UpToPhase(Process(env, p, items).requests, phase)
  {
    hide Outcome, Phase;
    if items != [] {
      var front, last := items[..|items| - 1], items[|items| - 1];
      assert items == front + [last];
      ProcessInPhase(env, p, front, phase);
      var before := Process(env, p, front).requests;
      assert last in items;
      forall w | w in before + Sent(env, last.verdict) ensures Phase(w) <= phase {
      }
    }
  }

  lemma {:induction false} PointItemsSendPoints(env: Env, pending: map<string, Change>, points: seq<ContactPoint>)
    ensures SendsPhase(PointItems(env, pending, points), 0)
  {
    hide PointMatch;
    if points != [] {
      PointItemsSendPoints(env, pending, points[..|points| - 1]);
    }
  }

  lemma PointRequests(env: Env, pending: map<string, Change>, p: Progress)
    requires p.requests == []
    ensures UpToPhase(Process(env, p, PointItems(env, pending, Present(env.local.contactPoints))).requests, 0)
  {
    hide PointItems, Process, Present;
    PointItemsSendPoints(env, pending, Present(env.local.contactPoints));
    ProcessInPhase(env, p, PointItems(env, pending, Present(env.local.contactPoints)), 0);
  }

  lemma TreeRequests(env: Env, changes: seq<Change>, p: Progress)
    requires UpToPhase(p.requests, 0)
    ensures UpToPhase(Process(env, p, TreeItems(env, changes)).requests, 1)
  {
    hide Process;
    assert SendsPhase(TreeItems(env, changes), 1);
    ProcessInPhase(env, p, TreeItems(env, changes), 1);
  }

  lemma {:induction false} ProcessAllInPhase(env: Env, p: Progress, items: seq<Item>)
    requires SendsPhase(items, 2)
    ensures p.requests <= ProcessAll(env, p, items).requests
    ensures forall w | w in ProcessAll(env, p, items).requests[|p.requests|..] :: Phase(w) == 2
  {
    hide Outcome, Phase;
    if items != [] {
      assert items == items[..|items| - 1] + [items[|items| - 1]];
      ProcessAllInPhase(env, p, items[..|items| - 1]);
      var before := ProcessAll(env, p, items[..|items| - 1]).requests;
      var sent := Sent(env, items[|items| - 1].verdict);
      assert (before + sent)[|p.requests|..] == before[|p.requests|..] + sent;
    }
  }

  lemma {:induction false} ProcessKeepsPhase(env: Env, p: Progress, items: seq<Item>)
    requires SendsPhase(items, 2)
    ensures p.requests <= Process(env, p, items).requests
    ensures forall w | w in Process(env, p, items).requests[|p.requests|..] :: Phase(w) == 2
  {
    hide Outcome, Phase;
    if items != [] {
      assert items == items[..|items| - 1] + [items[|items| - 1]];
      ProcessKeepsPhase(env, p, items[..|items| - 1]);
      var before := Process(env, p, items[..|items| - 1]).requests;
      var sent := Sent(env, items[|items| - 1].verdict);
      assert (before + sent)[|p.requests|..] == before[|p.requests|..] + sent;
    }
  }

  lemma {:induction false} BlockedSendNothing(env: Env, p: Progress, targets: seq<Target>)
    ensures Process(env, p, BlockedItems(env, targets)).requests == p.requests
    ensures forall item | item in BlockedItems(env, targets) :: item.verdict.Refuse?
  {
    if targets != [] {
      var front := targets[..|targets| - 1];
      BlockedSendNothing(env, p, front);
      var last := targets[|targets| - 1];
      if Blocked(env, last) {
        var item := Item(last.change, Refuse(FolderFailure(env.folder(last.local.folderUID))));
        ProcessSnoc(env, p, BlockedItems(env, front), item);
        NothingSent(env, Process(env, p, BlockedItems(env, front)), item);
      } else {
        assert BlockedItems(env, targets) == BlockedItems(env, front);
      }
    }
  }

  lemma GroupItemsSendGroups(env: Env, targets: seq<Target>)
    ensures SendsPhase(GroupItems(env, targets), 2)
  {
    hide GroupHeader, EveryRuleHasOrg, ResolvedOrg, WriteBody;
    forall item | item in GroupItems(env, targets) && item.verdict.Send? ensures Phase(item.verdict.value) == 2 {
      var i :| 0 <= i < |targets| && item == GroupItems(env, targets)[i];
    }
  }

  lemma GroupsOnly(env: Env, p: Progress, targets: seq<Target>)
    ensures var done := AfterGroups(env, p, targets).requests;
            p.requests <= done && forall w | w in done[|p.requests|..] :: Phase(w) == 2
  {
    hide Process, ProcessAll, GroupItems, BlockedItems, Phase, FolderCheckFails, SendsPhase;
    BlockedSendNothing(env, p, targets);
    GroupItemsSendGroups(env, Writable(env, targets));
    var blocked := Process(env, p, BlockedItems(env, targets));
    ProcessKeepsPhase(env, blocked, GroupItems(env, Writable(env, targets)));
    ProcessAllInPhase(env, blocked, GroupItems(env, Writable(env, targets)));
  }

  lemma PermutedTail(head: seq<Write>, tail: seq<Write>, other: seq<Write>)
    requires UpToPhase(head, 1) && multiset(head + tail) == multiset(head + other)
    requires forall w | w in other :: Phase(w) == 2
    ensures InPhases(head + tail) && forall w | w in tail :: Phase(w) == 2
  {
    hide Phase;
    assert multiset(tail) == multiset(head + tail) - multiset(head) == multiset(other);
    forall w | w in tail ensures Phase(w) == 2 {
      assert w in multiset(tail);
    }
    forall i, j | 0 <= i < j < |head + tail| ensures Phase((head + tail)[i]) <= Phase((head + tail)[j]) {
      assert i < |head| ==> (head + tail)[i] == head[i] && head[i] in head;
      assert j < |head| ==> (head + tail)[j] == head[j];
      assert j >= |head| ==> (head + tail)[j] in tail;
      assert i >= |head| ==> (head + tail)[i] in tail;
    }
  }

  /** The phase of the rule groups only adds group writes, in whatever order. */
  lemma GroupRequests(env: Env, p: Progress, targets: seq<Target>, requests: seq<Write>)
    requires UpToPhase(p.requests, 1) && p.requests <= requests
    requires multiset(requests) == multiset(AfterGroups(env, p, targets).requests)
    requires env.stopOnError ==> requests == AfterGroups(env, p, targets).requests
    ensures Arrived(env, requests, AfterGroups(env, p, targets).requests)
  {
    hide AfterGroups, InPhases, Phase;
    GroupsOnly(env, p, targets);
    var done := AfterGroups(env, p, targets).requests;
    var n := |p.requests|;
    assert requests == p.requests + requests[n..] && done == p.requests + done[n..];
    PermutedTail(p.requests, requests[n..], done[n..]);
    assert |requests| == |multiset(requests)| == |done|;
    forall i | 0 <= i < |requests| ensures requests[i] == done[i] || (Phase(requests[i]) == 2 && Phase(done[i]) == 2) {
      if i >= n {
        assert requests[i] in requests[n..] && done[i] in done[n..];
      }
    }
  }

  predicate FailedLeq(a: FailedChange, b: FailedChange) {
    ChangeLeq(a.change, b.change)
  }

  /** A dry run has no say over stopping: it shows the whole plan. */
  function Effective(env: Env): Env {
    if env.dryRun then env.(stopOnError := false) else env
  }

  /** What a push reports: both halves in plan order. */
  function Sorted(p: Progress): Progress {
    p.(applied := Sort(p.applied, ChangeLeq), failed := Sort(p.failed, FailedLeq))
  }

  /** Makes the pair a rule-scoped push plans of the bundle and what Grafana holds of the named rules' groups. */
  type ScopeFunc = (Bundle, Bundle, seq<string>) -> Option<(Bundle, Bundle)>

  /** What a push runs with: the bundle itself, or what the scope makes of it for the named rules it holds. */
  function Scoped(env: Env, ruleUIDs: seq<string>, scope: ScopeFunc): Option<Env> {
    var uids := Dedupe(ruleUIDs);
    if ruleUIDs == [] then Some(env)
    else if exists uid :: uid in uids && FirstHolding(Present(env.local.groups), uid).None? then None
    else
      var pair := scope(env.local, env.remote, uids);
      if pair.None? then None else Some(env.(local := pair.value.0, remote := pair.value.1))
  }

  /** The run has a plan, and for a rule-scoped push the check accepts it. */
  ghost predicate Runs(env: Env, ruleUIDs: seq<string>) {
    && Planned(env.local, env.remote).Some?
    && (ruleUIDs != [] ==> Accepted(Planned(env.local, env.remote).value, Present(env.local.groups), Dedupe(ruleUIDs)))
  }

  /** The push of a bundle or of some of its rules, or nothing when it cannot be planned or the check refuses it. */
  method Push(env: Env, ruleUIDs: seq<string>, scope: ScopeFunc) returns (result: Option<Progress>)
    ensures var run := Scoped(env, ruleUIDs, scope);
            && (result.Some? <==> run.Some? && Runs(run.value, ruleUIDs))
            && (result.Some? ==>
                  var done := Applied(Effective(run.value), Planned(run.value.local, run.value.remote).value);
                  && result.value.(requests := []) == Sorted(done).(requests := [])
                  && Arrived(Effective(run.value), result.value.requests, done.requests))
  {
    hide Planned, Applied, Sort, Arrived, Accepted, Dedupe, FirstHolding, Present;
    var planned, changes := env, None;
    if |ruleUIDs| > 0 {
      var uids := Dedupe(ruleUIDs);
      var located := LocateLocalRules(env.local, uids);
      if located.None? {
        return None;
      }
      var pair := scope(env.local, env.remote, uids);
      if pair.None? {
        return None;
      }
      planned := env.(local := pair.value.0, remote := pair.value.1);
      changes := PlanScoped(planned.local, planned.remote, uids);
    } else {
      changes := Plan(env.local, env.remote);
    }
    if changes.None? {
      return None;
    }
    var run := new PushRun(Effective(planned));
    var stop := run.Apply(changes.value);
    result := Some(Progress(Sort(run.applied, ChangeLeq), Sort(run.failed, FailedLeq), run.requests, stop));
  }

  lemma AmbiguousOutcome(env: Env)
    ensures Outcome(env, Refuse(AmbiguousMatch)) == Some(AmbiguousMatch) && Sent(env, Refuse(AmbiguousMatch)) == []
  {
  }

  lemma ProcessNothing(env: Env, p: Progress)
    ensures Process(env, p, []) == p && BlockedItems(env, []) == []
  {
  }

  lemma ProcessAllNothing(env: Env, p: Progress)
    ensures ProcessAll(env, p, []) == p
  {
  }

  lemma ProcessOne(env: Env, p: Progress, item: Item)
    requires !p.stopped
    ensures Process(env, p, [item]) == Step(env, p, item)
  {
    hide Step;
    ProcessNothing(env, p);
    ProcessSnoc(env, p, [], item);
    assert [] + [item] == [item];
  }

  lemma NothingToDo(env: Env, pending: map<string, Change>, p: Progress)
    ensures Process(env, p, PointItems(env, pending, Present(env.local.contactPoints[..0]))) == p
  {
  }

  lemma StopsHere(env: Env, pending: map<string, Change>, p: Progress, points: seq<Option<ContactPoint>>, i: nat)
    requires i <= |points| && Process(env, p, PointItems(env, pending, Present(points[..i]))).stopped
    ensures Process(env, p, PointItems(env, pending, Present(points))) ==
            Process(env, p, PointItems(env, pending, Present(points[..i])))
  {
    hide Process, PointItems, Present;
    assert points[..i] + points[i..] == points;
    PresentConcat(points[..i], points[i..]);
    PointItemsConcat(env, pending, Present(points[..i]), Present(points[i..]));
    var some, all := PointItems(env, pending, Present(points[..i])), PointItems(env, pending, Present(points));
    StoppedStays(env, p, some, all[|some|..]);
    assert some + all[|some|..] == all;
  }

  /** blocked says of each target's folder whether it can be written into, and why not. */
  predicate BlocksExactly(env: Env, targets: seq<Target>, blocked: map<string, Failure>) {
    forall t | t in targets ::
      && (t.local.folderUID in blocked <==> Blocked(env, t))
      && (t.local.folderUID in blocked ==> blocked[t.local.folderUID] == FolderFailure(env.folder(t.local.folderUID)))
  }

  lemma BlocksThis(env: Env, targets: seq<Target>, blocked: map<string, Failure>, i: nat)
    requires BlocksExactly(env, targets, blocked) && i < |targets|
    ensures var uid := targets[i].local.folderUID;
            && (uid in blocked <==> Blocked(env, targets[i]))
            && (uid in blocked ==> blocked[uid] == FolderFailure(env.folder(uid)))
  {
    assert targets[i] in targets;
  }

  lemma BlockedSnoc(env: Env, targets: seq<Target>, i: nat)
    requires i < |targets|
    ensures BlockedItems(env, targets[..i + 1]) ==
            if Blocked(env, targets[i]) then
              BlockedItems(env, targets[..i]) + [Item(targets[i].change,
                                                      Refuse(FolderFailure(env.folder(targets[i].local.folderUID))))]
            else BlockedItems(env, targets[..i])
    ensures Writable(env, targets[..i + 1]) ==
            if Blocked(env, targets[i]) then Writable(env, targets[..i]) else Writable(env, targets[..i]) + [targets[i]]
  {
    hide Blocked, FolderFailure;
    assert targets[..i + 1][..i] == targets[..i];
  }

  lemma NothingBlocked(env: Env, p: Progress)
    ensures Process(env, p, BlockedItems(env, [])) == p && Writable(env, []) == []
  {
  }

  /** One more target: kept, or its failure recorded and the run stopped there when it is to stop. */
  lemma BlockedStep(env: Env, p: Progress, targets: seq<Target>, blocked: map<string, Failure>, i: nat)
    requires i < |targets| && BlocksExactly(env, targets, blocked)
    requires !Process(env, p, BlockedItems(env, targets[..i])).stopped
    ensures var now, next := Process(env, p, BlockedItems(env, targets[..i])),
            Process(env, p, BlockedItems(env, targets[..i + 1]));
            var t := targets[i];
            if t.local.folderUID !in blocked then
              next == now && Writable(env, targets[..i + 1]) == Writable(env, targets[..i]) + [t]
            else
              && Writable(env, targets[..i + 1]) == Writable(env, targets[..i])
              && next == Recorded(env, now, t.change, Some(blocked[t.local.folderUID]))
              && (next.stopped ==> Process(env, p, BlockedItems(env, targets)) == next)
  {
    hide Process, Blocked, FolderFailure, BlockedItems, Writable, Step, Recorded, BlocksExactly;
    var t := targets[i];
    BlocksThis(env, targets, blocked, i);
    BlockedSnoc(env, targets, i);
    if t.local.folderUID in blocked {
      var item := Item(t.change, Refuse(blocked[t.local.folderUID]));
      ProcessSnoc(env, p, BlockedItems(env, targets[..i]), item);
      NothingSent(env, Process(env, p, BlockedItems(env, targets[..i])), item);
      if Process(env, p, BlockedItems(env, targets[..i + 1])).stopped {
        BlockedStops(env, p, targets, i + 1);
      }
    }
  }

  lemma NothingSent(env: Env, p: Progress, item: Item)
    requires item.verdict.Refuse?
    ensures Step(env, p, item) == Recorded(env, p, item.change, Some(item.verdict.failure))
  {
    assert p.requests + [] == p.requests;
  }

  lemma BlockedStops(env: Env, p: Progress, targets: seq<Target>, i: nat)
    requires i <= |targets| && Process(env, p, BlockedItems(env, targets[..i])).stopped
    ensures Process(env, p, BlockedItems(env, targets)) == Process(env, p, BlockedItems(env, targets[..i]))
  {
    hide Process, BlockedItems;
    BlockedConcat(env, targets, i);
    var some, all := BlockedItems(env, targets[..i]), BlockedItems(env, targets);
    StoppedStays(env, p, some, all[|some|..]);
    assert some + all[|some|..] == all;
  }

  lemma {:induction false} BlockedConcat(env: Env, targets: seq<Target>, i: nat)
    requires i <= |targets|
    ensures BlockedItems(env, targets[..i]) <= BlockedItems(env, targets)
    decreases |targets| - i
  {
    if i < |targets| {
      BlockedConcat(env, targets, i + 1);
      assert targets[..i + 1][..i] == targets[..i];
    } else {
      assert targets[..i] == targets;
    }
  }

  function Indices(n: nat): (s: set<int>)
    ensures forall i :: i in s <==> 0 <= i < n
  {
    if n == 0 then {} else Indices(n - 1) + {n - 1}
  }

  /** The requests of the first n items but the remaining ones. */
  ghost function SentOver(env: Env, items: seq<Item>, n: nat, remaining: set<int>): multiset<Write>
    requires n <= |items|
  {
    if n == 0 then multiset{}
    else
      SentOver(env, items, n - 1, remaining)
      + if n - 1 in remaining then multiset{} else multiset(Sent(env, items[n - 1].verdict))
  }

  lemma NothingSentYet(env: Env, items: seq<Item>, remaining: set<int>)
    requires forall i | 0 <= i < |items| :: i in remaining
    ensures SentOver(env, items, |items|, remaining) == multiset{}
  {
    NoneSent(env, items, |items|, remaining);
  }

  lemma {:induction false} NoneSent(env: Env, items: seq<Item>, n: nat, remaining: set<int>)
    requires n <= |items| && forall i | 0 <= i < |items| :: i in remaining
    ensures SentOver(env, items, n, remaining) == multiset{}
  {
    if n > 0 {
      NoneSent(env, items, n - 1, remaining);
    }
  }

  lemma {:induction false} SentOne(env: Env, items: seq<Item>, n: nat, remaining: set<int>, i: int)
    requires n <= |items| && i in remaining
    ensures SentOver(env, items, n, remaining - {i}) ==
            SentOver(env, items, n, remaining)
            + if 0 <= i < n then multiset(Sent(env, items[i].verdict)) else multiset{}
  {
    hide Sent;
    if n > 0 {
      SentOne(env, items, n - 1, remaining, i);
      assert n - 1 in remaining - {i} <==> n - 1 in remaining && n - 1 != i;
    }
  }

  lemma StepSends(env: Env, p: Progress, item: Item)
    ensures multiset(Step(env, p, item).requests) == multiset(p.requests) + multiset(Sent(env, item.verdict))
  {
    hide Sent, Outcome;
  }

  lemma NothingOver(env: Env, items: seq<Item>, remaining: set<int>)
    ensures SentOver(env, items, 0, remaining) == multiset{} && items[..0] == []
  {
  }

  lemma SentOverStep(env: Env, items: seq<Item>, n: nat)
    requires 0 < n <= |items|
    ensures SentOver(env, items, n, {}) == SentOver(env, items, n - 1, {}) + multiset(Sent(env, items[n - 1].verdict))
  {
    hide Sent;
  }

  lemma {:induction false} AllSent(env: Env, p: Progress, items: seq<Item>, n: nat)
    requires n <= |items|
    ensures multiset(p.requests) + SentOver(env, items, n, {}) == multiset(ProcessAll(env, p, items[..n]).requests)
  {
    hide Sent, Outcome, ProcessAll, SentOver, Step;
    if n == 0 {
      NothingOver(env, items, {});
      ProcessAllNothing(env, p);
    } else {
      AllSent(env, p, items, n - 1);
      assert items[..n] == items[..n - 1] + [items[n - 1]];
      ProcessAllSnoc(env, p, items[..n - 1], items[n - 1]);
      StepSends(env, ProcessAll(env, p, items[..n - 1]), items[n - 1]);
      SentOverStep(env, items, n);
    }
  }

  lemma {:induction false} RequestsGrow(env: Env, p: Progress, items: seq<Item>)
    ensures p.requests <= Process(env, p, items).requests
  {
    hide Sent, Outcome;
    if items != [] {
      RequestsGrow(env, p, items[..|items| - 1]);
    }
  }
}
