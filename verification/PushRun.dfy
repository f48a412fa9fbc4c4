/**
 One push: the plan applied phase by phase, contact points, then the policy tree, then the rule groups.

 Grafana's answers are parameters. What decides whether an entry may be written (its verdict) does not
 depend on whether the run is a dry run.
 */
module PushRuns {
  import opened Options
  import opened AlertModels
  import opened GroupPlan
  import opened RouteTree
  import opened BundlePlan
  import JsonValues

  // ---------------------------------------------------------------------------------------------
  // Provenance
  // ---------------------------------------------------------------------------------------------

  /** Whether the X-Disable-Provenance header is sent, or nothing for an object another provisioner owns. */
  function ProvenanceHeader(stored: string): Option<bool> {
    if stored == "" then Some(true) else if stored == "api" then Some(false) else None
  }

  /** The rules do not all carry one provenance. */
  predicate Mixed(rules: seq<Rule>) {
    exists i, j :: 0 <= i < |rules| && 0 <= j < |rules| && rules[i].provenance != rules[j].provenance
  }

  predicate AllCarry(rules: seq<Rule>, provenance: string) {
    forall r | r in rules :: r.provenance == provenance
  }

  /** The one provenance of a group's rules; a group without rules is unclaimed. */
  method GroupProvenance(rules: seq<Option<Rule>>) returns (stored: Option<string>)
    ensures stored.None? <==> Mixed(Present(rules))
    ensures stored.Some? ==> stored.value == if Present(rules) == [] then "" else Present(rules)[0].provenance
  {
    var value, seen := "", false;
    for i := 0 to |rules|
      invariant seen <==> Present(rules[..i]) != []
      invariant AllCarry(Present(rules[..i]), value)
      invariant !seen ==> value == ""
    {
      hide Mixed, Present;
      PresentPrefix(rules, i);
      if rules[i].Some? {
        if seen && rules[i].value.provenance != value {
          MixedPair(rules, i, value);
          return None;
        }
        value, seen := rules[i].value.provenance, true;
      }
    }
    assert rules[..|rules|] == rules;
    stored := Some(value);
    NotMixed(Present(rules), value);
  }

  lemma NotMixed(rules: seq<Rule>, provenance: string)
    requires AllCarry(rules, provenance)
    ensures !Mixed(rules) && (rules != [] ==> rules[0].provenance == provenance)
  {
    if rules != [] {
      assert rules[0] in rules;
    }
  }

  lemma MixedPair(rules: seq<Option<Rule>>, i: nat, provenance: string)
    requires i < |rules| && rules[i].Some? && rules[i].value.provenance != provenance
    requires Present(rules[..i]) != [] && AllCarry(Present(rules[..i]), provenance)
    ensures Mixed(Present(rules))
  {
    hide Present;
    var before := Present(rules[..i]);
    assert before[0] in before;
    PresentPrefix(rules, i);
    PresentConcat(rules[..i + 1], rules[i + 1..]);
    assert rules[..i + 1] + rules[i + 1..] == rules;
    assert Present(rules)[0] == before[0] && Present(rules)[|before|] == rules[i].value;
  }

  /** The header a write of the whole group is sent under. */
  function GroupHeader(rules: seq<Rule>): Result<bool> {
    if Mixed(rules) then Refuse(MixedProvenance)
    else
      var header := ProvenanceHeader(if rules == [] then "" else rules[0].provenance);
      if header.None? then Refuse(ForeignProvenance) else Send(header.value)
  }

  method GroupProvenanceHeader(rules: seq<Option<Rule>>) returns (header: Result<bool>)
    ensures header == GroupHeader(Present(rules))
  {
    var stored := GroupProvenance(rules);
    if stored.None? {
      return Refuse(MixedProvenance);
    }
    var value := ProvenanceHeader(stored.value);
    header := if value.None? then Refuse(ForeignProvenance) else Send(value.value);
  }

  // ---------------------------------------------------------------------------------------------
  // Verdicts
  // ---------------------------------------------------------------------------------------------

  datatype Failure =
    | ForeignProvenance
    | MixedProvenance
    | RedactedSecrets
    | AmbiguousMatch
    | NoOrganization
    | FolderMissing
    | FolderForbidden
    | Rejected
    | Unauthorized

  /** A refusal, or what would be sent. */
  datatype Result<T> = Refuse(failure: Failure) | Send(value: T)

  /** A request that changes Grafana; `unclaimed` is whether the X-Disable-Provenance header is set. */
  datatype Write =
    | PostPoint(point: ContactPoint, unclaimed: bool)
    | PutPoint(uid: string, point: ContactPoint, unclaimed: bool)
    | PutTree(tree: Route, unclaimed: bool)
    | PutGroup(ref: GroupRef, group: Group, unclaimed: bool)

  type Verdict = Result<Write>

  datatype Answer = Accept | Reject | DeadSession

  datatype FolderAnswer = Exists | Missing | Forbidden | Unavailable

  /** What a push is given: the two bundles, the options, and Grafana's answers. */
  datatype Env = Env(
    local: Bundle,
    remote: Bundle,
    dryRun: bool,
    stopOnError: bool,
    uiEditable: bool,
    orgID: int,
    answer: Write -> Answer,
    folder: string -> FolderAnswer)

  /** A group about to be written, with its plan entry and its remote counterpart. */
  datatype Target = Target(change: Change, local: Group, remote: Option<Group>)

  function CreateVerdict(env: Env, p: ContactPoint): Verdict {
    if JsonValues.CollectRedacted(JsonValues.Obj(PointFields(p)), "") != {} then Refuse(RedactedSecrets)
    else Send(PostPoint(ContactPointBody(p, p.uid), env.uiEditable))
  }

  function UpdateVerdict(p: ContactPoint, held: ContactPoint): Verdict {
    var header := ProvenanceHeader(held.provenance);
    if header.None? then Refuse(ForeignProvenance)
    else Send(PutPoint(held.uid, ContactPointBody(p, held.uid), header.value))
  }

  function PointVerdict(env: Env, p: ContactPoint): Verdict {
    var m := PointMatch(p, env.remote.contactPoints);
    match m
    case Ambiguous => Refuse(AmbiguousMatch)
    case NoMatch => CreateVerdict(env, p)
    case Found(at) => UpdateVerdict(p, env.remote.contactPoints[at].value)
  }

  function TreeVerdict(env: Env, tree: Route): Verdict {
    var header := if env.remote.policies.Some? then ProvenanceHeader(env.remote.policies.value.provenance)
        else Some(env.uiEditable);
    if header.None? then Refuse(ForeignProvenance) else Send(PutTree(RouteBody(tree), header.value))
  }

  function GroupVerdict(env: Env, t: Target): Verdict {
    var header := if t.remote.None? then Send(env.uiEditable) else GroupHeader(Present(t.remote.value.rules));
    var org := ResolvedOrg(t.remote, env.orgID);
    if header.Refuse? then Refuse(header.failure)
    else if !EveryRuleHasOrg(t.local, org) then Refuse(NoOrganization)
    else Send(PutGroup(RefOf(t.local), WriteBody(t.local, org), header.value))
  }

  function AnswerFailure(a: Answer): Option<Failure> {
    match a
    case Accept => None
    case Reject => Some(Rejected)
    case DeadSession => Some(Unauthorized)
  }

  /** What attempting an entry comes to: a dry run succeeds at everything it would send. */
  function Outcome(env: Env, v: Verdict): Option<Failure> {
    match v
    case Refuse(f) => Some(f)
    case Send(w) => if env.dryRun then None else AnswerFailure(env.answer(w))
  }

  function Sent(env: Env, v: Verdict): seq<Write> {
    if v.Send? && !env.dryRun then [v.value] else []
  }

  // ---------------------------------------------------------------------------------------------
  // The run as a function of its items
  // ---------------------------------------------------------------------------------------------

  datatype FailedChange = FailedChange(change: Change, failure: Failure)

  /** One plan entry with its verdict. */
  datatype Item = Item(change: Change, verdict: Verdict)

  datatype Progress = Progress(applied: seq<Change>, failed: seq<FailedChange>, requests: seq<Write>, stopped: bool)

  predicate Stops(env: Env, failure: Option<Failure>) {
    failure.Some? && (env.stopOnError || failure.value == Unauthorized)
  }

  function Recorded(env: Env, p: Progress, change: Change, failure: Option<Failure>): Progress {
    if failure.None? then p.(applied := p.applied + [change])
    else p.(failed := p.failed + [FailedChange(change, failure.value)], stopped := p.stopped || Stops(env, failure))
  }

  function Step(env: Env, p: Progress, item: Item): Progress {
    Recorded(env, p.(requests := p.requests + Sent(env, item.verdict)), item.change, Outcome(env, item.verdict))
  }

  /** The items in order, up to the one that stops the run. */
  function Process(env: Env, p: Progress, items: seq<Item>): Progress {
    if items == [] then p
    else
      var before := Process(env, p, items[..|items| - 1]);
      if before.stopped then before else Step(env, before, items[|items| - 1])
  }

  /** The items all attempted, whatever becomes of them; the run stops afterwards when the session died. */
  function ProcessAll(env: Env, p: Progress, items: seq<Item>): Progress {
    if items == [] then p else Step(env, ProcessAll(env, p, items[..|items| - 1]), items[|items| - 1])
  }

  function PendingOf(changes: seq<Change>): seq<Change> {
    if changes == [] then []
    else
      PendingOf(changes[..|changes| - 1])
      + (if changes[|changes| - 1].action != Unchanged then [changes[|changes| - 1]] else [])
  }

  function UnchangedOf(changes: seq<Change>): seq<Change> {
    if changes == [] then []
    else
      UnchangedOf(changes[..|changes| - 1])
      + (if changes[|changes| - 1].action == Unchanged then [changes[|changes| - 1]] else [])
  }

  /** The entries of one kind by ID; the last one of an ID counts. */
  function ByID(changes: seq<Change>, kind: Kind): map<string, Change> {
    if changes == [] then map[]
    else
      var last := changes[|changes| - 1];
      var before := ByID(changes[..|changes| - 1], kind);
      if last.kind == kind then before[last.id := last] else before
  }

  function PointItems(env: Env, pending: map<string, Change>, points: seq<ContactPoint>): seq<Item> {
    if points == [] then []
    else
      var p := points[|points| - 1];
      PointItems(env, pending, points[..|points| - 1])
      + (if PointID(p) in pending then [Item(pending[PointID(p)], PointVerdict(env, p))] else [])
  }

  /** The first entry of the policy tree. */
  function FirstTree(changes: seq<Change>): Option<Change> {
    if changes == [] then None else if changes[0].kind == PolicyTreeKind then Some(changes[0])
    else FirstTree(changes[1..])
  }

  function TreeItems(env: Env, changes: seq<Change>): seq<Item> {
    var change := FirstTree(changes);
    if change.None? || env.local.policies.None? then []
    else [Item(change.value, TreeVerdict(env, env.local.policies.value))]
  }

  function Targets(env: Env, pending: map<string, Change>, groups: seq<Group>): seq<Target> {
    if groups == [] then []
    else
      var g := groups[|groups| - 1];
      Targets(env, pending, groups[..|groups| - 1])
      + (if GroupID(g) in pending then [Target(pending[GroupID(g)], g,
                                               FindGroup(Present(env.remote.groups), RefOf(g)))] else [])
  }

  predicate Blocked(env: Env, t: Target) {
    env.folder(t.local.folderUID) in {Missing, Forbidden}
  }

  function FolderFailure(a: FolderAnswer): Failure {
    if a == Forbidden then FolderForbidden else FolderMissing
  }

  function BlockedItems(env: Env, targets: seq<Target>): seq<Item> {
    if targets == [] then []
    else
      var t := targets[|targets| - 1];
      BlockedItems(env, targets[..|targets| - 1])
      + (if Blocked(env, t) then [Item(t.change, Refuse(FolderFailure(env.folder(t.local.folderUID))))] else [])
  }

  function Writable(env: Env, targets: seq<Target>): seq<Target> {
    if targets == [] then []
    else
      Writable(env, targets[..|targets| - 1])
      + (if Blocked(env, targets[|targets| - 1]) then [] else [targets[|targets| - 1]])
  }

  function GroupItems(env: Env, targets: seq<Target>): seq<Item> {
    seq(|targets|, i requires 0 <= i < |targets| => Item(targets[i].change, GroupVerdict(env, targets[i])))
  }

  predicate FolderCheckFails(env: Env, targets: seq<Target>) {
    exists t :: t in targets && env.folder(t.local.folderUID) == Unavailable
  }

  function AfterGroups(env: Env, p: Progress, targets: seq<Target>): Progress {
    if FolderCheckFails(env, targets) then p.(stopped := true)
    else
      var blocked := Process(env, p, BlockedItems(env, targets));
      if blocked.stopped then blocked
      else if env.stopOnError then Process(env, blocked, GroupItems(env, Writable(env, targets)))
      else ProcessAll(env, blocked, GroupItems(env, Writable(env, targets)))
  }

  /** The whole run over a plan. */
  function Applied(env: Env, changes: seq<Change>): Progress {
    var pending := PendingOf(changes);
    var start := Progress(UnchangedOf(changes), [], [], false);
    var points := Process(env, start, PointItems(env, ByID(pending, ContactPointKind),
                                                 Present(env.local.contactPoints)));
    if points.stopped then points
    else
      var tree := Process(env, points, TreeItems(env, pending));
      if tree.stopped then tree
      else AfterGroups(env, tree, Targets(env, ByID(pending, RuleGroupKind), Present(env.local.groups)))
  }

  lemma ProcessSnoc(env: Env, p: Progress, items: seq<Item>, item: Item)
    ensures Process(env, p, items + [item]) ==
            if Process(env, p, items).stopped then Process(env, p, items) else Step(env, Process(env, p, items), item)
  {
    hide Step;
    assert (items + [item])[..|items|] == items;
  }

  lemma {:induction false} StoppedStays(env: Env, p: Progress, items: seq<Item>, more: seq<Item>)
    requires Process(env, p, items).stopped
    ensures Process(env, p, items + more) == Process(env, p, items)
    decreases |more|
  {
    hide Step, Process;
    if more == [] {
      assert items + more == items;
    } else {
      StoppedStays(env, p, items, more[..|more| - 1]);
      assert items + more == items + more[..|more| - 1] + [more[|more| - 1]];
      ProcessSnoc(env, p, items + more[..|more| - 1], more[|more| - 1]);
    }
  }

  lemma ProcessAllSnoc(env: Env, p: Progress, items: seq<Item>, item: Item)
    ensures ProcessAll(env, p, items + [item]) == Step(env, ProcessAll(env, p, items), item)
  {
    hide Step;
    assert (items + [item])[..|items|] == items;
  }

  lemma PointItemsSnoc(env: Env, pending: map<string, Change>, points: seq<ContactPoint>, p: ContactPoint)
    ensures PointItems(env, pending, points + [p]) ==
            if PointID(p) in pending
            then PointItems(env, pending, points) + [Item(pending[PointID(p)], PointVerdict(env, p))]
            else PointItems(env, pending, points)
  {
    hide PointVerdict;
    assert (points + [p])[..|points|] == points;
  }

  lemma {:induction false} PointItemsConcat(env: Env, pending: map<string, Change>, points: seq<ContactPoint>,
                                            more: seq<ContactPoint>)
    ensures PointItems(env, pending, points) <= PointItems(env, pending, points + more)
    decreases |more|
  {
    hide PointItems;
    if more == [] {
      assert points + more == points;
    } else {
      PointItemsConcat(env, pending, points, more[..|more| - 1]);
      assert points + more == points + more[..|more| - 1] + [more[|more| - 1]];
      PointItemsSnoc(env, pending, points + more[..|more| - 1], more[|more| - 1]);
    }
  }

  lemma TargetsSnoc(env: Env, pending: map<string, Change>, groups: seq<Group>, g: Group)
    ensures Targets(env, pending, groups + [g]) ==
            if GroupID(g) in pending then
              Targets(env, pending, groups) + [Target(pending[GroupID(g)], g,
                                                      FindGroup(Present(env.remote.groups), RefOf(g)))]
            else Targets(env, pending, groups)
  {
    hide FindGroup, GroupID;
    assert (groups + [g])[..|groups|] == groups;
  }
}
