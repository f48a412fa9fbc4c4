/**
 One rule group: the body a PUT of it sends, and the lines the plan describes the change with.

 The loops of the source are methods over the slots of the group, nil entries included; each is tied
 to a function of the rules that are present.
 */
module GroupPlan {
  import opened Options
  import opened AlertModels
  import opened Sorting
  import JsonValues
  import Decimal

  // ---------------------------------------------------------------------------------------------
  // The write body
  // ---------------------------------------------------------------------------------------------

  /** The rule as a group write carries it; without a resolved organization the rule keeps its own. */
  function PinRule(r: Rule, folderUID: string, group: string, org: Option<int>): Rule {
    r.(folderUID := Some(folderUID), ruleGroup := Some(group), id := 0, provenance := "", updated := "",
       orgID := if org.Some? then org else r.orgID)
  }

  function PinAll(rules: seq<Rule>, folderUID: string, group: string, org: Option<int>): seq<Rule> {
    seq(|rules|, i requires 0 <= i < |rules| => PinRule(rules[i], folderUID, group, org))
  }

  /** The body of a rule-group write. */
  function WriteBody(local: Group, org: Option<int>): Group {
    local.(rules := Wrap(PinAll(Present(local.rules), local.folderUID, local.title, org)))
  }

  method RuleGroupBody(local: Group, org: Option<int>) returns (body: Group)
    ensures body == WriteBody(local, org)
  {
    var rules: seq<Option<Rule>> := [];
    for i := 0 to |local.rules|
      invariant rules == Wrap(PinAll(Present(local.rules[..i]), local.folderUID, local.title, org))
    {
      PresentPrefix(local.rules, i);
      if local.rules[i].Some? {
        rules := rules + [Some(PinRule(local.rules[i].value, local.folderUID, local.title, org))];
      }
    }
    assert local.rules[..|local.rules|] == local.rules;
    body := local.(rules := rules);
  }

  /** The organization of the first rule that has one. */
  function FirstOrg(rules: seq<Rule>): (org: Option<int>)
    ensures org.None? <==> forall r | r in rules :: r.orgID.None?
    ensures org.Some? ==> exists r :: r in rules && r.orgID == org
  {
    if rules == [] then None else if rules[0].orgID.Some? then rules[0].orgID else FirstOrg(rules[1..])
  }

  /** The organization a pushed rule claims: the remote group's, else the context's, else undecided. */
  function ResolvedOrg(remote: Option<Group>, contextOrg: int): Option<int> {
    var held := if remote.Some? then FirstOrg(Present(remote.value.rules)) else None;
    if held.Some? then held else if contextOrg != 0 then Some(contextOrg) else None
  }

  lemma {:induction false} FirstOrgSkips(a: seq<Rule>, b: seq<Rule>)
    ensures FirstOrg(a + b) == if FirstOrg(a).Some? then FirstOrg(a) else FirstOrg(b)
  {
    if a == [] {
      assert a + b == b;
    } else {
      assert (a + b)[1..] == a[1..] + b;
      FirstOrgSkips(a[1..], b);
    }
  }

  method ResolveOrgID(remote: Option<Group>, contextOrg: int) returns (org: Option<int>)
    ensures org == ResolvedOrg(remote, contextOrg)
  {
    if remote.Some? {
      var rules := remote.value.rules;
      for i := 0 to |rules|
        invariant FirstOrg(Present(rules[..i])).None?
      {
        PresentPrefix(rules, i);
        assert rules[..i + 1] + rules[i + 1..] == rules;
        PresentConcat(rules[..i + 1], rules[i + 1..]);
        FirstOrgSkips(Present(rules[..i + 1]), Present(rules[i + 1..]));
        if rules[i].Some? {
          FirstOrgSkips(Present(rules[..i]), [rules[i].value]);
          if rules[i].value.orgID.Some? {
            return rules[i].value.orgID;
          }
        }
      }
      assert rules[..|rules|] == rules;
    }
    org := if contextOrg != 0 then Some(contextOrg) else None;
  }

  /** Every rule of the body would claim an organization. */
  predicate EveryRuleHasOrg(local: Group, resolved: Option<int>) {
    forall r | r in Present(local.rules) :: PinRule(r, local.folderUID, local.title, resolved).orgID.Some?
  }

  method RequireOrgID(local: Group, resolved: Option<int>) returns (ok: bool)
    ensures ok <==> EveryRuleHasOrg(local, resolved)
  {
    if resolved.Some? {
      return true;
    }
    for i := 0 to |local.rules|
      invariant forall r | r in Present(local.rules[..i]) :: r.orgID.Some?
    {
      PresentPrefix(local.rules, i);
      if local.rules[i].Some? && local.rules[i].value.orgID.None? {
        PresentMember(local.rules, local.rules[i].value);
        return false;
      }
    }
    assert local.rules[..|local.rules|] == local.rules;
    return true;
  }

  // ---------------------------------------------------------------------------------------------
  // Finding rules
  // ---------------------------------------------------------------------------------------------

  /** The first rule carrying uid; an empty uid identifies nothing. */
  function FindRule(rules: seq<Rule>, uid: string): (found: Option<Rule>)
    ensures found.Some? <==> uid != "" && exists r :: r in rules && r.uid == uid
    ensures found.Some? ==> found.value in rules && found.value.uid == uid
  {
    if uid == "" || rules == [] then None
    else if rules[0].uid == uid then Some(rules[0])
    else FindRule(rules[1..], uid)
  }

  /** The rule at k is the first of the uid. */
  predicate FirstAt(rules: seq<Rule>, uid: string, k: int) {
    0 <= k < |rules| && rules[k].uid == uid && forall j | 0 <= j < k :: rules[j].uid != uid
  }

  /**
   The rule found is the first of its uid, and there is none exactly when no rule has it; the empty uid is
   nobody's.
   */
  lemma {:induction false} FindRuleIsFirst(rules: seq<Rule>, uid: string)
    ensures forall k | uid != "" && FirstAt(rules, uid, k) :: FindRule(rules, uid) == Some(rules[k])
    ensures FindRule(rules, uid).None? <==> uid == "" || forall k :: !FirstAt(rules, uid, k)
  {
    if uid != "" && rules != [] {
      var rest := rules[1..];
      assert forall j | 0 <= j < |rest| :: rest[j] == rules[j + 1];
      if rules[0].uid == uid {
        assert FirstAt(rules, uid, 0);
      } else {
        FindRuleIsFirst(rest, uid);
        forall k ensures FirstAt(rules, uid, k) <==> FirstAt(rest, uid, k - 1) {
          FirstAtShifts(rules, uid, k);
        }
        if FindRule(rest, uid).Some? {
          var k :| FirstAt(rest, uid, k);
          assert FirstAt(rules, uid, k + 1);
        }
      }
    }
  }

  lemma FirstAtShifts(rules: seq<Rule>, uid: string, k: int)
    requires rules != [] && rules[0].uid != uid
    ensures FirstAt(rules, uid, k) <==> FirstAt(rules[1..], uid, k - 1)
  {
    var rest := rules[1..];
    assert forall j | 0 <= j < |rest| :: rest[j] == rules[j + 1];
    if FirstAt(rest, uid, k - 1) {
      forall j | 0 <= j < k ensures rules[j].uid != uid {
        assert j > 0 ==> rest[j - 1] == rules[j];
      }
    }
  }

  predicate HasRule(rules: seq<Rule>, uid: string) {
    FindRule(rules, uid).Some?
  }

  predicate Holds(g: Group, uid: string) {
    HasRule(Present(g.rules), uid)
  }

  function UIDs(rules: seq<Rule>): seq<string> {
    seq(|rules|, i requires 0 <= i < |rules| => rules[i].uid)
  }

  lemma UIDIsListed(rules: seq<Rule>, r: Rule)
    requires r in rules
    ensures r.uid in UIDs(rules)
  {
    var i :| 0 <= i < |rules| && rules[i] == r;
    assert UIDs(rules)[i] == r.uid;
  }

  lemma HeldByIndex(rules: seq<Rule>, uid: string)
    ensures HasRule(rules, uid) <==> uid != "" && uid in UIDs(rules)
  {
    if r :| r in rules && r.uid == uid {
      UIDIsListed(rules, r);
    }
    if uid in UIDs(rules) {
      var i :| 0 <= i < |rules| && UIDs(rules)[i] == uid;
      assert rules[i] in rules;
    }
  }

  /** Every rule has a uid of its own. */
  predicate UniqueUIDs(rules: seq<Rule>) {
    && (forall i | 0 <= i < |rules| :: rules[i].uid != "")
    && (forall i, j | 0 <= i < j < |rules| :: rules[i].uid != rules[j].uid)
  }

  lemma {:induction false} FindUnique(rules: seq<Rule>, i: nat)
    requires UniqueUIDs(rules) && i < |rules|
    ensures FindRule(rules, rules[i].uid) == Some(rules[i])
  {
    if i > 0 {
      assert rules[0].uid != rules[i].uid;
      FindUnique(rules[1..], i - 1);
    }
  }

  /** The first remote rule of that title no local rule claims by uid. */
  function FirstUnclaimed(remotes: seq<Rule>, title: string, locals: seq<Rule>): Option<Rule> {
    if remotes == [] then None
    else if remotes[0].title == Some(title) && !HasRule(locals, remotes[0].uid) then Some(remotes[0])
    else FirstUnclaimed(remotes[1..], title, locals)
  }

  /** The remote rule a uid-less local rule would destroy and create again. */
  function ReplacedRule(local: Rule, locals: seq<Rule>, remotes: seq<Rule>): Option<Rule> {
    if local.uid != "" || local.title.None? then None else FirstUnclaimed(remotes, local.title.value, locals)
  }

  // ---------------------------------------------------------------------------------------------
  // The lines of a plan entry
  // ---------------------------------------------------------------------------------------------

  const REPLACED: char := '!'
  const ADDED: char := '+'
  const REMOVED: char := '-'
  const CHANGED: char := '~'

  const RULE_ORDER_DETAIL: string := "~ rule order"

  function TitleText(r: Rule): string {
    if r.title.Some? then r.title.value else ""
  }

  function RuleDetail(marker: char, r: Rule): string {
    [marker] + " " + TitleText(r) + (if r.uid == "" then "" else " (" + r.uid + ")")
  }

  function ReplacedRuleDetail(r: Rule): string {
    RuleDetail(REPLACED, r) + " would be replaced, not updated; run alerts pull first"
  }

  function IntervalDetail(local: int, remote: int): string {
    "~ interval " + Decimal.Text(remote) + "s→" + Decimal.Text(local) + "s"
  }

  /** What one local rule contributes. */
  function LocalRuleLines(r: Rule, local: Group, remotes: seq<Rule>): seq<string> {
    var held := FindRule(remotes, r.uid);
    if held.None? then
      [RuleDetail(ADDED, r)]
      + (var gone := ReplacedRule(r, Present(local.rules), remotes);
         if gone.Some? then [ReplacedRuleDetail(gone.value)] else [])
    else if EqualRules(PinRule(r, local.folderUID, local.title, held.value.orgID), held.value) then []
    else [RuleDetail(CHANGED, r)]
  }

  function LocalLines(rules: seq<Rule>, local: Group, remotes: seq<Rule>): seq<string> {
    if rules == [] then []
    else LocalLines(rules[..|rules| - 1], local, remotes) + LocalRuleLines(rules[|rules| - 1], local, remotes)
  }

  function RemovedLines(rules: seq<Rule>, locals: seq<Rule>): seq<string> {
    if rules == [] then []
    else RemovedLines(rules[..|rules| - 1], locals)
         + (if HasRule(locals, rules[|rules| - 1].uid) then [] else [RuleDetail(REMOVED, rules[|rules| - 1])])
  }

  function RuleLines(local: Group, remote: Group): seq<string> {
    Sort(LocalLines(Present(local.rules), local, Present(remote.rules))
      + RemovedLines(Present(remote.rules), Present(local.rules)),
         StringLeq)
  }

  lemma LocalLinesSnoc(rules: seq<Rule>, r: Rule, local: Group, remotes: seq<Rule>)
    ensures LocalLines(rules + [r], local, remotes) ==
            LocalLines(rules, local, remotes) + LocalRuleLines(r, local, remotes)
  {
    hide LocalRuleLines;
    assert (rules + [r])[..|rules|] == rules;
  }

  lemma RemovedLinesSnoc(rules: seq<Rule>, r: Rule, locals: seq<Rule>)
    ensures RemovedLines(rules + [r], locals) ==
            RemovedLines(rules, locals) + (if HasRule(locals, r.uid) then [] else [RuleDetail(REMOVED, r)])
  {
    assert (rules + [r])[..|rules|] == rules;
  }

  /** The first loop: added, replaced and changed rules. */
  method LocalRuleDetails(local: Group, remotes: seq<Rule>) returns (details: seq<string>)
    ensures details == LocalLines(Present(local.rules), local, remotes)
  {
    hide EqualRules, RuleDetail, ReplacedRuleDetail, ReplacedRule, PinRule, FindRule;
    var locals := Present(local.rules);
    details := [];
    for i := 0 to |local.rules|
      invariant details == LocalLines(Present(local.rules[..i]), local, remotes)
    {
      hide LocalLines, Present;
      PresentPrefix(local.rules, i);
      if local.rules[i].Some? {
        var rule := local.rules[i].value;
        LocalLinesSnoc(Present(local.rules[..i]), rule, local, remotes);
        var found := FindRule(remotes, rule.uid);
        var lines: seq<string> := [];
        if found.None? {
          lines := [RuleDetail(ADDED, rule)];
          var replaced := ReplacedRule(rule, locals, remotes);
          if replaced.Some? {
            lines := lines + [ReplacedRuleDetail(replaced.value)];
          }
        } else if !EqualRules(PinRule(rule, local.folderUID, local.title, found.value.orgID), found.value) {
          lines := [RuleDetail(CHANGED, rule)];
        }
        assert lines == LocalRuleLines(rule, local, remotes);
        details := details + lines;
      }
    }
    assert local.rules[..|local.rules|] == local.rules;
  }

  /** The second loop: rules the write would delete. */
  method RemovedRuleDetails(remote: Group, locals: seq<Rule>) returns (details: seq<string>)
    ensures details == RemovedLines(Present(remote.rules), locals)
  {
    hide RuleDetail, FindRule;
    details := [];
    for i := 0 to |remote.rules|
      invariant details == RemovedLines(Present(remote.rules[..i]), locals)
    {
      PresentPrefix(remote.rules, i);
      if remote.rules[i].Some? {
        RemovedLinesSnoc(Present(remote.rules[..i]), remote.rules[i].value, locals);
        if !HasRule(locals, remote.rules[i].value.uid) {
          details := details + [RuleDetail(REMOVED, remote.rules[i].value)];
        }
      }
    }
    assert remote.rules[..|remote.rules|] == remote.rules;
  }

  method RuleDetails(local: Group, remote: Group) returns (details: seq<string>)
    ensures details == RuleLines(local, remote)
  {
    var written := LocalRuleDetails(local, Present(remote.rules));
    var deleted := RemovedRuleDetails(remote, Present(local.rules));
    details := Sort(written + deleted, StringLeq);
  }

  /** The uids of the rules that also appear in other, in order. */
  function SharedUIDs(rules: seq<Rule>, other: seq<Rule>): seq<string> {
    if rules == [] then []
    else
      SharedUIDs(rules[..|rules| - 1], other)
      + (if HasRule(other, rules[|rules| - 1].uid) then [rules[|rules| - 1].uid] else [])
  }

  lemma SharedSnoc(rules: seq<Rule>, r: Rule, other: seq<Rule>)
    ensures SharedUIDs(rules + [r], other) == SharedUIDs(rules, other) + (if HasRule(other, r.uid) then [r.uid] else [])
  {
    assert (rules + [r])[..|rules|] == rules;
  }

  method SharedRuleUIDs(rules: seq<Option<Rule>>, other: seq<Option<Rule>>) returns (uids: seq<string>)
    ensures uids == SharedUIDs(Present(rules), Present(other))
  {
    uids := [];
    for i := 0 to |rules|
      invariant uids == SharedUIDs(Present(rules[..i]), Present(other))
    {
      PresentPrefix(rules, i);
      if rules[i].Some? {
        SharedSnoc(Present(rules[..i]), rules[i].value, Present(other));
        if HasRule(Present(other), rules[i].value.uid) {
          uids := uids + [rules[i].value.uid];
        }
      }
    }
    assert rules[..|rules|] == rules;
  }

  predicate SameOrder(locals: seq<Rule>, remotes: seq<Rule>) {
    SharedUIDs(locals, remotes) == SharedUIDs(remotes, locals)
  }

  /** What pushing local over remote would change inside the group; nothing when the two are the same write. */
  function DetailLines(local: Group, remote: Group): seq<string> {
    (if local.interval != remote.interval then [IntervalDetail(local.interval, remote.interval)] else [])
    + (if SameOrder(Present(local.rules), Present(remote.rules)) then [] else [RULE_ORDER_DETAIL])
    + RuleLines(local, remote)
  }

  method GroupDetail(local: Group, remote: Group) returns (detail: seq<string>)
    ensures detail == DetailLines(local, remote)
  {
    detail := [];
    if local.interval != remote.interval {
      detail := detail + [IntervalDetail(local.interval, remote.interval)];
    }
    var here := SharedRuleUIDs(local.rules, remote.rules);
    var there := SharedRuleUIDs(remote.rules, local.rules);
    if here != there {
      detail := detail + [RULE_ORDER_DETAIL];
    }
    var rules := RuleDetails(local, remote);
    detail := detail + rules;
  }

  // ---------------------------------------------------------------------------------------------
  // An empty plan entry is a write that changes nothing
  // ---------------------------------------------------------------------------------------------

  /** Writing the body would leave the remote group as it is: same interval, same rules, same places. */
  predicate NoOpWrite(body: Group, remote: Group) {
    && body.interval == remote.interval
    && SameRules(Present(body.rules), Present(remote.rules))
  }

  predicate SameRules(a: seq<Rule>, b: seq<Rule>) {
    |a| == |b| && forall i | 0 <= i < |a| :: SameRule(a[i], b[i])
  }

  /** The organization the write pins is the one every rule it would overwrite already has. */
  predicate OrgsAgree(resolved: Option<int>, remotes: seq<Rule>) {
    resolved.Some? ==> forall r | r in remotes :: r.orgID == resolved
  }

  /** None of the rules contributes a line. */
  predicate AllSilent(rules: seq<Rule>, local: Group, remotes: seq<Rule>) {
    forall r | r in rules :: LocalRuleLines(r, local, remotes) == []
  }

  predicate AllHeld(rules: seq<Rule>, others: seq<Rule>) {
    forall r | r in rules :: HasRule(others, r.uid)
  }

  lemma {:induction false} NoLinesFromLocal(rules: seq<Rule>, local: Group, remotes: seq<Rule>)
    ensures LocalLines(rules, local, remotes) == [] <==> AllSilent(rules, local, remotes)
  {
    hide LocalRuleLines;
    if rules != [] {
      NoLinesFromLocal(rules[..|rules| - 1], local, remotes);
      assert rules == rules[..|rules| - 1] + [rules[|rules| - 1]];
    }
  }

  lemma {:induction false} NoLinesFromRemote(rules: seq<Rule>, locals: seq<Rule>)
    ensures RemovedLines(rules, locals) == [] <==> AllHeld(rules, locals)
  {
    if rules != [] {
      NoLinesFromRemote(rules[..|rules| - 1], locals);
      assert rules == rules[..|rules| - 1] + [rules[|rules| - 1]];
    }
  }

  lemma {:induction false} AllShared(rules: seq<Rule>, other: seq<Rule>)
    requires AllHeld(rules, other)
    ensures SharedUIDs(rules, other) == UIDs(rules)
  {
    if rules != [] {
      AllShared(rules[..|rules| - 1], other);
      assert UIDs(rules) == UIDs(rules[..|rules| - 1]) + [rules[|rules| - 1].uid];
    }
  }

  /** The rule a local one is compared with, under the organization that rule is in. */
  predicate SameInPlace(local: Group, locals: seq<Rule>, remotes: seq<Rule>) {
    && |locals| == |remotes|
    && forall i | 0 <= i < |locals| ::
       SameRule(PinRule(locals[i], local.folderUID, local.title, remotes[i].orgID), remotes[i])
  }

  lemma RuleLinesEmpty(local: Group, remote: Group)
    ensures RuleLines(local, remote) == [] <==>
            AllSilent(Present(local.rules), local, Present(remote.rules))
                && AllHeld(Present(remote.rules), Present(local.rules))
  {
    hide AllSilent, AllHeld;
    var locals, remotes := Present(local.rules), Present(remote.rules);
    NoLinesFromLocal(locals, local, remotes);
    NoLinesFromRemote(remotes, locals);
    SortHasSameElements(LocalLines(locals, local, remotes) + RemovedLines(remotes, locals), StringLeq);
  }

  /** With remote uids in order, an empty entry means the same interval and the same rule at every place. */
  lemma EmptyDetailMeansSameInPlace(local: Group, remote: Group)
    requires UniqueUIDs(Present(remote.rules))
    ensures DetailLines(local, remote) == [] <==>
            local.interval == remote.interval && SameInPlace(local, Present(local.rules), Present(remote.rules))
  {
    hide RuleLines, SameRule, Present;
    var locals, remotes := Present(local.rules), Present(remote.rules);
    RuleLinesEmpty(local, remote);
    if DetailLines(local, remote) == [] {
      InPlaceIfNoLines(local, locals, remotes);
    }
    if SameInPlace(local, locals, remotes) {
      NoLinesIfInPlace(local, locals, remotes);
    }
  }

  lemma InPlaceIfNoLines(local: Group, locals: seq<Rule>, remotes: seq<Rule>)
    requires UniqueUIDs(remotes) && locals == Present(local.rules)
    requires AllSilent(locals, local, remotes) && AllHeld(remotes, locals)
    requires SameOrder(locals, remotes)
    ensures SameInPlace(local, locals, remotes)
  {
    hide EqualRules, SameRule, Present, UniqueUIDs, SharedUIDs;
    AllShared(locals, remotes);
    AllShared(remotes, locals);
    assert UIDs(locals) == UIDs(remotes);
    assert |UIDs(locals)| == |locals| && |UIDs(remotes)| == |remotes|;
    forall i | 0 <= i < |locals|
      ensures SameRule(PinRule(locals[i], local.folderUID, local.title, remotes[i].orgID), remotes[i])
    {
      assert locals[i].uid == UIDs(locals)[i] == UIDs(remotes)[i] == remotes[i].uid;
      FindUnique(remotes, i);
      assert LocalRuleLines(locals[i], local, remotes) == [];
      ProjectionDecidesSameRule(PinRule(locals[i], local.folderUID, local.title, remotes[i].orgID), remotes[i]);
    }
  }

  lemma NoLinesIfInPlace(local: Group, locals: seq<Rule>, remotes: seq<Rule>)
    requires UniqueUIDs(remotes) && locals == Present(local.rules)
    requires SameInPlace(local, locals, remotes)
    ensures AllSilent(locals, local, remotes) && AllHeld(remotes, locals)
    ensures SameOrder(locals, remotes)
  {
    hide EqualRules, Present, SharedUIDs;
    forall i | 0 <= i < |locals|
      ensures locals[i].uid == remotes[i].uid && LocalRuleLines(locals[i], local, remotes) == []
              && HasRule(locals, remotes[i].uid)
    {
      var pinned := PinRule(locals[i], local.folderUID, local.title, remotes[i].orgID);
      assert SameRule(pinned, remotes[i]) && pinned.uid == locals[i].uid;
      FindUnique(remotes, i);
      ProjectionDecidesSameRule(pinned, remotes[i]);
      assert locals[i] in locals;
    }
    forall r | r in locals ensures HasRule(remotes, r.uid) {
      var i :| 0 <= i < |locals| && locals[i] == r;
      FindUnique(remotes, i);
    }
    AllShared(locals, remotes);
    AllShared(remotes, locals);
    assert UIDs(locals) == UIDs(remotes);
  }

  lemma WrittenRules(local: Group, org: Option<int>)
    ensures Present(WriteBody(local, org).rules) == PinAll(Present(local.rules), local.folderUID, local.title, org)
    ensures RefOf(WriteBody(local, org)) == RefOf(local)
  {
    PresentOfWrap(PinAll(Present(local.rules), local.folderUID, local.title, org));
  }

  /** The organization is the only field in which the plan's pinning and the write's can differ. */
  lemma PinsAgree(r: Rule, remote: Rule, folderUID: string, group: string, org: Option<int>)
    requires org.None? ==> remote.orgID.None?
    ensures SameRule(PinRule(r, folderUID, group, org), remote) <==>
            SameRule(PinRule(r, folderUID, group, remote.orgID), remote) && (org.Some? ==> remote.orgID == org)
  {
    var a, b := PinRule(r, folderUID, group, org), PinRule(r, folderUID, group, remote.orgID);
    assert a.rest == b.rest;
  }

  /**
   A group plans as Unchanged, and the organization the write pins is the rules' own, exactly when the
   PUT would leave the remote group as it is.
   */
  lemma UnchangedMeansNoOp(local: Group, remote: Group, contextOrg: int)
    requires UniqueUIDs(Present(remote.rules))
    ensures var org := ResolvedOrg(Some(remote), contextOrg);
            NoOpWrite(WriteBody(local, org), remote) <==>
            DetailLines(local, remote) == [] && (Present(remote.rules) != [] ==> OrgsAgree(org, Present(remote.rules)))
  {
    hide DetailLines, SameRule, Present, PinRule, UniqueUIDs, FirstOrg;
    var locals, remotes := Present(local.rules), Present(remote.rules);
    var org := ResolvedOrg(Some(remote), contextOrg);
    EmptyDetailMeansSameInPlace(local, remote);
    WrittenRules(local, org);
    var written := PinAll(locals, local.folderUID, local.title, org);
    if |locals| == |remotes| {
      forall i | 0 <= i < |locals|
        ensures SameRule(written[i], remotes[i]) <==>
                SameRule(PinRule(locals[i], local.folderUID, local.title, remotes[i].orgID), remotes[i])
                && (org.Some? ==> remotes[i].orgID == org)
      {
        assert remotes[i] in remotes;
        PinsAgree(locals[i], remotes[i], local.folderUID, local.title, org);
      }
      if SameRules(written, remotes) && org.Some? {
        forall r | r in remotes ensures r.orgID == org {
          var i :| 0 <= i < |remotes| && remotes[i] == r;
          assert SameRule(written[i], remotes[i]);
        }
      }
      if SameInPlace(local, locals, remotes) && OrgsAgree(org, remotes) {
        forall i | 0 <= i < |locals| ensures SameRule(written[i], remotes[i]) {
          assert remotes[i] in remotes;
        }
      }
    }
  }

  /** Every rule the remote group holds is in the organization org. */
  predicate OneOrg(remotes: seq<Rule>, org: int) {
    forall r | r in remotes :: r.orgID == Some(org)
  }

  /** When the remote rules share one organization, Unchanged is exactly "the PUT would change nothing". */
  lemma UnchangedMeansNoOpInOneOrg(local: Group, remote: Group, org: int, contextOrg: int)
    requires UniqueUIDs(Present(remote.rules)) && OneOrg(Present(remote.rules), org)
    ensures DetailLines(local, remote) == [] <==>
            NoOpWrite(WriteBody(local, ResolvedOrg(Some(remote), contextOrg)), remote)
  {
    hide DetailLines, NoOpWrite, WriteBody, Present;
    UnchangedMeansNoOp(local, remote, contextOrg);
    var remotes := Present(remote.rules);
    if remotes != [] {
      assert remotes[0] in remotes;
      assert FirstOrg(remotes) == Some(org);
    }
  }

  /**
   The shared organization is needed: the plan pins each rule to its match's organization and the write
   pins every rule to the first one, so a mixed group is reported Unchanged and is not.
   */
  lemma MixedOrgsReportUnchanged()
    ensures exists local: Group, remote: Group ::
              && UniqueUIDs(Present(remote.rules)) && DetailLines(local, remote) == []
              && !NoOpWrite(WriteBody(local, ResolvedOrg(Some(remote), 0)), remote)
  {
    hide DetailLines, EqualRules, NoOpWrite, WriteBody, Present, JsonValues.SameMeaning;
    var first := Rule("u1", Some("cpu"), Some("f"), Some("g"), Some(1), false, 0, "", "", map[]);
    var second := first.(uid := "u2", orgID := Some(2));
    var group := Group("f", "g", 60, Wrap([first, second]));
    PresentOfWrap([first, second]);
    assert forall r | r in [first, second] :: PinRule(r, "f", "g", r.orgID) == r;
    JsonValues.SameMeaningIsReflexive(JsonValues.Obj(first.rest - RULE_KEYS));
    EmptyDetailMeansSameInPlace(group, group);
    UnchangedMeansNoOp(group, group, 0);
    assert FirstOrg([first, second]) == Some(1);
    assert second in [first, second];
  }
}
