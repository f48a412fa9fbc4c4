/** The rule-scoped guard is exact: what it accepts touches only named rules, and it accepts what the builder makes. */
module ScopedPushTheorems {
  import opened Options
  import opened AlertModels
  import opened GroupPlan
  import opened BundlePlan
  import opened ScopedPush
  import opened Sorting
  import JsonValues

  // ---------------------------------------------------------------------------------------------
  // A line names one rule
  // ---------------------------------------------------------------------------------------------

  /** v is some text, a space and a parenthesis before u. */
  predicate Extends(u: string, v: string) {
    |v| >= |u| + 2 && v[|v| - |u| - 2..] == " (" + u
  }

  /** Some titles make the lines of rules of these two uids the same. */
  predicate Confusable(u: string, v: string) {
    Extends(u, v) || Extends(v, u)
  }

  /** The line of a rule of that title and uid. */
  function TitledLine(marker: char, title: string, uid: string): string {
    [marker] + " " + title + " (" + uid + ")"
  }

  lemma LineOfRule(marker: char, r: Rule)
    requires r.uid != ""
    ensures RuleDetail(marker, r) == TitledLine(marker, TitleText(r), r.uid)
  {
  }

  lemma TitledShape(marker: char, t: string, u: string)
    ensures var line, n := TitledLine(marker, t, u), |t|;
            && |line| == n + |u| + 5 && line[n + 2] == ' ' && line[n + 3] == '('
            && line[2..n + 2] == t && line[n + 2..n + 4] == " (" && line[n + 4..|line| - 1] == u
  {
    var line := TitledLine(marker, t, u);
    assert line == [marker, ' '] + t + " (" + (u + ")");
  }

  /** The shorter of two uids with one line is where the longer one ends, right after " (". */
  lemma OneLineExtends(marker: char, t: string, u: string, t': string, v: string)
    requires TitledLine(marker, t, u) == TitledLine(marker, t', v) && |u| <= |v|
    ensures u == v || Extends(u, v)
    ensures u == v ==> t == t'
  {
    hide TitledLine;
    TitledShape(marker, t, u);
    TitledShape(marker, t', v);
    var line, n, k := TitledLine(marker, t, u), |t|, |t'|;
    if |v| >= |u| + 2 {
      assert v[n - k - 2..] == line[n + 2..|line| - 1] == line[n + 2..n + 4] + line[n + 4..|line| - 1];
    }
  }

  /** Two rules have one line only with the same uid and title, unless their uids are confusable. */
  lemma LineNamesOneRule(marker: char, a: Rule, b: Rule)
    requires a.uid != "" && b.uid != "" && !Confusable(a.uid, b.uid)
    requires RuleDetail(marker, a) == RuleDetail(marker, b)
    ensures a.uid == b.uid && TitleText(a) == TitleText(b)
  {
    hide Extends, TitledLine;
    LineOfRule(marker, a);
    LineOfRule(marker, b);
    if |a.uid| <= |b.uid| {
      OneLineExtends(marker, TitleText(a), a.uid, TitleText(b), b.uid);
    } else {
      OneLineExtends(marker, TitleText(b), b.uid, TitleText(a), a.uid);
    }
  }

  /** The titles that make the lines of a confusable pair the same. */
  lemma ConfusingTitles(marker: char, u: string, v: string) returns (t: string, t': string)
    requires Confusable(u, v)
    ensures TitledLine(marker, t, u) == TitledLine(marker, t', v)
  {
    if Extends(u, v) {
      var head := v[..|v| - |u| - 2];
      assert v == head + " (" + u;
      t, t' := " (" + head, "";
      assert TitledLine(marker, t, u) == [marker] + " " + " (" + head + " (" + u + ")" == TitledLine(marker, t', v);
    } else {
      var head := u[..|u| - |v| - 2];
      assert u == head + " (" + v;
      t, t' := "", " (" + head;
      assert TitledLine(marker, t', v) == [marker] + " " + " (" + head + " (" + v + ")" == TitledLine(marker, t, u);
    }
  }

  function NamedRule(uid: string, title: string): Rule {
    Rule(uid, Some(title), Some("f"), Some("g"), Some(1), false, 0, "", "", map[])
  }

  /** Rules of two uids can have one line exactly when one uid ends in " (" and the other. */
  lemma LinesCoincideExactlyWhenConfusable(marker: char, u: string, v: string)
    requires u != "" && v != "" && u != v
    ensures (exists a: Rule, b: Rule ::
          a.uid == u && b.uid == v && RuleDetail(marker, a) == RuleDetail(marker, b)) <==> Confusable(u, v)
  {
    hide Confusable, TitledLine;
    if Confusable(u, v) {
      var t, t' := ConfusingTitles(marker, u, v);
      LineOfRule(marker, NamedRule(u, t));
      LineOfRule(marker, NamedRule(v, t'));
      assert RuleDetail(marker, NamedRule(u, t)) == RuleDetail(marker, NamedRule(v, t'));
    }
    forall a: Rule, b: Rule | a.uid == u && b.uid == v && RuleDetail(marker, a) == RuleDetail(marker, b)
      ensures Confusable(u, v)
    {
      if !Confusable(u, v) {
        LineNamesOneRule(marker, a, b);
      }
    }
  }

  // ---------------------------------------------------------------------------------------------
  // What acceptance means
  // ---------------------------------------------------------------------------------------------

  /** No named uid in use is confusable with one in use that is not named. */
  predicate NoneConfused(uids: seq<string>, used: set<string>) {
    forall u, v | u in uids && u in used && v in used && v !in uids && u != "" && v != "" :: !Confusable(u, v)
  }

  function Used(rules: seq<Rule>): set<string> {
    set r | r in rules :: r.uid
  }

  /** The line reports a change of a rule of one of those uids. */
  ghost predicate ChangeOfNamed(line: string, uids: seq<string>) {
    exists r: Rule :: r.uid in uids && r.uid != "" && line == RuleDetail(CHANGED, r)
  }

  /** Writing the body keeps the remote group's interval and rule sequence, and every rule that is not named. */
  predicate OnlyNamedRulesChange(body: Group, remote: Group, uids: seq<string>) {
    && body.interval == remote.interval
    && UIDs(Present(body.rules)) == UIDs(Present(remote.rules))
    && KeepsUnnamed(Present(body.rules), Present(remote.rules), uids)
  }

  predicate KeepsUnnamed(a: seq<Rule>, b: seq<Rule>, uids: seq<string>) {
    |a| == |b| && forall i | 0 <= i < |a| && b[i].uid !in uids :: SameRule(a[i], b[i])
  }

  lemma NamedLineShape(line: string, uids: seq<string>)
    requires ChangeOfNamed(line, uids)
    ensures |line| > 1 && line[0] == '~' && line[|line| - 1] == ')'
  {
  }

  lemma {:induction false} LocalLineIn(rules: seq<Rule>, r: Rule, local: Group, remotes: seq<Rule>, line: string)
    requires r in rules && line in LocalRuleLines(r, local, remotes)
    ensures line in LocalLines(rules, local, remotes)
  {
    hide LocalRuleLines;
    if r != rules[|rules| - 1] {
      assert rules == rules[..|rules| - 1] + [rules[|rules| - 1]];
      LocalLineIn(rules[..|rules| - 1], r, local, remotes, line);
    }
  }

  lemma {:induction false} RemovedLineIn(rules: seq<Rule>, r: Rule, locals: seq<Rule>)
    requires r in rules && !HasRule(locals, r.uid)
    ensures RuleDetail(REMOVED, r) in RemovedLines(rules, locals)
  {
    hide RuleDetail, HasRule;
    if r != rules[|rules| - 1] {
      assert rules == rules[..|rules| - 1] + [rules[|rules| - 1]];
      RemovedLineIn(rules[..|rules| - 1], r, locals);
    }
  }

  /** Every line of the entry is about a named rule. */
  ghost predicate AllNamed(lines: seq<string>, uids: seq<string>) {
    forall line | line in lines :: ChangeOfNamed(line, uids)
  }

  lemma LinesOfEntry(g: Group, m: Group, uids: seq<string>)
    requires AllNamed(DetailLines(g, m), uids)
    ensures g.interval == m.interval && SameOrder(Present(g.rules), Present(m.rules))
    ensures AllNamed(LocalLines(Present(g.rules), g, Present(m.rules)), uids)
    ensures AllNamed(RemovedLines(Present(m.rules), Present(g.rules)), uids)
  {
    hide LocalLines, RemovedLines, SameOrder, Present, ChangeOfNamed;
    var lines := DetailLines(g, m);
    if g.interval != m.interval {
      var line := IntervalDetail(g.interval, m.interval);
      assert line == lines[0] && line in lines && line[|line| - 1] == 's';
      NamedLineShape(line, uids);
      assert false;
    }
    if !SameOrder(Present(g.rules), Present(m.rules)) {
      assert RULE_ORDER_DETAIL == lines[0] && RULE_ORDER_DETAIL in lines;
      NamedLineShape(RULE_ORDER_DETAIL, uids);
      assert false;
    }
    assert lines == RuleLines(g, m);
    var unsorted := LocalLines(Present(g.rules), g, Present(m.rules))
      + RemovedLines(Present(m.rules), Present(g.rules));
    SortHasSameElements(unsorted, StringLeq);
    assert forall line | line in unsorted :: line in lines;
  }

  /** A local rule is held remotely, and compares equal to its match unless it is named. */
  predicate HeldAndKept(r: Rule, g: Group, remotes: seq<Rule>, uids: seq<string>) {
    && HasRule(remotes, r.uid)
    && (r.uid !in uids ==>
          var found := FindRule(remotes, r.uid).value; EqualRules(PinRule(r, g.folderUID, g.title, found.orgID), found))
  }

  lemma FirstLineIsNamed(lines: seq<string>, uids: seq<string>)
    requires AllNamed(lines, uids)
    ensures lines != [] ==> |lines[0]| > 1 && lines[0][0] == '~'
  {
    if lines != [] {
      assert lines[0] in lines;
      NamedLineShape(lines[0], uids);
    }
  }

  lemma LocalRuleIsHeld(r: Rule, g: Group, remotes: seq<Rule>, uids: seq<string>)
    requires AllNamed(LocalRuleLines(r, g, remotes), uids)
    ensures HasRule(remotes, r.uid)
  {
    hide EqualRules, PinRule, ReplacedRule;
    var found := FindRule(remotes, r.uid);
    var lines := LocalRuleLines(r, g, remotes);
    assert found.None? ==> lines[0] == RuleDetail(ADDED, r);
    FirstLineIsNamed(lines, uids);
  }

  lemma LocalRuleIsKept(r: Rule, g: Group, remotes: seq<Rule>, uids: seq<string>, used: set<string>)
    requires AllNamed(LocalRuleLines(r, g, remotes), uids)
    requires (forall uid | uid in uids :: uid in used) && Used(remotes) <= used && NoneConfused(uids, used)
    ensures HeldAndKept(r, g, remotes, uids)
  {
    hide EqualRules, PinRule, ReplacedRule, Confusable;
    LocalRuleIsHeld(r, g, remotes, uids);
    var found := FindRule(remotes, r.uid);
    var lines := LocalRuleLines(r, g, remotes);
    if r.uid !in uids && !EqualRules(PinRule(r, g.folderUID, g.title, found.value.orgID), found.value) {
      var line := RuleDetail(CHANGED, r);
      assert line == lines[0] && line in lines;
      assert ChangeOfNamed(line, uids);
      var named: Rule :| named.uid in uids && named.uid != "" && line == RuleDetail(CHANGED, named);
      assert r.uid == found.value.uid && r.uid in Used(remotes);
      LineNamesOneRule(CHANGED, named, r);
      assert false;
    }
  }

  /** One accepted entry: nothing but named rules differs between what is written and what is there. */
  lemma AcceptedEntry(g: Group, m: Group, uids: seq<string>, used: set<string>, org: int, contextOrg: int)
    requires AllNamed(DetailLines(g, m), uids)
    requires UniqueUIDs(Present(m.rules)) && OneOrg(Present(m.rules), org)
    requires (forall uid | uid in uids :: uid in used) && Used(Present(m.rules)) <= used && NoneConfused(uids, used)
    ensures OnlyNamedRulesChange(WriteBody(g, ResolvedOrg(Some(m), contextOrg)), m, uids)
  {
    hide DetailLines, Present, NoneConfused, Used, LocalRuleLines, AllNamed, FirstOrg, SameOrder, UniqueUIDs;
    var locals, remotes := Present(g.rules), Present(m.rules);
    LinesOfEntry(g, m, uids);
    forall r | r in locals ensures HeldAndKept(r, g, remotes, uids) {
      assert AllNamed(LocalRuleLines(r, g, remotes), uids) by { LinesOfOne(locals, r, g, remotes, uids); }
      LocalRuleIsKept(r, g, remotes, uids, used);
    }
    NothingRemoved(remotes, locals, uids);
    var resolved := ResolvedOrg(Some(m), contextOrg);
    WrittenRules(g, resolved);
    KeptInPlace(g, locals, remotes, uids, resolved);
  }

  lemma LinesOfOne(rules: seq<Rule>, r: Rule, g: Group, remotes: seq<Rule>, uids: seq<string>)
    requires r in rules && AllNamed(LocalLines(rules, g, remotes), uids)
    ensures AllNamed(LocalRuleLines(r, g, remotes), uids)
  {
    hide LocalLines, LocalRuleLines, ChangeOfNamed;
    forall line | line in LocalRuleLines(r, g, remotes) ensures ChangeOfNamed(line, uids) {
      LocalLineIn(rules, r, g, remotes, line);
    }
  }

  lemma NothingRemoved(remotes: seq<Rule>, locals: seq<Rule>, uids: seq<string>)
    requires AllNamed(RemovedLines(remotes, locals), uids)
    ensures AllHeld(remotes, locals)
  {
    hide RemovedLines, HasRule, ChangeOfNamed;
    if r :| r in remotes && !HasRule(locals, r.uid) {
      RemovedLineIn(remotes, r, locals);
      NamedLineShape(RuleDetail(REMOVED, r), uids);
      assert false;
    }
  }

  lemma KeptInPlace(g: Group, locals: seq<Rule>, remotes: seq<Rule>, uids: seq<string>, resolved: Option<int>)
    requires forall r | r in locals :: HeldAndKept(r, g, remotes, uids)
    requires AllHeld(remotes, locals) && SameOrder(locals, remotes) && UniqueUIDs(remotes)
    requires forall r | r in remotes :: r.orgID.Some? && r.orgID == resolved
    ensures var written := PinAll(locals, g.folderUID, g.title, resolved);
            UIDs(written) == UIDs(remotes) && KeepsUnnamed(written, remotes, uids)
  {
    hide EqualRules, SameRule, SharedUIDs, FindRule, UniqueUIDs;
    assert AllHeld(locals, remotes) by {
      forall r | r in locals ensures HasRule(remotes, r.uid) {
        assert HeldAndKept(r, g, remotes, uids);
      }
    }
    AllShared(locals, remotes);
    AllShared(remotes, locals);
    var written := PinAll(locals, g.folderUID, g.title, resolved);
    assert UIDs(written) == UIDs(locals) == UIDs(remotes);
    assert |locals| == |UIDs(locals)| && |remotes| == |UIDs(remotes)|;
    forall i | 0 <= i < |remotes| && remotes[i].uid !in uids ensures SameRule(written[i], remotes[i]) {
      assert locals[i].uid == UIDs(locals)[i] == UIDs(remotes)[i] == remotes[i].uid;
      FindUnique(remotes, i);
      assert HeldAndKept(locals[i], g, remotes, uids);
      ProjectionDecidesSameRule(PinRule(locals[i], g.folderUID, g.title, remotes[i].orgID), remotes[i]);
    }
  }

  /** A group as Grafana holds it: uids in order, one organization. */
  predicate OrderlyRemote(m: Group, org: int) {
    UniqueUIDs(Present(m.rules)) && OneOrg(Present(m.rules), org)
  }

  /** Grafana's groups, and the uids they use. */
  predicate RemoteWithin(remote: Bundle, org: int, used: set<string>) {
    forall m | m in Present(remote.groups) :: OrderlyRemote(m, org) && Used(Present(m.rules)) <= used
  }

  /** The guard lets the pair through. */
  ghost predicate AcceptedPair(local: Bundle, remote: Bundle, uids: seq<string>) {
    Planned(local, remote).Some? && Accepted(Planned(local, remote).value, Present(local.groups), uids)
  }

  /** Nothing but groups is written, each onto one Grafana has, and only named rules change. */
  predicate TouchesOnlyNamed(local: Bundle, remote: Bundle, uids: seq<string>, contextOrg: int) {
    && Present(local.contactPoints) == [] && local.policies.None?
    && forall g | g in Present(local.groups) :: WriteTouchesOnlyNamed(g, remote, uids, contextOrg)
  }

  predicate WriteTouchesOnlyNamed(g: Group, remote: Bundle, uids: seq<string>, contextOrg: int) {
    var m := FindGroup(Present(remote.groups), RefOf(g));
    m.Some? && OnlyNamedRulesChange(WriteBody(g, ResolvedOrg(m, contextOrg)), m.value, uids)
  }

  /** The named uids in use. */
  function Among(uids: seq<string>, used: set<string>): (named: seq<string>)
    ensures forall uid :: uid in named <==> uid in uids && uid in used
  {
    if uids == [] then [] else (if uids[0] in used then [uids[0]] else []) + Among(uids[1..], used)
  }

  lemma AllowedLineIsNamed(groups: seq<Group>, uids: seq<string>, named: seq<string>, id: string, line: string)
    requires line in AllowedLines(groups, uids, id)
    requires forall g, uid | g in groups && uid in uids && Holds(g, uid) :: uid in named
    ensures ChangeOfNamed(line, named)
  {
    hide RuleDetail;
    var uid :| uid in CreditedTo(groups, uids, id) && line == NamedLine(FirstHolding(groups, uid).value, uid);
    var g := FirstHolding(groups, uid).value;
    var r := FindRule(Present(g.rules), uid).value;
    assert g in groups && Holds(g, uid);
    assert r.uid == uid && line == RuleDetail(CHANGED, r);
  }

  lemma AcceptedLinesAreNamed(change: Change, groups: seq<Group>, uids: seq<string>, named: seq<string>,
                              allowed: map<string, set<string>>)
    requires IsAllowed(allowed, groups, uids) && !Offends(change, allowed)
    requires forall g, uid | g in groups && uid in uids && Holds(g, uid) :: uid in named
    ensures AllNamed(change.detail, named)
  {
    hide AllowedLines, CreditedTo, ChangeOfNamed, Holds;
    forall line | line in change.detail ensures ChangeOfNamed(line, named) {
      assert line in allowed[change.id];
      AllowedLineIsNamed(groups, uids, named, change.id, line);
    }
  }

  /** The entry of a group of an accepted plan: an update of a group Grafana has, of lines about named rules. */
  lemma EntryOfAccepted(local: Bundle, remote: Bundle, uids: seq<string>, named: seq<string>, g: Group)
    requires AcceptedPair(local, remote, uids) && g in Present(local.groups)
    requires forall g, uid | g in Present(local.groups) && uid in uids && Holds(g, uid) :: uid in named
    ensures var m := FindGroup(Present(remote.groups), RefOf(g)); m.Some? && AllNamed(DetailLines(g, m.value), named)
  {
    hide Planned, DetailLines, Present, AddedLines, IsAllowed, AllNamed, Holds;
    var groups, remotes := Present(local.groups), Present(remote.groups);
    var allowed := TheAllowedLines(groups, uids);
    var i :| 0 <= i < |groups| && groups[i] == g;
    var change := GroupChange(g, remotes);
    assert GroupChanges(groups, remotes)[i] == change;
    PlanHoldsGroups(local, remote, change);
    assert !Offends(change, allowed);
    AcceptedLinesAreNamed(change, groups, uids, named, allowed);
  }

  /** Every rule of an accepted group is one Grafana holds, so a named uid it holds is in use. */
  lemma AcceptedUIDsAreUsed(local: Bundle, remote: Bundle, uids: seq<string>, used: set<string>, g: Group, uid: string)
    requires AcceptedPair(local, remote, uids) && g in Present(local.groups) && Holds(g, uid)
    requires forall m | m in Present(remote.groups) :: Used(Present(m.rules)) <= used
    ensures uid in used
  {
    hide AcceptedPair, DetailLines, Present, LocalRuleLines, LocalLines, RemovedLines, AllNamed;
    EntryOfAccepted(local, remote, uids, uids, g);
    var m := FindGroup(Present(remote.groups), RefOf(g)).value;
    LinesOfEntry(g, m, uids);
    var r := FindRule(Present(g.rules), uid).value;
    LinesOfOne(Present(g.rules), r, g, Present(m.rules), uids);
    LocalRuleIsHeld(r, g, Present(m.rules), uids);
    var held := FindRule(Present(m.rules), uid).value;
    assert held in Present(m.rules) && held.uid in Used(Present(m.rules));
  }

  lemma KeepsUnnamedAmong(a: seq<Rule>, b: seq<Rule>, uids: seq<string>, used: set<string>)
    requires KeepsUnnamed(a, b, Among(uids, used)) && Used(b) <= used
    ensures KeepsUnnamed(a, b, uids)
  {
    hide SameRule;
  }

  /**
   Soundness of the guard, whatever built the local bundle: a plan it accepts holds rule groups only,
   each one updates a group Grafana has, and the body each write sends keeps that group's interval, its
   sequence of rules and every rule that is not named.
   */
  lemma AcceptedPlanTouchesOnlyNamedRules(local: Bundle, remote: Bundle, uids: seq<string>, used: set<string>, org: int,
                                          contextOrg: int)
    requires AcceptedPair(local, remote, uids) && RemoteWithin(remote, org, used) && NoneConfused(uids, used)
    ensures TouchesOnlyNamed(local, remote, uids, contextOrg)
  {
    hide Planned, DetailLines, OnlyNamedRulesChange, Present, IsAllowed, AllNamed, Holds, NoneConfused, Used, Among,
      WriteBody, ResolvedOrg;
    var groups, remotes, named := Present(local.groups), Present(remote.groups), Among(uids, used);
    var allowed := TheAllowedLines(groups, uids);
    OnlyGroupEntries(local, remote, allowed);
    forall g, uid | g in groups && uid in uids && Holds(g, uid) ensures uid in named {
      AcceptedUIDsAreUsed(local, remote, uids, used, g, uid);
    }
    NoneConfusedAmong(uids, used);
    forall g | g in groups ensures WriteTouchesOnlyNamed(g, remote, uids, contextOrg) {
      EntryOfAccepted(local, remote, uids, named, g);
      var m := FindGroup(remotes, RefOf(g)).value;
      assert OrderlyRemote(m, org);
      AcceptedEntry(g, m, named, used, org, contextOrg);
      var body := WriteBody(g, ResolvedOrg(Some(m), contextOrg));
      assert OnlyNamedRulesChange(body, m, uids) by {
        hide *;
        OnlyAmong(body, m, uids, used);
      }
    }
  }

  lemma OnlyAmong(body: Group, m: Group, uids: seq<string>, used: set<string>)
    requires OnlyNamedRulesChange(body, m, Among(uids, used)) && Used(Present(m.rules)) <= used
    ensures OnlyNamedRulesChange(body, m, uids)
  {
    hide Present, KeepsUnnamed, Used, Among;
    KeepsUnnamedAmong(Present(body.rules), Present(m.rules), uids, used);
  }

  lemma NoneConfusedAmong(uids: seq<string>, used: set<string>)
    requires NoneConfused(uids, used)
    ensures NoneConfused(Among(uids, used), used)
  {
    hide Confusable;
  }

  /** The lines the guard allows, as a value. */
  lemma TheAllowedLines(groups: seq<Group>, uids: seq<string>) returns (allowed: map<string, set<string>>)
    ensures IsAllowed(allowed, groups, uids)
  {
    hide FirstHolding, Holds, AllowedLines, GroupID;
    var ids := set g | g in groups :: GroupID(g);
    forall id | CreditedTo(groups, uids, id) != {} ensures id in ids {
      var uid :| uid in CreditedTo(groups, uids, id);
      assert FirstHolding(groups, uid).value in groups;
    }
    allowed := map id | id in ids && CreditedTo(groups, uids, id) != {} :: AllowedLines(groups, uids, id);
  }

  lemma OnlyGroupEntries(local: Bundle, remote: Bundle, allowed: map<string, set<string>>)
    requires Planned(local, remote).Some? && forall c | c in Planned(local, remote).value :: !Offends(c, allowed)
    ensures Present(local.contactPoints) == [] && local.policies.None?
  {
    hide Planned, Present, PointChange, GroupChanges;
    PlannedPoints(local, remote);
    var points := PointChanges(Present(local.contactPoints), remote.contactPoints).value;
    PointKinds(Present(local.contactPoints), remote.contactPoints);
    if points != [] {
      assert points[0] in points && points[0].kind == ContactPointKind;
      PlanHoldsGroups(local, remote, points[0]);
      assert false;
    }
    if local.policies.Some? {
      var tree := TreeChanges(local.policies, remote.policies);
      assert tree[0] in tree;
      PlanHoldsGroups(local, remote, tree[0]);
      assert false;
    }
  }

  lemma PlannedPoints(local: Bundle, remote: Bundle)
    requires Planned(local, remote).Some?
    ensures PointChanges(Present(local.contactPoints), remote.contactPoints).Some?
  {
    hide PointChanges, TreeChanges, GroupChanges;
  }

  // ---------------------------------------------------------------------------------------------
  // What the builder makes is accepted
  // ---------------------------------------------------------------------------------------------

  /** A group as Grafana answers it: uids in order, every rule carrying its group's folder and title. */
  predicate WellFormedGroup(m: Group) {
    UniqueUIDs(Present(m.rules)) && forall r | r in Present(m.rules) ::
      r.folderUID == Some(m.folderUID) && r.ruleGroup == Some(m.title)
  }

  /** A uid addresses one rule in the whole instance. */
  ghost predicate UIDsApart(groups: seq<Group>) {
    forall g, h, uid | g in groups && h in groups && Holds(g, uid) && Holds(h, uid) :: g == h
  }

  lemma PresentSubstituted(remote: Group, locals: seq<Group>, uids: seq<string>)
    ensures var s, r := Present(Synthetic(remote, locals, uids).rules), Present(remote.rules);
            |s| == |r| && forall i | 0 <= i < |r| :: s[i] == Substituted(r[i], locals, uids)
  {
    hide Substituted, Present, MapSlots;
    PresentOfMapped(remote.rules, Substitution(locals, uids));
  }

  lemma SubstitutedKeepsUID(r: Rule, locals: seq<Group>, uids: seq<string>)
    ensures Substituted(r, locals, uids).uid == r.uid
    ensures r.uid !in uids ==> Substituted(r, locals, uids) == r
  {
  }

  /** The synthetic group holds the uids of the remote one, in the same places. */
  lemma SyntheticKeepsUIDs(m: Group, locals: seq<Group>, uids: seq<string>)
    ensures var s, r := Present(Synthetic(m, locals, uids).rules), Present(m.rules);
            && UIDs(s) == UIDs(r) && |s| == |r|
            && forall i | 0 <= i < |r| :: s[i] == Substituted(r[i], locals, uids) && s[i].uid == r[i].uid
  {
    hide Substituted, Synthetic, Present;
    PresentSubstituted(m, locals, uids);
    forall i | 0 <= i < |Present(m.rules)|
      ensures Present(Synthetic(m, locals, uids).rules)[i].uid == Present(m.rules)[i].uid
    {
      SubstitutedKeepsUID(Present(m.rules)[i], locals, uids);
    }
  }

  lemma SyntheticHolds(m: Group, locals: seq<Group>, uids: seq<string>, uid: string)
    ensures Holds(Synthetic(m, locals, uids), uid) <==> Holds(m, uid)
  {
    hide Synthetic, HasRule, Present;
    SyntheticKeepsUIDs(m, locals, uids);
    HeldByIndex(Present(m.rules), uid);
    HeldByIndex(Present(Synthetic(m, locals, uids).rules), uid);
  }

  /** The line of a named rule of the synthetic group. */
  ghost predicate IsNamedLineOf(line: string, s: Group, uids: seq<string>) {
    exists uid :: uid in uids && Holds(s, uid) && line == NamedLine(s, uid)
  }

  lemma UnnamedIsSilent(m: Group, s: Group, i: nat)
    requires WellFormedGroup(m) && i < |Present(m.rules)| && s.folderUID == m.folderUID && s.title == m.title
    ensures LocalRuleLines(Present(m.rules)[i], s, Present(m.rules)) == []
  {
    hide Present, EqualRules, UniqueUIDs, PinRule;
    var remotes := Present(m.rules);
    FindUnique(remotes, i);
    assert remotes[i] in remotes;
    PinnedUnchanged(remotes[i], m);
  }

  lemma NamedReportsItself(s: Group, uids: seq<string>, i: nat, remotes: seq<Rule>, line: string)
    requires UniqueUIDs(Present(s.rules)) && i < |Present(s.rules)| && Present(s.rules)[i].uid in uids
    requires HasRule(remotes, Present(s.rules)[i].uid) && line in LocalRuleLines(Present(s.rules)[i], s, remotes)
    ensures IsNamedLineOf(line, s, uids)
  {
    hide Present, EqualRules, RuleDetail, UniqueUIDs, PinRule, ReplacedRule, IsNamedLineOf;
    var rules := Present(s.rules);
    FindUnique(rules, i);
    assert line == RuleDetail(CHANGED, rules[i]) == NamedLine(s, rules[i].uid);
    NamesItself(s, uids, rules[i].uid);
  }

  lemma SyntheticRuleLines(m: Group, locals: seq<Group>, uids: seq<string>, i: nat, line: string)
    requires WellFormedGroup(m) && i < |Present(Synthetic(m, locals, uids).rules)|
    requires line in LocalRuleLines(Present(Synthetic(m, locals, uids).rules)[i], Synthetic(m, locals, uids),
                                    Present(m.rules))
    ensures IsNamedLineOf(line, Synthetic(m, locals, uids), uids)
  {
    hide Present, LocalRuleLines, Synthetic, UniqueUIDs, Substituted, IsNamedLineOf, FindRule;
    var s, remotes := Synthetic(m, locals, uids), Present(m.rules);
    var rules := Present(s.rules);
    SyntheticKeepsUIDs(m, locals, uids);
    SyntheticIdentity(m, locals, uids);
    SubstitutedKeepsUID(remotes[i], locals, uids);
    if rules[i].uid in uids {
      SameUIDsUnique(rules, remotes);
      FindUnique(remotes, i);
      NamedReportsItself(s, uids, i, remotes, line);
    } else {
      UnnamedIsSilent(m, s, i);
    }
  }

  lemma NamesItself(s: Group, uids: seq<string>, uid: string)
    requires uid in uids && Holds(s, uid)
    ensures IsNamedLineOf(NamedLine(s, uid), s, uids)
  {
  }

  lemma SyntheticIdentity(m: Group, locals: seq<Group>, uids: seq<string>)
    ensures var s := Synthetic(m, locals, uids);
            s.folderUID == m.folderUID && s.title == m.title && s.interval == m.interval
  {
  }

  lemma PinnedUnchanged(r: Rule, m: Group)
    requires r.folderUID == Some(m.folderUID) && r.ruleGroup == Some(m.title)
    ensures EqualRules(PinRule(r, m.folderUID, m.title, r.orgID), r)
  {
    var pinned := PinRule(r, m.folderUID, m.title, r.orgID);
    JsonValues.SameMeaningIsReflexive(JsonValues.Obj(r.rest - RULE_KEYS));
    ProjectionDecidesSameRule(pinned, r);
  }

  lemma SameUIDsUnique(a: seq<Rule>, b: seq<Rule>)
    requires UniqueUIDs(b) && |a| == |b| && forall i | 0 <= i < |b| :: a[i].uid == b[i].uid
    ensures UniqueUIDs(a)
  {
  }

  lemma {:induction false} SourceOfLocalLine(rules: seq<Rule>, local: Group, remotes: seq<Rule>, line: string)
    returns (i: nat)
    requires line in LocalLines(rules, local, remotes)
    ensures i < |rules| && line in LocalRuleLines(rules[i], local, remotes)
  {
    hide LocalRuleLines;
    if line in LocalRuleLines(rules[|rules| - 1], local, remotes) {
      i := |rules| - 1;
    } else {
      i := SourceOfLocalLine(rules[..|rules| - 1], local, remotes, line);
    }
  }

  /** Planned against the group it was built from, a synthetic group reports named rules only. */
  lemma SyntheticEntry(m: Group, locals: seq<Group>, uids: seq<string>, line: string)
    requires WellFormedGroup(m)
    requires line in DetailLines(Synthetic(m, locals, uids), m)
    ensures IsNamedLineOf(line, Synthetic(m, locals, uids), uids)
  {
    hide Present, Synthetic, LocalRuleLines, IsNamedLineOf, LocalLines, RemovedLines, UniqueUIDs;
    var s := Synthetic(m, locals, uids);
    SyntheticKeepsUIDs(m, locals, uids);
    SyntheticIdentity(m, locals, uids);
    SameUIDsShared(Present(s.rules), Present(m.rules));
    NoLinesFromRemote(Present(m.rules), Present(s.rules));
    var unsorted := LocalLines(Present(s.rules), s, Present(m.rules))
      + RemovedLines(Present(m.rules), Present(s.rules));
    assert DetailLines(s, m) == Sort(unsorted, StringLeq);
    SortHasSameElements(unsorted, StringLeq);
    var i := SourceOfLocalLine(Present(s.rules), s, Present(m.rules), line);
    SyntheticRuleLines(m, locals, uids, i, line);
  }

  lemma HeldInPlace(a: seq<Rule>, b: seq<Rule>)
    requires UniqueUIDs(b) && |a| == |b| && forall i | 0 <= i < |b| :: a[i].uid == b[i].uid
    ensures AllHeld(a, b)
  {
    hide FindRule, UniqueUIDs;
    forall r | r in a ensures HasRule(b, r.uid) {
      var i :| 0 <= i < |a| && a[i] == r;
      FindUnique(b, i);
    }
  }

  lemma SameUIDsShared(a: seq<Rule>, b: seq<Rule>)
    requires UniqueUIDs(b) && |a| == |b| && forall i | 0 <= i < |b| :: a[i].uid == b[i].uid
    ensures SameOrder(a, b) && AllHeld(b, a)
  {
    hide UniqueUIDs, AllHeld, SharedUIDs;
    SameUIDsUnique(a, b);
    HeldInPlace(a, b);
    HeldInPlace(b, a);
    AllShared(a, b);
    AllShared(b, a);
    assert UIDs(a) == UIDs(b);
  }

  // The groups the builder pairs.

  /** h is the first group holding one of the uids. */
  ghost predicate FirstHolderOfOne(remotes: seq<Group>, uids: seq<string>, h: Group) {
    exists uid :: uid in uids && FirstHolding(remotes, uid) == Some(h)
  }

  /** Every held group is the holder of some named rule. */
  lemma {:induction false} HeldGroupsAreHolders(remotes: seq<Group>, uids: seq<string>)
    ensures forall h | h in HeldGroups(remotes, uids) :: h in remotes && FirstHolderOfOne(remotes, uids, h)
  {
    hide FirstHolding, GroupID, Listed;
    if uids != [] {
      var front, last := uids[..|uids| - 1], uids[|uids| - 1];
      HeldGroupsAreHolders(remotes, front);
      assert uids == front + [last];
      forall h | h in HeldGroups(remotes, uids) ensures h in remotes && FirstHolderOfOne(remotes, uids, h) {
        if h in HeldGroups(remotes, front) {
          var uid :| uid in front && FirstHolding(remotes, uid) == Some(h);
          assert uid in uids;
        } else {
          assert last in uids && FirstHolding(remotes, last) == Some(h);
        }
      }
    }
  }

  /** No two held groups have one plan ID. */
  lemma {:induction false} HeldGroupsHaveIDsOfTheirOwn(remotes: seq<Group>, uids: seq<string>)
    ensures forall i, j | 0 <= i < j < |HeldGroups(remotes, uids)| ::
              GroupID(HeldGroups(remotes, uids)[i]) != GroupID(HeldGroups(remotes, uids)[j])
  {
    hide FirstHolding, GroupID;
    if uids != [] {
      var front := uids[..|uids| - 1];
      HeldGroupsHaveIDsOfTheirOwn(remotes, front);
      forall i | 0 <= i < |HeldGroups(remotes, front)|
        ensures Listed(HeldGroups(remotes, front), GroupID(HeldGroups(remotes, front)[i]))
      {
        assert HeldGroups(remotes, front)[i] in HeldGroups(remotes, front);
      }
    }
  }

  /** The entry of one synthetic group in the plan of the pair. */
  lemma SyntheticIsMatched(held: seq<Group>, locals: seq<Group>, uids: seq<string>, h: Group)
    requires h in held && forall i, j | 0 <= i < j < |held| :: GroupID(held[i]) != GroupID(held[j])
    ensures FindGroup(Sort(held, GroupLeq), RefOf(Synthetic(h, locals, uids))) == Some(h)
  {
    hide Synthetic, Sort;
    SyntheticIdentity(h, locals, uids);
    SortHasSameElements(held, GroupLeq);
    var found := FindGroup(Sort(held, GroupLeq), RefOf(h));
    assert found.Some? && found.value in held;
    var i :| 0 <= i < |held| && held[i] == h;
    var j :| 0 <= j < |held| && held[j] == found.value;
    assert GroupID(held[i]) == GroupID(held[j]);
  }

  /** The synthetic group holding a named rule is credited with it. */
  lemma SyntheticIsCredited(remotes: seq<Group>, locals: seq<Group>, uids: seq<string>, held: seq<Group>, h: Group,
                            uid: string)
    requires UIDsApart(remotes) && h in held && (forall g | g in held :: g in remotes) && uid in uids && Holds(h, uid)
    ensures FirstHolding(Sort(SyntheticGroups(held, locals, uids), GroupLeq), uid) == Some(Synthetic(h, locals, uids))
  {
    hide Synthetic, Sort, Holds;
    var synthetic := SyntheticGroups(held, locals, uids);
    SortHasSameElements(synthetic, GroupLeq);
    var i :| 0 <= i < |held| && held[i] == h;
    assert synthetic[i] in synthetic;
    SyntheticHolds(h, locals, uids, uid);
    var first := FirstHolding(Sort(synthetic, GroupLeq), uid);
    assert first.Some? && first.value in synthetic && Holds(first.value, uid);
    var j :| 0 <= j < |held| && synthetic[j] == first.value;
    SyntheticHolds(held[j], locals, uids, uid);
    assert held[j] in held;
  }

  /** One entry of the plan of the pair the builder made is allowed. */
  lemma SyntheticEntryIsAllowed(remotes: seq<Group>, locals: seq<Group>, uids: seq<string>, h: Group,
                                allowed: map<string, set<string>>)
    requires UIDsApart(remotes) && (forall m | m in remotes :: WellFormedGroup(m)) && h in HeldGroups(remotes, uids)
    requires IsAllowed(allowed, Sort(SyntheticGroups(HeldGroups(remotes, uids), locals, uids), GroupLeq), uids)
    ensures !Offends(GroupChange(Synthetic(h, locals, uids), Sort(HeldGroups(remotes, uids), GroupLeq)), allowed)
  {
    hide Synthetic, Sort, Holds, DetailLines, NamedLine, FirstHolding, UIDsApart, WellFormedGroup, GroupID, HeldGroups;
    var held := HeldGroups(remotes, uids);
    var s, groups := Synthetic(h, locals, uids), Sort(SyntheticGroups(held, locals, uids), GroupLeq);
    HeldGroupsAreHolders(remotes, uids);
    HeldGroupsHaveIDsOfTheirOwn(remotes, uids);
    assert FirstHolderOfOne(remotes, uids, h);
    SyntheticIsMatched(held, locals, uids, h);
    var change := GroupChange(s, Sort(held, GroupLeq));
    assert change.id == GroupID(s) && change.detail == DetailLines(s, h);
    var uid :| uid in uids && FirstHolding(remotes, uid) == Some(h);
    SyntheticIsCredited(remotes, locals, uids, held, h, uid);
    assert uid in CreditedTo(groups, uids, change.id);
    assert change.id in allowed;
    forall line | line in change.detail ensures line in allowed[change.id] {
      SyntheticEntry(h, locals, uids, line);
      var u :| u in uids && Holds(s, u) && line == NamedLine(s, u);
      SyntheticHolds(h, locals, uids, u);
      SyntheticIsCredited(remotes, locals, uids, held, h, u);
      assert u in CreditedTo(groups, uids, change.id);
      assert line in AllowedLines(groups, uids, change.id);
    }
  }

  lemma PlanOfPair(synthetic: seq<Group>, held: seq<Group>)
    ensures Planned(OnlyGroups(synthetic), OnlyGroups(held)).Some?
    ensures forall c | c in Planned(OnlyGroups(synthetic), OnlyGroups(held)).value :: c in GroupChanges(synthetic, held)
  {
    hide GroupChange;
    PresentOfWrap(synthetic);
    PresentOfWrap(held);
    var changes := GroupChanges(synthetic, held);
    var none: seq<Change> := [];
    assert none + none + changes == changes;
    SortHasSameElements(changes, ChangeLeq);
  }

  /**
   Completeness: from a bundle and a well-formed Grafana, whatever the builder makes is accepted by the
   guard.
   */
  lemma BuiltPairIsAccepted(local: Bundle, remote: Bundle, uids: seq<string>)
    requires ScopedPair(local, remote, uids).Some?
    requires UIDsApart(Present(remote.groups)) && forall m | m in Present(remote.groups) :: WellFormedGroup(m)
    ensures var (synthetic, held) := ScopedPair(local, remote, uids).value;
            && Planned(synthetic, held).Some?
            && Accepted(Planned(synthetic, held).value, Present(synthetic.groups), uids)
  {
    hide Planned, Synthetic, Sort, Present, Offends, IsAllowed, HeldGroups, UIDsApart, WellFormedGroup, GroupChange;
    var locals, remotes := Present(local.groups), Present(remote.groups);
    var held := HeldGroups(remotes, uids);
    var groups, sorted := Sort(SyntheticGroups(held, locals, uids), GroupLeq), Sort(held, GroupLeq);
    PlanOfPair(groups, sorted);
    PresentOfWrap(groups);
    SortHasSameElements(SyntheticGroups(held, locals, uids), GroupLeq);
    var plan := Planned(OnlyGroups(groups), OnlyGroups(sorted)).value;
    forall allowed, c | IsAllowed(allowed, groups, uids) && c in plan ensures !Offends(c, allowed) {
      assert c in GroupChanges(groups, sorted);
      var i :| 0 <= i < |groups| && c == GroupChange(groups[i], sorted);
      assert groups[i] in groups;
      var j :| 0 <= j < |held| && groups[i] == Synthetic(held[j], locals, uids);
      assert held[j] in held;
      SyntheticEntryIsAllowed(remotes, locals, uids, held[j], allowed);
    }
  }

  /**
   The body of a held group: in each place the bundle's version of a named rule, sent whole, or Grafana's own
   rule.
   */
  predicate IsScopedBody(body: Group, m: Group, locals: seq<Group>, uids: seq<string>, org: int) {
    var written, remotes := Present(body.rules), Present(m.rules);
    && RefOf(body) == RefOf(m) && body.interval == m.interval && |written| == |remotes|
    && forall i | 0 <= i < |remotes| ::
         if remotes[i].uid in uids && Locate(locals, remotes[i].uid).Some?
         then written[i] == PinRule(Locate(locals, remotes[i].uid).value.rule, m.folderUID, m.title, Some(org))
         else SameRule(written[i], remotes[i])
  }

  /** The body written for a held group: named rules come whole from the bundle, the others are Grafana's own. */
  lemma ScopedBodyIsExact(m: Group, locals: seq<Group>, uids: seq<string>, org: int, contextOrg: int)
    requires WellFormedGroup(m) && OneOrg(Present(m.rules), org)
    ensures IsScopedBody(WriteBody(Synthetic(m, locals, uids), ResolvedOrg(Some(m), contextOrg)), m, locals, uids, org)
  {
    hide Synthetic, Present, Locate, EqualRules, UniqueUIDs, FirstOrg, SameRule;
    var s, remotes := Synthetic(m, locals, uids), Present(m.rules);
    var resolved := ResolvedOrg(Some(m), contextOrg);
    WrittenRules(s, resolved);
    SyntheticKeepsUIDs(m, locals, uids);
    SyntheticIdentity(m, locals, uids);
    forall i | 0 <= i < |remotes|
      ensures resolved == Some(org)
      ensures SameRule(PinRule(remotes[i], m.folderUID, m.title, Some(org)), remotes[i])
    {
      assert remotes[i] in remotes;
      PinnedUnchanged(remotes[i], m);
      ProjectionDecidesSameRule(PinRule(remotes[i], m.folderUID, m.title, Some(org)), remotes[i]);
    }
  }

  // ---------------------------------------------------------------------------------------------
  // When the guard is sound
  // ---------------------------------------------------------------------------------------------

  /** The remote group of a confusable pair of uids, and the same group with the second rule paused. */
  function PairGroup(a: Rule, b: Rule): Group {
    Group("f", "g", 60, Wrap([a, b]))
  }

  lemma PausingIsOneLine(a: Rule, b: Rule)
    requires a.uid != "" && b.uid != "" && a.uid != b.uid && !b.isPaused
    requires forall r | r in [a, b] :: r.folderUID == Some("f") && r.ruleGroup == Some("g")
    ensures DetailLines(PairGroup(a, b.(isPaused := true)), PairGroup(a, b)) == [RuleDetail(CHANGED, b)]
  {
    hide EqualRules, Present, RuleDetail, AllHeld, SameOrder, RemovedLines, LocalLines, SameRule;
    var c := b.(isPaused := true);
    var g, m := PairGroup(a, c), PairGroup(a, b);
    PresentOfWrap([a, c]);
    PresentOfWrap([a, b]);
    SameUIDsShared([a, c], [a, b]);
    NoLinesFromRemote([a, b], [a, c]);
    FindUnique([a, b], 0);
    FindUnique([a, b], 1);
    PinnedUnchanged(a, m);
    assert !SameRule(PinRule(c, "f", "g", b.orgID), b) by { PausedDiffers(PinRule(c, "f", "g", b.orgID), b); }
    ProjectionDecidesSameRule(PinRule(c, "f", "g", b.orgID), b);
    assert LocalRuleLines(a, g, [a, b]) == [];
    assert LocalRuleLines(c, g, [a, b]) == [RuleDetail(CHANGED, c)];
    TwoLocalLines(a, c, g, [a, b]);
    assert RuleDetail(CHANGED, c) == RuleDetail(CHANGED, b) by { DetailIgnoresPause(b); }
    assert [RuleDetail(CHANGED, c)] + [] == [RuleDetail(CHANGED, c)];
    SortOne(RuleDetail(CHANGED, c));
  }

  lemma SortOne(line: string)
    ensures Sort([line], StringLeq) == [line]
  {
  }

  lemma DetailIgnoresPause(b: Rule)
    ensures RuleDetail(CHANGED, b.(isPaused := true)) == RuleDetail(CHANGED, b)
  {
  }

  lemma PausedDiffers(a: Rule, b: Rule)
    requires a.isPaused != b.isPaused
    ensures !SameRule(a, b)
  {
  }

  lemma TwoLocalLines(a: Rule, b: Rule, g: Group, remotes: seq<Rule>)
    ensures LocalLines([a, b], g, remotes) == LocalRuleLines(a, g, remotes) + LocalRuleLines(b, g, remotes)
  {
    hide LocalRuleLines;
    LocalLinesSnoc([], a, g, remotes);
    LocalLinesSnoc([a], b, g, remotes);
    assert [] + [a] == [a] && [a] + [b] == [a, b];
  }

  /** A line allowed for the one named rule of the pair lets the change of the other through. */
  lemma ConfusedPairIsAccepted(a: Rule, b: Rule, uids: seq<string>)
    requires a.uid in uids && b.uid !in uids && a.uid != "" && b.uid != "" && !b.isPaused
    requires forall r | r in [a, b] :: r.folderUID == Some("f") && r.ruleGroup == Some("g")
    requires RuleDetail(CHANGED, a) == RuleDetail(CHANGED, b)
    ensures AcceptedPair(OnlyGroups([PairGroup(a, b.(isPaused := true))]), OnlyGroups([PairGroup(a, b)]), uids)
  {
    hide Planned, Present, DetailLines, RuleDetail, AddedLines, GroupID;
    var c := b.(isPaused := true);
    var g, m := PairGroup(a, c), PairGroup(a, b);
    PausingIsOneLine(a, b);
    PlanOfPair([g], [m]);
    PresentOfWrap([g]);
    PresentOfWrap([a, c]);
    FindUnique([a, c], 0);
    assert Holds(g, a.uid) && FirstHolding([g], a.uid) == Some(g);
    assert a.uid in CreditedTo([g], uids, GroupID(g));
    assert NamedLine(g, a.uid) in AllowedLines([g], uids, GroupID(g));
    var change := GroupChange(g, [m]);
    assert FindGroup([m], RefOf(g)) == Some(m);
    assert change == Change(Update, RuleGroupKind, GroupID(g), [RuleDetail(CHANGED, b)]);
    forall allowed, d | IsAllowed(allowed, [g], uids) && d in Planned(OnlyGroups([g]), OnlyGroups([m])).value
      ensures !Offends(d, allowed)
    {
      assert d == change;
    }
  }

  /** What the guard lets through changes named rules only, whatever the pair of bundles. */
  ghost predicate GuardIsSound(uids: seq<string>, used: set<string>) {
    forall local, remote, org, contextOrg | RemoteWithin(remote, org, used) && AcceptedPair(local, remote, uids) ::
      TouchesOnlyNamed(local, remote, uids, contextOrg)
  }

  lemma ConfusedPairSlipsThrough(uids: seq<string>, used: set<string>, u: string, v: string)
    requires u in uids && v !in uids && u in used && v in used && u != "" && v != "" && Confusable(u, v)
    ensures !GuardIsSound(uids, used)
  {
    hide Confusable, Present, SameRule, TitledLine, RuleDetail, AcceptedPair, FirstOrg;
    var t, t' := ConfusingTitles(CHANGED, u, v);
    var a, b := NamedRule(u, t), NamedRule(v, t');
    LineOfRule(CHANGED, a);
    LineOfRule(CHANGED, b);
    ConfusedPairIsAccepted(a, b, uids);
    var c := b.(isPaused := true);
    var g, m := PairGroup(a, c), PairGroup(a, b);
    PresentOfWrap([g]);
    PresentOfWrap([m]);
    PresentOfWrap([a, b]);
    assert RemoteWithin(OnlyGroups([m]), 1, used);
    var org := ResolvedOrg(Some(m), 0);
    WrittenRules(g, org);
    PresentOfWrap([a, c]);
    assert FindGroup([m], RefOf(g)) == Some(m);
    PausedDiffers(PinRule(c, "f", "g", org), b);
    assert !KeepsUnnamed(PinAll([a, c], "f", "g", org), [a, b], uids) by {
      assert [a, b][1].uid !in uids;
    }
    assert !WriteTouchesOnlyNamed(g, OnlyGroups([m]), uids, 0);
    assert g in Present(OnlyGroups([g]).groups);
    assert !TouchesOnlyNamed(OnlyGroups([g]), OnlyGroups([m]), uids, 0);
  }

  /** The guard is sound exactly when no named uid in use is confusable with one that is not named. */
  lemma GuardIsSoundExactlyWhenNoneConfused(uids: seq<string>, used: set<string>)
    ensures GuardIsSound(uids, used) <==> NoneConfused(uids, used)
  {
    hide Confusable, AcceptedPair, RemoteWithin, TouchesOnlyNamed;
    if NoneConfused(uids, used) {
      forall local, remote, org, contextOrg | RemoteWithin(remote, org, used) && AcceptedPair(local, remote, uids)
        ensures TouchesOnlyNamed(local, remote, uids, contextOrg)
      {
        AcceptedPlanTouchesOnlyNamedRules(local, remote, uids, used, org, contextOrg);
      }
    } else {
      var u, v :| u in uids && u in used && v in used && v !in uids && u != "" && v != "" && Confusable(u, v);
      ConfusedPairSlipsThrough(uids, used, u, v);
    }
  }
}
