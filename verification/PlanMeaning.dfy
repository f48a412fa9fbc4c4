/**
 What a plan says, in terms of the two bundles alone: when two contact points are equal, which organization
 and which rule a plan names, and which lines an entry holds.
 */
module PlanMeaning {
  import opened Options
  import opened JsonValues
  import opened AlertModels
  import opened BundlePlan
  import opened GroupPlan
  import opened RouteTree
  import opened Sorting
  import Decimal

  // ---------------------------------------------------------------------------------------------
  // Equal contact points
  // ---------------------------------------------------------------------------------------------

  /** Redacted equality of two objects is redacted equality key by key. */
  lemma EqualByKey(f: map<string, Json>, g: map<string, Json>)
    ensures EqualRedacted(Obj(f), Obj(g)) <==>
            forall k :: (k in f <==> k in g) && (k in f && k in g ==> EqualRedacted(f[k], g[k]))
  {
    if EqualRedacted(Obj(f), Obj(g)) {
      assert |f.Keys| == |g.Keys|;
      SubsetOfSameSize(f.Keys, g.Keys);
    }
    if forall k :: (k in f <==> k in g) && (k in f && k in g ==> EqualRedacted(f[k], g[k])) {
      assert f.Keys == g.Keys;
      assert |f| == |f.Keys| && |g| == |g.Keys|;
    }
  }

  /** The two settings carry nothing both, or are equal where the local one is not a marker. */
  predicate SameSetting(local: Json, remote: Json) {
    (Vacuous(local) <==> Vacuous(remote))
    && (!Vacuous(local) ==> EqualRedacted(DropEmpty(local), DropEmpty(remote)))
  }

  lemma EqualBySetting(f: map<string, Json>, g: map<string, Json>)
    ensures EqualRedacted(DropEmpty(Obj(f)), DropEmpty(Obj(g))) <==> forall k :: SameSetting(Field(f, k), Field(g, k))
  {
    hide EqualRedacted, Vacuous, DropEmpty;
    var d, e := DropEmpty(Obj(f)), DropEmpty(Obj(g));
    assert d.Obj? && e.Obj? by { DropKeepsObject(f); DropKeepsObject(g); }
    assert Vacuous(Null) by { NullIsVacuous(); }
    EqualByKey(d.fields, e.fields);
    forall k
      ensures SameSetting(Field(f, k), Field(g, k)) <==>
              (k in d.fields <==> k in e.fields)
              && (k in d.fields && k in e.fields ==> EqualRedacted(d.fields[k], e.fields[k]))
    {
      DroppedKey(f, k);
      DroppedKey(g, k);
    }
  }

  lemma DropKeepsObject(f: map<string, Json>)
    ensures DropEmpty(Obj(f)).Obj?
  {
  }

  lemma NullIsVacuous()
    ensures Vacuous(Null)
  {
  }

  /**
   Two contact points are equal exactly when their names are, or the bundle's is a redacted one and the remote
   has a name, and every other setting is: the uid and the provenance have no say.
   */
  lemma EqualPointsFieldByField(local: ContactPoint, remote: ContactPoint)
    ensures EqualContactPoints(local, remote) <==>
            && (local.name == remote.name || (local.name == "[REDACTED]" && remote.name != ""))
            && forall k | k !in {"uid", "name", "provenance"} ::
                 SameSetting(Field(local.rest, k), Field(remote.rest, k))
  {
    hide DropEmpty;
    var f, g := PointFields(ContactPointBody(local, remote.uid)), PointFields(remote);
    EqualBySetting(f, g);
    forall k | k !in {"uid", "name", "provenance"}
      ensures Field(f, k) == Field(local.rest, k) && Field(g, k) == Field(remote.rest, k)
    {
    }
    assert SameSetting(Field(f, "uid"), Field(g, "uid")) by { SameText(remote.uid, remote.uid); }
    assert SameSetting(Field(f, "provenance"), Field(g, "provenance"));
    SameText(local.name, remote.name);
    if local.name == remote.name || (local.name == "[REDACTED]" && remote.name != "") {
      assert SameSetting(Field(f, "name"), Field(g, "name"));
    }
    if EqualContactPoints(local, remote) {
      assert SameSetting(Field(f, "name"), Field(g, "name"));
      forall k | k !in {"uid", "name", "provenance"} ensures SameSetting(Field(local.rest, k), Field(remote.rest, k)) {
        assert SameSetting(Field(f, k), Field(g, k));
      }
    }
  }

  /** A text that is left out when it is empty. */
  function OmitEmpty(s: string): Json {
    if s != "" then Str(s) else Null
  }

  lemma SameText(a: string, b: string)
    ensures SameSetting(OmitEmpty(a), OmitEmpty(b)) <==> a == b || (a == "[REDACTED]" && b != "")
  {
  }

  // ---------------------------------------------------------------------------------------------
  // The organization and the rule a plan names
  // ---------------------------------------------------------------------------------------------

  /** The rule at k is the first with an organization. */
  predicate FirstWithOrg(rules: seq<Rule>, k: int) {
    0 <= k < |rules| && rules[k].orgID.Some? && forall j | 0 <= j < k :: rules[j].orgID.None?
  }

  lemma {:induction false} FirstOrgIsFirst(rules: seq<Rule>, k: int)
    requires FirstWithOrg(rules, k)
    ensures FirstOrg(rules) == rules[k].orgID
  {
    if rules[0].orgID.None? {
      assert forall j | 0 <= j < k - 1 :: rules[1..][j] == rules[j + 1];
      FirstOrgIsFirst(rules[1..], k - 1);
    }
  }

  /** A write claims the organization of the first remote rule that has one, and the context's when none has. */
  lemma ResolvedOrgIsExact(remote: Option<Group>, contextOrg: int)
    ensures remote.Some? ==> forall k | FirstWithOrg(Present(remote.value.rules), k) ::
              ResolvedOrg(remote, contextOrg) == Present(remote.value.rules)[k].orgID
    ensures (remote.Some? ==> forall r | r in Present(remote.value.rules) :: r.orgID.None?) ==>
              if contextOrg == 0 then ResolvedOrg(remote, contextOrg) == None
              else ResolvedOrg(remote, contextOrg) == Some(contextOrg)
  {
    hide Present, FirstOrg;
    if remote.Some? {
      forall k | FirstWithOrg(Present(remote.value.rules), k)
        ensures ResolvedOrg(remote, contextOrg) == Present(remote.value.rules)[k].orgID
      {
        FirstOrgIsFirst(Present(remote.value.rules), k);
      }
    }
  }

  /** The remote rule has that title and its uid is no local rule's. */
  predicate Unclaimed(r: Rule, title: string, locals: seq<Rule>) {
    r.title == Some(title) && (r.uid == "" || forall l | l in locals :: l.uid != r.uid)
  }

  predicate FirstUnclaimedAt(remotes: seq<Rule>, title: string, locals: seq<Rule>, k: int) {
    0 <= k < |remotes| && Unclaimed(remotes[k], title, locals)
    && forall j | 0 <= j < k :: !Unclaimed(remotes[j], title, locals)
  }

  lemma {:induction false} FirstUnclaimedIsFirst(remotes: seq<Rule>, title: string, locals: seq<Rule>)
    ensures forall k | FirstUnclaimedAt(remotes, title, locals, k) ::
              FirstUnclaimed(remotes, title, locals) == Some(remotes[k])
    ensures FirstUnclaimed(remotes, title, locals).None? <==>
            forall r | r in remotes :: !Unclaimed(r, title, locals)
  {
    if remotes != [] {
      var rest := remotes[1..];
      assert remotes == [remotes[0]] + rest;
      FirstUnclaimedIsFirst(rest, title, locals);
      assert Unclaimed(remotes[0], title, locals) <==>
        remotes[0].title == Some(title) && !HasRule(locals, remotes[0].uid);
      forall k | FirstUnclaimedAt(remotes, title, locals, k)
        ensures FirstUnclaimed(remotes, title, locals) == Some(remotes[k])
      {
        if k > 0 {
          assert forall j | 0 <= j < |rest| :: rest[j] == remotes[j + 1];
          assert FirstUnclaimedAt(rest, title, locals, k - 1);
        }
      }
    }
  }

  // ---------------------------------------------------------------------------------------------
  // The lines of an entry
  // ---------------------------------------------------------------------------------------------

  /** No rule of the other side has the uid; the empty uid is nobody's. */
  predicate Unheld(r: Rule, others: seq<Rule>) {
    r.uid == "" || forall o | o in others :: o.uid != r.uid
  }

  /** The rule is written anew. */
  predicate IsAdded(r: Rule, locals: seq<Rule>, remotes: seq<Rule>) {
    r in locals && Unheld(r, remotes)
  }

  /** The write deletes the rule. */
  predicate IsRemoved(r: Rule, locals: seq<Rule>, remotes: seq<Rule>) {
    r in remotes && Unheld(r, locals)
  }

  /** A bundle rule without a uid takes the place of the first unclaimed remote rule of its title, at k. */
  predicate Replaces(r: Rule, locals: seq<Rule>, remotes: seq<Rule>, k: int) {
    r in locals && r.uid == "" && r.title.Some? && FirstUnclaimedAt(remotes, r.title.value, locals, k)
  }

  /** The rule differs, as it would be written, from the first remote rule of its uid, at k. */
  predicate Changes(r: Rule, local: Group, remotes: seq<Rule>, k: int) {
    && r in Present(local.rules) && r.uid != "" && FirstAt(remotes, r.uid, k)
    && !SameRule(PinRule(r, local.folderUID, local.title, remotes[k].orgID), remotes[k])
  }

  /** What a line of the entry of two groups may report. */
  ghost predicate Reports(line: string, local: Group, remote: Group) {
    var locals, remotes := Present(local.rules), Present(remote.rules);
    || (exists r :: IsAdded(r, locals, remotes) && line == RuleDetail('+', r))
    || (exists r, k :: Replaces(r, locals, remotes, k) && line == ReplacedRuleDetail(remotes[k]))
    || (exists r, k :: Changes(r, local, remotes, k) && line == RuleDetail('~', r))
    || (exists r :: IsRemoved(r, locals, remotes) && line == RuleDetail('-', r))
  }

  lemma UnheldIsNotFound(r: Rule, others: seq<Rule>)
    ensures Unheld(r, others) <==> FindRule(others, r.uid).None?
  {
  }

  lemma FoundIsFirst(rules: seq<Rule>, uid: string) returns (k: int)
    requires FindRule(rules, uid).Some?
    ensures FirstAt(rules, uid, k) && rules[k] == FindRule(rules, uid).value
  {
    FindRuleIsFirst(rules, uid);
    k :| FirstAt(rules, uid, k);
  }

  lemma UnclaimedIsFirst(rules: seq<Rule>, title: string, locals: seq<Rule>) returns (k: int)
    requires FirstUnclaimed(rules, title, locals).Some?
    ensures FirstUnclaimedAt(rules, title, locals, k) && rules[k] == FirstUnclaimed(rules, title, locals).value
  {
    if Unclaimed(rules[0], title, locals) {
      return 0;
    }
    k := UnclaimedIsFirst(rules[1..], title, locals);
    assert forall j | 0 < j < |rules| :: rules[j] == rules[1..][j - 1];
    k := k + 1;
  }

  ghost predicate LocalReports(line: string, r: Rule, local: Group, remotes: seq<Rule>) {
    || (Unheld(r, remotes) && line == RuleDetail('+', r))
    || (exists k :: Replaces(r, Present(local.rules), remotes, k) && line == ReplacedRuleDetail(remotes[k]))
    || (exists k :: Changes(r, local, remotes, k) && line == RuleDetail('~', r))
  }

  lemma LocalRuleReports(line: string, r: Rule, local: Group, remotes: seq<Rule>)
    requires r in Present(local.rules)
    ensures line in LocalRuleLines(r, local, remotes) <==> LocalReports(line, r, local, remotes)
  {
    hide Present, RuleDetail, ReplacedRuleDetail, EqualRules, SameRule, PinRule, FindRule, Unclaimed;
    var locals := Present(local.rules);
    UnheldIsNotFound(r, remotes);
    FindRuleIsFirst(remotes, r.uid);
    if FindRule(remotes, r.uid).Some? {
      HeldRuleReports(line, r, local, remotes);
    } else if r.uid == "" && r.title.Some? {
      FirstUnclaimedIsFirst(remotes, r.title.value, locals);
      if FirstUnclaimed(remotes, r.title.value, locals).Some? {
        var k := UnclaimedIsFirst(remotes, r.title.value, locals);
        assert Replaces(r, locals, remotes, k);
      } else {
        forall k ensures !FirstUnclaimedAt(remotes, r.title.value, locals, k) {
          assert 0 <= k < |remotes| ==> remotes[k] in remotes;
        }
      }
    }
  }

  lemma HeldRuleReports(line: string, r: Rule, local: Group, remotes: seq<Rule>)
    requires r in Present(local.rules) && FindRule(remotes, r.uid).Some?
    ensures line in LocalRuleLines(r, local, remotes) <==> LocalReports(line, r, local, remotes)
  {
    hide Present, RuleDetail, ReplacedRuleDetail, EqualRules, SameRule, PinRule, FindRule, Unclaimed;
    UnheldIsNotFound(r, remotes);
    FindRuleIsFirst(remotes, r.uid);
    NamedIsFound(remotes, r.uid);
    var k := FoundIsFirst(remotes, r.uid);
    assert !exists j :: Replaces(r, Present(local.rules), remotes, j);
    ProjectionDecidesSameRule(PinRule(r, local.folderUID, local.title, remotes[k].orgID), remotes[k]);
    assert line in LocalRuleLines(r, local, remotes) <==> Changes(r, local, remotes, k) && line == RuleDetail('~', r);
    forall j | Changes(r, local, remotes, j) ensures Changes(r, local, remotes, k) {
      assert remotes[j] == remotes[k];
    }
  }

  lemma NamedIsFound(rules: seq<Rule>, uid: string)
    ensures FindRule(rules, uid).Some? ==> uid != ""
  {
  }

  lemma {:induction false} LocalLinesReport(line: string, rules: seq<Rule>, local: Group, remotes: seq<Rule>)
    ensures line in LocalLines(rules, local, remotes) <==>
            exists r :: r in rules && line in LocalRuleLines(r, local, remotes)
  {
    hide LocalRuleLines;
    if rules != [] {
      var front, last := rules[..|rules| - 1], rules[|rules| - 1];
      assert rules == front + [last];
      LocalLinesReport(line, front, local, remotes);
    }
  }

  lemma {:induction false} RemovedLinesReport(line: string, rules: seq<Rule>, locals: seq<Rule>)
    ensures line in RemovedLines(rules, locals) <==>
            exists r :: r in rules && Unheld(r, locals) && line == RuleDetail('-', r)
  {
    hide FindRule, RuleDetail;
    if rules != [] {
      var front, last := rules[..|rules| - 1], rules[|rules| - 1];
      assert rules == front + [last];
      RemovedLinesReport(line, front, locals);
      UnheldIsNotFound(last, locals);
    }
  }

  lemma RuleLineReports(line: string, local: Group, remote: Group)
    ensures line in RuleLines(local, remote) <==> Reports(line, local, remote)
  {
    hide Present, LocalLines, RemovedLines, Sort, StringLeq, LocalRuleLines, LocalReports, Unheld;
    var locals, remotes := Present(local.rules), Present(remote.rules);
    var written, deleted := LocalLines(locals, local, remotes), RemovedLines(remotes, locals);
    SortHasSameElements(written + deleted, StringLeq);
    assert line in RuleLines(local, remote) <==> line in written || line in deleted;
    LocalLinesReport(line, locals, local, remotes);
    RemovedLinesReport(line, remotes, locals);
    forall r | r in locals
      ensures line in LocalRuleLines(r, local, remotes) <==> LocalReports(line, r, local, remotes)
    {
      LocalRuleReports(line, r, local, remotes);
    }
    ReportsEither(line, local, remote, locals, remotes);
    assert line in written <==> exists r :: r in locals && LocalReports(line, r, local, remotes);
  }

  /**
   The rule lines of an entry are sorted and say exactly which rules the write adds, replaces, changes and
   removes: each such rule has its line, and there is no other line.
   */
  lemma RuleLinesAreExact(local: Group, remote: Group)
    ensures forall line :: line in RuleLines(local, remote) <==> Reports(line, local, remote)
    ensures IsSorted(RuleLines(local, remote), StringLeq)
  {
    hide Present, LocalLines, RemovedLines, Sort, StringLeq, Reports;
    StringLeqIsTotalPreorder();
    SortSorts(LocalLines(Present(local.rules), local, Present(remote.rules))
      + RemovedLines(Present(remote.rules), Present(local.rules)), StringLeq);
    forall line ensures line in RuleLines(local, remote) <==> Reports(line, local, remote) {
      RuleLineReports(line, local, remote);
    }
  }

  lemma ReportsEither(line: string, local: Group, remote: Group, locals: seq<Rule>, remotes: seq<Rule>)
    requires locals == Present(local.rules) && remotes == Present(remote.rules)
    ensures Reports(line, local, remote) <==>
            (exists r :: r in locals && LocalReports(line, r, local, remotes))
            || exists r :: r in remotes && Unheld(r, locals) && line == RuleDetail('-', r)
  {
    hide Present, RuleDetail, ReplacedRuleDetail, Unheld, SameRule, PinRule, FirstAt, FirstUnclaimedAt;
    if r :| r in remotes && Unheld(r, locals) && line == RuleDetail('-', r) {
      assert IsRemoved(r, locals, remotes);
    }
    if r :| r in locals && LocalReports(line, r, local, remotes) {
      if Unheld(r, remotes) && line == RuleDetail('+', r) {
        assert IsAdded(r, locals, remotes);
      }
    }
    if r :| IsAdded(r, locals, remotes) && line == RuleDetail('+', r) {
      assert LocalReports(line, r, local, remotes);
    }
  }

  // ---------------------------------------------------------------------------------------------
  // The body of a write
  // ---------------------------------------------------------------------------------------------

  /** The rule as the bundle has it, in its group, claiming the organization, and with nothing Grafana owns. */
  predicate IsPinned(r: Rule, w: Rule, folderUID: string, group: string, org: Option<int>) {
    && w.uid == r.uid && w.title == r.title && w.isPaused == r.isPaused && w.rest == r.rest
    && w.folderUID == Some(folderUID) && w.ruleGroup == Some(group)
    && (if org.Some? then w.orgID == org else w.orgID == r.orgID)
    && w.id == 0 && w.updated == "" && w.provenance == ""
  }

  /** The body of a group write has the group's name, folder and interval, and its rules in order, each pinned. */
  lemma BodyIsExact(local: Group, org: Option<int>)
    ensures var body, rules := WriteBody(local, org), Present(local.rules);
            && body.folderUID == local.folderUID && body.title == local.title && body.interval == local.interval
            && |body.rules| == |rules|
            && forall i | 0 <= i < |rules| ::
                 body.rules[i].Some?
                 && IsPinned(rules[i], body.rules[i].value, local.folderUID, local.title, org)
  {
    hide Present;
  }

  // ---------------------------------------------------------------------------------------------
  // The entries of a plan
  // ---------------------------------------------------------------------------------------------

  /** The entry of a group says whether there is a remote one of its folder and title, and if so whether it differs. */
  lemma GroupEntryIsExact(g: Group, remotes: seq<Group>)
    ensures var c := GroupChange(g, remotes);
            && c.kind == RuleGroupKind && c.id == g.folderUID + "/" + g.title
            && (c.action == Create <==>
                  forall h | h in remotes :: h.folderUID != g.folderUID || h.title != g.title)
            && (forall k | FirstGroupAt(remotes, RefOf(g), k) ::
                  && c.detail == DetailLines(g, remotes[k])
                  && c.action == (if c.detail == [] then Unchanged else Update))
  {
    hide DetailLines, AddedLines, Sort;
    FindGroupIsFirst(remotes, RefOf(g));
  }

  /** The entry of a contact point says whether there is a remote one it addresses, and if so whether it differs. */
  lemma PointEntryIsExact(p: ContactPoint, remote: seq<Option<ContactPoint>>)
    requires !PointMatch(p, remote).Ambiguous?
    ensures var c := PointChange(p, remote);
            && c.kind == ContactPointKind && c.id == (if p.uid == "" then p.name else p.uid) && c.detail == []
            && (c.action == Create <==> forall i | 0 <= i < |remote| :: !Addresses(p, remote[i]))
            && (forall k | 0 <= k < |remote| && Addresses(p, remote[k])
                  && (forall j | 0 <= j < k :: !Addresses(p, remote[j])) ::
                  c.action == if EqualContactPoints(p, remote[k].value) then Unchanged else Update)
  {
    hide PointMatch, EqualContactPoints, Addresses;
    PointMatchIsExact(p, remote);
  }

  /** The entry of the tree: none without one in the bundle, else whether Grafana's differs or is not known. */
  lemma TreeEntryIsExact(local: Option<Route>, remote: Option<Route>)
    ensures local.None? ==> TreeChanges(local, remote) == []
    ensures local.Some? ==>
              && |TreeChanges(local, remote)| == 1
              && var c := TreeChanges(local, remote)[0];
                 && c.kind == PolicyTreeKind && c.id == "policies" && c.detail == []
                 && (c.action == Create <==> remote.None?)
                 && (remote.Some? ==> (c.action == Unchanged <==> EqualRoutes(local.value, remote.value)))
  {
  }

  /** The first entry is of an earlier kind, or of the same kind and no later ID. */
  predicate InPlanOrder(a: Change, b: Change) {
    || (a.kind == ContactPointKind && b.kind != ContactPointKind)
    || (a.kind == PolicyTreeKind && b.kind == RuleGroupKind)
    || (a.kind == b.kind && StringLeq(a.id, b.id))
  }

  /** Contact points come before the tree, the tree before the groups, and within a kind the IDs ascend. */
  lemma PlanIsOrdered(local: Bundle, remote: Bundle, i: nat, j: nat)
    requires Planned(local, remote).Some? && i < j < |Planned(local, remote).value|
    ensures var a, b := Planned(local, remote).value[i], Planned(local, remote).value[j];
            InPlanOrder(a, b)
  {
    hide StringLeq, Planned;
    PlanIsSorted(local, remote);
    var plan := Planned(local, remote).value;
    assert ChangeLeq(plan[i], plan[j]);
  }

  /** A point addresses remote points by its uid alone, or without one by its name; one with neither, none. */
  lemma AddressesIsExact(p: ContactPoint, remote: ContactPoint)
    ensures p.uid != "" ==> (Addresses(p, Some(remote)) <==> remote.uid == p.uid)
    ensures p.uid == "" && p.name != "" ==> (Addresses(p, Some(remote)) <==> remote.name == p.name)
    ensures p.uid == "" && p.name == "" ==> !Addresses(p, Some(remote))
    ensures !Addresses(p, None)
  {
  }

  // ---------------------------------------------------------------------------------------------
  // The texts
  // ---------------------------------------------------------------------------------------------

  function ExampleRule(uid: string): Rule {
    Rule(uid, Some("cpu"), None, None, None, false, 0, "", "", map[])
  }

  /** What the lines look like. */
  lemma LinesRead()
    ensures RuleDetail('~', ExampleRule("u1")) == "~ cpu (u1)"
    ensures RuleDetail('+', ExampleRule("")) == "+ cpu"
    ensures RuleDetail('-', ExampleRule("").(title := None)) == "- "
  {
  }

  lemma IntervalReads()
    ensures IntervalDetail(30, 60) == "~ interval 60s→30s"
  {
    assert Decimal.Digits(6) == "6" && Decimal.Digits(3) == "3";
    assert Decimal.Text(60) == "60" && Decimal.Text(30) == "30";
  }

  /** The uids both sides have are, in the rules' order, those of the rules whose uid the other side has. */
  lemma {:induction false} SharedIsExact(rules: seq<Rule>, r: Rule, other: seq<Rule>)
    ensures SharedUIDs([], other) == []
    ensures SharedUIDs(rules + [r], other) == SharedUIDs(rules, other) + if Unheld(r, other) then [] else [r.uid]
  {
    hide FindRule;
    UnheldIsNotFound(r, other);
    SharedSnoc(rules, r, other);
  }

  /**
   The lines of an entry: the interval when it differs, a note when the rules both sides have stand in different
   orders, and the rules added, replaced, changed and removed.
   */
  lemma DetailIsExact(local: Group, remote: Group, line: string)
    ensures var locals, remotes := Present(local.rules), Present(remote.rules);
            line in DetailLines(local, remote) <==>
            || (local.interval != remote.interval && line == IntervalDetail(local.interval, remote.interval))
            || (SharedUIDs(locals, remotes) != SharedUIDs(remotes, locals) && line == "~ rule order")
            || Reports(line, local, remote)
  {
    hide Present, RuleLines, SharedUIDs, IntervalDetail, Reports;
    RuleLineReports(line, local, remote);
  }
}
