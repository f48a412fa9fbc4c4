/**
 The rule-scoped push: the synthetic groups it plans, and the check that refuses a plan reaching
 beyond the named rules.
 */
module ScopedPush {
  import opened Options
  import opened AlertModels
  import opened GroupPlan
  import opened BundlePlan
  import opened Sorting

  // ---------------------------------------------------------------------------------------------
  // Locating the named rules
  // ---------------------------------------------------------------------------------------------

  /** The first group holding a rule of that uid. */
  function FirstHolding(groups: seq<Group>, uid: string): (found: Option<Group>)
    ensures found.Some? ==> found.value in groups && Holds(found.value, uid)
    ensures found.None? <==> forall g | g in groups :: !Holds(g, uid)
  {
    if groups == [] then None
    else
      var before := FirstHolding(groups[..|groups| - 1], uid);
      var last := groups[|groups| - 1];
      assert groups == groups[..|groups| - 1] + [last];
      if before.Some? then before else if Holds(last, uid) then Some(last) else None
  }

  lemma FirstHoldingSnoc(groups: seq<Group>, g: Group, uid: string)
    ensures FirstHolding(groups + [g], uid) ==
            if FirstHolding(groups, uid).Some? then FirstHolding(groups, uid) else if Holds(g, uid) then Some(g)
            else None
  {
    assert (groups + [g])[..|groups|] == groups;
  }

  lemma {:induction false} FirstHoldingKept(groups: seq<Group>, more: seq<Group>, uid: string)
    requires FirstHolding(groups, uid).Some?
    ensures FirstHolding(groups + more, uid) == FirstHolding(groups, uid)
    decreases |more|
  {
    hide FirstHolding, Holds;
    if more == [] {
      assert groups + more == groups;
    } else {
      FirstHoldingKept(groups, more[..|more| - 1], uid);
      assert groups + more == groups + more[..|more| - 1] + [more[|more| - 1]];
      FirstHoldingSnoc(groups + more[..|more| - 1], more[|more| - 1], uid);
    }
  }

  /** A named rule as the bundle holds it, with the group it came from. */
  datatype ScopedRule = ScopedRule(group: Group, rule: Rule)

  function Locate(groups: seq<Group>, uid: string): Option<ScopedRule> {
    var g := FirstHolding(groups, uid);
    if g.None? then None else Some(ScopedRule(g.value, FindRule(Present(g.value.rules), uid).value))
  }

  method RemoteGroupHolding(groups: seq<Option<Group>>, uid: string) returns (found: Option<Group>)
    ensures found == FirstHolding(Present(groups), uid)
  {
    hide Holds, FirstHolding;
    NoGroupsHold(uid);
    for i := 0 to |groups|
      invariant FirstHolding(Present(groups[..i]), uid).None?
    {
      PresentPrefix(groups, i);
      if groups[i].Some? {
        FirstHoldingSnoc(Present(groups[..i]), groups[i].value, uid);
        if Holds(groups[i].value, uid) {
          assert groups[..i + 1] + groups[i + 1..] == groups;
          PresentConcat(groups[..i + 1], groups[i + 1..]);
          FirstHoldingKept(Present(groups[..i + 1]), Present(groups[i + 1..]), uid);
          return groups[i];
        }
      }
    }
    assert groups[..|groups|] == groups;
    return None;
  }

  lemma NoGroupsHold(uid: string)
    ensures FirstHolding([], uid).None?
  {
  }

  /** located holds exactly the uids, each with its place in the bundle. */
  ghost predicate LocatesAll(located: map<string, ScopedRule>, groups: seq<Group>, uids: seq<string>) {
    && (forall uid :: uid in located <==> uid in uids)
    && (forall uid | uid in located :: Locate(groups, uid) == Some(located[uid]))
  }

  /** Fails exactly when the bundle lacks one of the named rules. */
  method LocateLocalRules(local: Bundle, uids: seq<string>) returns (located: Option<map<string, ScopedRule>>)
    ensures located.None? <==> exists uid :: uid in uids && FirstHolding(Present(local.groups), uid).None?
    ensures located.Some? ==> LocatesAll(located.value, Present(local.groups), uids)
  {
    hide FirstHolding;
    var found: map<string, ScopedRule> := map[];
    for i := 0 to |uids|
      invariant forall uid :: uid in found <==> uid in uids[..i]
      invariant forall uid | uid in found :: Locate(Present(local.groups), uid) == Some(found[uid])
    {
      assert forall uid :: uid in uids[..i + 1] <==> uid in uids[..i] || uid == uids[i];
      var group := RemoteGroupHolding(local.groups, uids[i]);
      if group.None? {
        return None;
      }
      found := found[uids[i] := ScopedRule(group.value, FindRule(Present(group.value.rules), uids[i]).value)];
    }
    assert uids[..|uids|] == uids;
    located := Some(found);
  }

  // ---------------------------------------------------------------------------------------------
  // The pair of bundles that is planned
  // ---------------------------------------------------------------------------------------------

  /** The rule the synthetic group holds in place of a remote one. */
  function Substituted(r: Rule, locals: seq<Group>, uids: seq<string>): Rule {
    if r.uid in uids && Locate(locals, r.uid).Some? then Locate(locals, r.uid).value.rule else r
  }

  function Substitution(locals: seq<Group>, uids: seq<string>): Rule -> Rule {
    r => Substituted(r, locals, uids)
  }

  /** The remote group with every named rule replaced by the bundle's version; a nil slot stays. */
  function Synthetic(remote: Group, locals: seq<Group>, uids: seq<string>): Group {
    remote.(rules := MapSlots(remote.rules, Substitution(locals, uids)))
  }

  method SyntheticGroup(remote: Group, located: map<string, ScopedRule>, ghost locals: seq<Group>,
                        ghost uids: seq<string>)
    returns (synthetic: Group)
    requires LocatesAll(located, locals, uids)
    ensures synthetic == Synthetic(remote, locals, uids)
  {
    hide Locate;
    var rules: seq<Option<Rule>> := [];
    for i := 0 to |remote.rules|
      invariant rules == Synthetic(remote, locals, uids).rules[..i]
    {
      if remote.rules[i].Some? && remote.rules[i].value.uid in located {
        rules := rules + [Some(located[remote.rules[i].value.uid].rule)];
      } else {
        rules := rules + [remote.rules[i]];
      }
    }
    synthetic := remote.(rules := rules);
  }

  /** Some group of that plan ID is listed. */
  predicate Listed(groups: seq<Group>, id: string) {
    exists g :: g in groups && GroupID(g) == id
  }

  /** The remote groups holding a named rule, each once, in the order the rules are named. */
  function HeldGroups(remotes: seq<Group>, uids: seq<string>): seq<Group> {
    if uids == [] then []
    else
      var front := HeldGroups(remotes, uids[..|uids| - 1]);
      var g := FirstHolding(remotes, uids[|uids| - 1]);
      if g.None? || Listed(front, GroupID(g.value)) then front else front + [g.value]
  }

  function SyntheticGroups(held: seq<Group>, locals: seq<Group>, uids: seq<string>): seq<Group> {
    seq(|held|, i requires 0 <= i < |held| => Synthetic(held[i], locals, uids))
  }

  /** The bundle and Grafana hold the rule in the same group. */
  predicate InSameGroup(locals: seq<Group>, remotes: seq<Group>, uid: string) {
    var here, there := FirstHolding(locals, uid), FirstHolding(remotes, uid);
    here.Some? && there.Some? && RefOf(here.value) == RefOf(there.value)
  }

  function OnlyGroups(groups: seq<Group>): Bundle {
    Bundle(Wrap(groups), [], None)
  }

  /** What a rule-scoped push plans, or nothing when a named rule is missing somewhere or would move. */
  function ScopedPair(local: Bundle, remote: Bundle, uids: seq<string>): Option<(Bundle, Bundle)> {
    var locals, remotes := Present(local.groups), Present(remote.groups);
    if exists uid :: uid in uids && !InSameGroup(locals, remotes, uid) then None
    else
      var held := HeldGroups(remotes, uids);
      Some((OnlyGroups(Sort(SyntheticGroups(held, locals, uids), GroupLeq)), OnlyGroups(Sort(held, GroupLeq))))
  }

  lemma HeldGroupsSnoc(remotes: seq<Group>, uids: seq<string>, uid: string)
    ensures HeldGroups(remotes, uids + [uid]) ==
            var g := FirstHolding(remotes, uid);
            if g.None? || Listed(HeldGroups(remotes, uids), GroupID(g.value)) then HeldGroups(remotes, uids)
            else HeldGroups(remotes, uids) + [g.value]
  {
    hide FirstHolding;
    assert (uids + [uid])[..|uids|] == uids;
  }

  method ScopeBundles(local: Bundle, remote: Bundle, uids: seq<string>) returns (pair: Option<(Bundle, Bundle)>)
    ensures pair == ScopedPair(local, remote, uids)
  {
    hide FirstHolding, HeldGroups, Synthetic, Locate, Holds, GroupID, Present;
    ghost var locals, remotes := Present(local.groups), Present(remote.groups);
    var located := LocateLocalRules(local, uids);
    if located.None? {
      return None;
    }
    var synthetic: seq<Group>, held: seq<Group>, seen: set<string> := [], [], {};
    NoHeldGroups(remotes);
    for i := 0 to |uids|
      invariant forall uid | uid in uids[..i] :: InSameGroup(locals, remotes, uid)
      invariant held == HeldGroups(remotes, uids[..i])
      invariant synthetic == SyntheticGroups(held, locals, uids)
      invariant forall id :: id in seen <==> Listed(held, id)
    {
      assert uids[..i + 1] == uids[..i] + [uids[i]];
      HeldGroupsSnoc(remotes, uids[..i], uids[i]);
      var group := RemoteGroupHolding(remote.groups, uids[i]);
      if group.None? || RefOf(located.value[uids[i]].group) != RefOf(group.value) {
        NotInSameGroup(locals, remotes, uids[i], located.value, uids);
        return None;
      }
      InSameGroupNow(locals, remotes, uids[i], located.value, uids);
      if GroupID(group.value) !in seen {
        ghost var before := held;
        seen := seen + {GroupID(group.value)};
        held := held + [group.value];
        var replaced := SyntheticGroup(group.value, located.value, locals, uids);
        synthetic := synthetic + [replaced];
        ListedSnoc(before, group.value);
      }
    }
    assert uids[..|uids|] == uids;
    pair := Some((OnlyGroups(Sort(synthetic, GroupLeq)), OnlyGroups(Sort(held, GroupLeq))));
  }

  lemma NoHeldGroups(remotes: seq<Group>)
    ensures HeldGroups(remotes, []) == [] && forall id :: !Listed([], id)
  {
  }

  lemma ListedSnoc(groups: seq<Group>, g: Group)
    ensures forall id :: Listed(groups + [g], id) <==> Listed(groups, id) || id == GroupID(g)
  {
    hide GroupID;
    forall id ensures Listed(groups + [g], id) <==> Listed(groups, id) || id == GroupID(g) {
      if Listed(groups, id) {
        var h :| h in groups && GroupID(h) == id;
        assert h in groups + [g];
      }
      assert g in groups + [g];
    }
  }

  lemma NotInSameGroup(locals: seq<Group>, remotes: seq<Group>, uid: string, located: map<string, ScopedRule>,
                       uids: seq<string>)
    requires LocatesAll(located, locals, uids) && uid in uids
    requires FirstHolding(remotes, uid).None? || RefOf(located[uid].group) != RefOf(FirstHolding(remotes, uid).value)
    ensures uid in uids && !InSameGroup(locals, remotes, uid)
  {
    hide FirstHolding;
    assert Locate(locals, uid) == Some(located[uid]);
  }

  lemma InSameGroupNow(locals: seq<Group>, remotes: seq<Group>, uid: string, located: map<string, ScopedRule>,
                       uids: seq<string>)
    requires LocatesAll(located, locals, uids) && uid in uids
    requires FirstHolding(remotes, uid).Some? && RefOf(located[uid].group) == RefOf(FirstHolding(remotes, uid).value)
    ensures InSameGroup(locals, remotes, uid)
  {
    hide FirstHolding;
    assert Locate(locals, uid) == Some(located[uid]);
  }

  // ---------------------------------------------------------------------------------------------
  // The check
  // ---------------------------------------------------------------------------------------------

  function NamedLine(g: Group, uid: string): string
    requires Holds(g, uid)
  {
    RuleDetail(CHANGED, FindRule(Present(g.rules), uid).value)
  }

  /** The named uids credited to a group of that plan ID: the first group holding a rule is the one. */
  function CreditedTo(groups: seq<Group>, uids: seq<string>, id: string): set<string> {
    set uid | uid in uids && FirstHolding(groups, uid).Some? && GroupID(FirstHolding(groups, uid).value) == id
  }

  function AllowedLines(groups: seq<Group>, uids: seq<string>, id: string): set<string> {
    set uid | uid in CreditedTo(groups, uids, id) :: NamedLine(FirstHolding(groups, uid).value, uid)
  }

  /** The allowed lines by group ID, and no entry for a group no named rule is credited to. */
  ghost predicate IsAllowed(allowed: map<string, set<string>>, groups: seq<Group>, uids: seq<string>) {
    forall id ::
      && (id in allowed <==> CreditedTo(groups, uids, id) != {})
      && (id in allowed ==> allowed[id] == AllowedLines(groups, uids, id))
  }

  /** One step of the loops: the pairs credited so far, by uid. */
  ghost predicate AllowedBy(allowed: map<string, set<string>>, holder: map<string, Group>) {
    && (forall uid | uid in holder :: Holds(holder[uid], uid))
    && (forall uid | uid in holder :: GroupID(holder[uid]) in allowed)
    && (forall uid | uid in holder :: NamedLine(holder[uid], uid) in allowed[GroupID(holder[uid])])
    && (forall id, line | id in allowed && line in allowed[id] :: Credits(holder, id, line))
    && (forall id | id in allowed :: allowed[id] != {})
  }

  ghost predicate Credits(holder: map<string, Group>, id: string, line: string)
    requires forall uid | uid in holder :: Holds(holder[uid], uid)
  {
    exists uid :: uid in holder && GroupID(holder[uid]) == id && NamedLine(holder[uid], uid) == line
  }

  lemma CreditOne(allowed: map<string, set<string>>, holder: map<string, Group>, uid: string, g: Group)
    requires AllowedBy(allowed, holder) && uid !in holder && Holds(g, uid)
    ensures var id := GroupID(g);
            var lines := (if id in allowed then allowed[id] else {}) + {NamedLine(g, uid)};
            AllowedBy(allowed[id := lines], holder[uid := g])
  {
    hide Holds, NamedLine, GroupID;
    var id := GroupID(g);
    var lines := (if id in allowed then allowed[id] else {}) + {NamedLine(g, uid)};
    var after, held := allowed[id := lines], holder[uid := g];
    forall i, line | i in after && line in after[i] ensures Credits(held, i, line) {
      if i == id && line == NamedLine(g, uid) {
        assert uid in held;
      } else {
        assert Credits(holder, i, line);
        var u :| u in holder && GroupID(holder[u]) == i && NamedLine(holder[u], u) == line;
        assert u in held && held[u] == holder[u];
      }
    }
  }

  method AllowedScopedDetails(groups: seq<Option<Group>>, uids: seq<string>) returns (allowed: map<string, set<string>>)
    ensures IsAllowed(allowed, Present(groups), uids)
  {
    hide AllowedBy, IsAllowed, FirstHolding, Holds, NamedLine, GroupID, Present;
    allowed := map[];
    var claimed: set<string> := {};
    ghost var holder: map<string, Group> := map[];
    NothingAllowed(uids, groups);
    for i := 0 to |groups|
      invariant AllowedBy(allowed, holder) && claimed == holder.Keys
      invariant CreditsFirst(holder, Present(groups[..i]), uids)
    {
      PresentPrefix(groups, i);
      if groups[i].Some? {
        var group := groups[i].value;
        ghost var before := Present(groups[..i]);
        for j := 0 to |uids|
          invariant AllowedBy(allowed, holder) && claimed == holder.Keys
          invariant CreditsSome(holder, before, group, uids, j)
        {
          if Holds(group, uids[j]) && uids[j] !in claimed {
            CreditOne(allowed, holder, uids[j], group);
            claimed := claimed + {uids[j]};
            holder := holder[uids[j] := group];
            allowed := allowed[GroupID(group) := (if GroupID(group) in allowed then allowed[GroupID(group)] else {})
              + {NamedLine(group, uids[j])}];
          }
        }
        CreditsAll(holder, before, group, uids);
      }
    }
    assert groups[..|groups|] == groups;
    CreditsMeanAllowed(allowed, holder, Present(groups), uids);
  }

  /** holder says of every uid which group is the first one holding it. */
  ghost predicate CreditsFirst(holder: map<string, Group>, groups: seq<Group>, uids: seq<string>) {
    forall uid ::
      && (uid in holder <==> uid in uids && FirstHolding(groups, uid).Some?)
      && (uid in holder ==> FirstHolding(groups, uid) == Some(holder[uid]))
  }

  ghost predicate CreditsSome(holder: map<string, Group>, before: seq<Group>, g: Group, uids: seq<string>, n: nat)
    requires n <= |uids|
  {
    forall uid ::
      && (uid in holder <==> (uid in uids && FirstHolding(before, uid).Some?) || (uid in uids[..n] && Holds(g, uid)))
      && (uid in holder ==>
            Some(holder[uid]) == if FirstHolding(before, uid).Some? then FirstHolding(before, uid) else Some(g))
  }

  lemma NothingAllowed(uids: seq<string>, groups: seq<Option<Group>>)
    ensures AllowedBy(map[], map[]) && CreditsFirst(map[], Present(groups[..0]), uids)
  {
  }

  lemma CreditsAll(holder: map<string, Group>, before: seq<Group>, g: Group, uids: seq<string>)
    requires CreditsSome(holder, before, g, uids, |uids|)
    ensures CreditsFirst(holder, before + [g], uids)
  {
    hide FirstHolding, Holds;
    assert uids[..|uids|] == uids;
    forall uid
      ensures (uid in holder <==> uid in uids && FirstHolding(before + [g], uid).Some?)
              && (uid in holder ==> FirstHolding(before + [g], uid) == Some(holder[uid]))
    {
      FirstHoldingSnoc(before, g, uid);
    }
  }

  lemma CreditsMeanAllowed(allowed: map<string, set<string>>, holder: map<string, Group>, groups: seq<Group>,
                           uids: seq<string>)
    requires AllowedBy(allowed, holder) && CreditsFirst(holder, groups, uids)
    ensures IsAllowed(allowed, groups, uids)
  {
    hide FirstHolding, Holds, NamedLine, GroupID;
    forall id
      ensures id in allowed <==> CreditedTo(groups, uids, id) != {}
      ensures id in allowed ==> allowed[id] == AllowedLines(groups, uids, id)
    {
      if id in allowed {
        var some :| some in allowed[id];
        forall line ensures line in allowed[id] <==> line in AllowedLines(groups, uids, id) {
          if line in allowed[id] {
            assert Credits(holder, id, line);
            var uid :| uid in holder && GroupID(holder[uid]) == id && NamedLine(holder[uid], uid) == line;
            assert uid in CreditedTo(groups, uids, id);
          }
          if line in AllowedLines(groups, uids, id) {
            var uid :| uid in CreditedTo(groups, uids, id) && line == NamedLine(FirstHolding(groups, uid).value, uid);
            assert uid in holder;
          }
        }
        assert some in AllowedLines(groups, uids, id);
      }
      if uid :| uid in CreditedTo(groups, uids, id) {
        assert uid in holder && GroupID(holder[uid]) == id;
      }
    }
  }

  /** The entry is not one a rule-scoped push may apply. */
  predicate Offends(change: Change, allowed: map<string, set<string>>) {
    || change.kind != RuleGroupKind
    || (change.action != Update && change.action != Unchanged)
    || change.id !in allowed
    || (change.action == Unchanged && |change.detail| > 0)
    || (change.action == Update && |change.detail| == 0)
    || exists line :: line in change.detail && line !in allowed[change.id]
  }

  method ScopedOffence(change: Change, allowed: map<string, set<string>>) returns (offends: bool)
    ensures offends <==> Offends(change, allowed)
  {
    if change.kind != RuleGroupKind || (change.action != Update && change.action != Unchanged)
       || change.id !in allowed {
      return true;
    }
    if (change.action == Unchanged && |change.detail| > 0) || (change.action == Update && |change.detail| == 0) {
      return true;
    }
    for i := 0 to |change.detail|
      invariant forall k | 0 <= k < i :: change.detail[k] in allowed[change.id]
    {
      if change.detail[i] !in allowed[change.id] {
        return true;
      }
    }
    return false;
  }

  /** The plan was refused for none of its entries. */
  ghost predicate Accepted(changes: seq<Change>, groups: seq<Group>, uids: seq<string>) {
    forall allowed | IsAllowed(allowed, groups, uids) :: forall c | c in changes :: !Offends(c, allowed)
  }

  lemma AllowedIsUnique(a: map<string, set<string>>, b: map<string, set<string>>, groups: seq<Group>, uids: seq<string>)
    requires IsAllowed(a, groups, uids) && IsAllowed(b, groups, uids)
    ensures a == b
  {
    hide CreditedTo, AllowedLines;
    assert a.Keys == b.Keys;
  }

  /** The only way a rule-scoped push plans: the plan, and only when every entry of it is allowed. */
  method PlanScoped(local: Bundle, remote: Bundle, uids: seq<string>) returns (changes: Option<seq<Change>>)
    ensures changes.Some? <==>
            Planned(local, remote).Some? && Accepted(Planned(local, remote).value, Present(local.groups), uids)
    ensures changes.Some? ==> changes == Planned(local, remote)
  {
    hide Planned, Offends, IsAllowed;
    var planned := Plan(local, remote);
    if planned.None? {
      return None;
    }
    var allowed := AllowedScopedDetails(local.groups, uids);
    for i := 0 to |planned.value|
      invariant forall k | 0 <= k < i :: !Offends(planned.value[k], allowed)
    {
      var offends := ScopedOffence(planned.value[i], allowed);
      if offends {
        assert planned.value[i] in planned.value;
        return None;
      }
    }
    forall other | IsAllowed(other, Present(local.groups), uids)
      ensures forall c | c in planned.value :: !Offends(c, other)
    {
      AllowedIsUnique(allowed, other, Present(local.groups), uids);
    }
    return planned;
  }
}
