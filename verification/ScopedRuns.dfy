/** The requests a rule-scoped push makes: the plan check and the run together. */
module ScopedRuns {
  import opened Options
  import opened AlertModels
  import opened GroupPlan
  import opened BundlePlan
  import opened ScopedPush
  import opened ScopedPushTheorems
  import opened PushRuns
  import opened PushApply
  import opened PushTheorems
  import opened Sequences
  import opened Sorting

  /** The request writes a group of the bundle, and changes named rules only. */
  ghost predicate WritesNamedOnly(env: Env, w: Write, uids: seq<string>) {
    w.PutGroup? && exists g ::
      WritesGroup(env, g, w.ref, w.group) && WriteTouchesOnlyNamed(g, env.remote, uids, env.orgID)
  }

  /**
   Whatever pair was planned, and however the run goes: when the check accepts the pair, every request the
   run makes is the write of a group, and changes named rules only.
   */
  lemma AcceptedRunTouchesOnlyNamed(env: Env, plan: seq<Change>, uids: seq<string>, used: set<string>, org: int)
    requires AcceptedPair(env.local, env.remote, uids) && RemoteWithin(env.remote, org, used)
             && NoneConfused(uids, used)
    ensures forall w | w in Applied(env, plan).requests :: WritesNamedOnly(env, w, uids)
  {
    hide Applied, AcceptedPair, RemoteWithin, NoneConfused, Present, WriteTouchesOnlyNamed, PlannedBody;
    AcceptedPlanTouchesOnlyNamedRules(env.local, env.remote, uids, used, org, env.orgID);
    EveryWriteIsAllowed(env, plan);
    forall w | w in Applied(env, plan).requests ensures WritesNamedOnly(env, w, uids) {
      assert MayWrite(env, w);
      NothingButGroups(env, w);
      var g :| WritesGroup(env, g, w.ref, w.group);
    }
  }

  lemma NothingButGroups(env: Env, w: Write)
    requires MayWrite(env, w) && Present(env.local.contactPoints) == [] && env.local.policies.None?
    ensures w.PutGroup?
  {
    hide Present;
  }

  /**
   A rule-scoped push, whatever built its pair: nothing it sends changes a rule that is not named, as long as
   no named uid is confusable with one that is not.
   */
  lemma ScopedPushTouchesOnlyNamed(env: Env, ruleUIDs: seq<string>, scope: ScopeFunc, used: set<string>, org: int)
    requires ruleUIDs != [] && Scoped(env, ruleUIDs, scope).Some?
    requires var run := Scoped(env, ruleUIDs, scope).value;
             Runs(run, ruleUIDs) && RemoteWithin(run.remote, org, used) && NoneConfused(Dedupe(ruleUIDs), used)
    ensures var run := Scoped(env, ruleUIDs, scope).value;
            forall w | w in Applied(Effective(run), Planned(run.local, run.remote).value).requests ::
              WritesNamedOnly(Effective(run), w, Dedupe(ruleUIDs))
  {
    hide Applied, Planned, Accepted, RemoteWithin, NoneConfused, WritesNamedOnly, Dedupe, Scoped;
    var run := Scoped(env, ruleUIDs, scope).value;
    AcceptedRunTouchesOnlyNamed(Effective(run), Planned(run.local, run.remote).value, Dedupe(ruleUIDs), used, org);
  }

  /** The request writes a group Grafana holds, every named rule the bundle's version and every other Grafana's own. */
  ghost predicate WritesScopedBody(env: Env, w: Write, uids: seq<string>) {
    w.PutGroup? && exists m, org ::
      m in Present(env.remote.groups) && OneOrg(Present(m.rules), org)
          && IsScopedBody(w.group, m, Present(env.local.groups), uids, org)
  }

  /** Every group's rules share an organization. */
  ghost predicate EachInOneOrg(groups: seq<Group>) {
    forall m | m in groups :: exists org :: OneOrg(Present(m.rules), org)
  }

  lemma SyntheticWrite(env: Env, uids: seq<string>, s: Group)
    requires var remotes := Present(env.remote.groups);
             EachInOneOrg(remotes) && forall m | m in remotes :: WellFormedGroup(m)
    requires ScopedPair(env.local, env.remote, uids).Some?
    requires var (synthetic, held) := ScopedPair(env.local, env.remote, uids).value;
             s in Present(synthetic.groups)
    ensures var (synthetic, held) := ScopedPair(env.local, env.remote, uids).value;
            var body := WriteBody(s, ResolvedOrg(FindGroup(Present(held.groups), RefOf(s)), env.orgID));
            exists m, org ::
              m in Present(env.remote.groups) && OneOrg(Present(m.rules), org)
                  && IsScopedBody(body, m, Present(env.local.groups), uids, org)
  {
    hide Synthetic, Sort, Present, HeldGroups, WellFormedGroup, IsScopedBody, WriteBody, ResolvedOrg, FindGroup;
    var locals, remotes := Present(env.local.groups), Present(env.remote.groups);
    var held := HeldGroups(remotes, uids);
    PresentOfWrap(Sort(held, GroupLeq));
    PresentOfWrap(Sort(SyntheticGroups(held, locals, uids), GroupLeq));
    SortHasSameElements(SyntheticGroups(held, locals, uids), GroupLeq);
    var j :| 0 <= j < |held| && s == Synthetic(held[j], locals, uids);
    HeldGroupsAreHolders(remotes, uids);
    HeldGroupsHaveIDsOfTheirOwn(remotes, uids);
    assert held[j] in held && held[j] in remotes;
    SyntheticIsMatched(held, locals, uids, held[j]);
    var org :| OneOrg(Present(held[j].rules), org);
    ScopedBodyIsExact(held[j], locals, uids, org, env.orgID);
  }

  /**
   A rule-scoped push as it is built, against a well-formed Grafana: the check does not refuse it, and each
   request is the group Grafana holds with the named rules replaced by the bundle's versions.
   */
  lemma BuiltPushIsExact(env: Env, ruleUIDs: seq<string>)
    requires ruleUIDs != [] && Scoped(env, ruleUIDs, ScopedPair).Some?
    requires var remotes := Present(env.remote.groups);
             UIDsApart(remotes) && EachInOneOrg(remotes) && forall m | m in remotes :: WellFormedGroup(m)
    ensures var run := Scoped(env, ruleUIDs, ScopedPair).value;
            && Runs(run, ruleUIDs)
            && forall w | w in Applied(Effective(run), Planned(run.local, run.remote).value).requests ::
                 WritesScopedBody(env, w, Dedupe(ruleUIDs))
  {
    hide Applied, Planned, Accepted, Present, ScopedPair, UIDsApart, EachInOneOrg, WellFormedGroup, IsScopedBody,
      Dedupe, FirstHolding, WriteBody, ResolvedOrg, FindGroup;
    var uids, run := Dedupe(ruleUIDs), Scoped(env, ruleUIDs, ScopedPair).value;
    var remotes := Present(env.remote.groups);
    BuiltPairIsAccepted(env.local, env.remote, uids);
    OnlyGroupsInPair(env, uids);
    var plan := Planned(run.local, run.remote).value;
    EveryWriteIsAllowed(Effective(run), plan);
    forall w | w in Applied(Effective(run), plan).requests ensures WritesScopedBody(env, w, uids) {
      assert MayWrite(Effective(run), w);
      NothingButGroups(Effective(run), w);
      var g :| WritesGroup(Effective(run), g, w.ref, w.group);
      SyntheticWrite(env, uids, g);
    }
  }

  lemma OnlyGroupsInPair(env: Env, uids: seq<string>)
    requires ScopedPair(env.local, env.remote, uids).Some?
    ensures var local := ScopedPair(env.local, env.remote, uids).value.0;
            Present(local.contactPoints) == [] && local.policies.None?
  {
    hide Sort, HeldGroups, SyntheticGroups;
  }

  // ---------------------------------------------------------------------------------------------
  // When there is no rule-scoped push
  // ---------------------------------------------------------------------------------------------

  /** The group at k is the first that holds a rule of the uid; the empty uid is nobody's. */
  predicate FirstHolderAt(groups: seq<Group>, uid: string, k: int) {
    && 0 <= k < |groups| && HoldsUID(groups[k], uid)
    && forall j | 0 <= j < k :: !HoldsUID(groups[j], uid)
  }

  predicate HoldsUID(g: Group, uid: string) {
    uid != "" && exists r :: r in Present(g.rules) && r.uid == uid
  }

  lemma HoldsMeansUID(g: Group, uid: string)
    ensures Holds(g, uid) <==> HoldsUID(g, uid)
  {
  }

  lemma {:induction false} FirstHoldingIsFirst(groups: seq<Group>, uid: string)
    ensures forall k | FirstHolderAt(groups, uid, k) :: FirstHolding(groups, uid) == Some(groups[k])
    ensures FirstHolding(groups, uid).Some? <==> exists k :: FirstHolderAt(groups, uid, k)
  {
    hide Holds, HoldsUID;
    if groups != [] {
      var n := |groups| - 1;
      var front, last := groups[..n], groups[n];
      FirstHoldingIsFirst(front, uid);
      HoldsMeansUID(last, uid);
      assert groups == front + [last];
      FirstHoldingSnoc(front, last, uid);
      forall k | 0 <= k < n ensures FirstHolderAt(groups, uid, k) <==> FirstHolderAt(front, uid, k) {
      }
      if FirstHolding(front, uid).Some? {
        var k :| FirstHolderAt(front, uid, k);
        assert FirstHolderAt(groups, uid, k);
      } else {
        forall j | 0 <= j < n ensures !HoldsUID(groups[j], uid) {
          HoldsMeansUID(groups[j], uid);
          assert groups[j] in front;
        }
        assert FirstHolderAt(groups, uid, n) <==> HoldsUID(last, uid);
      }
    }
  }

  /** Grafana's first group holding a rule of the uid is where the bundle's first one is: same folder, same title. */
  ghost predicate StaysInPlace(locals: seq<Group>, remotes: seq<Group>, uid: string) {
    exists i, j ::
      && FirstHolderAt(locals, uid, i) && FirstHolderAt(remotes, uid, j)
      && locals[i].folderUID == remotes[j].folderUID && locals[i].title == remotes[j].title
  }

  lemma InPlaceIsInSameGroup(locals: seq<Group>, remotes: seq<Group>, uid: string)
    ensures InSameGroup(locals, remotes, uid) <==> StaysInPlace(locals, remotes, uid)
  {
    hide FirstHolding, FirstHolderAt;
    FirstHoldingIsFirst(locals, uid);
    FirstHoldingIsFirst(remotes, uid);
    FirstHolderInRange(locals, uid);
    FirstHolderInRange(remotes, uid);
    if InSameGroup(locals, remotes, uid) {
      var i :| FirstHolderAt(locals, uid, i);
      var j :| FirstHolderAt(remotes, uid, j);
      assert locals[i].folderUID == remotes[j].folderUID;
    }
  }

  lemma FirstHolderInRange(groups: seq<Group>, uid: string)
    ensures forall k | FirstHolderAt(groups, uid, k) :: 0 <= k < |groups|
  {
  }

  /** The pair for some rules is refused exactly when one of them is missing on either side or would move. */
  lemma ScopedPairIsRefused(local: Bundle, remote: Bundle, uids: seq<string>)
    ensures ScopedPair(local, remote, uids).None? <==>
            exists uid :: uid in uids && !StaysInPlace(Present(local.groups), Present(remote.groups), uid)
  {
    hide InSameGroup, StaysInPlace, Present, HeldGroups, SyntheticGroups, Sort;
    forall uid
      ensures InSameGroup(Present(local.groups), Present(remote.groups), uid) <==>
              StaysInPlace(Present(local.groups), Present(remote.groups), uid)
    {
      InPlaceIsInSameGroup(Present(local.groups), Present(remote.groups), uid);
    }
  }

  /**
   A push of named rules, as it is built, does not start exactly when one of them is missing on either side or
   would move; a push that names none is of the whole bundle.
   */
  lemma ScopedPushIsRefused(env: Env, ruleUIDs: seq<string>)
    ensures ruleUIDs == [] ==> Scoped(env, ruleUIDs, ScopedPair) == Some(env)
    ensures Scoped(env, ruleUIDs, ScopedPair).None? <==>
            exists uid ::
              uid in ruleUIDs && !StaysInPlace(Present(env.local.groups), Present(env.remote.groups), uid)
  {
    hide StaysInPlace, Present, ScopedPair, Dedupe, FirstHolding, FirstHolderAt;
    var locals, remotes := Present(env.local.groups), Present(env.remote.groups);
    ScopedPairIsRefused(env.local, env.remote, Dedupe(ruleUIDs));
    forall uid | FirstHolding(locals, uid).None? ensures !StaysInPlace(locals, remotes, uid) {
      NotHeldIsNotInPlace(locals, remotes, uid);
    }
  }

  lemma NotHeldIsNotInPlace(locals: seq<Group>, remotes: seq<Group>, uid: string)
    requires FirstHolding(locals, uid).None?
    ensures !StaysInPlace(locals, remotes, uid)
  {
    hide FirstHolding, FirstHolderAt;
    FirstHoldingIsFirst(locals, uid);
  }

  /** Whatever scope there is, no push starts of a rule the bundle does not hold. */
  lemma NamedRulesAreHeld(env: Env, ruleUIDs: seq<string>, scope: ScopeFunc, uid: string)
    requires Scoped(env, ruleUIDs, scope).Some? && uid in ruleUIDs
    ensures exists k :: FirstHolderAt(Present(env.local.groups), uid, k)
  {
    hide FirstHolding, Dedupe, Present, FirstHolderAt;
    assert uid in Dedupe(ruleUIDs);
    FirstHoldingIsFirst(Present(env.local.groups), uid);
  }
}
