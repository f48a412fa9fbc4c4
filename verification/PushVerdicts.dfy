/** Exactly when a push refuses to write an object, and which failure it files. */
module PushVerdicts {
  import opened Options
  import opened JsonValues
  import opened AlertModels
  import opened GroupPlan
  import opened BundlePlan
  import opened PushRuns
  import opened PlanMeaning
  import Decimal
  import RouteTree

  /** Somebody else than this tool or the API owns the object. */
  predicate Foreign(provenance: string) {
    provenance != "" && provenance != "api"
  }

  // ---------------------------------------------------------------------------------------------
  // Contact points
  // ---------------------------------------------------------------------------------------------

  /** A marker stands somewhere in the value, not counting those only empty keys lead to. */
  predicate HasNamedMarker(v: Json) {
    match v
    case Obj(fields) => exists k :: k in fields && if k == "" then HasNamedMarker(fields[k]) else HasMarker(fields[k])
    case Arr(items) => exists i :: 0 <= i < |items| && HasMarker(items[i])
    case _ => false
  }

  lemma {:induction false} CollectedMeansNamed(v: Json)
    ensures CollectRedacted(v, "") != {} <==> HasNamedMarker(v)
    decreases v
  {
    match v {
      case Obj(fields) =>
        forall k | k in fields
          ensures CollectRedacted(fields[k], ChildPath("", k)) != {} <==>
                  if k == "" then HasNamedMarker(fields[k]) else HasMarker(fields[k])
        {
          if k == "" {
            CollectedMeansNamed(fields[k]);
          } else {
            CollectedMeansMarked(fields[k], k);
          }
        }
        if k :| k in fields && CollectRedacted(fields[k], ChildPath("", k)) != {} {
          var p :| p in CollectRedacted(fields[k], ChildPath("", k));
          assert p in CollectRedacted(v, "");
        }
      case Arr(items) =>
        forall i | 0 <= i < |items|
          ensures CollectRedacted(items[i], "" + "[" + Decimal.Text(i) + "]") != {} <==> HasMarker(items[i])
        {
          assert "" + "[" + Decimal.Text(i) + "]" == "[" + Decimal.Text(i) + "]";
          CollectedMeansMarked(items[i], "[" + Decimal.Text(i) + "]");
        }
        if i :| 0 <= i < |items| && HasMarker(items[i]) {
          var p :| p in CollectRedacted(items[i], "" + "[" + Decimal.Text(i) + "]");
          assert p in CollectRedacted(v, "");
        }
      case _ =>
    }
  }

  /** The point's uid, name or one of its settings is redacted. */
  predicate IsRedacted(p: ContactPoint) {
    p.uid == "[REDACTED]" || p.name == "[REDACTED]" || HasNamedMarker(Obj(p.rest - {"uid", "name", "provenance"}))
  }

  lemma RedactedFields(p: ContactPoint)
    ensures CollectRedacted(Obj(PointFields(p)), "") != {} <==> IsRedacted(p)
  {
    hide CollectRedacted;
    CollectedMeansNamed(Obj(PointFields(p)));
    var f, rest := PointFields(p), p.rest - {"uid", "name", "provenance"};
    assert forall k | k in rest :: k in f && f[k] == rest[k];
    assert forall k | k in f && k !in {"uid", "name"} :: k in rest;
    assert p.uid == "[REDACTED]" ==> "uid" in f && HasMarker(f["uid"]);
    assert p.name == "[REDACTED]" ==> "name" in f && HasMarker(f["name"]);
  }

  /** The remote point at k is the one a write of p would replace. */
  predicate Replaced(p: ContactPoint, remote: seq<Option<ContactPoint>>, k: int) {
    0 <= k < |remote| && Addresses(p, remote[k]) && forall j | 0 <= j < k :: !Addresses(p, remote[j])
  }

  /** Two remote points have the name of a point without a uid. */
  predicate TwoOfTheName(p: ContactPoint, remote: seq<Option<ContactPoint>>) {
    p.uid == "" && exists i, j :: 0 <= i < j < |remote| && Addresses(p, remote[i]) && Addresses(p, remote[j])
  }

  /**
   A contact point is refused in three cases: two remote points have its name, the one it would replace is
   another provisioner's, or it would be created and is redacted.
   */
  lemma PointRefusals(env: Env, p: ContactPoint)
    ensures var v, remote := PointVerdict(env, p), env.remote.contactPoints;
            && (v == Refuse(AmbiguousMatch) <==> TwoOfTheName(p, remote))
            && (v == Refuse(ForeignProvenance) <==>
                  && !TwoOfTheName(p, remote)
                  && exists k :: Replaced(p, remote, k) && Foreign(remote[k].value.provenance))
            && (v == Refuse(RedactedSecrets) <==>
                  (forall k | 0 <= k < |remote| :: !Addresses(p, remote[k])) && IsRedacted(p))
            && (v.Refuse? ==> v.failure in {AmbiguousMatch, ForeignProvenance, RedactedSecrets})
  {
    hide PointMatch, Addresses, PointFields, CollectRedacted, IsRedacted;
    var remote := env.remote.contactPoints;
    PointMatchIsExact(p, remote);
    RedactedFields(p);
    var m := PointMatch(p, remote);
    if m.Found? {
      assert Replaced(p, remote, m.at);
      assert forall k | Replaced(p, remote, k) :: k == m.at;
    }
  }

  /** The tree is refused exactly when Grafana's is another provisioner's. */
  lemma TreeRefusals(env: Env, tree: RouteTree.Route)
    ensures var v := TreeVerdict(env, tree);
            && (v.Refuse? <==> env.remote.policies.Some? && Foreign(env.remote.policies.value.provenance))
            && (v.Refuse? ==> v == Refuse(ForeignProvenance))
  {
  }

  // ---------------------------------------------------------------------------------------------
  // Groups
  // ---------------------------------------------------------------------------------------------

  /** The rules are there and all another provisioner's, the same one. */
  ghost predicate AllForeign(rules: seq<Rule>) {
    rules != [] && exists owner :: Foreign(owner) && AllCarry(rules, owner)
  }

  /**
   A group is refused in three cases: the rules it replaces disagree about their owner, or are another
   provisioner's, or, neither being so, a rule of it has no organization and neither a remote rule nor the
   context gives it one.
   */
  lemma GroupRefusals(env: Env, t: Target)
    ensures var v, held := GroupVerdict(env, t), if t.remote.Some? then Present(t.remote.value.rules) else [];
            && (v == Refuse(MixedProvenance) <==> Mixed(held))
            && (v == Refuse(ForeignProvenance) <==> AllForeign(held))
            && (v == Refuse(NoOrganization) <==>
                  && !Mixed(held) && !AllForeign(held) && env.orgID == 0
                  && (forall r | r in held :: r.orgID.None?)
                  && exists r :: r in Present(t.local.rules) && r.orgID.None?)
            && (v.Refuse? ==> v.failure in {MixedProvenance, ForeignProvenance, NoOrganization})
  {
    hide Present, FirstOrg, WriteBody;
    var held := if t.remote.Some? then Present(t.remote.value.rules) else [];
    OneOwner(held);
    ResolvedOrgIsExact(t.remote, env.orgID);
    assert ResolvedOrg(t.remote, env.orgID).None? <==> env.orgID == 0 && forall r | r in held :: r.orgID.None?;
  }

  lemma OneOwner(rules: seq<Rule>)
    ensures AllForeign(rules) <==> !Mixed(rules) && rules != [] && Foreign(rules[0].provenance)
  {
    if rules != [] {
      assert rules[0] in rules;
      if !Mixed(rules) {
        assert AllCarry(rules, rules[0].provenance);
      }
    }
  }

  /** What is not refused succeeds in a dry run, and else fails by Grafana's answer to it. */
  lemma SentFailsByAnswer(env: Env, w: Write)
    ensures var failure := Outcome(env, Send(w));
            && (failure == None <==> env.dryRun || env.answer(w) == Accept)
            && (failure == Some(Rejected) <==> !env.dryRun && env.answer(w) == Reject)
            && (failure == Some(Unauthorized) <==> !env.dryRun && env.answer(w) == DeadSession)
  {
  }

  /** The item files a blocked target under what its folder's answer was. */
  predicate FilesBlocked(env: Env, t: Target, item: Item) {
    && item.change == t.change
    && (item.verdict == Refuse(FolderMissing) <==> env.folder(t.local.folderUID) == Missing)
    && (item.verdict == Refuse(FolderForbidden) <==> env.folder(t.local.folderUID) == Forbidden)
    && item.verdict in {Refuse(FolderMissing), Refuse(FolderForbidden)}
  }

  /** The groups of a folder that is missing or forbidden are filed as such, and exactly the others are written. */
  lemma {:induction false} FolderRefusals(env: Env, targets: seq<Target>)
    ensures forall t :: t in Writable(env, targets) <==>
                        t in targets && env.folder(t.local.folderUID) != Missing
                        && env.folder(t.local.folderUID) != Forbidden
    ensures forall item | item in BlockedItems(env, targets) :: exists t :: t in targets && FilesBlocked(env, t, item)
    ensures forall t | t in targets && t !in Writable(env, targets) ::
              exists item :: item in BlockedItems(env, targets) && FilesBlocked(env, t, item)
  {
    if targets != [] {
      var front, last := targets[..|targets| - 1], targets[|targets| - 1];
      assert targets == front + [last];
      FolderRefusals(env, front);
      if Blocked(env, last) {
        var filed := Item(last.change, Refuse(FolderFailure(env.folder(last.local.folderUID))));
        assert BlockedItems(env, targets) == BlockedItems(env, front) + [filed];
        assert FilesBlocked(env, last, filed);
      }
    }
  }
}
