/**
 Pushing contact points and the policy tree converges: against a server that hides secrets when it lists
 contact points, and stamps the tree as it likes.
 */
module PointConvergence {
  import opened Options
  import opened JsonValues
  import opened AlertModels
  import opened BundlePlan
  import opened PushRuns
  import opened PushTheorems
  import opened ApplyConvergence
  import GroupPlan
  import RouteTree

  // ---------------------------------------------------------------------------------------------
  // One point
  // ---------------------------------------------------------------------------------------------

  /** The paths of the settings a type of contact point keeps secret. */
  type Hides = string -> Path -> bool

  function TypeOf(p: ContactPoint): string {
    if "type" in p.rest && p.rest["type"].Str? then p.rest["type"].s else ""
  }

  function Settings(p: ContactPoint): map<string, Json> {
    p.rest - POINT_KEYS
  }

  /** The point holds text in the clear that Grafana hides. */
  predicate HoldsLiteralSecret(p: ContactPoint, hides: Hides) {
    HasLiteralSecret(Obj(Settings(p)), [], hides(TypeOf(p)))
  }

  /** What the listing shows of a body: the name and uid it has, its settings with the secrets hidden. */
  ghost predicate StoredPoint(body: ContactPoint, stored: ContactPoint, hides: Hides) {
    && stored.name == body.name && (body.uid != "" ==> stored.uid == body.uid)
    && exists kept: Path -> string ::
       Obj(Settings(stored)) == ReadBack(Obj(Settings(body)), [], hides(TypeOf(body)), kept)
  }

  function Identity(uid: string, name: string): map<string, Json> {
    (if uid != "" then map["uid" := Str(uid)] else map[]) + (if name != "" then map["name" := Str(name)] else map[])
  }

  lemma PointFieldsSplit(p: ContactPoint)
    ensures PointFields(p) == Settings(p) + Identity(p.uid, p.name)
    ensures Settings(p).Keys !! Identity(p.uid, p.name).Keys
  {
  }

  lemma DroppedWithIdentity(f: map<string, Json>, uid: string, name: string)
    requires f.Keys !! Identity(uid, name).Keys
    ensures DropEmpty(Obj(f + Identity(uid, name))) == Obj(DropEmpty(Obj(f)).fields + Identity(uid, name))
    ensures DropEmpty(Obj(f)).fields.Keys !! Identity(uid, name).Keys
  {
    var n := Identity(uid, name);
    var d, e := DropEmpty(Obj(f + n)).fields, DropEmpty(Obj(f)).fields;
    forall k ensures k in d <==> k in e + n {
      DroppedKey(f + n, k);
      DroppedKey(f, k);
    }
    forall k | k in d ensures d[k] == (e + n)[k] {
      DroppedKey(f + n, k);
      DroppedKey(f, k);
    }
    assert d == e + n;
  }

  /** Every field of f stands equal in g. */
  predicate FieldsEqual(f: map<string, Json>, g: map<string, Json>) {
    forall k | k in f :: k in g && EqualRedacted(f[k], g[k])
  }

  lemma ObjectsEqual(f: map<string, Json>, g: map<string, Json>)
    ensures EqualRedacted(Obj(f), Obj(g)) <==> |f| == |g| && FieldsEqual(f, g)
  {
  }

  /** The same fields added on both sides decide nothing. */
  lemma SameAddition(d: map<string, Json>, e: map<string, Json>, n: map<string, Json>)
    requires d.Keys !! n.Keys && e.Keys !! n.Keys
    ensures EqualRedacted(Obj(d + n), Obj(e + n)) <==> EqualRedacted(Obj(d), Obj(e))
  {
    hide EqualRedacted;
    Added(d, n);
    Added(e, n);
    ObjectsEqual(d + n, e + n);
    ObjectsEqual(d, e);
    if FieldsEqual(d + n, e + n) {
      forall k | k in d ensures k in e && EqualRedacted(d[k], e[k]) {
        assert k in d + n && k !in n;
      }
    }
    forall k | k in n ensures EqualRedacted(n[k], n[k]) {
      EqualRedactedIsReflexive(n[k]);
    }
  }

  lemma Added(d: map<string, Json>, n: map<string, Json>)
    requires d.Keys !! n.Keys
    ensures |d + n| == |d| + |n|
  {
    assert (d + n).Keys == d.Keys + n.Keys;
    assert |d + n| == |(d + n).Keys| && |d| == |d.Keys| && |n| == |n.Keys|;
  }

  /** What is listed of a point that was written equals it exactly when it holds no secret in the clear. */
  lemma StoredPointIsEqual(p: ContactPoint, uid: string, stored: ContactPoint, hides: Hides)
    requires StoredPoint(ContactPointBody(p, uid), stored, hides)
    ensures EqualContactPoints(p, stored) <==> !HoldsLiteralSecret(p, hides)
  {
    hide EqualRedacted, DropEmpty, ReadBack, HasLiteralSecret, PointFields, Identity, Settings;
    var sent, body := ContactPointBody(p, stored.uid), ContactPointBody(p, uid);
    assert Settings(sent) == Settings(p) == Settings(body) by { SameSettings(p, uid, stored.uid); }
    var f, g, n := Settings(p), Settings(stored), Identity(stored.uid, stored.name);
    var kept: Path -> string :| Obj(g) == ReadBack(Obj(f), [], hides(TypeOf(body)), kept);
    PointFieldsSplit(sent);
    PointFieldsSplit(stored);
    DroppedWithIdentity(f, stored.uid, stored.name);
    DroppedWithIdentity(g, stored.uid, stored.name);
    DroppedIsObject(f);
    DroppedIsObject(g);
    SameAddition(DropEmpty(Obj(f)).fields, DropEmpty(Obj(g)).fields, n);
    ReadsBackEqual(Obj(f), [], hides(TypeOf(p)), kept);
  }

  lemma SameSettings(p: ContactPoint, uid: string, other: string)
    ensures Settings(ContactPointBody(p, uid)) == Settings(p) == Settings(ContactPointBody(p, other))
  {
  }

  // ---------------------------------------------------------------------------------------------
  // The server
  // ---------------------------------------------------------------------------------------------

  /** The contact points as they are listed, by uid. */
  type Points = map<string, ContactPoint>

  /** The listing shows each point of the server in one place, in any order. */
  ghost predicate Lists(listing: seq<Option<ContactPoint>>, server: Points) {
    && (forall uid | uid in server :: uid != "" && server[uid].uid == uid)
    && (forall i | 0 <= i < |listing| && listing[i].Some? ::
          listing[i].value.uid in server && server[listing[i].value.uid] == listing[i].value)
    && (forall uid | uid in server :: exists i :: 0 <= i < |listing| && listing[i] == Some(server[uid]))
    && (forall i, j | 0 <= i < j < |listing| && listing[i].Some? && listing[j].Some? ::
          listing[i].value.uid != listing[j].value.uid)
  }

  /** The body is stored under that uid, and every other point stays as it is. */
  ghost predicate Stores(before: Points, uid: string, body: ContactPoint, after: Points, hides: Hides) {
    && uid != "" && uid in after && after == before[uid := after[uid]]
    && after[uid].uid == uid && StoredPoint(body, after[uid], hides)
  }

  /** One accepted request: a create takes a uid that is free, and what is no contact point changes none. */
  ghost predicate Takes(before: Points, w: Write, after: Points, hides: Hides) {
    match w
    case PostPoint(body, _) => exists uid :: uid !in before && Stores(before, uid, body, after, hides)
    case PutPoint(uid, body, _) => Stores(before, uid, body, after, hides)
    case PutTree(_, _) => after == before
    case PutGroup(_, _, _) => after == before
  }

  ghost predicate TakesAll(states: seq<Points>, requests: seq<Write>, hides: Hides) {
    |states| == |requests| + 1 && forall k | 0 <= k < |requests| :: Takes(states[k], requests[k], states[k + 1], hides)
  }

  predicate Puts(w: Write, uid: string) {
    w.PutPoint? && w.uid == uid
  }

  lemma {:induction false} PointsStay(states: seq<Points>, requests: seq<Write>, hides: Hides, uid: string, k: nat,
                                      n: nat)
    requires TakesAll(states, requests, hides) && k <= n <= |requests| && uid in states[k]
    ensures uid in states[n]
    ensures (forall j | k <= j < n :: !Puts(requests[j], uid)) ==> states[n][uid] == states[k][uid]
    decreases n
  {
    hide Stores;
    if k < n {
      PointsStay(states, requests, hides, uid, k, n - 1);
      TakesOne(states[n - 1], requests[n - 1], states[n], hides, uid);
    }
  }

  lemma TakesOne(before: Points, w: Write, after: Points, hides: Hides, uid: string)
    requires Takes(before, w, after, hides) && uid in before
    ensures uid in after && (!Puts(w, uid) ==> after[uid] == before[uid])
  {
  }

  /** A point put, and put by every request to its uid with the same body, is stored from that body in the end. */
  lemma {:induction false} PutIsStored(states: seq<Points>, requests: seq<Write>, hides: Hides, uid: string,
                                       body: ContactPoint, k: nat, n: nat)
    requires TakesAll(states, requests, hides) && k < n <= |requests| && Puts(requests[k], uid)
    requires forall j | 0 <= j < |requests| && Puts(requests[j], uid) :: requests[j].point == body
    ensures uid in states[n] && states[n][uid].uid == uid && StoredPoint(body, states[n][uid], hides)
    decreases n
  {
    hide StoredPoint;
    assert Takes(states[n - 1], requests[n - 1], states[n], hides);
    if !Puts(requests[n - 1], uid) {
      PutIsStored(states, requests, hides, uid, body, k, n - 1);
      TakesOne(states[n - 1], requests[n - 1], states[n], hides, uid);
    }
  }

  // ---------------------------------------------------------------------------------------------
  // The points of an apply
  // ---------------------------------------------------------------------------------------------

  lemma SlotsDiffer(listing: seq<Option<ContactPoint>>, server: Points, i: nat, j: nat)
    requires Lists(listing, server) && i < |listing| && j < |listing| && listing[i].Some? && listing[j].Some?
    requires listing[i].value.uid == listing[j].value.uid
    ensures i == j
  {
  }

  /** Two points of the bundle that address one remote point are one. */
  lemma SharersAreOne(env: Env, plan: seq<Change>, p: ContactPoint, q: ContactPoint)
    requires Planned(env.local, env.remote) == Some(plan)
    requires p in Present(env.local.contactPoints) && q in Present(env.local.contactPoints)
    requires Shares(p, q, env.remote.contactPoints)
    ensures p == q
  {
    hide PointMatch, Present, TreeChanges, GroupChanges;
    var points := Present(env.local.contactPoints);
    EachRemotePointIsAddressedOnce(points, env.remote.contactPoints);
    var i :| 0 <= i < |points| && points[i] == p;
    var j :| 0 <= j < |points| && points[j] == q;
    assert Shares(points[i], points[j], env.remote.contactPoints)
           && Shares(points[j], points[i], env.remote.contactPoints);
  }

  /** A request to the uid of the remote point p addresses is p's own update. */
  lemma PutIsOwn(env: Env, plan: seq<Change>, server: Points, p: ContactPoint, w: Write)
    requires Planned(env.local, env.remote) == Some(plan) && Lists(env.remote.contactPoints, server)
    requires p in Present(env.local.contactPoints) && PointMatch(p, env.remote.contactPoints).Found?
    requires MayWrite(env, w) && Puts(w, env.remote.contactPoints[PointMatch(p, env.remote.contactPoints).at].value.uid)
    ensures w.point == ContactPointBody(p, w.uid)
  {
    hide PointMatch, Planned, Present, Lists, Mirrors;
    var q :| UpdatesPoint(env, q, w.uid, w.point, w.unclaimed);
    var remote := env.remote.contactPoints;
    SlotsDiffer(remote, server, PointMatch(p, remote).at, PointMatch(q, remote).at);
    SharersAreOne(env, plan, p, q);
  }

  /** An update goes to a uid that was listed. */
  lemma PutWasListed(env: Env, server: Points, w: Write)
    requires Lists(env.remote.contactPoints, server) && MayWrite(env, w) && w.PutPoint?
    ensures w.uid in server
  {
    hide PointMatch, Present, Mirrors;
    var q :| UpdatesPoint(env, q, w.uid, w.point, w.unclaimed);
  }

  lemma {:induction false} PointItemIsOwn(env: Env, pending: map<string, Change>, points: seq<ContactPoint>)
    ensures forall item | item in PointItems(env, pending, points) ::
              exists p :: p in points && PointID(p) in pending && item == Item(pending[PointID(p)],
                PointVerdict(env, p))
    ensures forall p | p in points && PointID(p) in pending ::
              Item(pending[PointID(p)], PointVerdict(env, p)) in PointItems(env, pending, points)
  {
    hide PointVerdict, PointID;
    if points != [] {
      var front, last := points[..|points| - 1], points[|points| - 1];
      assert points == front + [last];
      PointItemIsOwn(env, pending, front);
      forall item | item in PointItems(env, pending, points)
        ensures exists p ::
                p in points && PointID(p) in pending && item == Item(pending[PointID(p)], PointVerdict(env, p))
      {
        if item in PointItems(env, pending, front) {
          var p :| p in front && PointID(p) in pending && item == Item(pending[PointID(p)], PointVerdict(env, p));
          assert p in points;
        } else {
          assert last in points;
        }
      }
    }
  }

  /** Only a point that is not Unchanged is requested. */
  lemma PointEntry(env: Env, plan: seq<Change>, p: ContactPoint)
    requires Planned(env.local, env.remote) == Some(plan) && IDsAreUnique(plan) && p in Present(env.local.contactPoints)
    ensures PointID(p) in ByID(PendingOf(plan), ContactPointKind) <==>
            PointChange(p, env.remote.contactPoints).action != Unchanged
  {
    hide Planned, ByID, PendingOf, Present, PointMatch, EqualContactPoints, IDsAreUnique, PointID;
    var points, c := Present(env.local.contactPoints), PointChange(p, env.remote.contactPoints);
    PointIsPlanned(env, plan, p);
    LookupFindsOwnEntry(plan, c);
  }

  lemma PointIsPlanned(env: Env, plan: seq<Change>, p: ContactPoint)
    requires Planned(env.local, env.remote) == Some(plan) && p in Present(env.local.contactPoints)
    ensures PointChange(p, env.remote.contactPoints) in plan
    ensures PointChange(p, env.remote.contactPoints).kind == ContactPointKind
            && PointChange(p, env.remote.contactPoints).id == PointID(p)
  {
    hide PointMatch, EqualContactPoints, Present, TreeChanges, GroupChanges, PointID;
    var points := Present(env.local.contactPoints);
    PlanHoldsGroups(env.local, env.remote, PointChange(p, env.remote.contactPoints));
    ChangesInOrder(points, env.remote.contactPoints);
    var i :| 0 <= i < |points| && points[i] == p;
    assert PointChanges(points, env.remote.contactPoints).value[i] == PointChange(p, env.remote.contactPoints);
  }

  lemma {:induction false} ChangesInOrder(points: seq<ContactPoint>, remote: seq<Option<ContactPoint>>)
    requires PointChanges(points, remote).Some?
    ensures |PointChanges(points, remote).value| == |points|
    ensures forall i | 0 <= i < |points| :: PointChanges(points, remote).value[i] == PointChange(points[i], remote)
  {
    hide PointMatch, PointChange;
    if points != [] {
      ChangesInOrder(points[..|points| - 1], remote);
    }
  }

  /** A point that is not Unchanged is requested. */
  lemma NeedyPointIsRequested(env: Env, plan: seq<Change>, requests: seq<Write>, p: ContactPoint)
    requires Succeeds(env, plan, requests) && p in Present(env.local.contactPoints)
    requires PointChange(p, env.remote.contactPoints).action != Unchanged
    ensures PointVerdict(env, p).Send? && PointVerdict(env, p).value in requests
  {
    hide Applied, Planned, IDsAreUnique, PendingOf, ByID, Present, PointItems, TreeItems, BlockedItems, GroupItems,
      Writable, Targets, Writes, MayWrite, PointVerdict, PointMatch, EqualContactPoints, PointID;
    SucceededSendsAll(env, plan, requests);
    PointEntry(env, plan, p);
    var pending := ByID(PendingOf(plan), ContactPointKind);
    PointItemIsOwn(env, pending, Present(env.local.contactPoints));
    var item := Item(pending[PointID(p)], PointVerdict(env, p));
    assert item in AllItems(env, plan);
    WritesAreSent(AllItems(env, plan), item.verdict.value);
  }

  lemma GroupsSendNoPoint(env: Env, targets: seq<Target>)
    ensures forall item | item in GroupItems(env, targets) && item.verdict.Send? :: !item.verdict.value.PutPoint?
  {
    hide GroupHeader, GroupPlan.EveryRuleHasOrg, GroupPlan.ResolvedOrg, GroupPlan.WriteBody;
  }

  /** An update that is requested is of a point that is not Unchanged. */
  lemma PutIsNeeded(env: Env, plan: seq<Change>, requests: seq<Write>, w: Write) returns (q: ContactPoint)
    requires Succeeds(env, plan, requests) && w in requests && w.PutPoint?
    ensures q in Present(env.local.contactPoints) && PointChange(q, env.remote.contactPoints).action != Unchanged
    ensures PointMatch(q, env.remote.contactPoints).Found?
    ensures env.remote.contactPoints[PointMatch(q, env.remote.contactPoints).at].value.uid == w.uid
  {
    hide Applied, Planned, IDsAreUnique, PendingOf, ByID, Present, PointItems, BlockedItems, GroupItems, Writable,
      Targets, Writes, MayWrite, PointMatch, EqualContactPoints, PointID, FirstTree, AllItems;
    SucceededSendsAll(env, plan, requests);
    WritesAreSent(AllItems(env, plan), w);
    var item :| item in AllItems(env, plan) && item.verdict == Send(w);
    var pending := ByID(PendingOf(plan), ContactPointKind);
    PointItemIsOwn(env, pending, Present(env.local.contactPoints));
    assert item in PointItems(env, pending, Present(env.local.contactPoints)) by {
      hide *;
      PutComesFromPoints(env, plan, item);
    }
    q :| q in Present(env.local.contactPoints) && PointID(q) in pending
         && item == Item(pending[PointID(q)], PointVerdict(env, q));
    PointEntry(env, plan, q);
  }

  /** Of the items only those of contact points send an update of one. */
  lemma PutComesFromPoints(env: Env, plan: seq<Change>, item: Item)
    requires item in AllItems(env, plan) && item.verdict.Send? && item.verdict.value.PutPoint?
    ensures item in PointItems(env, ByID(PendingOf(plan), ContactPointKind), Present(env.local.contactPoints))
  {
    hide PendingOf, ByID, Present, PointItems, BlockedItems, GroupItems, Writable, Targets, FirstTree;
    BlockedAreRefused(env, GroupTargets(env, plan));
    GroupsSendNoPoint(env, Writable(env, GroupTargets(env, plan)));
  }

  /** What the last state holds of a point of the bundle: its own write, or what was listed of it. */
  ghost predicate Ends(p: ContactPoint, remote: seq<Option<ContactPoint>>, x: ContactPoint, hides: Hides) {
    && (if p.uid != "" then x.uid == p.uid else x.name == p.name)
    && if PointChange(p, remote).action == Unchanged then EqualContactPoints(p, x)
       else exists uid :: StoredPoint(ContactPointBody(p, uid), x, hides)
  }

  /** The uid of the remote point p addresses. */
  predicate IsRemoteUID(p: ContactPoint, remote: seq<Option<ContactPoint>>, uid: string) {
    PointMatch(p, remote).Found? && remote[PointMatch(p, remote).at].value.uid == uid
  }

  /** The uid the k-th request, the create of p, was given. */
  predicate CreatedAt(env: Env, p: ContactPoint, requests: seq<Write>, states: seq<Points>, uid: string, k: nat) {
    && |states| == |requests| + 1 && k < |requests|
       && requests[k] == PostPoint(ContactPointBody(p, p.uid), env.uiEditable)
    && uid !in states[0] && uid !in states[k] && uid in states[k + 1]
  }

  /** The writes of one push, in whatever order, over a server that listed its points for the plan. */
  ghost predicate Pushed(env: Env, plan: seq<Change>, requests: seq<Write>, states: seq<Points>, hides: Hides) {
    Succeeds(env, plan, requests) && TakesAll(states, requests, hides) && Lists(env.remote.contactPoints, states[0])
  }

  lemma UnchangedPointStays(env: Env, plan: seq<Change>, requests: seq<Write>, states: seq<Points>, hides: Hides,
                            p: ContactPoint)
    returns (uid: string)
    requires Pushed(env, plan, requests, states, hides) && p in Present(env.local.contactPoints)
    requires PointChange(p, env.remote.contactPoints).action == Unchanged
    ensures IsRemoteUID(p, env.remote.contactPoints, uid)
    ensures uid in states[|requests|] && Ends(p, env.remote.contactPoints, states[|requests|][uid], hides)
  {
    hide Succeeds, TakesAll, PointMatch, Present, EqualContactPoints, StoredPoint;
    var remote := env.remote.contactPoints;
    var at := PointMatch(p, remote).at;
    uid := remote[at].value.uid;
    StatesOf(states, requests, hides);
    forall j | 0 <= j < |requests| ensures !Puts(requests[j], uid) {
      if Puts(requests[j], uid) {
        var q := PutIsNeeded(env, plan, requests, requests[j]);
        SlotsDiffer(remote, states[0], at, PointMatch(q, remote).at);
        PlannedOf(env, plan, requests);
        SharersAreOne(env, plan, p, q);
      }
    }
    PointsStay(states, requests, hides, uid, 0, |requests|);
  }

  lemma PlannedOf(env: Env, plan: seq<Change>, requests: seq<Write>)
    requires Succeeds(env, plan, requests)
    ensures Planned(env.local, env.remote) == Some(plan) && IDsAreUnique(plan)
  {
  }

  lemma StatesOf(states: seq<Points>, requests: seq<Write>, hides: Hides)
    requires TakesAll(states, requests, hides)
    ensures |states| == |requests| + 1
  {
  }

  /** An update as it is sent. */
  lemma UpdateSent(env: Env, p: ContactPoint)
    requires PointMatch(p, env.remote.contactPoints).Found? && PointVerdict(env, p).Send?
    ensures var uid, w := env.remote.contactPoints[PointMatch(p, env.remote.contactPoints).at].value.uid,
            PointVerdict(env, p).value;
            Puts(w, uid) && w.point == ContactPointBody(p, uid)
    ensures var held := env.remote.contactPoints[PointMatch(p, env.remote.contactPoints).at].value;
            if p.uid != "" then held.uid == p.uid else held.name == p.name
  {
    hide PointMatch;
  }

  lemma UpdatedPointEnds(env: Env, plan: seq<Change>, requests: seq<Write>, states: seq<Points>, hides: Hides,
                         p: ContactPoint)
    returns (uid: string)
    requires Pushed(env, plan, requests, states, hides) && p in Present(env.local.contactPoints)
    requires PointChange(p, env.remote.contactPoints).action != Unchanged
             && PointMatch(p, env.remote.contactPoints).Found?
    ensures IsRemoteUID(p, env.remote.contactPoints, uid)
    ensures uid in states[|requests|] && Ends(p, env.remote.contactPoints, states[|requests|][uid], hides)
  {
    hide Succeeds, TakesAll, PointMatch, Present, EqualContactPoints, StoredPoint, Planned, IDsAreUnique, MayWrite,
      PointVerdict, Lists;
    StatesOf(states, requests, hides);
    PlannedOf(env, plan, requests);
    SucceededSendsAll(env, plan, requests);
    var remote := env.remote.contactPoints;
    uid := remote[PointMatch(p, remote).at].value.uid;
    NeedyPointIsRequested(env, plan, requests, p);
    UpdateSent(env, p);
    var w := PointVerdict(env, p).value;
    var k :| 0 <= k < |requests| && requests[k] == w;
    forall j | 0 <= j < |requests| && Puts(requests[j], uid) ensures requests[j].point == ContactPointBody(p, uid) {
      PutIsOwn(env, plan, states[0], p, requests[j]);
    }
    PutIsStored(states, requests, hides, uid, ContactPointBody(p, uid), k, |requests|);
    NameOfStored(ContactPointBody(p, uid), states[|requests|][uid], hides);
  }

  lemma NameOfStored(body: ContactPoint, stored: ContactPoint, hides: Hides)
    requires StoredPoint(body, stored, hides)
    ensures stored.name == body.name && (body.uid != "" ==> stored.uid == body.uid)
  {
  }

  /** A create as it is sent. */
  lemma CreateSent(env: Env, p: ContactPoint)
    requires PointMatch(p, env.remote.contactPoints).NoMatch? && PointVerdict(env, p).Send?
    ensures PointVerdict(env, p).value == PostPoint(ContactPointBody(p, p.uid), env.uiEditable)
  {
    hide PointMatch;
  }

  lemma CreatedPointEnds(env: Env, plan: seq<Change>, requests: seq<Write>, states: seq<Points>, hides: Hides,
                         p: ContactPoint)
    returns (uid: string, k: nat)
    requires Pushed(env, plan, requests, states, hides) && p in Present(env.local.contactPoints)
    requires PointMatch(p, env.remote.contactPoints).NoMatch?
    ensures CreatedAt(env, p, requests, states, uid, k)
    ensures uid in states[|requests|] && Ends(p, env.remote.contactPoints, states[|requests|][uid], hides)
  {
    hide Succeeds, TakesAll, PointMatch, Present, EqualContactPoints, StoredPoint, Planned, IDsAreUnique, MayWrite,
      PointVerdict, Lists;
    StatesOf(states, requests, hides);
    SucceededSendsAll(env, plan, requests);
    NeedyPointIsRequested(env, plan, requests, p);
    CreateSent(env, p);
    var w := PointVerdict(env, p).value;
    k :| 0 <= k < |requests| && requests[k] == w;
    uid := FreshUID(states, requests, hides, k);
    if uid in states[0] {
      PointsStay(states, requests, hides, uid, 0, k);
    }
    forall j | 0 <= j < |requests| ensures !Puts(requests[j], uid) {
      if Puts(requests[j], uid) {
        PutWasListed(env, states[0], requests[j]);
      }
    }
    PointsStay(states, requests, hides, uid, k + 1, |requests|);
    NameOfStored(w.point, states[k + 1][uid], hides);
  }

  lemma FreshUID(states: seq<Points>, requests: seq<Write>, hides: Hides, k: nat) returns (uid: string)
    requires TakesAll(states, requests, hides) && k < |requests| && requests[k].PostPoint?
    ensures uid !in states[k] && uid in states[k + 1] && states[k + 1][uid].uid == uid
    ensures StoredPoint(requests[k].point, states[k + 1][uid], hides)
  {
    hide StoredPoint;
    assert Takes(states[k], requests[k], states[k + 1], hides);
    uid :| uid !in states[k] && Stores(states[k], uid, requests[k].point, states[k + 1], hides);
  }

  /** When the listing shows the point and its match is not ambiguous, that is the one found. */
  lemma FoundInListing(p: ContactPoint, listing: seq<Option<ContactPoint>>, server: Points, uid: string)
    requires Lists(listing, server) && uid in server && PointID(p) != ""
    requires if p.uid != "" then server[uid].uid == p.uid else server[uid].name == p.name
    requires !PointMatch(p, listing).Ambiguous?
    ensures PointMatch(p, listing).Found? && listing[PointMatch(p, listing).at] == Some(server[uid])
  {
    hide PointMatch;
    PointMatchIsExact(p, listing);
    var i :| 0 <= i < |listing| && listing[i] == Some(server[uid]);
    assert Addresses(p, listing[i]);
    var at := PointMatch(p, listing).at;
    assert Addresses(p, listing[at]);
    if p.uid != "" {
      SlotsDiffer(listing, server, i, at);
    }
  }

  /** A point of the bundle needs no further write. */
  predicate PointSettles(p: ContactPoint, remote: seq<Option<ContactPoint>>, hides: Hides) {
    PointChange(p, remote).action == Unchanged || !HoldsLiteralSecret(p, hides)
  }

  /** The uid under which the last state holds the point: the one it addressed, or one that was free. */
  lemma PointEnds(env: Env, plan: seq<Change>, requests: seq<Write>, states: seq<Points>, hides: Hides, p: ContactPoint)
    returns (uid: string, k: nat)
    requires Pushed(env, plan, requests, states, hides) && p in Present(env.local.contactPoints)
    ensures uid in states[|requests|] && Ends(p, env.remote.contactPoints, states[|requests|][uid], hides)
    ensures IsRemoteUID(p, env.remote.contactPoints, uid) || CreatedAt(env, p, requests, states, uid, k)
  {
    hide Succeeds, TakesAll, PointMatch, Present, EqualContactPoints, Lists, IsRemoteUID, CreatedAt, Ends, Planned,
      IDsAreUnique;
    StatesOf(states, requests, hides);
    PlannedOf(env, plan, requests);
    NotAmbiguous(env, plan, p);
    k := 0;
    if PointChange(p, env.remote.contactPoints).action == Unchanged {
      uid := UnchangedPointStays(env, plan, requests, states, hides, p);
    } else if PointMatch(p, env.remote.contactPoints).Found? {
      uid := UpdatedPointEnds(env, plan, requests, states, hides, p);
    } else {
      uid, k := CreatedPointEnds(env, plan, requests, states, hides, p);
    }
  }

  /** Two points of the bundle with IDs of their own end under different uids. */
  lemma EndsApart(env: Env, plan: seq<Change>, requests: seq<Write>, states: seq<Points>, hides: Hides, p: ContactPoint,
                  u: string, k: nat, q: ContactPoint, v: string, l: nat)
    requires Pushed(env, plan, requests, states, hides) && PointID(p) != PointID(q)
    requires p in Present(env.local.contactPoints) && q in Present(env.local.contactPoints)
    requires IsRemoteUID(p, env.remote.contactPoints, u) || CreatedAt(env, p, requests, states, u, k)
    requires IsRemoteUID(q, env.remote.contactPoints, v) || CreatedAt(env, q, requests, states, v, l)
    ensures u != v
  {
    hide Succeeds, TakesAll, PointMatch, Present, Planned, IDsAreUnique;
    var remote := env.remote.contactPoints;
    StatesOf(states, requests, hides);
    PlannedOf(env, plan, requests);
    if u == v {
      if IsRemoteUID(p, remote, u) && IsRemoteUID(q, remote, v) {
        SlotsDiffer(remote, states[0], PointMatch(p, remote).at, PointMatch(q, remote).at);
        SharersAreOne(env, plan, p, q);
      } else if CreatedAt(env, p, requests, states, u, k) && CreatedAt(env, q, requests, states, v, l) {
        if k < l {
          PointsStay(states, requests, hides, u, k + 1, l);
        } else if l < k {
          PointsStay(states, requests, hides, v, l + 1, k);
        } else {
          SameBodySameID(p, q);
        }
      }
    }
  }

  lemma SameBodySameID(p: ContactPoint, q: ContactPoint)
    requires ContactPointBody(p, p.uid) == ContactPointBody(q, q.uid)
    ensures PointID(p) == PointID(q)
  {
    assert ContactPointBody(p, p.uid).uid == ContactPointBody(q, q.uid).uid
           && ContactPointBody(p, p.uid).name == ContactPointBody(q, q.uid).name;
  }

  /** Planned again, no two points of the bundle address one listed point. */
  lemma SharedAfterwards(env: Env, plan: seq<Change>, requests: seq<Write>, states: seq<Points>, hides: Hides,
                         listing: seq<Option<ContactPoint>>, p: ContactPoint, q: ContactPoint)
    requires Pushed(env, plan, requests, states, hides) && Lists(listing, states[|states| - 1])
    requires p in Present(env.local.contactPoints) && q in Present(env.local.contactPoints)
    requires PointID(p) != "" && PointID(q) != "" && PointID(p) != PointID(q)
    requires !PointMatch(p, listing).Ambiguous? && !PointMatch(q, listing).Ambiguous?
    ensures !Shares(p, q, listing)
  {
    hide Succeeds, TakesAll, PointMatch, Present, EqualContactPoints, StoredPoint, IsRemoteUID, CreatedAt, PointID,
      PointChange;
    StatesOf(states, requests, hides);
    var u, k := PointEnds(env, plan, requests, states, hides, p);
    var v, l := PointEnds(env, plan, requests, states, hides, q);
    EndsApart(env, plan, requests, states, hides, p, u, k, q, v, l);
    FoundInListing(p, listing, states[|requests|], u);
    FoundInListing(q, listing, states[|requests|], v);
  }

  /**
   After an apply that nothing stopped and in which nothing failed, a contact point of the bundle whose match
   is not ambiguous plans as Unchanged exactly when it was, or holds no secret in the clear.
   */
  lemma PointsConverge(env: Env, plan: seq<Change>, requests: seq<Write>, states: seq<Points>, hides: Hides,
                       listing: seq<Option<ContactPoint>>, p: ContactPoint)
    requires Pushed(env, plan, requests, states, hides) && Lists(listing, states[|states| - 1])
    requires p in Present(env.local.contactPoints) && PointID(p) != "" && !PointMatch(p, listing).Ambiguous?
    ensures PointChange(p, listing).action == Unchanged <==> PointSettles(p, env.remote.contactPoints, hides)
  {
    hide Succeeds, TakesAll, PointMatch, Present, EqualContactPoints, StoredPoint, Lists, HoldsLiteralSecret,
      IsRemoteUID, CreatedAt;
    StatesOf(states, requests, hides);
    var uid, k := PointEnds(env, plan, requests, states, hides, p);
    var x := states[|requests|][uid];
    FoundInListing(p, listing, states[|requests|], uid);
    if PointChange(p, env.remote.contactPoints).action != Unchanged {
      var u :| StoredPoint(ContactPointBody(p, u), x, hides);
      StoredPointIsEqual(p, u, x, hides);
    }
  }

  lemma NotAmbiguous(env: Env, plan: seq<Change>, p: ContactPoint)
    requires Planned(env.local, env.remote) == Some(plan) && p in Present(env.local.contactPoints)
    ensures !PointMatch(p, env.remote.contactPoints).Ambiguous?
  {
    hide PointMatch, Present, TreeChanges, GroupChanges, NoneShares;
    EachRemotePointIsAddressedOnce(Present(env.local.contactPoints), env.remote.contactPoints);
  }

  // ---------------------------------------------------------------------------------------------
  // The tree of an apply
  // ---------------------------------------------------------------------------------------------

  /** The tree Grafana holds after the requests: stored from the one that was put, or as it was. */
  ghost predicate TreeAfter(before: Option<RouteTree.Route>, requests: seq<Write>, after: Option<RouteTree.Route>) {
    if exists w :: w in requests && w.PutTree?
    then after.Some? && exists w :: w in requests && w.PutTree? && RouteTree.StoredFrom(w.tree, after.value)
    else after == before
  }

  /** After such an apply the tree of the bundle plans as Unchanged. */
  lemma TreeConverges(env: Env, plan: seq<Change>, requests: seq<Write>, after: Option<RouteTree.Route>)
    requires Succeeds(env, plan, requests) && env.local.policies.Some?
             && TreeAfter(env.remote.policies, requests, after)
    ensures forall c | c in TreeChanges(env.local.policies, after) :: c.action == Unchanged
  {
    hide Succeeds, RouteTree.StoredFrom, RouteTree.EqualRoutes, RouteTree.RouteBody, RouteTree.ClaimsNothing,
      Mirrors, Present, PointMatch;
    SucceededSendsAll(env, plan, requests);
    if exists w :: w in requests && w.PutTree? {
      var w :| w in requests && w.PutTree? && RouteTree.StoredFrom(w.tree, after.value);
      assert MayWrite(env, w);
      RouteTree.TreePushConverges(env.local.policies.value, after.value);
    } else {
      var c := TreeChanges(env.local.policies, env.remote.policies)[0];
      if c.action != Unchanged {
        NeedyTreeIsRequested(env, plan, requests, c);
      }
    }
  }

  lemma NeedyTreeIsRequested(env: Env, plan: seq<Change>, requests: seq<Write>, c: Change)
    requires Succeeds(env, plan, requests) && env.local.policies.Some?
    requires TreeChanges(env.local.policies, env.remote.policies) == [c] && c.action != Unchanged
    ensures exists w :: w in requests && w.PutTree?
  {
    hide Applied, Planned, IDsAreUnique, PendingOf, ByID, Present, PointItems, BlockedItems, GroupItems, Writable,
      Targets, Writes, MayWrite, FirstTree, TreeVerdict;
    SucceededSendsAll(env, plan, requests);
    PlanHoldsGroups(env.local, env.remote, c);
    PendingMember(plan, c);
    FirstTreeFinds(PendingOf(plan));
    var tree := env.local.policies.value;
    var item := Item(FirstTree(PendingOf(plan)).value, TreeVerdict(env, tree));
    assert item in TreeItems(env, PendingOf(plan)) && item in AllItems(env, plan);
    WritesAreSent(AllItems(env, plan), item.verdict.value);
    assert item.verdict.value.PutTree? by { TreeVerdictPutsTree(env, tree); }
  }

  lemma TreeVerdictPutsTree(env: Env, tree: RouteTree.Route)
    ensures TreeVerdict(env, tree).Send? ==> TreeVerdict(env, tree).value.PutTree?
  {
  }
}
