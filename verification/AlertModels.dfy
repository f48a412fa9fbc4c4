/**
 The alerting models: rules and rule groups, the projection the plan compares them through, and the
 body a rule-group write sends.

 A nil element of a Go slice is a `None` slot. A field the code never names is in `rest`, under its
 JSON key.
 */
module AlertModels {
  import opened Options
  import opened JsonValues

  datatype Rule = Rule(
    uid: string,
    title: Option<string>,
    folderUID: Option<string>,
    ruleGroup: Option<string>,
    orgID: Option<int>,
    isPaused: bool,
    id: int,
    updated: string,
    provenance: string,
    rest: map<string, Json>)

  datatype Group = Group(folderUID: string, title: string, interval: int, rules: seq<Option<Rule>>)

  /** The pair the API addresses a rule group by. */
  datatype GroupRef = GroupRef(folderUID: string, title: string)

  function RefOf(group: Group): GroupRef {
    GroupRef(group.folderUID, group.title)
  }

  function RefID(ref: GroupRef): string {
    ref.folderUID + "/" + ref.title
  }

  function GroupID(group: Group): string {
    RefID(RefOf(group))
  }

  /** The elements that are not nil, in order. */
  function Present<T>(slots: seq<Option<T>>): (items: seq<T>)
    ensures |items| <= |slots|
  {
    if slots == [] then []
    else Present(slots[..|slots| - 1]) + (if slots[|slots| - 1].Some? then [slots[|slots| - 1].value] else [])
  }

  lemma {:induction false} PresentConcat<T>(a: seq<Option<T>>, b: seq<Option<T>>)
    ensures Present(a + b) == Present(a) + Present(b)
    decreases |b|
  {
    if b == [] {
      assert a + b == a;
    } else {
      assert (a + b)[..|a + b| - 1] == a + b[..|b| - 1];
      PresentConcat(a, b[..|b| - 1]);
    }
  }

  lemma PresentPrefix<T>(slots: seq<Option<T>>, i: nat)
    requires i < |slots|
    ensures Present(slots[..i + 1]) ==
            if slots[i].Some? then Present(slots[..i]) + [slots[i].value] else Present(slots[..i])
  {
    assert slots[..i + 1][..i] == slots[..i];
  }

  lemma {:induction false} PresentMember<T>(slots: seq<Option<T>>, x: T)
    ensures x in Present(slots) <==> Some(x) in slots
  {
    if slots != [] {
      PresentMember(slots[..|slots| - 1], x);
      assert slots == slots[..|slots| - 1] + [slots[|slots| - 1]];
    }
  }

  function Wrap<T>(items: seq<T>): seq<Option<T>> {
    seq(|items|, i requires 0 <= i < |items| => Some(items[i]))
  }

  lemma {:induction false} PresentOfWrap<T>(items: seq<T>)
    ensures Present(Wrap(items)) == items
  {
    if items != [] {
      assert Wrap(items)[..|items| - 1] == Wrap(items[..|items| - 1]);
      PresentOfWrap(items[..|items| - 1]);
    }
  }

  /** Each element changed by f; a nil slot stays. */
  function MapSlots<T>(slots: seq<Option<T>>, f: T -> T): seq<Option<T>> {
    seq(|slots|, i requires 0 <= i < |slots| => if slots[i].Some? then Some(f(slots[i].value)) else None)
  }

  lemma {:induction false} PresentOfMapped<T>(slots: seq<Option<T>>, f: T -> T)
    ensures |Present(MapSlots(slots, f))| == |Present(slots)|
    ensures forall i | 0 <= i < |Present(slots)| :: Present(MapSlots(slots, f))[i] == f(Present(slots)[i])
  {
    if slots != [] {
      hide Present;
      var n, mapped := |slots| - 1, MapSlots(slots, f);
      PresentOfMapped(slots[..n], f);
      assert mapped[..n] == MapSlots(slots[..n], f) && mapped[..n + 1] == mapped && slots[..n + 1] == slots;
      PresentPrefix(slots, n);
      PresentPrefix(mapped, n);
    }
  }

  // ---------------------------------------------------------------------------------------------
  // The projection
  // ---------------------------------------------------------------------------------------------

  const RULE_KEYS: set<string> :=
    {"uid", "title", "folderUID", "ruleGroup", "orgID", "isPaused", "id", "updated", "provenance"}

  const READ_ONLY_KEYS: set<string> := {"id", "updated", "provenance"}

  function OptText(o: Option<string>): Json {
    if o.Some? then Str(o.value) else Null
  }

  /** The value a key of the rule's JSON object has, if any; a key marked omitempty is absent when it holds nothing. */
  function RuleField(r: Rule, k: string): Option<Json> {
    if k == "uid" then (if r.uid != "" then Some(Str(r.uid)) else None)
    else if k == "title" then Some(OptText(r.title))
    else if k == "folderUID" then Some(OptText(r.folderUID))
    else if k == "ruleGroup" then Some(OptText(r.ruleGroup))
    else if k == "orgID" then Some(if r.orgID.Some? then Int(r.orgID.value) else Null)
    else if k == "isPaused" then (if r.isPaused then Some(Bool(true)) else None)
    else if k == "id" then (if r.id != 0 then Some(Int(r.id)) else None)
    else if k == "updated" then Some(Str(r.updated))
    else if k == "provenance" then (if r.provenance != "" then Some(Str(r.provenance)) else None)
    else if k in r.rest then Some(r.rest[k])
    else None
  }

  /** The rule's JSON object. */
  function EncodeRule(r: Rule): map<string, Json> {
    map k | k in r.rest.Keys + RULE_KEYS && RuleField(r, k).Some? :: RuleField(r, k).value
  }

  /** What the plan compares: the JSON object without the read-only keys and the empty values. */
  function RuleProjection(r: Rule): Json {
    DropEmpty(Obj(EncodeRule(r) - READ_ONLY_KEYS))
  }

  predicate EqualRules(a: Rule, b: Rule) {
    RuleProjection(a) == RuleProjection(b)
  }

  /** The two rules are the same write: equal in every field but the three Grafana owns. */
  predicate SameRule(a: Rule, b: Rule) {
    && a.uid == b.uid && a.title == b.title
    && a.folderUID == b.folderUID && a.ruleGroup == b.ruleGroup && a.orgID == b.orgID
    && a.isPaused == b.isPaused
    && SameMeaning(Obj(a.rest - RULE_KEYS), Obj(b.rest - RULE_KEYS))
  }

  /** One key of the stripped object. */
  lemma StrippedField(r: Rule, k: string)
    ensures Field(EncodeRule(r) - READ_ONLY_KEYS, k) ==
            if k !in READ_ONLY_KEYS && RuleField(r, k).Some? then RuleField(r, k).value else Null
  {
    hide RuleField;
    assert RuleField(r, k).Some? ==> k in r.rest.Keys + RULE_KEYS by { KnownKey(r, k); }
  }

  lemma KnownKey(r: Rule, k: string)
    ensures RuleField(r, k).Some? ==> k in r.rest.Keys + RULE_KEYS
  {
  }

  lemma OtherField(r: Rule, k: string)
    requires k !in RULE_KEYS
    ensures (if RuleField(r, k).Some? then RuleField(r, k).value else Null) == Field(r.rest - RULE_KEYS, k)
  {
  }

  /** Comparing projections decides whether two rules are the same write. */
  lemma ProjectionDecidesSameRule(a: Rule, b: Rule)
    ensures EqualRules(a, b) <==> SameRule(a, b)
  {
    hide EncodeRule, RuleField;
    var f, g := EncodeRule(a) - READ_ONLY_KEYS, EncodeRule(b) - READ_ONLY_KEYS;
    DropEmptyIsCanonical(Obj(f), Obj(g));
    SameObject(f, g);
    if forall k :: SameField(Field(f, k), Field(g, k)) {
      ProjectionSeparates(a, b);
    }
    if SameRule(a, b) {
      forall k ensures SameField(Field(f, k), Field(g, k)) {
        SameRuleField(a, b, k);
      }
    }
  }

  lemma SameRuleField(a: Rule, b: Rule, k: string)
    requires SameRule(a, b)
    ensures SameField(Field(EncodeRule(a) - READ_ONLY_KEYS, k), Field(EncodeRule(b) - READ_ONLY_KEYS, k))
  {
    hide EncodeRule, SameMeaning;
    StrippedField(a, k);
    StrippedField(b, k);
    if k !in RULE_KEYS {
      OtherField(a, k);
      OtherField(b, k);
      SameObject(a.rest - RULE_KEYS, b.rest - RULE_KEYS);
      assert SameField(Field(a.rest - RULE_KEYS, k), Field(b.rest - RULE_KEYS, k));
    } else {
      SameMeaningIsReflexive(Field(EncodeRule(a) - READ_ONLY_KEYS, k));
    }
  }

  lemma ProjectionSeparates(a: Rule, b: Rule)
    requires forall k :: SameField(Field(EncodeRule(a) - READ_ONLY_KEYS, k), Field(EncodeRule(b) - READ_ONLY_KEYS, k))
    ensures SameRule(a, b)
  {
    hide EncodeRule;
    ScalarSeparates(a, b, "uid");
    ScalarSeparates(a, b, "title");
    ScalarSeparates(a, b, "folderUID");
    ScalarSeparates(a, b, "ruleGroup");
    ScalarSeparates(a, b, "orgID");
    ScalarSeparates(a, b, "isPaused");
    assert SameMeaning(Obj(a.rest - RULE_KEYS), Obj(b.rest - RULE_KEYS)) by {
      hide RuleField;
      forall k ensures SameField(Field(a.rest - RULE_KEYS, k), Field(b.rest - RULE_KEYS, k)) {
        if k !in RULE_KEYS {
          assert SameField(Field(EncodeRule(a) - READ_ONLY_KEYS, k), Field(EncodeRule(b) - READ_ONLY_KEYS, k));
          StrippedField(a, k);
          StrippedField(b, k);
          OtherField(a, k);
          OtherField(b, k);
        }
      }
      SameObject(a.rest - RULE_KEYS, b.rest - RULE_KEYS);
    }
  }

  /** The identity fields are scalars, so equal projections mean equal fields. */
  lemma ScalarSeparates(a: Rule, b: Rule, k: string)
    requires k in RULE_KEYS - READ_ONLY_KEYS
    requires SameField(Field(EncodeRule(a) - READ_ONLY_KEYS, k), Field(EncodeRule(b) - READ_ONLY_KEYS, k))
    ensures (if RuleField(a, k).Some? then RuleField(a, k).value else Null) ==
            (if RuleField(b, k).Some? then RuleField(b, k).value else Null)
  {
    hide EncodeRule, SameMeaning, DropEmpty;
    StrippedField(a, k);
    StrippedField(b, k);
    ScalarField(a, k);
    ScalarField(b, k);
    SameScalar(Field(EncodeRule(a) - READ_ONLY_KEYS, k), Field(EncodeRule(b) - READ_ONLY_KEYS, k));
  }

  predicate IsScalar(v: Json) {
    !v.Obj? && !v.Arr?
  }

  lemma ScalarField(r: Rule, k: string)
    requires k in RULE_KEYS
    ensures RuleField(r, k).Some? ==> IsScalar(RuleField(r, k).value)
  {
  }

  lemma SameScalar(a: Json, b: Json)
    requires IsScalar(a) && IsScalar(b) && SameField(a, b)
    ensures a == b
  {
  }
}
