/**
 Decoded JSON values as the plan compares them: dropping the empty values, and equality under
 Grafana's redaction of secrets.

 The code edits freshly decoded maps in place; nothing else refers to them, so values are enough.
 */
module JsonValues {
  import Decimal

  datatype Json =
    | Null
    | Bool(b: bool)
    | Int(i: int)
    | Float(f: real)
    | Str(s: string)
    | Arr(items: seq<Json>)
    | Obj(fields: map<string, Json>)

  /** One of the three interchangeable forms of nothing. */
  predicate IsEmpty(v: Json) {
    v == Null || v == Arr([]) || v == Obj(map[])
  }

  /** Removes every object key whose value carries nothing, at any depth; array positions are kept. */
  function DropEmpty(v: Json): Json {
    match v
    case Obj(fields) => Obj(map k | k in fields && !IsEmpty(DropEmpty(fields[k])) :: DropEmpty(fields[k]))
    case Arr(items) => Arr(seq(|items|, i requires 0 <= i < |items| => DropEmpty(items[i])))
    case _ => v
  }

  /** Nothing but nothing, at any depth: what DropEmpty turns into an empty value. */
  predicate Vacuous(v: Json) {
    match v
    case Null => true
    case Arr(items) => items == []
    case Obj(fields) => forall k | k in fields :: Vacuous(fields[k])
    case _ => false
  }

  /** The two values differ at most in object keys that carry nothing, at any depth. */
  predicate SameMeaning(a: Json, b: Json) {
    match a
    case Obj(fields) =>
      b.Obj?
      && (forall k | k in fields ::
            if k in b.fields then SameMeaning(fields[k], b.fields[k]) || (Vacuous(fields[k]) && Vacuous(b.fields[k]))
                                    else Vacuous(fields[k]))
      && (forall k | k in b.fields && k !in fields :: Vacuous(b.fields[k]))
    case Arr(items) => b.Arr? && |items| == |b.items|
        && forall i | 0 <= i < |items| :: SameMeaning(items[i], b.items[i])
    case _ => a == b
  }

  lemma {:induction false} EmptyAfterDrop(v: Json)
    ensures IsEmpty(DropEmpty(v)) <==> Vacuous(v)
  {
    match v {
      case Obj(fields) =>
        forall k | k in fields ensures IsEmpty(DropEmpty(fields[k])) <==> Vacuous(fields[k]) {
          EmptyAfterDrop(fields[k]);
        }
        if k :| k in fields && !Vacuous(fields[k]) {
          assert k in DropEmpty(v).fields;
        } else {
          assert DropEmpty(v).fields == map[];
        }
      case Arr(items) => assert |DropEmpty(v).items| == |items|;
      case _ =>
    }
  }

  lemma DroppedKey(fields: map<string, Json>, k: string)
    ensures var d := DropEmpty(Obj(fields)).fields;
            && (k in d <==> k in fields && !Vacuous(fields[k]))
            && (k in d ==> d[k] == DropEmpty(fields[k]))
  {
    if k in fields {
      EmptyAfterDrop(fields[k]);
    }
  }

  /**
   The projection is canonical: two values compare equal exactly when they differ in nothing but
   object keys that carry nothing, at any depth.
   */
  lemma {:induction false} DropEmptyIsCanonical(a: Json, b: Json)
    ensures DropEmpty(a) == DropEmpty(b) <==> SameMeaning(a, b)
    decreases a, 1
  {
    match a {
      case Obj(fields) => if b.Obj? { ObjectsAreCanonical(a, b); }
      case Arr(items) => if b.Arr? { ArraysAreCanonical(a, b); }
      case _ =>
    }
  }

  lemma {:induction false} ObjectsAreCanonical(a: Json, b: Json)
    requires a.Obj? && b.Obj?
    ensures DropEmpty(a) == DropEmpty(b) <==> SameMeaning(a, b)
    decreases a, 0
  {
    var d, e := DropEmpty(a).fields, DropEmpty(b).fields;
    forall k | k in a.fields || k in b.fields
      ensures (k in d <==> k in a.fields && !Vacuous(a.fields[k])) && (k in d ==> d[k] == DropEmpty(a.fields[k]))
      ensures (k in e <==> k in b.fields && !Vacuous(b.fields[k])) && (k in e ==> e[k] == DropEmpty(b.fields[k]))
    {
      DroppedKey(a.fields, k);
      DroppedKey(b.fields, k);
    }
    forall k | k in a.fields && k in b.fields
      ensures DropEmpty(a.fields[k]) == DropEmpty(b.fields[k]) <==> SameMeaning(a.fields[k], b.fields[k])
    {
      DropEmptyIsCanonical(a.fields[k], b.fields[k]);
    }
    forall k | k in a.fields && k in b.fields && SameMeaning(a.fields[k], b.fields[k])
      ensures Vacuous(a.fields[k]) <==> Vacuous(b.fields[k])
    {
      EmptyAfterDrop(a.fields[k]);
      EmptyAfterDrop(b.fields[k]);
    }
    if d == e {
      assert SameMeaning(a, b);
    }
    if SameMeaning(a, b) {
      assert d.Keys == e.Keys;
      assert d == e;
    }
  }

  lemma {:induction false} ArraysAreCanonical(a: Json, b: Json)
    requires a.Arr? && b.Arr?
    ensures DropEmpty(a) == DropEmpty(b) <==> SameMeaning(a, b)
    decreases a, 0
  {
    var d, e := DropEmpty(a).items, DropEmpty(b).items;
    if |a.items| == |b.items| {
      forall i | 0 <= i < |a.items|
        ensures d[i] == e[i] <==> SameMeaning(a.items[i], b.items[i])
      {
        DropEmptyIsCanonical(a.items[i], b.items[i]);
      }
      assert d == e <==> forall i | 0 <= i < |d| :: d[i] == e[i];
    }
  }

  lemma {:induction false} DropEmptyIsIdempotent(v: Json)
    ensures DropEmpty(DropEmpty(v)) == DropEmpty(v)
  {
    match v {
      case Obj(fields) =>
        var d := DropEmpty(v).fields;
        forall k | k in d ensures DropEmpty(d[k]) == d[k] && !IsEmpty(d[k]) {
          DropEmptyIsIdempotent(fields[k]);
        }
        assert DropEmpty(DropEmpty(v)).fields == d;
      case Arr(items) =>
        var d := DropEmpty(v).items;
        forall i | 0 <= i < |d| ensures DropEmpty(d[i]) == d[i] {
          DropEmptyIsIdempotent(items[i]);
        }
        assert DropEmpty(DropEmpty(v)).items == d;
      case _ =>
    }
  }

  /** An absent key means the same as a null one. */
  function Field(fields: map<string, Json>, k: string): Json {
    if k in fields then fields[k] else Null
  }

  predicate SameField(a: Json, b: Json) {
    SameMeaning(a, b) || (Vacuous(a) && Vacuous(b))
  }

  lemma SameObject(f: map<string, Json>, g: map<string, Json>)
    ensures SameMeaning(Obj(f), Obj(g)) <==> forall k :: SameField(Field(f, k), Field(g, k))
  {
    if SameMeaning(Obj(f), Obj(g)) {
      forall k ensures SameField(Field(f, k), Field(g, k)) {
      }
    }
    if forall k :: SameField(Field(f, k), Field(g, k)) {
      forall k | k in f
        ensures if k in g then SameMeaning(f[k], g[k]) || (Vacuous(f[k]) && Vacuous(g[k])) else Vacuous(f[k])
      {
        assert SameField(Field(f, k), Field(g, k));
      }
      forall k | k in g && k !in f ensures Vacuous(g[k]) {
        assert SameField(Field(f, k), Field(g, k));
      }
    }
  }

  lemma {:induction false} SameMeaningIsReflexive(v: Json)
    ensures SameMeaning(v, v)
  {
    DropEmptyIsCanonical(v, v);
  }

  // ---------------------------------------------------------------------------------------------
  // Redaction
  // ---------------------------------------------------------------------------------------------

  const REDACTED := "[REDACTED]"

  /** Deep equality in which a local "[REDACTED]" leaf equals whatever stands at the same place. */
  predicate EqualRedacted(local: Json, remote: Json) {
    local == Str(REDACTED) ||
    match local
    case Obj(fields) =>
      remote.Obj? && |remote.fields| == |fields| && forall k | k in fields ::
        k in remote.fields && EqualRedacted(fields[k], remote.fields[k])
    case Arr(items) =>
      remote.Arr? && |remote.items| == |items| && forall i | 0 <= i < |items| ::
        EqualRedacted(items[i], remote.items[i])
    case _ => local == remote
  }

  /** A value equals itself, markers and all. */
  lemma {:induction false} EqualRedactedIsReflexive(v: Json)
    ensures EqualRedacted(v, v)
  {
    match v {
      case Obj(fields) =>
        forall k | k in fields ensures EqualRedacted(fields[k], fields[k]) {
          EqualRedactedIsReflexive(fields[k]);
        }
      case Arr(items) =>
        forall i | 0 <= i < |items| ensures EqualRedacted(items[i], items[i]) {
          EqualRedactedIsReflexive(items[i]);
        }
      case _ =>
    }
  }

  datatype Step = Key(key: string) | Index(index: nat)

  type Path = seq<Step>

  /** The value with every "[REDACTED]" leaf replaced by what `secrets` holds for its path. */
  function Restored(v: Json, at: Path, secrets: Path -> Json): Json {
    match v
    case Obj(fields) => Obj(map k | k in fields :: Restored(fields[k], at + [Key(k)], secrets))
    case Arr(items) => Arr(seq(|items|, i requires 0 <= i < |items| => Restored(items[i], at + [Index(i)], secrets)))
    case _ => if v == Str(REDACTED) then secrets(at) else v
  }

  function Lookup(v: Json, path: Path): Json {
    if path == [] then v
    else match path[0]
         case Key(k) => if v.Obj? && k in v.fields then Lookup(v.fields[k], path[1..]) else Null
         case Index(i) => if v.Arr? && i < |v.items| then Lookup(v.items[i], path[1..]) else Null
  }

  lemma SubsetOfSameSize(a: set<string>, b: set<string>)
    requires a <= b && |a| == |b|
    ensures a == b
  {
    assert b == a + (b - a);
    assert |b| == |a| + |b - a|;
  }

  /** At the path `at`, the secrets are what the remote value holds. */
  ghost predicate ReadsFrom(secrets: Path -> Json, at: Path, remote: Json) {
    forall p: Path :: secrets(at + p) == Lookup(remote, p)
  }

  lemma ReadsFromBelow(secrets: Path -> Json, at: Path, remote: Json, step: Step, below: Json)
    requires ReadsFrom(secrets, at, remote)
    requires forall p: Path :: Lookup(remote, [step] + p) == Lookup(below, p)
    ensures ReadsFrom(secrets, at + [step], below)
  {
    forall p: Path ensures secrets(at + [step] + p) == Lookup(below, p) {
      assert at + [step] + p == at + ([step] + p);
      assert secrets(at + ([step] + p)) == Lookup(remote, [step] + p);
    }
  }

  lemma LookupStep(remote: Json, step: Step, p: Path)
    ensures remote.Obj? && step.Key? && step.key in remote.fields ==>
            Lookup(remote, [step] + p) == Lookup(remote.fields[step.key], p)
    ensures remote.Arr? && step.Index? && step.index < |remote.items| ==>
            Lookup(remote, [step] + p) == Lookup(remote.items[step.index], p)
  {
    assert ([step] + p)[1..] == p;
  }

  lemma {:induction false} RestoringLookups(local: Json, remote: Json, at: Path, secrets: Path -> Json)
    requires EqualRedacted(local, remote) && ReadsFrom(secrets, at, remote)
    ensures Restored(local, at, secrets) == remote
    decreases local
  {
    hide ReadsFrom, Lookup;
    match local {
      case Obj(fields) =>
        SubsetOfSameSize(fields.Keys, remote.fields.Keys);
        forall k | k in fields ensures Restored(fields[k], at + [Key(k)], secrets) == remote.fields[k] {
          forall p: Path
            ensures Lookup(remote, [Key(k)] + p) == Lookup(remote.fields[k], p) { LookupStep(remote, Key(k), p); }
          ReadsFromBelow(secrets, at, remote, Key(k), remote.fields[k]);
          RestoringLookups(fields[k], remote.fields[k], at + [Key(k)], secrets);
        }
        assert Restored(local, at, secrets).fields == remote.fields;
      case Arr(items) =>
        forall i | 0 <= i < |items| ensures Restored(items[i], at + [Index(i)], secrets) == remote.items[i] {
          forall p: Path
            ensures Lookup(remote, [Index(i)] + p) == Lookup(remote.items[i], p) { LookupStep(remote, Index(i), p); }
          ReadsFromBelow(secrets, at, remote, Index(i), remote.items[i]);
          RestoringLookups(items[i], remote.items[i], at + [Index(i)], secrets);
        }
        assert Restored(local, at, secrets).items == remote.items;
      case _ => ReadHere(secrets, at, remote);
    }
  }

  lemma ReadHere(secrets: Path -> Json, at: Path, remote: Json)
    requires ReadsFrom(secrets, at, remote)
    ensures secrets(at) == remote
  {
    assert at + [] == at;
    assert secrets(at + []) == Lookup(remote, []);
  }

  lemma {:induction false} RestoredIsEqual(local: Json, at: Path, secrets: Path -> Json)
    ensures EqualRedacted(local, Restored(local, at, secrets))
    decreases local
  {
    match local {
      case Obj(fields) =>
        var r := Restored(local, at, secrets);
        assert r.fields.Keys == fields.Keys;
        forall k | k in fields ensures EqualRedacted(fields[k], r.fields[k]) {
          RestoredIsEqual(fields[k], at + [Key(k)], secrets);
        }
      case Arr(items) =>
        forall i | 0 <= i < |items| ensures EqualRedacted(items[i], Restored(local, at, secrets).items[i]) {
          RestoredIsEqual(items[i], at + [Index(i)], secrets);
        }
      case _ =>
    }
  }

  /** The comparison holds exactly when filling the markers of the local value can yield the remote one. */
  lemma EqualRedactedMeansRestorable(local: Json, remote: Json)
    ensures EqualRedacted(local, remote) <==> exists secrets: Path -> Json :: Restored(local, [], secrets) == remote
  {
    if EqualRedacted(local, remote) {
      var secrets: Path -> Json := p => Lookup(remote, p);
      assert ReadsFrom(secrets, [], remote) by {
        forall p: Path ensures secrets([] + p) == Lookup(remote, p) {
          assert [] + p == p;
        }
      }
      RestoringLookups(local, remote, [], secrets);
    }
    if secrets: Path -> Json :| Restored(local, [], secrets) == remote {
      RestoredIsEqual(local, [], secrets);
    }
  }

  predicate HasMarker(v: Json) {
    match v
    case Obj(fields) => exists k :: k in fields && HasMarker(fields[k])
    case Arr(items) => exists i :: 0 <= i < |items| && HasMarker(items[i])
    case _ => v == Str(REDACTED)
  }

  lemma {:induction false} WithoutMarkerIsDeepEquality(local: Json, remote: Json)
    requires !HasMarker(local)
    ensures EqualRedacted(local, remote) <==> local == remote
    decreases local
  {
    match local {
      case Obj(fields) =>
        if remote.Obj? {
          forall k | k in fields && k in remote.fields
            ensures EqualRedacted(fields[k], remote.fields[k]) <==> fields[k] == remote.fields[k]
          {
            WithoutMarkerIsDeepEquality(fields[k], remote.fields[k]);
          }
          if EqualRedacted(local, remote) {
            SubsetOfSameSize(fields.Keys, remote.fields.Keys);
            assert fields == remote.fields;
          }
        }
      case Arr(items) =>
        if remote.Arr? && |remote.items| == |items| {
          forall i | 0 <= i < |items|
            ensures EqualRedacted(items[i], remote.items[i]) <==> items[i] == remote.items[i]
          {
            WithoutMarkerIsDeepEquality(items[i], remote.items[i]);
          }
          if EqualRedacted(local, remote) {
            assert items == remote.items;
          }
        }
      case _ =>
    }
  }

  function ChildPath(path: string, key: string): string {
    if path != "" then path + "." + key else key
  }

  /** The dotted paths of the "[REDACTED]" leaves; a leaf with an empty path is not reported. */
  function CollectRedacted(v: Json, path: string): set<string> {
    match v
    case Obj(fields) =>
      set k, p | k in fields && p in CollectRedacted(fields[k], ChildPath(path, k)) :: p
    case Arr(items) =>
      set i, p | 0 <= i < |items| && p in CollectRedacted(items[i], path + "[" + Decimal.Text(i) + "]") :: p
    case _ => if v == Str(REDACTED) && path != "" then {path} else {}
  }

  lemma {:induction false} CollectedMeansMarked(v: Json, path: string)
    requires path != ""
    ensures CollectRedacted(v, path) == {} <==> !HasMarker(v)
    decreases v
  {
    match v {
      case Obj(fields) =>
        forall k | k in fields ensures CollectRedacted(fields[k], ChildPath(path, k)) == {} <==> !HasMarker(fields[k]) {
          CollectedMeansMarked(fields[k], ChildPath(path, k));
        }
        if k :| k in fields && HasMarker(fields[k]) {
          var p :| p in CollectRedacted(fields[k], ChildPath(path, k));
          assert p in CollectRedacted(v, path);
        }
      case Arr(items) =>
        forall i | 0 <= i < |items|
          ensures CollectRedacted(items[i], path + "[" + Decimal.Text(i) + "]") == {} <==> !HasMarker(items[i])
        {
          CollectedMeansMarked(items[i], path + "[" + Decimal.Text(i) + "]");
        }
        if i :| 0 <= i < |items| && HasMarker(items[i]) {
          var p :| p in CollectRedacted(items[i], path + "[" + Decimal.Text(i) + "]");
          assert p in CollectRedacted(v, path);
        }
      case _ =>
    }
  }

  /**
   For an object with no empty top-level key, the walk over the leaves reports nothing exactly when
   there is no marker, and then the redaction-aware comparison is deep equality.
   */
  lemma NothingCollectedMeansDeepEquality(fields: map<string, Json>, remote: Json)
    requires "" !in fields
    ensures CollectRedacted(Obj(fields), "") == {} <==> !HasMarker(Obj(fields))
    ensures CollectRedacted(Obj(fields), "") == {} ==> (EqualRedacted(Obj(fields), remote) <==> Obj(fields) == remote)
  {
    forall k | k in fields ensures CollectRedacted(fields[k], ChildPath("", k)) == {} <==> !HasMarker(fields[k]) {
      CollectedMeansMarked(fields[k], k);
    }
    if k :| k in fields && HasMarker(fields[k]) {
      var p :| p in CollectRedacted(fields[k], ChildPath("", k));
      assert p in CollectRedacted(Obj(fields), "");
    } else {
      assert !HasMarker(Obj(fields));
      WithoutMarkerIsDeepEquality(Obj(fields), remote);
    }
  }

  // ---------------------------------------------------------------------------------------------
  // A server that hides secrets
  // ---------------------------------------------------------------------------------------------

  /**
   What a value reads back as from a server that hides the text at some paths and keeps its own text where
   the value holds the marker.
   */
  function ReadBack(v: Json, at: Path, hidden: Path -> bool, kept: Path -> string): Json {
    match v
    case Obj(fields) => Obj(map k | k in fields :: ReadBack(fields[k], at + [Key(k)], hidden, kept))
    case Arr(items) =>
      Arr(seq(|items|, i requires 0 <= i < |items| => ReadBack(items[i], at + [Index(i)], hidden, kept)))
    case Str(s) => if hidden(at) && s != "" then Str(REDACTED) else if s == REDACTED then Str(kept(at)) else v
    case _ => v
  }

  /** The value holds text in the clear where the server hides it. */
  predicate HasLiteralSecret(v: Json, at: Path, hidden: Path -> bool) {
    match v
    case Obj(fields) => exists k :: k in fields && HasLiteralSecret(fields[k], at + [Key(k)], hidden)
    case Arr(items) => exists i :: 0 <= i < |items| && HasLiteralSecret(items[i], at + [Index(i)], hidden)
    case Str(s) => hidden(at) && s != "" && s != REDACTED
    case _ => false
  }

  lemma {:induction false} ReadBackCarriesAsMuch(v: Json, at: Path, hidden: Path -> bool, kept: Path -> string)
    ensures Vacuous(ReadBack(v, at, hidden, kept)) <==> Vacuous(v)
    ensures Vacuous(v) ==> !HasLiteralSecret(v, at, hidden)
    decreases v
  {
    match v {
      case Obj(fields) =>
        forall k | k in fields
          ensures Vacuous(ReadBack(fields[k], at + [Key(k)], hidden, kept)) <==> Vacuous(fields[k])
          ensures Vacuous(fields[k]) ==> !HasLiteralSecret(fields[k], at + [Key(k)], hidden)
        {
          ReadBackCarriesAsMuch(fields[k], at + [Key(k)], hidden, kept);
        }
        assert ReadBack(v, at, hidden, kept).fields.Keys == fields.Keys;
      case Arr(items) =>
        assert |ReadBack(v, at, hidden, kept).items| == |items|;
      case _ =>
    }
  }

  /** Compared with what it reads back as, a value is equal exactly when it holds no secret in the clear. */
  lemma {:induction false} ReadsBackEqual(v: Json, at: Path, hidden: Path -> bool, kept: Path -> string)
    ensures EqualRedacted(DropEmpty(v), DropEmpty(ReadBack(v, at, hidden, kept))) <==> !HasLiteralSecret(v, at, hidden)
    decreases v, 1
  {
    match v {
      case Obj(fields) => ObjectReadsBackEqual(v, at, hidden, kept);
      case Arr(items) => ArrayReadsBackEqual(v, at, hidden, kept);
      case _ =>
    }
  }

  lemma EqualObjects(f: map<string, Json>, g: map<string, Json>)
    requires f.Keys == g.Keys
    ensures EqualRedacted(Obj(f), Obj(g)) <==> forall k | k in f :: EqualRedacted(f[k], g[k])
  {
    assert |f| == |f.Keys| == |g.Keys| == |g|;
  }

  lemma EqualArrays(a: seq<Json>, b: seq<Json>)
    requires |a| == |b|
    ensures EqualRedacted(Arr(a), Arr(b)) <==> forall i | 0 <= i < |a| :: EqualRedacted(a[i], b[i])
  {
  }

  /** One field: it is dropped alike, and when it is kept it compares equal exactly without a secret. */
  lemma {:induction false} FieldReadsBackEqual(fields: map<string, Json>, at: Path, hidden: Path -> bool,
                                               kept: Path -> string, k: string)
    requires k in fields
    ensures var d := DropEmpty(Obj(fields)).fields;
            var e := DropEmpty(ReadBack(Obj(fields), at, hidden, kept)).fields;
            && (k in d <==> k in e)
            && (if k in d then EqualRedacted(d[k], e[k]) <==> !HasLiteralSecret(fields[k], at + [Key(k)], hidden)
                else !HasLiteralSecret(fields[k], at + [Key(k)], hidden))
    decreases fields[k], 2
  {
    var back := ReadBack(Obj(fields), at, hidden, kept).fields;
    assert k in back && back[k] == ReadBack(fields[k], at + [Key(k)], hidden, kept);
    hide DropEmpty, ReadBack, HasLiteralSecret, EqualRedacted, Vacuous;
    ReadBackCarriesAsMuch(fields[k], at + [Key(k)], hidden, kept);
    DroppedKey(fields, k);
    DroppedKey(back, k);
    ReadsBackEqual(fields[k], at + [Key(k)], hidden, kept);
    assert ReadBack(Obj(fields), at, hidden, kept) == Obj(back) by { ReadBackIsObject(fields, at, hidden, kept); }
  }

  lemma ReadBackIsObject(fields: map<string, Json>, at: Path, hidden: Path -> bool, kept: Path -> string)
    ensures ReadBack(Obj(fields), at, hidden, kept).Obj?
            && ReadBack(Obj(fields), at, hidden, kept).fields.Keys == fields.Keys
  {
  }

  lemma DroppedIsObject(fields: map<string, Json>)
    ensures DropEmpty(Obj(fields)).Obj? && DropEmpty(Obj(fields)).fields.Keys <= fields.Keys
  {
  }

  lemma {:induction false} ObjectReadsBackEqual(v: Json, at: Path, hidden: Path -> bool, kept: Path -> string)
    requires v.Obj?
    ensures EqualRedacted(DropEmpty(v), DropEmpty(ReadBack(v, at, hidden, kept))) <==> !HasLiteralSecret(v, at, hidden)
    decreases v, 0
  {
    hide DropEmpty, ReadBack, EqualRedacted;
    var fields := v.fields;
    ReadBackIsObject(fields, at, hidden, kept);
    var back := ReadBack(v, at, hidden, kept).fields;
    DroppedIsObject(fields);
    DroppedIsObject(back);
    var d, e := DropEmpty(v).fields, DropEmpty(ReadBack(v, at, hidden, kept)).fields;
    forall k | k in fields
      ensures k in d <==> k in e
      ensures if k in d then EqualRedacted(d[k], e[k]) <==> !HasLiteralSecret(fields[k], at + [Key(k)], hidden)
              else !HasLiteralSecret(fields[k], at + [Key(k)], hidden)
    {
      FieldReadsBackEqual(fields, at, hidden, kept, k);
    }
    EqualObjects(d, e);
  }

  lemma {:induction false} ArrayReadsBackEqual(v: Json, at: Path, hidden: Path -> bool, kept: Path -> string)
    requires v.Arr?
    ensures EqualRedacted(DropEmpty(v), DropEmpty(ReadBack(v, at, hidden, kept))) <==> !HasLiteralSecret(v, at, hidden)
    decreases v, 0
  {
    var items, back := v.items, ReadBack(v, at, hidden, kept).items;
    var d, e := DropEmpty(v).items, DropEmpty(Arr(back)).items;
    assert |d| == |items| == |back| == |e|;
    assert forall i | 0 <= i < |items| :: d[i] == DropEmpty(items[i]) && e[i] == DropEmpty(back[i]);
    assert forall i | 0 <= i < |items| :: back[i] == ReadBack(items[i], at + [Index(i)], hidden, kept);
    hide DropEmpty, ReadBack, EqualRedacted;
    forall i | 0 <= i < |items|
      ensures EqualRedacted(d[i], e[i]) <==> !HasLiteralSecret(items[i], at + [Index(i)], hidden)
    {
      ReadsBackEqual(items[i], at + [Index(i)], hidden, kept);
    }
    EqualArrays(d, e);
    ArraysStay(v, at, hidden, kept);
    assert DropEmpty(v) == Arr(d) && DropEmpty(ReadBack(v, at, hidden, kept)) == Arr(e);
  }

  lemma ArraysStay(v: Json, at: Path, hidden: Path -> bool, kept: Path -> string)
    requires v.Arr?
    ensures ReadBack(v, at, hidden, kept).Arr? && DropEmpty(v).Arr? && DropEmpty(ReadBack(v, at, hidden, kept)).Arr?
  {
  }
}
