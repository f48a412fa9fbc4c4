/**
 The discovery index: maps from names and groups to the resources the server lists, and lookups over them.

 The read-write lock serialises the operations, so each one is a call on the whole state.
 */
module Discovery {
  import opened Options
  import opened Sequences

  datatype GroupVersion = GroupVersion(group: string, version: string)

  datatype GroupKind = GroupKind(group: string, kind: string)

  datatype Descriptor = Descriptor(gv: GroupVersion, kind: string, plural: string, singular: string)

  datatype APIGroup = APIGroup(name: string, preferred: string, versions: seq<string>)

  datatype APIResource = APIResource(group: string, version: string, kind: string, name: string, singular: string)

  datatype APIList = APIList(groupVersion: string, resources: seq<APIResource>)

  // ---------------------------------------------------------------------------------------------
  // A plain scan of the discovery lists
  // ---------------------------------------------------------------------------------------------

  /** The text before the first occurrence of c, and what follows it when there is one. */
  function Cut(s: string, c: char): (string, Option<string>) {
    if s == "" then ("", None)
    else if s[0] == c then ("", Some(s[1..]))
    else var (a, b) := Cut(s[1..], c); ([s[0]] + a, b)
  }

  function ShortName(name: string): string {
    Cut(name, '.').0
  }

  /** A group and a version, neither empty, separated by the only slash. */
  function ParseGroupVersion(src: string): Option<GroupVersion> {
    var (group, rest) := Cut(src, '/');
    if rest.None? || '/' in rest.value || group == "" || rest.value == "" then None
    else Some(GroupVersion(group, rest.value))
  }

  /** A resource's own group and version win over its list's. */
  function DescriptorOf(gv: GroupVersion, r: APIResource): Descriptor {
    Descriptor(GroupVersion(if r.group != "" then r.group else gv.group,
                            if r.version != "" then r.version else gv.version),
               r.kind, r.name, r.singular)
  }

  function DescriptorsOf(gv: GroupVersion, resources: seq<APIResource>): seq<Descriptor> {
    seq(|resources|, i requires 0 <= i < |resources| => DescriptorOf(gv, resources[i]))
  }

  /** Every resource of the lists, in order; a list without resources may carry any text. */
  function Listed(lists: seq<APIList>): Option<seq<Descriptor>> {
    if lists == [] then Some([])
    else
      var before, last := Listed(lists[..|lists| - 1]), lists[|lists| - 1];
      var gv := ParseGroupVersion(last.groupVersion);
      if last.resources == [] then before
      else if before.None? || gv.None? then None
      else Some(before.value + DescriptorsOf(gv.value, last.resources))
  }

  /** The versions the groups declare, in order. */
  function VersionsOf(g: APIGroup): seq<GroupVersion> {
    seq(|g.versions|, i requires 0 <= i < |g.versions| => GroupVersion(g.name, g.versions[i]))
  }

  function Declared(groups: seq<APIGroup>): seq<GroupVersion> {
    if groups == [] then [] else Declared(groups[..|groups| - 1]) + VersionsOf(groups[|groups| - 1])
  }

  datatype Selector = ByKind | BySingular | ByPlural

  function NameOf(d: Descriptor, sel: Selector): string {
    match sel
    case ByKind => d.kind
    case BySingular => d.singular
    case ByPlural => d.plural
  }

  function KindOf(d: Descriptor): GroupKind {
    GroupKind(d.gv.group, d.kind)
  }

  /** The descriptors of that name, in order. */
  function Named(descs: seq<Descriptor>, sel: Selector, name: string): seq<GroupKind> {
    if descs == [] then []
    else
      var last := descs[|descs| - 1];
      Named(descs[..|descs| - 1], sel, name) + if NameOf(last, sel) == name then [KindOf(last)] else []
  }

  function AtVersion(descs: seq<Descriptor>, gv: GroupVersion): seq<Descriptor> {
    if descs == [] then []
    else AtVersion(descs[..|descs| - 1], gv) + if descs[|descs| - 1].gv == gv then [descs[|descs| - 1]] else []
  }

  /** The last group of that short name. */
  function ByShortName(groups: seq<APIGroup>, short: string): Option<string> {
    if groups == [] then None
    else if ShortName(groups[|groups| - 1].name) == short then Some(groups[|groups| - 1].name)
    else ByShortName(groups[..|groups| - 1], short)
  }

  /** The last preferred version a group of that name states. */
  function Preferred(groups: seq<APIGroup>, name: string): Option<string> {
    if groups == [] then None
    else
      var last := groups[|groups| - 1];
      if last.name == name && last.preferred != "" then Some(last.preferred)
      else Preferred(groups[..|groups| - 1], name)
  }

  predicate IsGroup(groups: seq<APIGroup>, name: string) {
    exists g :: g in groups && g.name == name
  }

  /** What carries the requested name: kinds first, then singular names, then plural ones. */
  function Candidates(descs: seq<Descriptor>, name: string): seq<GroupKind> {
    if Named(descs, ByKind, name) != [] then Named(descs, ByKind, name)
    else if Named(descs, BySingular, name) != [] then Named(descs, BySingular, name)
    else Named(descs, ByPlural, name)
  }

  /** The group a text names for a single answer: a full name wins over a short one. */
  function GroupFor(groups: seq<APIGroup>, text: string): Option<string> {
    if IsGroup(groups, text) then Some(text) else ByShortName(groups, text)
  }

  /** The group a text names for all versions: a short name wins over a full one. */
  function GroupForAll(groups: seq<APIGroup>, text: string): Option<string> {
    if ByShortName(groups, text).Some? then ByShortName(groups, text) else if IsGroup(groups, text) then Some(text)
    else None
  }

  /** The kind of the first candidate in the group. */
  function KindIn(candidates: seq<GroupKind>, group: string): Option<string> {
    if candidates == [] then None
    else if candidates[0].group == group then Some(candidates[0].kind)
    else KindIn(candidates[1..], group)
  }

  function FirstOfKind(descs: seq<Descriptor>, kind: string): (found: Option<Descriptor>)
    ensures found.Some? ==> found.value in descs && found.value.kind == kind
    ensures found.None? <==> forall d | d in descs :: d.kind != kind
  {
    if descs == [] then None else if descs[0].kind == kind then Some(descs[0]) else FirstOfKind(descs[1..], kind)
  }

  /** The answer of a scan for one descriptor among the candidates. */
  function ScanAmong(groups: seq<APIGroup>, descs: seq<Descriptor>, candidates: seq<GroupKind>, group: string,
                     version: string): Option<Descriptor> {
    if candidates == [] then None
    else
      var target := if group == "" then Some(candidates[0].group) else GroupFor(groups, group);
      if target.None? then None
      else
        var kind := KindIn(candidates, target.value);
        var v := if version != "" then Some(version) else Preferred(groups, target.value);
        if kind.None? || kind.value == "" || v.None? then None
        else
          var gv := GroupVersion(target.value, v.value);
          if gv !in Declared(groups) then None else FirstOfKind(AtVersion(descs, gv), kind.value)
  }

  /** The answer of a scan for one descriptor. */
  function ScanOne(groups: seq<APIGroup>, descs: seq<Descriptor>, name: string, group: string,
                   version: string): Option<Descriptor> {
    ScanAmong(groups, descs, Candidates(descs, name), group, version)
  }

  /** d is one of a scan's answers for all versions among the candidates. */
  predicate InScanAmong(groups: seq<APIGroup>, descs: seq<Descriptor>, candidates: seq<GroupKind>, group: string,
                        d: Descriptor) {
    var kind := KindIn(candidates, d.gv.group);
    && (group != "" ==> GroupForAll(groups, group) == Some(d.gv.group))
    && kind.Some? && kind.value != "" && d.gv in Declared(groups)
    && FirstOfKind(AtVersion(descs, d.gv), kind.value) == Some(d)
  }

  /** d is one of a scan's answers for all versions. */
  predicate InScanAll(groups: seq<APIGroup>, descs: seq<Descriptor>, name: string, group: string, d: Descriptor) {
    InScanAmong(groups, descs, Candidates(descs, name), group, d)
  }

  // ---------------------------------------------------------------------------------------------
  // The index
  // ---------------------------------------------------------------------------------------------

  /** Names to the group kinds that carry them. */
  ghost predicate IndexesNames(m: map<string, seq<GroupKind>>, descs: seq<Descriptor>, sel: Selector) {
    forall name ::
      && (name in m <==> Named(descs, sel, name) != [])
      && (name in m ==> m[name] == Named(descs, sel, name))
  }

  ghost predicate IndexesVersions(m: map<GroupVersion, seq<Descriptor>>, declared: seq<GroupVersion>,
                                  descs: seq<Descriptor>) {
    forall gv ::
      && (gv in m <==> gv in declared)
      && (gv in m ==> m[gv] == AtVersion(descs, gv))
  }

  ghost predicate IndexesGroups(short: map<string, string>, long: set<string>, preferred: map<string, GroupVersion>,
                                groups: seq<APIGroup>) {
    && (forall s ::
          (s in short <==> ByShortName(groups, s).Some?) && (s in short ==> Some(short[s]) == ByShortName(groups, s)))
    && (forall n :: n in long <==> IsGroup(groups, n))
    && (forall n :: (n in preferred <==> Preferred(groups, n).Some?)
                    && (n in preferred ==> preferred[n] == GroupVersion(n, Preferred(groups, n).value)))
  }

  class RegistryIndex {
    var shortGroups: map<string, string>
    var longGroups: set<string>
    var preferredVersions: map<string, GroupVersion>
    var descriptors: map<GroupVersion, seq<Descriptor>>
    var kindNames: map<string, seq<GroupKind>>
    var singularNames: map<string, seq<GroupKind>>
    var pluralNames: map<string, seq<GroupKind>>

    constructor ()
      ensures Agrees([], [])
    {
      shortGroups, longGroups, preferredVersions, descriptors := map[], {}, map[], map[];
      kindNames, singularNames, pluralNames := map[], map[], map[];
    }

    /** The index holds what the lists say. */
    ghost predicate Agrees(groups: seq<APIGroup>, descs: seq<Descriptor>)
      reads this
    {
      && IndexesGroups(shortGroups, longGroups, preferredVersions, groups)
      && IndexesVersions(descriptors, Declared(groups), descs)
      && IndexesNames(kindNames, descs, ByKind)
      && IndexesNames(singularNames, descs, BySingular)
      && IndexesNames(pluralNames, descs, ByPlural)
    }

    /**
     Replaces the index by what the lists say, or refuses them and leaves it alone: a version declared
     twice, an unreadable group version, a resource at an undeclared version.
     */
    method Update(groups: seq<APIGroup>, lists: seq<APIList>) returns (ok: bool)
      modifies this
      ensures ok <==> Acceptable(groups, lists)
      ensures ok ==> Agrees(groups, Listed(lists).value)
      ensures !ok ==> unchanged(this)
    {
      hide *;
      var short, long, preferred, declared := CollectGroups(groups);
      if declared.None? {
        NotAcceptable(groups, lists);
        return false;
      }
      var found, kinds, singulars, plurals := CollectResources(declared.value, Declared(groups), lists);
      AcceptableWhenFound(groups, lists);
      if found.None? {
        return false;
      }
      shortGroups, longGroups, preferredVersions, descriptors := short, long, preferred, found.value;
      kindNames, singularNames, pluralNames := kinds, singulars, plurals;
      AgreesNow(this, groups, Listed(lists).value);
      ok := true;
    }

    method GetKindCandidates(name: string, ghost groups: seq<APIGroup>, ghost descs: seq<Descriptor>)
      returns (candidates: Option<seq<GroupKind>>)
      requires Agrees(groups, descs)
      ensures candidates == if Candidates(descs, name) == [] then None else Some(Candidates(descs, name))
    {
      hide Named, Declared;
      if name in kindNames {
        return Some(kindNames[name]);
      } else if name in singularNames {
        return Some(singularNames[name]);
      } else if name in pluralNames {
        return Some(pluralNames[name]);
      }
      return None;
    }

    /** One descriptor: the group and version asked for, else the first group and its preferred version. */
    method FilterCandidates(candidates: seq<GroupKind>, group: string, version: string, ghost groups: seq<APIGroup>,
                            ghost descs: seq<Descriptor>)
      returns (found: Option<Descriptor>)
      requires Agrees(groups, descs)
      ensures found == ScanAmong(groups, descs, candidates, group, version)
    {
      hide Named, Declared, ByShortName, Preferred, IsGroup, AtVersion, FirstOfKind;
      var target := "";
      if group != "" {
        if group in shortGroups {
          target := shortGroups[group];
        }
        if group in longGroups {
          target := group;
        }
        if group !in shortGroups && group !in longGroups {
          return None;
        }
        ShortNamesAreNamed(groups, group);
        assert GroupFor(groups, group) == Some(target) && target != "";
      }
      var kind;
      target, kind := PickKind(candidates, target);
      if kind == "" {
        return None;
      }
      var gv := GroupVersion(target, version);
      if version == "" {
        if target !in preferredVersions {
          return None;
        }
        gv := GroupVersion(target, preferredVersions[target].version);
      }
      if gv !in descriptors {
        return None;
      }
      found := FirstWithKind(descriptors[gv], kind);
    }

    method LookupPartialGVK(name: string, group: string, version: string, ghost groups: seq<APIGroup>,
                            ghost descs: seq<Descriptor>)
      returns (found: Option<Descriptor>)
      requires Agrees(groups, descs)
      ensures found == ScanOne(groups, descs, name, group, version)
    {
      hide Candidates, Agrees, GroupFor;
      var candidates := GetKindCandidates(name, groups, descs);
      if candidates.None? {
        return None;
      }
      found := FilterCandidates(candidates.value, group, version, groups, descs);
    }

    /**
     Every version of the candidates' kinds, in the group asked for or in each that has one; with a version,
     the one descriptor.
     */
    method FilterAllCandidates(candidates: seq<GroupKind>, group: string, version: string, ghost groups: seq<APIGroup>,
                               ghost descs: seq<Descriptor>)
      returns (found: Option<seq<Descriptor>>)
      requires Agrees(groups, descs) && candidates != []
      ensures version != "" ==>
                var one := ScanAmong(groups, descs, candidates, group, version);
                found == if one.None? then None else Some([one.value])
      ensures version == "" ==>
                && (found.None? <==> forall d :: !InScanAmong(groups, descs, candidates, group, d))
                && (found.Some? ==> forall d :: d in found.value <==> InScanAmong(groups, descs, candidates, group, d))
      ensures found.Some? ==> Distinct(found.value)
    {
      hide *;
      if version != "" {
        var one := FilterCandidates(candidates, group, version, groups, descs);
        if one.Some? {
          OneIsDistinct(one.value);
        }
        return if one.None? then None else Some([one.value]);
      }
      var targets: set<string> := {};
      if group != "" {
        if group in shortGroups {
          targets := {shortGroups[group]};
        } else if group in longGroups {
          targets := {group};
        } else {
          NoTarget(this, groups, descs, candidates, group);
          return None;
        }
      } else {
        targets := set i | 0 <= i < |candidates| :: candidates[i].group;
      }
      TargetsAreRight(this, groups, descs, candidates, group, targets);
      var left := targets;
      var result: seq<Descriptor> := [];
      NoneIsDistinct<Descriptor>();
      while left != {}
        invariant left <= targets && Distinct(result)
        invariant forall d :: d in result <==> d.gv.group in targets - left && IsAnswer(candidates, descriptors, d)
        decreases |left|
      {
        var target :| target in left;
        left := left - {target};
        var more := AnswersIn(candidates, target, descriptors);
        DistinctConcat(result, more);
        result := result + more;
      }
      if |result| == 0 {
        assert forall d :: InScanAmong(groups, descs, candidates, group, d) <==> d in result;
        return None;
      }
      assert forall d :: d in result <==> InScanAmong(groups, descs, candidates, group, d);
      assert result[0] in result;
      found := Some(result);
    }

    method LookupAllVersionsForPartialGVK(name: string, group: string, version: string, ghost groups: seq<APIGroup>,
                                          ghost descs: seq<Descriptor>)
      returns (found: Option<seq<Descriptor>>)
      requires Agrees(groups, descs)
      ensures version != "" ==>
                var one := ScanOne(groups, descs, name, group, version);
                found == if one.None? then None else Some([one.value])
      ensures version == "" ==>
                && (found.None? <==> forall d :: !InScanAll(groups, descs, name, group, d))
                && (found.Some? ==> forall d :: d in found.value <==> InScanAll(groups, descs, name, group, d))
      ensures found.Some? ==> Distinct(found.value)
    {
      hide Candidates, Agrees, GroupFor, GroupForAll, FirstOfKind, AtVersion, Declared;
      var candidates := GetKindCandidates(name, groups, descs);
      assert forall d ::
        InScanAll(groups, descs, name, group, d) <==> InScanAmong(groups, descs, Candidates(descs, name), group, d);
      if candidates.None? {
        return None;
      }
      found := FilterAllCandidates(candidates.value, group, version, groups, descs);
    }
  }

  /** The kind of the first candidate in the target group, which is the first candidate's when none is given. */
  method PickKind(candidates: seq<GroupKind>, given: string) returns (target: string, kind: string)
    ensures candidates == [] ==> kind == ""
    ensures candidates != [] ==> target == (if given == "" then candidates[0].group else given)
    ensures candidates != [] ==>
            kind == if KindIn(candidates, target).Some? then KindIn(candidates, target).value else ""
  {
    target, kind := given, "";
    for i := 0 to |candidates|
      invariant i > 0 ==> given != ""
      invariant target == given && KindIn(candidates, given) == KindIn(candidates[i..], given)
    {
      assert candidates[i..][1..] == candidates[i + 1..];
      if target == "" {
        target := candidates[i].group;
      }
      if target == candidates[i].group {
        return target, candidates[i].kind;
      }
    }
  }

  method FirstWithKind(descs: seq<Descriptor>, kind: string) returns (found: Option<Descriptor>)
    ensures found == FirstOfKind(descs, kind)
  {
    for i := 0 to |descs|
      invariant FirstOfKind(descs, kind) == FirstOfKind(descs[i..], kind)
    {
      assert descs[i..][1..] == descs[i + 1..];
      if descs[i].kind == kind {
        return Some(descs[i]);
      }
    }
    return None;
  }

  /** d is the first descriptor of its version with the kind of the first candidate in its group. */
  predicate IsAnswer(candidates: seq<GroupKind>, m: map<GroupVersion, seq<Descriptor>>, d: Descriptor) {
    var kind := KindIn(candidates, d.gv.group);
    kind.Some? && kind.value != "" && d.gv in m && FirstOfKind(m[d.gv], kind.value) == Some(d)
  }

  method FindKind(candidates: seq<GroupKind>, group: string) returns (kind: string)
    ensures kind == if KindIn(candidates, group).Some? then KindIn(candidates, group).value else ""
  {
    for i := 0 to |candidates|
      invariant KindIn(candidates, group) == KindIn(candidates[i..], group)
    {
      assert candidates[i..][1..] == candidates[i + 1..];
      if candidates[i].group == group {
        return candidates[i].kind;
      }
    }
    return "";
  }

  /** Descriptors stand under their own version. */
  ghost predicate AtOwnVersion(m: map<GroupVersion, seq<Descriptor>>) {
    forall gv, d | gv in m && d in m[gv] :: d.gv == gv
  }

  method AnswersIn(candidates: seq<GroupKind>, target: string, m: map<GroupVersion, seq<Descriptor>>)
    returns (result: seq<Descriptor>)
    requires AtOwnVersion(m)
    ensures forall d :: d in result <==> d.gv.group == target && IsAnswer(candidates, m, d)
    ensures Distinct(result)
  {
    hide KindIn, FirstOfKind, Distinct;
    result := [];
    NoneIsDistinct<Descriptor>();
    var kind := FindKind(candidates, target);
    if kind == "" {
      return;
    }
    var left := m.Keys;
    while left != {}
      invariant left <= m.Keys && Distinct(result)
      invariant forall d ::
                d in result <==>
                  d.gv.group == target && d.gv in m && d.gv !in left && FirstOfKind(m[d.gv], kind) == Some(d)
      decreases |left|
    {
      var gv :| gv in left;
      left := left - {gv};
      if gv.group == target {
        var first := FirstWithKind(m[gv], kind);
        if first.Some? {
          assert first.value.gv == gv && first.value !in result;
          DistinctSnoc(result, first.value);
          result := result + [first.value];
        }
      }
    }
  }

  lemma {:induction false} AtVersionMember(descs: seq<Descriptor>, gv: GroupVersion, d: Descriptor)
    ensures d in AtVersion(descs, gv) <==> d in descs && d.gv == gv
  {
    if descs != [] {
      AtVersionMember(descs[..|descs| - 1], gv, d);
      assert descs == descs[..|descs| - 1] + [descs[|descs| - 1]];
    }
  }

  /** A group's short name is not empty unless its name starts with a dot, and a named group has a name. */
  lemma {:induction false} ShortNamesAreNamed(groups: seq<APIGroup>, short: string)
    ensures short != "" && ByShortName(groups, short).Some? ==> ByShortName(groups, short).value != ""
  {
    if groups != [] {
      ShortNamesAreNamed(groups[..|groups| - 1], short);
    }
  }

  lemma NoTarget(r: RegistryIndex, groups: seq<APIGroup>, descs: seq<Descriptor>, candidates: seq<GroupKind>,
                 group: string)
    requires r.Agrees(groups, descs) && group != "" && group !in r.shortGroups && group !in r.longGroups
    ensures forall d :: !InScanAmong(groups, descs, candidates, group, d)
  {
    hide Named, AtVersion, Declared, KindIn, FirstOfKind, ByShortName, IsGroup, Preferred;
  }

  lemma {:induction false} KindInMember(candidates: seq<GroupKind>, group: string)
    ensures KindIn(candidates, group).Some? <==> exists i :: 0 <= i < |candidates| && candidates[i].group == group
  {
    if candidates != [] {
      KindInMember(candidates[1..], group);
      if i :| 0 <= i < |candidates| && candidates[i].group == group {
        if i > 0 {
          assert candidates[1..][i - 1].group == group;
        }
      }
      if i :| 0 <= i < |candidates[1..]| && candidates[1..][i].group == group {
        assert candidates[i + 1].group == group;
      }
    }
  }

  /** The answers in the target groups are a scan's. */
  lemma TargetsAreRight(r: RegistryIndex, groups: seq<APIGroup>, descs: seq<Descriptor>, candidates: seq<GroupKind>,
                        group: string, targets: set<string>)
    requires r.Agrees(groups, descs)
    requires group != "" ==> targets == if group in r.shortGroups then {r.shortGroups[group]} else {group}
    requires group != "" ==> group in r.shortGroups || group in r.longGroups
    requires group == "" ==> targets == set i | 0 <= i < |candidates| :: candidates[i].group
    ensures AtOwnVersion(r.descriptors)
    ensures forall d: Descriptor ::
            d.gv.group in targets && IsAnswer(candidates, r.descriptors, d) <==>
              InScanAmong(groups, descs, candidates, group, d)
  {
    hide Named, AtVersion, Declared, KindIn, FirstOfKind, ByShortName, IsGroup, Preferred;
    forall gv, d | gv in r.descriptors && d in r.descriptors[gv] ensures d.gv == gv {
      AtVersionMember(descs, gv, d);
    }
    forall d: Descriptor
      ensures d.gv.group in targets && IsAnswer(candidates, r.descriptors, d) <==>
              InScanAmong(groups, descs, candidates, group, d)
    {
      KindInMember(candidates, d.gv.group);
    }
  }

  ghost predicate Acceptable(groups: seq<APIGroup>, lists: seq<APIList>) {
    Distinct(Declared(groups)) && Listed(lists).Some? && AllDeclared(Listed(lists).value, Declared(groups))
  }

  predicate AllDeclared(descs: seq<Descriptor>, declared: seq<GroupVersion>) {
    forall d | d in descs :: d.gv in declared
  }

  lemma NotAcceptable(groups: seq<APIGroup>, lists: seq<APIList>)
    ensures !Distinct(Declared(groups)) ==> !Acceptable(groups, lists)
  {
  }

  lemma AcceptableWhenFound(groups: seq<APIGroup>, lists: seq<APIList>)
    requires Distinct(Declared(groups))
    ensures Acceptable(groups, lists) <==> Listed(lists).Some? && AllDeclared(Listed(lists).value, Declared(groups))
  {
  }

  lemma AgreesNow(r: RegistryIndex, groups: seq<APIGroup>, descs: seq<Descriptor>)
    requires IndexesGroups(r.shortGroups, r.longGroups, r.preferredVersions, groups)
    requires IndexesVersions(r.descriptors, Declared(groups), descs)
    requires IndexesNames(r.kindNames, descs, ByKind) && IndexesNames(r.singularNames, descs, BySingular)
             && IndexesNames(r.pluralNames, descs, ByPlural)
    ensures r.Agrees(groups, descs)
  {
  }

  // The first pass.

  lemma GroupSnoc(groups: seq<APIGroup>, g: APIGroup)
    ensures forall s ::
            ByShortName(groups + [g], s) == if ShortName(g.name) == s then Some(g.name) else ByShortName(groups, s)
    ensures forall n :: IsGroup(groups + [g], n) <==> IsGroup(groups, n) || g.name == n
    ensures forall n ::
            Preferred(groups + [g], n) ==
              if g.name == n && g.preferred != "" then Some(g.preferred) else Preferred(groups, n)
    ensures Declared(groups + [g]) == Declared(groups) + VersionsOf(g)
  {
    assert (groups + [g])[..|groups|] == groups;
    forall n ensures IsGroup(groups + [g], n) <==> IsGroup(groups, n) || g.name == n {
      if h :| h in groups && h.name == n {
        assert h in groups + [g];
      }
      assert g in groups + [g];
    }
  }

  lemma GroupIndexed(short: map<string, string>, long: set<string>, preferred: map<string, GroupVersion>,
                     groups: seq<APIGroup>, g: APIGroup)
    requires IndexesGroups(short, long, preferred, groups)
    ensures IndexesGroups(short[ShortName(g.name) := g.name], long + {g.name},
                          if g.preferred != "" then preferred[g.name := GroupVersion(g.name, g.preferred)]
                          else preferred, groups + [g])
  {
    hide ByShortName, Preferred, IsGroup, ShortName, Declared;
    GroupSnoc(groups, g);
  }

  /** The declared versions, each without descriptors yet. */
  ghost predicate Blank(m: map<GroupVersion, seq<Descriptor>>, declared: seq<GroupVersion>) {
    (forall gv :: gv in m <==> gv in declared) && forall gv | gv in m :: m[gv] == []
  }

  /** Adds one group's versions, unless one of them was declared before. */
  method CollectVersions(m: map<GroupVersion, seq<Descriptor>>, g: APIGroup, ghost declared: seq<GroupVersion>)
    returns (after: Option<map<GroupVersion, seq<Descriptor>>>)
    requires Blank(m, declared) && Distinct(declared)
    ensures after.None? <==> !Distinct(declared + VersionsOf(g))
    ensures after.Some? ==> Blank(after.value, declared + VersionsOf(g))
  {
    hide Distinct;
    var now := m;
    assert declared + VersionsOf(g)[..0] == declared;
    for i := 0 to |g.versions|
      invariant Blank(now, declared + VersionsOf(g)[..i]) && Distinct(declared + VersionsOf(g)[..i])
    {
      var gv := GroupVersion(g.name, g.versions[i]);
      ghost var so := declared + VersionsOf(g)[..i];
      assert declared + VersionsOf(g)[..i + 1] == so + [gv];
      DistinctSnoc(so, gv);
      if gv in now {
        assert declared + VersionsOf(g) == declared + VersionsOf(g)[..i + 1] + VersionsOf(g)[i + 1..];
        PrefixDistinct(declared + VersionsOf(g)[..i + 1], VersionsOf(g)[i + 1..]);
        return None;
      }
      now := now[gv := []];
    }
    assert VersionsOf(g)[..|g.versions|] == VersionsOf(g);
    after := Some(now);
  }

  lemma {:induction false} DeclaredPrefix(groups: seq<APIGroup>, i: nat)
    requires i <= |groups|
    ensures Distinct(Declared(groups)) ==> Distinct(Declared(groups[..i]))
    decreases |groups| - i
  {
    hide Distinct;
    if i == |groups| {
      assert groups[..i] == groups;
    } else {
      DeclaredPrefix(groups, i + 1);
      assert groups[..i + 1] == groups[..i] + [groups[i]];
      GroupSnoc(groups[..i], groups[i]);
      PrefixDistinct(Declared(groups[..i]), VersionsOf(groups[i]));
    }
  }

  method CollectGroups(groups: seq<APIGroup>)
    returns (short: map<string, string>, long: set<string>, preferred: map<string, GroupVersion>,
             declared: Option<map<GroupVersion, seq<Descriptor>>>)
    ensures declared.None? <==> !Distinct(Declared(groups))
    ensures declared.Some? ==> Blank(declared.value, Declared(groups)) && IndexesGroups(short, long, preferred, groups)
  {
    short, long, preferred := map[], {}, map[];
    var versions: map<GroupVersion, seq<Descriptor>> := map[];
    for i := 0 to |groups|
      invariant IndexesGroups(short, long, preferred, groups[..i])
      invariant Blank(versions, Declared(groups[..i])) && Distinct(Declared(groups[..i]))
    {
      hide *;
      assert groups[..i + 1] == groups[..i] + [groups[i]];
      GroupIndexed(short, long, preferred, groups[..i], groups[i]);
      GroupSnoc(groups[..i], groups[i]);
      DeclaredPrefix(groups, i + 1);
      long := long + {groups[i].name};
      short := short[ShortName(groups[i].name) := groups[i].name];
      if groups[i].preferred != "" {
        preferred := preferred[groups[i].name := GroupVersion(groups[i].name, groups[i].preferred)];
      }
      var more := CollectVersions(versions, groups[i], Declared(groups[..i]));
      if more.None? {
        declared := None;
        return;
      }
      versions := more.value;
    }
    assert groups[..|groups|] == groups;
    declared := Some(versions);
  }

  // The second pass.

  function WithName(m: map<string, seq<GroupKind>>, name: string, gk: GroupKind): map<string, seq<GroupKind>> {
    m[name := (if name in m then m[name] else []) + [gk]]
  }

  lemma NameIndexed(m: map<string, seq<GroupKind>>, descs: seq<Descriptor>, sel: Selector, d: Descriptor)
    requires IndexesNames(m, descs, sel)
    ensures IndexesNames(WithName(m, NameOf(d, sel), KindOf(d)), descs + [d], sel)
  {
    hide NameOf, KindOf, Named;
    forall name
      ensures Named(descs + [d], sel, name) ==
              if NameOf(d, sel) == name then Named(descs, sel, name) + [KindOf(d)] else Named(descs, sel, name)
    {
      NamedSnoc(descs, sel, name, d);
    }
  }

  lemma NamedSnoc(descs: seq<Descriptor>, sel: Selector, name: string, d: Descriptor)
    ensures Named(descs + [d], sel, name) ==
            if NameOf(d, sel) == name then Named(descs, sel, name) + [KindOf(d)] else Named(descs, sel, name)
  {
    hide NameOf, KindOf;
    assert (descs + [d])[..|descs|] == descs;
  }

  lemma VersionIndexed(m: map<GroupVersion, seq<Descriptor>>, declared: seq<GroupVersion>, descs: seq<Descriptor>,
                       d: Descriptor)
    requires IndexesVersions(m, declared, descs) && d.gv in m
    ensures IndexesVersions(m[d.gv := m[d.gv] + [d]], declared, descs + [d])
  {
    assert (descs + [d])[..|descs|] == descs;
    forall gv ensures AtVersion(descs + [d], gv) == if d.gv == gv then AtVersion(descs, gv) + [d]
        else AtVersion(descs, gv) {
    }
  }

  /** The four maps after the descriptors of descs. */
  ghost predicate Collected(m: map<GroupVersion, seq<Descriptor>>, kinds: map<string, seq<GroupKind>>,
                            singulars: map<string, seq<GroupKind>>, plurals: map<string, seq<GroupKind>>,
                            declared: seq<GroupVersion>, descs: seq<Descriptor>) {
    && IndexesVersions(m, declared, descs) && AllDeclared(descs, declared)
    && IndexesNames(kinds, descs, ByKind) && IndexesNames(singulars, descs, BySingular)
       && IndexesNames(plurals, descs, ByPlural)
  }

  lemma CollectedOneMore(m: map<GroupVersion, seq<Descriptor>>, kinds: map<string, seq<GroupKind>>,
                         singulars: map<string, seq<GroupKind>>, plurals: map<string, seq<GroupKind>>,
                         declared: seq<GroupVersion>, descs: seq<Descriptor>, d: Descriptor)
    requires Collected(m, kinds, singulars, plurals, declared, descs) && d.gv in m
    ensures Collected(m[d.gv := m[d.gv] + [d]], WithName(kinds, d.kind, KindOf(d)),
                      WithName(singulars, d.singular, KindOf(d)),
                      WithName(plurals, d.plural, KindOf(d)), declared, descs + [d])
    ensures d.gv in declared
  {
    hide IndexesNames, AtVersion, WithName, KindOf;
    NameIndexed(kinds, descs, ByKind, d);
    NameIndexed(singulars, descs, BySingular, d);
    NameIndexed(plurals, descs, ByPlural, d);
    VersionIndexed(m, declared, descs, d);
  }

  lemma NothingCollected(m: map<GroupVersion, seq<Descriptor>>, declared: seq<GroupVersion>)
    requires Blank(m, declared)
    ensures Collected(m, map[], map[], map[], declared, [])
  {
  }

  /** A resource at an undeclared version spoils every longer listing. */
  lemma {:induction false} ListedPrefix(lists: seq<APIList>, i: nat)
    requires i <= |lists|
    ensures Listed(lists).Some? ==> Listed(lists[..i]).Some? && Listed(lists[..i]).value <= Listed(lists).value
    decreases |lists| - i
  {
    hide ParseGroupVersion;
    if i == |lists| {
      assert lists[..i] == lists;
    } else {
      ListedPrefix(lists, i + 1);
      assert lists[..i + 1][..i] == lists[..i];
    }
  }

  lemma UndeclaredIn(descs: seq<Descriptor>, all: seq<Descriptor>, declared: seq<GroupVersion>)
    requires !AllDeclared(descs, declared) && descs <= all
    ensures !AllDeclared(all, declared)
  {
    var d :| d in descs && d.gv !in declared;
    assert d in all;
  }

  ghost predicate GoodList(lists: seq<APIList>, declared: seq<GroupVersion>) {
    Listed(lists).Some? && AllDeclared(Listed(lists).value, declared)
  }

  lemma GoodPrefix(lists: seq<APIList>, i: nat, declared: seq<GroupVersion>)
    requires i <= |lists|
    ensures GoodList(lists, declared) ==> GoodList(lists[..i], declared)
  {
    hide Listed;
    ListedPrefix(lists, i);
    if GoodList(lists, declared) && !AllDeclared(Listed(lists[..i]).value, declared) {
      UndeclaredIn(Listed(lists[..i]).value, Listed(lists).value, declared);
    }
  }

  method CollectResources(m: map<GroupVersion, seq<Descriptor>>, ghost declared: seq<GroupVersion>, lists: seq<APIList>)
    returns (after: Option<map<GroupVersion, seq<Descriptor>>>, kinds: map<string, seq<GroupKind>>,
             singulars: map<string, seq<GroupKind>>, plurals: map<string, seq<GroupKind>>)
    requires Blank(m, declared)
    ensures after.Some? <==> Listed(lists).Some? && AllDeclared(Listed(lists).value, declared)
    ensures after.Some? ==>
              && IndexesVersions(after.value, declared, Listed(lists).value)
              && IndexesNames(kinds, Listed(lists).value, ByKind)
                 && IndexesNames(singulars, Listed(lists).value, BySingular)
              && IndexesNames(plurals, Listed(lists).value, ByPlural)
  {
    var now := m;
    kinds, singulars, plurals := map[], map[], map[];
    NothingCollected(m, declared);
    for i := 0 to |lists|
      invariant GoodList(lists[..i], declared)
      invariant Collected(now, kinds, singulars, plurals, declared, Listed(lists[..i]).value)
    {
      hide *;
      ListStep(lists, i, declared);
      GoodPrefix(lists, i + 1, declared);
      ghost var before := Listed(lists[..i]).value;
      if lists[i].resources != [] {
        var gv := ParseGroupVersion(lists[i].groupVersion);
        if gv.None? {
          BadList(lists, declared);
          after := None;
          return;
        }
        var more;
        more, kinds, singulars, plurals := CollectList(now, kinds, singulars, plurals, gv.value, lists[i].resources,
                                                       declared, before);
        if more.None? {
          BadList(lists, declared);
          after := None;
          return;
        }
        now := more.value;
      }
    }
    assert lists[..|lists|] == lists;
    after := Some(now);
  }

  lemma BadList(lists: seq<APIList>, declared: seq<GroupVersion>)
    requires !GoodList(lists, declared)
    ensures !(Listed(lists).Some? && AllDeclared(Listed(lists).value, declared))
  {
  }

  /** What one list adds. */
  lemma ListStep(lists: seq<APIList>, i: nat, declared: seq<GroupVersion>)
    requires i < |lists| && GoodList(lists[..i], declared)
    ensures var l := lists[i];
            var gv := ParseGroupVersion(l.groupVersion);
            && Listed(lists[..i]).Some?
            && (l.resources == [] ==>
                  GoodList(lists[..i + 1], declared) && Listed(lists[..i + 1]) == Listed(lists[..i]))
            && (l.resources != [] && gv.None? ==> !GoodList(lists[..i + 1], declared))
            && (l.resources != [] && gv.Some? ==>
                  && Listed(lists[..i + 1]) == Some(Listed(lists[..i]).value + DescriptorsOf(gv.value, l.resources))
                  && (GoodList(lists[..i + 1], declared) <==>
                        AllDeclared(Listed(lists[..i]).value + DescriptorsOf(gv.value, l.resources), declared)))
  {
    hide ParseGroupVersion, AllDeclared;
    assert lists[..i + 1][..i] == lists[..i];
  }

  /** The descriptors before a list, and its first i. */
  function UpTo(descs: seq<Descriptor>, gv: GroupVersion, resources: seq<APIResource>, i: nat): seq<Descriptor>
    requires i <= |resources|
  {
    descs + DescriptorsOf(gv, resources)[..i]
  }

  lemma CollectedMeansDeclared(m: map<GroupVersion, seq<Descriptor>>, k: map<string, seq<GroupKind>>,
                               s: map<string, seq<GroupKind>>, p: map<string, seq<GroupKind>>,
                               declared: seq<GroupVersion>, descs: seq<Descriptor>)
    requires Collected(m, k, s, p, declared, descs)
    ensures AllDeclared(descs, declared)
  {
  }

  /** One resource of a list: filed under its names and version, or at a version nobody declared. */
  lemma ResourceStep(m: map<GroupVersion, seq<Descriptor>>, k: map<string, seq<GroupKind>>,
                     s: map<string, seq<GroupKind>>, p: map<string, seq<GroupKind>>, gv: GroupVersion,
                     resources: seq<APIResource>, i: nat, declared: seq<GroupVersion>, descs: seq<Descriptor>)
    requires i < |resources| && Collected(m, k, s, p, declared, UpTo(descs, gv, resources, i))
    ensures var d := DescriptorOf(gv, resources[i]);
            && (d.gv !in m ==> !AllDeclared(descs + DescriptorsOf(gv, resources), declared))
            && (d.gv in m ==>
                  Collected(m[d.gv := m[d.gv] + [d]], WithName(k, d.kind, KindOf(d)),
                            WithName(s, d.singular, KindOf(d)),
                            WithName(p, d.plural, KindOf(d)), declared, UpTo(descs, gv, resources, i + 1)))
  {
    hide Collected, AllDeclared, WithName, KindOf;
    var d := DescriptorOf(gv, resources[i]);
    var added := DescriptorsOf(gv, resources);
    AddedAt(gv, resources, i);
    assert UpTo(descs, gv, resources, i + 1) == UpTo(descs, gv, resources, i) + [d];
    if d.gv in m {
      CollectedOneMore(m, k, s, p, declared, UpTo(descs, gv, resources, i), d);
    } else {
      assert (descs + added)[|descs| + i] == added[i];
      UndeclaredResource(m, k, s, p, declared, UpTo(descs, gv, resources, i), descs + added, d, |descs| + i);
    }
  }

  method CollectList(m: map<GroupVersion, seq<Descriptor>>, kinds: map<string, seq<GroupKind>>,
                     singulars: map<string, seq<GroupKind>>, plurals: map<string, seq<GroupKind>>, gv: GroupVersion,
                     resources: seq<APIResource>, ghost declared: seq<GroupVersion>, ghost descs: seq<Descriptor>)
    returns (after: Option<map<GroupVersion, seq<Descriptor>>>, k: map<string, seq<GroupKind>>,
             s: map<string, seq<GroupKind>>, p: map<string, seq<GroupKind>>)
    requires Collected(m, kinds, singulars, plurals, declared, descs)
    ensures after.Some? <==> AllDeclared(descs + DescriptorsOf(gv, resources), declared)
    ensures after.Some? ==> Collected(after.value, k, s, p, declared, descs + DescriptorsOf(gv, resources))
  {
    var now := m;
    k, s, p := kinds, singulars, plurals;
    assert UpTo(descs, gv, resources, 0) == descs && UpTo(descs, gv, resources, |resources|) ==
      descs + DescriptorsOf(gv, resources);
    for i := 0 to |resources|
      invariant Collected(now, k, s, p, declared, UpTo(descs, gv, resources, i))
    {
      hide *;
      var d := DescriptorOf(gv, resources[i]);
      ResourceStep(now, k, s, p, gv, resources, i, declared, descs);
      if d.gv !in now {
        after := None;
        return;
      }
      now := now[d.gv := now[d.gv] + [d]];
      k, s, p := WithName(k, d.kind, KindOf(d)), WithName(s, d.singular, KindOf(d)), WithName(p, d.plural, KindOf(d));
    }
    after := Some(now);
    CollectedMeansDeclared(now, k, s, p, declared, descs + DescriptorsOf(gv, resources));
  }

  lemma AddedAt(gv: GroupVersion, resources: seq<APIResource>, i: nat)
    requires i < |resources|
    ensures |DescriptorsOf(gv, resources)| == |resources|
            && DescriptorsOf(gv, resources)[i] == DescriptorOf(gv, resources[i])
  {
  }

  lemma UndeclaredResource(m: map<GroupVersion, seq<Descriptor>>, k: map<string, seq<GroupKind>>,
                           s: map<string, seq<GroupKind>>, p: map<string, seq<GroupKind>>, declared: seq<GroupVersion>,
                           some: seq<Descriptor>, all: seq<Descriptor>, d: Descriptor, at: nat)
    requires Collected(m, k, s, p, declared, some) && d.gv !in m && at < |all| && all[at] == d
    ensures !AllDeclared(all, declared)
  {
    hide IndexesNames;
    assert d in all;
  }

  // ---------------------------------------------------------------------------------------------
  // What the answers mean
  // ---------------------------------------------------------------------------------------------

  /** The resource carries the requested name, by one of its three. */
  predicate Carries(d: Descriptor, name: string) {
    d.kind == name || d.singular == name || d.plural == name
  }

  lemma {:induction false} NamedMember(descs: seq<Descriptor>, sel: Selector, name: string, gk: GroupKind)
    ensures gk in Named(descs, sel, name) ==> exists e :: e in descs && NameOf(e, sel) == name && KindOf(e) == gk
  {
    if descs != [] && gk in Named(descs, sel, name) {
      var front, last := descs[..|descs| - 1], descs[|descs| - 1];
      assert descs == front + [last];
      if gk in Named(front, sel, name) {
        NamedMember(front, sel, name, gk);
        var e :| e in front && NameOf(e, sel) == name && KindOf(e) == gk;
        assert e in descs;
      } else {
        assert last in descs;
      }
    }
  }

  lemma {:induction false} KindInIsListed(candidates: seq<GroupKind>, group: string)
    requires KindIn(candidates, group).Some?
    ensures GroupKind(group, KindIn(candidates, group).value) in candidates
  {
    if candidates[0].group != group {
      KindInIsListed(candidates[1..], group);
    } else {
      assert candidates[0] in candidates;
    }
  }

  /** The kind the lookup settles on is the kind of a discovered resource of that group carrying the name. */
  lemma KindIsCarried(descs: seq<Descriptor>, name: string, group: string)
    requires KindIn(Candidates(descs, name), group).Some?
    ensures exists e ::
            e in descs && Carries(e, name) && e.gv.group == group
                && e.kind == KindIn(Candidates(descs, name), group).value
  {
    hide Named, KindIn;
    var gk := GroupKind(group, KindIn(Candidates(descs, name), group).value);
    KindInIsListed(Candidates(descs, name), group);
    NamedMember(descs, ByKind, name, gk);
    NamedMember(descs, BySingular, name, gk);
    NamedMember(descs, ByPlural, name, gk);
  }

  /**
   A single answer is a discovered descriptor of the kind of a resource carrying the name, in the group the
   text names, at the version asked for or else the group's preferred one.
   */
  lemma AnswerIsDiscovered(groups: seq<APIGroup>, descs: seq<Descriptor>, name: string, group: string, version: string)
    requires ScanOne(groups, descs, name, group, version).Some?
    ensures var d := ScanOne(groups, descs, name, group, version).value;
            && d in descs && d.gv in Declared(groups)
            && (exists e :: e in descs && Carries(e, name) && e.gv.group == d.gv.group && e.kind == d.kind)
            && (group != "" ==> GroupFor(groups, group) == Some(d.gv.group))
            && Some(d.gv.version) == (if version != "" then Some(version) else Preferred(groups, d.gv.group))
  {
    hide Candidates, KindIn, AtVersion, Declared, GroupFor, Preferred;
    var d := ScanOne(groups, descs, name, group, version).value;
    AtVersionMember(descs, d.gv, d);
    var candidates := Candidates(descs, name);
    var target := if group == "" then candidates[0].group else GroupFor(groups, group).value;
    var v := if version != "" then version else Preferred(groups, target).value;
    AtVersionMember(descs, GroupVersion(target, v), d);
    KindIsCarried(descs, name, target);
  }

  /** The text is one group's full name and another's short name. */
  predicate IsAmbiguous(groups: seq<APIGroup>, text: string) {
    IsGroup(groups, text) && ByShortName(groups, text).Some? && ByShortName(groups, text) != Some(text)
  }

  /**
   With no version asked for, the single answer is among the answers for all versions exactly when the group
   text is not ambiguous.
   */
  lemma SingleIsAmongAll(groups: seq<APIGroup>, descs: seq<Descriptor>, name: string, group: string)
    requires ScanOne(groups, descs, name, group, "").Some?
    ensures InScanAll(groups, descs, name, group, ScanOne(groups, descs, name, group, "").value) <==>
            (group == "" || !IsAmbiguous(groups, group))
  {
    hide Candidates, KindIn, AtVersion, Declared, IsGroup, ByShortName, Preferred;
    var d := ScanOne(groups, descs, name, group, "").value;
    var candidates := Candidates(descs, name);
    var target := if group == "" then candidates[0].group else GroupFor(groups, group).value;
    var gv := GroupVersion(target, Preferred(groups, target).value);
    AtVersionMember(descs, gv, d);
    assert d.gv == gv;
  }

  /** An instance of such a text: "a" is a group's full name, and the short name of "a.b". */
  lemma AmbiguousTextSplitsTheAnswers()
    ensures exists groups: seq<APIGroup>, descs: seq<Descriptor>, name: string, group: string ::
              && ScanOne(groups, descs, name, group, "").Some?
              && !InScanAll(groups, descs, name, group, ScanOne(groups, descs, name, group, "").value)
  {
    hide ScanOne, InScanAll;
    TwoGroupsAreAmbiguous();
    TwoGroupsAnswer();
    SingleIsAmongAll(TwoGroups(), [OnlyDescriptor()], "K", "a");
  }

  function TwoGroups(): seq<APIGroup> {
    [APIGroup("a", "v1", ["v1"]), APIGroup("a.b", "v1", ["v1"])]
  }

  function OnlyDescriptor(): Descriptor {
    Descriptor(GroupVersion("a", "v1"), "K", "ks", "k")
  }

  lemma TwoGroupsAreAmbiguous()
    ensures IsAmbiguous(TwoGroups(), "a")
  {
    assert TwoGroups()[0] in TwoGroups();
    assert "a.b"[1..] == ".b" && ShortName("a.b") == "a";
  }

  lemma TwoGroupsDeclare()
    ensures GroupVersion("a", "v1") in Declared(TwoGroups()) && Preferred(TwoGroups(), "a") == Some("v1")
            && GroupFor(TwoGroups(), "a") == Some("a")
  {
    hide ShortName;
    var long, short := APIGroup("a", "v1", ["v1"]), APIGroup("a.b", "v1", ["v1"]);
    assert TwoGroups()[..1] == [long] && [long][..0] == [] && TwoGroups()[0] in TwoGroups();
    assert VersionsOf(long) == [GroupVersion("a", "v1")];
    assert Declared([long]) == [GroupVersion("a", "v1")];
    assert Declared(TwoGroups()) == Declared([long]) + VersionsOf(short);
  }

  lemma OnlyDescriptorScans()
    ensures Candidates([OnlyDescriptor()], "K") == [GroupKind("a", "K")]
    ensures AtVersion([OnlyDescriptor()], GroupVersion("a", "v1")) == [OnlyDescriptor()]
  {
    var d := OnlyDescriptor();
    assert [d][..0] == [];
    assert Named([d], ByKind, "K") == [GroupKind("a", "K")];
  }

  lemma TwoGroupsAnswer()
    ensures ScanOne(TwoGroups(), [OnlyDescriptor()], "K", "a", "") == Some(OnlyDescriptor())
  {
    hide Candidates, AtVersion, Declared, Preferred, TwoGroups, GroupFor;
    TwoGroupsDeclare();
    OnlyDescriptorScans();
  }
}
