/**
 What the lookups answer, told of the discovery lists alone: which groups, versions and resources a text
 names, and when there is an answer.
 */
module DiscoveryMeaning {
  import opened Options
  import opened Discovery

  // ---------------------------------------------------------------------------------------------
  // The lists
  // ---------------------------------------------------------------------------------------------

  lemma {:induction false} CutIsFirst(s: string, c: char)
    ensures var (a, b) := Cut(s, c);
            c !in a && s == if b.None? then a else a + [c] + b.value
  {
    if s != "" && s[0] != c {
      CutIsFirst(s[1..], c);
    }
  }

  lemma {:induction false} CutAt(a: string, c: char, b: string)
    requires c !in a
    ensures Cut(a + [c] + b, c) == (a, Some(b)) && Cut(a, c) == (a, None)
  {
    if a == "" {
      assert (a + [c] + b)[1..] == b;
    } else {
      assert (a + [c] + b)[1..] == a[1..] + [c] + b && (a + [c] + b)[0] == a[0] && a == [a[0]] + a[1..];
      CutAt(a[1..], c, b);
    }
  }

  /** A group version is read exactly of a group and a version, neither empty, around the text's only slash. */
  lemma ParseIsExact(src: string, gv: GroupVersion)
    ensures ParseGroupVersion(src) == Some(gv) <==>
            && src == gv.group + "/" + gv.version && gv.group != "" && gv.version != ""
            && '/' !in gv.group && '/' !in gv.version
  {
    CutIsFirst(src, '/');
    if '/' !in gv.group {
      CutAt(gv.group, '/', gv.version);
    }
  }

  /** The descriptor says of a resource of that list what the list says, the resource's own group and version first. */
  predicate Describes(d: Descriptor, listed: GroupVersion, r: APIResource) {
    && d.kind == r.kind && d.singular == r.singular && d.plural == r.name
    && (if r.group == "" then d.gv.group == listed.group else d.gv.group == r.group)
    && (if r.version == "" then d.gv.version == listed.version else d.gv.version == r.version)
  }

  /** One list yields a descriptor for each of its resources, in order, unless its group version cannot be read. */
  lemma OneListIsExact(l: APIList)
    ensures Listed([l]).None? <==> l.resources != [] && ParseGroupVersion(l.groupVersion).None?
    ensures Listed([l]).Some? ==>
              && |Listed([l]).value| == |l.resources|
              && forall i | 0 <= i < |l.resources| ::
                   Describes(Listed([l]).value[i], ParseGroupVersion(l.groupVersion).value, l.resources[i])
  {
    hide ParseGroupVersion;
    assert [l][..0] == [];
  }

  /** Several lists yield what each of them yields, one after the other. */
  lemma {:induction false} ListsAreConcatenated(a: seq<APIList>, b: seq<APIList>)
    ensures Listed(a + b) ==
            if Listed(a).Some? && Listed(b).Some? then Some(Listed(a).value + Listed(b).value) else None
    decreases |b|
  {
    hide ParseGroupVersion, DescriptorsOf;
    if b == [] {
      assert a + b == a;
      assert Listed(a).Some? ==> Listed(a).value + [] == Listed(a).value;
    } else {
      var front, last := b[..|b| - 1], b[|b| - 1];
      assert (a + b)[..|a + b| - 1] == a + front;
      ListsAreConcatenated(a, front);
      var gv := ParseGroupVersion(last.groupVersion);
      if Listed(a).Some? && Listed(front).Some? && gv.Some? {
        var more := DescriptorsOf(gv.value, last.resources);
        assert Listed(a).value + Listed(front).value + more == Listed(a).value + (Listed(front).value + more);
      }
    }
  }

  /** Each group declares its versions, in order, one group after the other. */
  lemma {:induction false} DeclaredIsExact(groups: seq<APIGroup>, g: APIGroup)
    ensures |Declared(groups + [g])| == |Declared(groups)| + |g.versions|
    ensures Declared(groups) <= Declared(groups + [g])
    ensures forall i | 0 <= i < |g.versions| ::
              Declared(groups + [g])[|Declared(groups)| + i] == GroupVersion(g.name, g.versions[i])
  {
    assert (groups + [g])[..|groups|] == groups;
  }

  /** A group of that name lists the version. */
  ghost predicate Declares(groups: seq<APIGroup>, gv: GroupVersion) {
    exists g :: g in groups && g.name == gv.group && gv.version in g.versions
  }

  lemma {:induction false} DeclaredMeansListed(groups: seq<APIGroup>, gv: GroupVersion)
    ensures gv in Declared(groups) <==> Declares(groups, gv)
  {
    if groups != [] {
      var front, last := groups[..|groups| - 1], groups[|groups| - 1];
      assert groups == front + [last];
      DeclaredMeansListed(front, gv);
      assert gv in VersionsOf(last) <==> last.name == gv.group && gv.version in last.versions by {
        if last.name == gv.group && gv.version in last.versions {
          var i :| 0 <= i < |last.versions| && last.versions[i] == gv.version;
          assert VersionsOf(last)[i] == gv;
        }
      }
    }
  }

  // ---------------------------------------------------------------------------------------------
  // Groups
  // ---------------------------------------------------------------------------------------------

  /** The text is the name up to its first dot. */
  predicate IsShortOf(short: string, name: string) {
    short <= name && '.' !in short && (|short| < |name| ==> name[|short|] == '.')
  }

  lemma ShortNameIsExact(name: string, short: string)
    ensures ShortName(name) == short <==> IsShortOf(short, name)
  {
    CutIsFirst(name, '.');
    if IsShortOf(short, name) {
      if |short| < |name| {
        assert name == short + ['.'] + name[|short| + 1..];
        CutAt(short, '.', name[|short| + 1..]);
      } else {
        assert short == name;
        CutAt(short, '.', "");
      }
    }
  }

  /** The group is the last one of that short name. */
  predicate LastOfShortName(groups: seq<APIGroup>, short: string, k: int) {
    && 0 <= k < |groups| && IsShortOf(short, groups[k].name)
    && forall j | k < j < |groups| :: !IsShortOf(short, groups[j].name)
  }

  ghost predicate ShortFor(groups: seq<APIGroup>, text: string, g: string) {
    exists k :: LastOfShortName(groups, text, k) && groups[k].name == g
  }

  lemma {:induction false} ByShortNameIsLast(groups: seq<APIGroup>, short: string)
    ensures ByShortName(groups, short).None? <==> forall g | g in groups :: !IsShortOf(short, g.name)
    ensures ByShortName(groups, short).Some? ==> ShortFor(groups, short, ByShortName(groups, short).value)
  {
    hide ShortName, IsShortOf;
    if groups != [] {
      var n := |groups| - 1;
      var front, last := groups[..n], groups[n];
      assert groups == front + [last];
      ShortNameIsExact(last.name, short);
      ByShortNameIsLast(front, short);
      if IsShortOf(short, last.name) {
        assert LastOfShortName(groups, short, n);
      } else if ByShortName(front, short).Some? {
        var k :| LastOfShortName(front, short, k) && front[k].name == ByShortName(front, short).value;
        assert LastOfShortName(groups, short, k);
      }
    }
  }

  lemma ShortForIsUnique(groups: seq<APIGroup>, text: string, g: string)
    ensures ByShortName(groups, text) == Some(g) <==> ShortFor(groups, text, g)
  {
    hide IsShortOf;
    ByShortNameIsLast(groups, text);
    if ShortFor(groups, text, g) {
      var k :| LastOfShortName(groups, text, k) && groups[k].name == g;
      assert groups[k] in groups;
      var j :| LastOfShortName(groups, text, j) && groups[j].name == ByShortName(groups, text).value;
      assert j == k;
    }
  }

  /** A full name wins over a short one. */
  ghost predicate Names(groups: seq<APIGroup>, text: string, g: string) {
    if exists h :: h in groups && h.name == text then g == text else ShortFor(groups, text, g)
  }

  /** A short name wins over a full one. */
  ghost predicate NamesForAll(groups: seq<APIGroup>, text: string, g: string) {
    if exists h :: h in groups && IsShortOf(text, h.name) then ShortFor(groups, text, g)
    else g == text && exists h :: h in groups && h.name == text
  }

  lemma GroupForIsExact(groups: seq<APIGroup>, text: string, g: string)
    ensures GroupFor(groups, text) == Some(g) <==> Names(groups, text, g)
    ensures GroupForAll(groups, text) == Some(g) <==> NamesForAll(groups, text, g)
  {
    hide IsShortOf, ShortFor;
    ByShortNameIsLast(groups, text);
    ShortForIsUnique(groups, text, g);
  }

  /** The last preferred version a group of that name states. */
  predicate PrefersAt(groups: seq<APIGroup>, name: string, v: string, k: int) {
    && 0 <= k < |groups| && groups[k].name == name && groups[k].preferred == v && v != ""
    && forall j | k < j < |groups| && groups[j].name == name :: groups[j].preferred == ""
  }

  ghost predicate Prefers(groups: seq<APIGroup>, name: string, v: string) {
    exists k :: PrefersAt(groups, name, v, k)
  }

  lemma {:induction false} PreferredIsExact(groups: seq<APIGroup>, name: string, v: string)
    ensures Preferred(groups, name) == Some(v) <==> Prefers(groups, name, v)
  {
    if groups != [] {
      var n := |groups| - 1;
      var front, last := groups[..n], groups[n];
      PreferredIsExact(front, name, v);
      if last.name == name && last.preferred != "" {
        if last.preferred == v {
          assert PrefersAt(groups, name, v, n);
        }
      } else {
        forall k ensures PrefersAt(groups, name, v, k) <==> PrefersAt(front, name, v, k) {
        }
      }
    }
  }

  // ---------------------------------------------------------------------------------------------
  // Resources
  // ---------------------------------------------------------------------------------------------

  /** The resource has that name in the first of the three senses in which any resource has it. */
  predicate Asked(descs: seq<Descriptor>, name: string, d: Descriptor) {
    || d.kind == name
    || (d.singular == name && forall e | e in descs :: e.kind != name)
    || (d.plural == name && forall e | e in descs :: e.kind != name && e.singular != name)
  }

  function SenseOf(descs: seq<Descriptor>, name: string): Selector {
    if exists e :: e in descs && e.kind == name then ByKind
    else if exists e :: e in descs && e.singular == name then BySingular
    else ByPlural
  }

  lemma AskedBySense(descs: seq<Descriptor>, name: string, d: Descriptor)
    requires d in descs
    ensures Asked(descs, name, d) <==> NameOf(d, SenseOf(descs, name)) == name
  {
  }

  lemma {:induction false} NamedIsThere(descs: seq<Descriptor>, sel: Selector, name: string)
    ensures Named(descs, sel, name) != [] <==> exists e :: e in descs && NameOf(e, sel) == name
  {
    hide NameOf;
    if descs != [] {
      var front, last := descs[..|descs| - 1], descs[|descs| - 1];
      assert descs == front + [last];
      NamedIsThere(front, sel, name);
    }
  }

  lemma CandidatesBySense(descs: seq<Descriptor>, name: string)
    ensures Candidates(descs, name) == Named(descs, SenseOf(descs, name), name)
  {
    hide Named;
    NamedIsThere(descs, ByKind, name);
    NamedIsThere(descs, BySingular, name);
    if exists e :: e in descs && e.kind == name {
      var e :| e in descs && e.kind == name;
      assert NameOf(e, ByKind) == name;
    }
    if exists e :: e in descs && e.singular == name {
      var e :| e in descs && e.singular == name;
      assert NameOf(e, BySingular) == name;
    }
  }

  /** There are candidates exactly when some resource has the name, as its kind, singular or plural. */
  lemma CandidatesExist(descs: seq<Descriptor>, name: string)
    ensures Candidates(descs, name) != [] <==>
            exists e :: e in descs && (e.kind == name || e.singular == name || e.plural == name)
  {
    hide Named;
    NamedIsThere(descs, ByKind, name);
    NamedIsThere(descs, BySingular, name);
    NamedIsThere(descs, ByPlural, name);
    if e :| e in descs && Carries(e, name) {
      assert NameOf(e, ByKind) == name || NameOf(e, BySingular) == name || NameOf(e, ByPlural) == name;
    }
  }

  /** The first resource of those names in that group, if the group is given, is at i. */
  predicate FirstNamed(descs: seq<Descriptor>, sel: Selector, name: string, group: Option<string>, i: int) {
    && 0 <= i < |descs| && IsNamed(descs[i], sel, name, group)
    && forall j | 0 <= j < i :: !IsNamed(descs[j], sel, name, group)
  }

  predicate IsNamed(d: Descriptor, sel: Selector, name: string, group: Option<string>) {
    NameOf(d, sel) == name && (group.Some? ==> d.gv.group == group.value)
  }

  lemma {:induction false} KindInSnoc(candidates: seq<GroupKind>, last: GroupKind, group: string)
    ensures KindIn(candidates + [last], group) ==
            if KindIn(candidates, group).Some? then KindIn(candidates, group)
            else if last.group == group then Some(last.kind) else None
  {
    if candidates == [] {
      assert [] + [last] == [last];
    } else {
      assert (candidates + [last])[1..] == candidates[1..] + [last];
      KindInSnoc(candidates[1..], last, group);
    }
  }

  lemma {:induction false} KindInNamed(descs: seq<Descriptor>, sel: Selector, name: string, group: string)
    ensures forall i | FirstNamed(descs, sel, name, Some(group), i) ::
              KindIn(Named(descs, sel, name), group) == Some(descs[i].kind)
    ensures KindIn(Named(descs, sel, name), group).Some? <==>
            exists d :: d in descs && IsNamed(d, sel, name, Some(group))
  {
    if descs != [] {
      hide NameOf, KindIn, Named;
      var n := |descs| - 1;
      var front, last := descs[..n], descs[n];
      assert descs == front + [last];
      KindInNamed(front, sel, name, group);
      NamedSnoc(front, sel, name, last);
      KindInSnoc(Named(front, sel, name), KindOf(last), group);
      assert forall d :: d in descs <==> d in front || d == last;
      assert IsNamed(last, sel, name, Some(group)) <==> NameOf(last, sel) == name && KindOf(last).group == group;
      forall i | FirstNamed(descs, sel, name, Some(group), i)
        ensures KindIn(Named(descs, sel, name), group) == Some(descs[i].kind)
      {
        if i < n {
          assert FirstNamed(front, sel, name, Some(group), i);
        } else {
          NoneBefore(descs, sel, name, group, n);
        }
      }
    }
  }

  lemma NoneBefore(descs: seq<Descriptor>, sel: Selector, name: string, group: string, i: int)
    requires FirstNamed(descs, sel, name, Some(group), i)
    ensures forall d | d in descs[..i] :: !IsNamed(d, sel, name, Some(group))
  {
    hide NameOf;
    forall d | d in descs[..i] ensures !IsNamed(d, sel, name, Some(group)) {
      var j :| 0 <= j < i && descs[j] == d;
    }
  }

  lemma {:induction false} FirstOneExists(descs: seq<Descriptor>, sel: Selector, name: string, group: Option<string>)
    requires exists d :: d in descs && IsNamed(d, sel, name, group)
    ensures exists i :: FirstNamed(descs, sel, name, group, i)
  {
    hide NameOf;
    var n := |descs| - 1;
    var front, last := descs[..n], descs[n];
    assert descs == front + [last];
    if exists d :: d in front && IsNamed(d, sel, name, group) {
      FirstOneExists(front, sel, name, group);
      var i :| FirstNamed(front, sel, name, group, i);
      assert FirstNamed(descs, sel, name, group, i);
    } else {
      assert forall j | 0 <= j < n :: descs[j] in front;
      assert FirstNamed(descs, sel, name, group, n);
    }
  }

  lemma {:induction false} NamedStartsAt(descs: seq<Descriptor>, sel: Selector, name: string, i: int)
    requires FirstNamed(descs, sel, name, None, i)
    ensures Named(descs, sel, name) != [] && Named(descs, sel, name)[0] == KindOf(descs[i])
  {
    hide NameOf;
    var n := |descs| - 1;
    var front, last := descs[..n], descs[n];
    if i < n {
      assert FirstNamed(front, sel, name, None, i);
      NamedStartsAt(front, sel, name, i);
    } else {
      NamedIsThere(front, sel, name);
      forall e | e in front ensures NameOf(e, sel) != name {
        var j :| 0 <= j < n && descs[j] == e;
        assert !IsNamed(descs[j], sel, name, None);
      }
    }
  }

  // ---------------------------------------------------------------------------------------------
  // Answers
  // ---------------------------------------------------------------------------------------------

  /** d is the first resource of that group version and kind. */
  ghost predicate FirstWith(descs: seq<Descriptor>, gv: GroupVersion, kind: string, d: Descriptor) {
    exists k :: FirstWithAt(descs, gv, kind, k) && descs[k] == d
  }

  predicate FirstWithAt(descs: seq<Descriptor>, gv: GroupVersion, kind: string, k: int) {
    && 0 <= k < |descs| && descs[k].gv == gv && descs[k].kind == kind
    && forall j | 0 <= j < k :: !(descs[j].gv == gv && descs[j].kind == kind)
  }

  lemma {:induction false} FirstOfKindSnoc(descs: seq<Descriptor>, last: Descriptor, kind: string)
    ensures FirstOfKind(descs + [last], kind) ==
            if FirstOfKind(descs, kind).Some? then FirstOfKind(descs, kind)
            else if last.kind == kind then Some(last) else None
  {
    if descs == [] {
      assert [] + [last] == [last];
    } else {
      assert (descs + [last])[1..] == descs[1..] + [last];
      FirstOfKindSnoc(descs[1..], last, kind);
    }
  }

  lemma {:induction false} FirstAtVersion(descs: seq<Descriptor>, gv: GroupVersion, kind: string)
    ensures var found := FirstOfKind(AtVersion(descs, gv), kind);
            if found.None? then forall k :: !FirstWithAt(descs, gv, kind, k)
            else FirstWith(descs, gv, kind, found.value)
    ensures FirstOfKind(AtVersion(descs, gv), kind).None? ==> forall d | d in descs :: !(d.gv == gv && d.kind == kind)
  {
    hide FirstOfKind, AtVersion;
    if descs == [] {
      NothingAtVersion(gv, kind);
    } else {
      var n := |descs| - 1;
      var front, last := descs[..n], descs[n];
      assert descs == front + [last];
      FirstAtVersion(front, gv, kind);
      FirstOfKindSnoc(AtVersion(front, gv), last, kind);
      AtVersionSnoc(front, gv, last);
      if FirstOfKind(AtVersion(front, gv), kind).Some? {
        var k :| FirstWithAt(front, gv, kind, k) && front[k] == FirstOfKind(AtVersion(front, gv), kind).value;
        assert FirstWithAt(descs, gv, kind, k);
      } else {
        assert forall j | 0 <= j < n :: descs[j] in front;
        assert last.gv == gv && last.kind == kind ==> FirstWithAt(descs, gv, kind, n);
      }
    }
  }

  lemma NothingAtVersion(gv: GroupVersion, kind: string)
    ensures FirstOfKind(AtVersion([], gv), kind).None?
  {
  }

  lemma FirstIsOne(descs: seq<Descriptor>, gv: GroupVersion, kind: string, i: int, j: int)
    requires FirstWithAt(descs, gv, kind, i) && FirstWithAt(descs, gv, kind, j)
    ensures i == j
  {
  }

  lemma AtVersionSnoc(descs: seq<Descriptor>, gv: GroupVersion, last: Descriptor)
    ensures AtVersion(descs + [last], gv) ==
            if last.gv == gv then AtVersion(descs, gv) + [last] else AtVersion(descs, gv)
  {
    assert (descs + [last])[..|descs|] == descs;
  }

  lemma FirstWithIsFound(descs: seq<Descriptor>, gv: GroupVersion, kind: string, d: Descriptor)
    ensures FirstOfKind(AtVersion(descs, gv), kind) == Some(d) <==> FirstWith(descs, gv, kind, d)
  {
    hide FirstOfKind, AtVersion;
    FirstAtVersion(descs, gv, kind);
    if FirstWith(descs, gv, kind, d) {
      var i :| FirstWithAt(descs, gv, kind, i) && descs[i] == d;
      var j :| FirstWithAt(descs, gv, kind, j) && descs[j] == FirstOfKind(AtVersion(descs, gv), kind).value;
      FirstIsOne(descs, gv, kind, i, j);
    }
  }

  /** The resource at i is the first one asked for, of those in the group when that is given. */
  predicate FirstAsked(descs: seq<Descriptor>, name: string, group: Option<string>, i: int) {
    && 0 <= i < |descs| && AskedIn(descs, name, group, descs[i])
    && forall j | 0 <= j < i :: !AskedIn(descs, name, group, descs[j])
  }

  predicate AskedIn(descs: seq<Descriptor>, name: string, group: Option<string>, d: Descriptor) {
    Asked(descs, name, d) && (group.Some? ==> d.gv.group == group.value)
  }

  lemma FirstAskedIsNamed(descs: seq<Descriptor>, name: string, group: Option<string>, i: int)
    ensures FirstAsked(descs, name, group, i) <==> FirstNamed(descs, SenseOf(descs, name), name, group, i)
  {
    hide Asked, NameOf;
    forall d | d in descs ensures Asked(descs, name, d) <==> NameOf(d, SenseOf(descs, name)) == name {
      AskedBySense(descs, name, d);
    }
    assert forall j | 0 <= j < |descs| :: descs[j] in descs;
  }

  /** Asked for with that kind in a group. */
  ghost predicate AskedKind(descs: seq<Descriptor>, name: string, group: string, kind: string) {
    exists i :: FirstAsked(descs, name, Some(group), i) && descs[i].kind == kind
  }

  lemma KindAsked(descs: seq<Descriptor>, name: string, group: string, kind: string)
    ensures KindIn(Candidates(descs, name), group) == Some(kind) <==> AskedKind(descs, name, group, kind)
  {
    hide Candidates, KindIn, FirstAsked, FirstNamed, IsNamed;
    var sel := SenseOf(descs, name);
    CandidatesBySense(descs, name);
    KindInNamed(descs, sel, name, group);
    forall i ensures FirstAsked(descs, name, Some(group), i) <==> FirstNamed(descs, sel, name, Some(group), i) {
      FirstAskedIsNamed(descs, name, Some(group), i);
    }
    if KindIn(Candidates(descs, name), group).Some? {
      FirstOneExists(descs, sel, name, Some(group));
      var i :| FirstNamed(descs, sel, name, Some(group), i);
      FirstAskedInRange(descs, name, Some(group), i);
    }
  }

  lemma FirstAskedInRange(descs: seq<Descriptor>, name: string, group: Option<string>, i: int)
    ensures FirstAsked(descs, name, group, i) ==> 0 <= i < |descs|
  {
  }

  /** The group a single lookup is about: the one the text names, or without a text the first asked for. */
  ghost predicate LookedUpIn(groups: seq<APIGroup>, descs: seq<Descriptor>, name: string, text: string, g: string) {
    if text != "" then Names(groups, text, g)
    else exists i :: FirstAsked(descs, name, None, i) && descs[i].gv.group == g
  }

  /**
   The answer to a single lookup: in the group the lookup is about, the first resource of the version asked
   for, or else of the preferred one, with the kind of the first resource asked for there.
   */
  ghost predicate Answers(groups: seq<APIGroup>, descs: seq<Descriptor>, name: string, text: string, version: string,
                          d: Descriptor)
  {
    && LookedUpIn(groups, descs, name, text, d.gv.group)
    && (if version != "" then d.gv.version == version else Prefers(groups, d.gv.group, d.gv.version))
    && d.kind != "" && AskedKind(descs, name, d.gv.group, d.kind)
    && Declares(groups, d.gv) && FirstWith(descs, d.gv, d.kind, d)
  }

  lemma GroupLookedUp(groups: seq<APIGroup>, descs: seq<Descriptor>, name: string, text: string, g: string)
    requires Candidates(descs, name) != []
    ensures LookedUpIn(groups, descs, name, text, g) <==>
            (if text == "" then Some(Candidates(descs, name)[0].group) else GroupFor(groups, text)) == Some(g)
  {
    hide Candidates, GroupFor, Names, FirstAsked, FirstNamed, IsNamed, SenseOf;
    if text != "" {
      GroupForIsExact(groups, text, g);
    } else {
      var sel := SenseOf(descs, name);
      CandidatesBySense(descs, name);
      FirstNameExists(descs, sel, name);
      var i :| FirstNamed(descs, sel, name, None, i);
      NamedStartsAt(descs, sel, name, i);
      FirstAskedIsNamed(descs, name, None, i);
      forall j | FirstAsked(descs, name, None, j) ensures j == i {
        FirstAskedIsNamed(descs, name, None, j);
        FirstIsUnique(descs, sel, name, None, i, j);
      }
      FirstAskedInRange(descs, name, None, i);
    }
  }

  lemma FirstNameExists(descs: seq<Descriptor>, sel: Selector, name: string)
    requires Named(descs, sel, name) != []
    ensures exists i :: FirstNamed(descs, sel, name, None, i)
  {
    hide Named;
    NamedIsThere(descs, sel, name);
    var e :| e in descs && NameOf(e, sel) == name;
    assert IsNamed(e, sel, name, None);
    FirstOneExists(descs, sel, name, None);
  }

  lemma FirstIsUnique(descs: seq<Descriptor>, sel: Selector, name: string, group: Option<string>, i: int, j: int)
    requires FirstNamed(descs, sel, name, group, i) && FirstNamed(descs, sel, name, group, j)
    ensures i == j
  {
  }

  /** There is a single answer exactly when the lists have one, and it is that one. */
  lemma ScanOneIsExact(groups: seq<APIGroup>, descs: seq<Descriptor>, name: string, text: string, version: string,
                       d: Descriptor)
    ensures ScanOne(groups, descs, name, text, version) == Some(d) <==> Answers(groups, descs, name, text, version, d)
  {
    hide Candidates, KindIn, GroupFor, Preferred, FirstOfKind, AtVersion, Declared, LookedUpIn, AskedKind, Declares,
      FirstWith, Prefers;
    var candidates := Candidates(descs, name);
    KindAsked(descs, name, d.gv.group, d.kind);
    if candidates == [] {
      NothingAsked(descs, name, d.gv.group, d.kind);
    } else {
      GroupLookedUp(groups, descs, name, text, d.gv.group);
      PreferredIsExact(groups, d.gv.group, d.gv.version);
      DeclaredMeansListed(groups, d.gv);
      FirstWithIsFound(descs, d.gv, d.kind, d);
      if ScanOne(groups, descs, name, text, version) == Some(d) {
        var target := if text == "" then candidates[0].group else GroupFor(groups, text).value;
        var v := if version != "" then version else Preferred(groups, target).value;
        AtVersionMember(descs, GroupVersion(target, v), d);
      }
    }
  }

  lemma NothingAsked(descs: seq<Descriptor>, name: string, group: string, kind: string)
    requires Candidates(descs, name) == []
    ensures !AskedKind(descs, name, group, kind)
  {
    hide Candidates, AskedKind;
    KindAsked(descs, name, group, kind);
  }

  /**
   A descriptor is among the answers for all versions exactly when the lists make it one: in its group, which the
   text names if there is one, the first resource of its version with the kind of the first one asked for there.
   */
  lemma ScanAllIsExact(groups: seq<APIGroup>, descs: seq<Descriptor>, name: string, text: string, d: Descriptor)
    ensures InScanAll(groups, descs, name, text, d) <==>
            && (text != "" ==> NamesForAll(groups, text, d.gv.group))
            && d.kind != "" && AskedKind(descs, name, d.gv.group, d.kind)
            && Declares(groups, d.gv) && FirstWith(descs, d.gv, d.kind, d)
  {
    hide Candidates, KindIn, GroupForAll, FirstOfKind, AtVersion, Declared, AskedKind, Declares, FirstWith,
      NamesForAll;
    KindAsked(descs, name, d.gv.group, d.kind);
    GroupForIsExact(groups, text, d.gv.group);
    DeclaredMeansListed(groups, d.gv);
    FirstWithIsFound(descs, d.gv, d.kind, d);
  }
}
