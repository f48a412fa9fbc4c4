/**
 Bundles on disk: one file per rule group under rules/, one file of contact points and one of the policy
 tree, on a filesystem that compares names without regard to case.

 The disk is a set of maps keyed by folded name. A file holds a decoded document; an encoder and a strict
 decoder that agree on the models are assumed.
 */
module BundleFiles {
  import opened Options
  import opened JsonValues
  import opened AlertModels
  import opened RouteTree
  import opened BundlePlan
  import opened Sequences
  import opened Sorting

  // ---------------------------------------------------------------------------------------------
  // Names
  // ---------------------------------------------------------------------------------------------

  function LowerChar(c: char): char {
    if 'A' <= c <= 'Z' then ((c as int) + 32) as char else c
  }

  /** The key under which the filesystem holds a name. */
  function Fold(name: string): (key: string)
    ensures |key| == |name|
  {
    seq(|name|, i requires 0 <= i < |name| => LowerChar(name[i]))
  }

  lemma FoldConcat(a: string, b: string)
    ensures Fold(a + b) == Fold(a) + Fold(b)
  {
  }

  predicate IsControl(c: char) {
    c < ' ' || '\U{7f}' <= c <= '\U{9f}'
  }

  function SanitizeChar(c: char): char {
    if c == '/' || c == '\\' || IsControl(c) then '_' else c
  }

  /** A folder UID or title as one path component. */
  function Sanitize(name: string): (s: string)
    ensures s != "" && s[0] != '.' && '/' !in s
  {
    var mapped := seq(|name|, i requires 0 <= i < |name| => SanitizeChar(name[i]));
    if mapped == "" then "_" else if mapped[0] == '.' then "_" + mapped[1..] else mapped
  }

  predicate IsCleanChar(c: char) {
    c != '/' && c != '\\' && !IsControl(c)
  }

  /** A name that is a path component as it stands. */
  predicate IsClean(name: string) {
    name != "" && name[0] != '.' && forall c | c in name :: IsCleanChar(c)
  }

  /**
   A component holds no separator and no control character and is not hidden; only such a name is its own
   component.
   */
  lemma SanitizedIsClean(name: string)
    ensures IsClean(Sanitize(name)) && (Sanitize(name) == name <==> IsClean(name))
    ensures |Sanitize(name)| == if name == "" then 1 else |name|
    ensures forall i | 0 < i < |name| && IsCleanChar(name[i]) :: Sanitize(name)[i] == name[i]
  {
    var s := Sanitize(name);
    if name != "" {
      assert |s| == |name|;
      forall i | 0 <= i < |s| ensures IsCleanChar(s[i]) && (i > 0 ==> s[i] == SanitizeChar(name[i])) {
      }
      assert s[0] == if SanitizeChar(name[0]) == '.' then '_' else SanitizeChar(name[0]);
      if IsClean(name) {
        forall i | 0 <= i < |s| ensures s[i] == name[i] {
          assert name[i] in name;
        }
      }
    }
  }

  /** The suffix that starts at the last dot. */
  function Ext(name: string): string {
    if name == "" then "" else if name[|name| - 1] == '.' then "." else
      var front := Ext(name[..|name| - 1]);
      if front == "" then "" else front + [name[|name| - 1]]
  }

  const EXTENSIONS: set<string> := {".yaml", ".yml", ".json"}

  /** A file the layout owns, by its extension. */
  predicate IsBundleFile(name: string) {
    Fold(Ext(name)) in EXTENSIONS
  }

  datatype Format = FormatJSON | FormatYAML

  function FormatExt(f: Format): string {
    match f
    case FormatJSON => ".json"
    case FormatYAML => ".yaml"
  }

  lemma {:induction false} ExtOfSuffixed(name: string, suffix: string)
    requires suffix != "" && suffix[0] == '.' && '.' !in suffix[1..]
    ensures Ext(name + suffix) == suffix
    decreases |suffix|
  {
    var whole := name + suffix;
    if |suffix| == 1 {
      assert whole[|whole| - 1] == '.';
    } else {
      var front := suffix[..|suffix| - 1];
      assert whole[..|whole| - 1] == name + front;
      assert forall c | c in front[1..] :: c in suffix[1..];
      ExtOfSuffixed(name, front);
      assert suffix[|suffix| - 1] in suffix[1..];
    }
  }

  lemma WrittenNameIsBundleFile(title: string, f: Format)
    ensures IsBundleFile(Sanitize(title) + FormatExt(f))
  {
    ExtOfSuffixed(Sanitize(title), FormatExt(f));
    assert Fold(FormatExt(f)) == FormatExt(f);
  }

  // ---------------------------------------------------------------------------------------------
  // Documents and what is accepted
  // ---------------------------------------------------------------------------------------------

  /** A bundle between disk and memory; contact points that are nil are not an empty list. */
  datatype FileBundle = FileBundle(groups: seq<Option<Group>>, points: Option<seq<Option<ContactPoint>>>,
                                   policies: Option<Route>)

  datatype Doc =
    | GroupDoc(group: Group)
    | PointsDoc(points: seq<Option<ContactPoint>>)
    | RouteDoc(route: Route)
    | Undecodable

  function StripRule(r: Rule): Rule {
    r.(id := 0, updated := "", provenance := "")
  }

  function StripGroup(g: Group): Group {
    g.(rules := MapSlots(g.rules, StripRule))
  }

  function StripPoint(p: ContactPoint): ContactPoint {
    p.(provenance := "")
  }

  function StripPoints(points: seq<Option<ContactPoint>>): seq<Option<ContactPoint>> {
    MapSlots(points, StripPoint)
  }

  predicate HasText(fields: map<string, Json>, key: string) {
    key in fields && fields[key].Str? && fields[key].s != ""
  }

  /** The structure a write cannot be built without. */
  predicate ValidRule(r: Rule) {
    && r.title.Some? && r.title.value != ""
    && HasText(r.rest, "condition")
    && "data" in r.rest && r.rest["data"].Arr? && r.rest["data"].items != []
    && HasText(r.rest, "execErrState") && HasText(r.rest, "noDataState")
    && "for" in r.rest && r.rest["for"] != Null
  }

  /** No uid is used by two rules of the group. */
  predicate UIDsOnce(rules: seq<Option<Rule>>) {
    forall i, j | 0 <= i < j < |rules| && rules[i].Some? && rules[j].Some? && rules[i].value.uid != "" ::
      rules[i].value.uid != rules[j].value.uid
  }

  predicate ValidGroup(g: Group) {
    && g.folderUID != "" && g.title != "" && g.interval > 0
    && (forall i | 0 <= i < |g.rules| :: g.rules[i].Some? && ValidRule(g.rules[i].value))
    && UIDsOnce(g.rules)
  }

  predicate ValidPoint(p: ContactPoint) {
    HasText(p.rest, "type") && p.name != "" && "settings" in p.rest && p.rest["settings"] != Null
  }

  predicate ValidPoints(points: seq<Option<ContactPoint>>) {
    && (forall i | 0 <= i < |points| :: points[i].Some? && ValidPoint(points[i].value))
    && (forall i, j | 0 <= i < j < |points| ::
          points[i].Some? && points[j].Some? ==> PointID(points[i].value) != PointID(points[j].value))
  }

  /** The uids the group's rules declare. */
  function DeclaredUIDs(g: Group): set<string> {
    set r | r in Present(g.rules) && r.uid != "" :: r.uid
  }

  /** The groups can stand in one bundle: neither a group nor a rule uid is declared twice. */
  predicate Apart(a: Group, b: Group) {
    GroupID(a) != GroupID(b) && DeclaredUIDs(a) !! DeclaredUIDs(b)
  }

  predicate AllValid(rules: seq<Option<Rule>>) {
    forall i | 0 <= i < |rules| :: rules[i].Some? && ValidRule(rules[i].value)
  }

  /** seen holds the uids of the rules. */
  ghost predicate SeenUIDs(seen: set<string>, rules: seq<Option<Rule>>) {
    forall uid :: uid in seen <==> uid != "" && exists i ::
      0 <= i < |rules| && rules[i].Some? && rules[i].value.uid == uid
  }

  lemma OneMoreRule(seen: set<string>, rules: seq<Option<Rule>>, r: Rule)
    requires SeenUIDs(seen, rules)
    ensures UIDsOnce(rules + [Some(r)]) <==> UIDsOnce(rules) && r.uid !in seen
    ensures SeenUIDs(if r.uid == "" then seen else seen + {r.uid}, rules + [Some(r)])
  {
    var all := rules + [Some(r)];
    assert all[|rules|] == Some(r);
    if r.uid in seen {
      var i :| 0 <= i < |rules| && rules[i].Some? && rules[i].value.uid == r.uid;
      assert all[i] == rules[i];
    }
    if UIDsOnce(all) {
      forall i, j | 0 <= i < j < |rules| && rules[i].Some? && rules[j].Some? && rules[i].value.uid != ""
        ensures rules[i].value.uid != rules[j].value.uid
      {
        assert all[i] == rules[i] && all[j] == rules[j];
      }
    }
    var after := if r.uid == "" then seen else seen + {r.uid};
    forall uid
      ensures uid in after <==> uid != "" && exists i :: 0 <= i < |all| && all[i].Some? && all[i].value.uid == uid
    {
      if i :| 0 <= i < |rules| && rules[i].Some? && rules[i].value.uid == uid {
        assert all[i].value.uid == uid;
      }
    }
  }

  method ValidateGroup(g: Group) returns (ok: bool)
    ensures ok <==> ValidGroup(g)
  {
    if g.folderUID == "" || g.title == "" || g.interval <= 0 {
      return false;
    }
    var seen: set<string> := {};
    for i := 0 to |g.rules|
      invariant AllValid(g.rules[..i]) && SeenUIDs(seen, g.rules[..i]) && UIDsOnce(g.rules[..i])
    {
      hide ValidRule, SeenUIDs, UIDsOnce;
      if g.rules[i].None? || !ValidRule(g.rules[i].value) {
        return false;
      }
      var rule := g.rules[i].value;
      assert g.rules[..i + 1] == g.rules[..i] + [Some(rule)];
      OneMoreRule(seen, g.rules[..i], rule);
      NoEmptyUID(seen, g.rules[..i]);
      if rule.uid != "" {
        if rule.uid in seen {
          OnceInPrefix(g.rules, i + 1);
          return false;
        }
        seen := seen + {rule.uid};
      }
    }
    assert g.rules[..|g.rules|] == g.rules;
    return true;
  }

  lemma NoEmptyUID(seen: set<string>, rules: seq<Option<Rule>>)
    requires SeenUIDs(seen, rules)
    ensures "" !in seen
  {
  }

  lemma OnceInPrefix(rules: seq<Option<Rule>>, i: nat)
    requires i <= |rules|
    ensures UIDsOnce(rules) ==> UIDsOnce(rules[..i])
  {
  }

  // ---------------------------------------------------------------------------------------------
  // The disk
  // ---------------------------------------------------------------------------------------------

  /** A directory entry, under the spelling it was created with. */
  datatype Leaf = FileLeaf(name: string, doc: Doc) | DirLeaf(name: string, empty: bool)

  /** An entry of the rules directory. */
  datatype Folder = Folder(name: string, isDir: bool)

  /** The folded folder and file name of a file under rules/. */
  type Key = (string, string)

  datatype Contents = Contents(folders: map<string, Folder>, files: map<Key, Leaf>, top: map<string, Leaf>)

  /** Names stand under their folded form, and files in directories. */
  predicate ValidContents(c: Contents) {
    && (forall f | f in c.folders :: Fold(c.folders[f].name) == f)
    && (forall k | k in c.files :: k.0 in c.folders && c.folders[k.0].isDir && Fold(c.files[k].name) == k.1)
    && (forall n | n in c.top :: Fold(c.top[n].name) == n)
  }

  function GroupFile(g: Group, f: Format): (string, string) {
    (Sanitize(g.folderUID), Sanitize(g.title) + FormatExt(f))
  }

  function KeyOf(g: Group, f: Format): Key {
    (Fold(GroupFile(g, f).0), Fold(GroupFile(g, f).1))
  }

  function Keys(groups: seq<Group>, f: Format): seq<Key> {
    seq(|groups|, i requires 0 <= i < |groups| => KeyOf(groups[i], f))
  }

  function KeySet(groups: seq<Group>, f: Format): set<Key> {
    set k | k in Keys(groups, f)
  }

  /** Two groups map to one file. */
  predicate Collides(groups: seq<Group>, f: Format) {
    exists i, j :: 0 <= i < j < |groups| && KeyOf(groups[i], f) == KeyOf(groups[j], f)
  }

  /** Nothing under rules/ stands in the way of the group's file. */
  predicate CanWrite(c: Contents, k: Key) {
    (k.0 in c.folders ==> c.folders[k.0].isDir) && (k in c.files ==> c.files[k].FileLeaf?)
  }

  /** How many of the files can be written before one that cannot. */
  function WritableKeys(c: Contents, keys: seq<Key>): (n: nat)
    ensures n <= |keys|
    ensures forall i | 0 <= i < n :: CanWrite(c, keys[i])
    ensures n < |keys| ==> !CanWrite(c, keys[n])
  {
    if keys == [] || !CanWrite(c, keys[0]) then 0 else 1 + WritableKeys(c, keys[1..])
  }

  /** How many of the groups can be written before one whose file cannot. */
  function Writable(c: Contents, groups: seq<Group>, f: Format): (n: nat)
    ensures n <= |groups|
  {
    WritableKeys(c, Keys(groups, f))
  }

  /** A file once written stands in nobody's way. */
  lemma WritingFreesNone(c: Contents, path: (string, string), doc: Doc, k: Key)
    requires ValidContents(c) && CanWrite(c, (Fold(path.0), Fold(path.1)))
    ensures CanWrite(Written(c, path, doc), k) <==> CanWrite(c, k)
  {
    hide Fold;
  }

  /** One file written: an existing entry keeps its spelling. */
  function Written(c: Contents, path: (string, string), doc: Doc): Contents {
    var k := (Fold(path.0), Fold(path.1));
    c.(folders := if k.0 in c.folders then c.folders else c.folders[k.0 := Folder(path.0, true)],
       files := c.files[k := FileLeaf(if k in c.files then c.files[k].name else path.1, doc)])
  }

  function WrittenAll(c: Contents, groups: seq<Group>, f: Format): Contents {
    if groups == [] then c
    else
      var last := groups[|groups| - 1];
      Written(WrittenAll(c, groups[..|groups| - 1], f), GroupFile(last, f), GroupDoc(StripGroup(last)))
  }

  /** A folder is subject to pruning: all are, unless the caller names some. */
  predicate Prunable(keep: Option<seq<string>>, folder: string) {
    keep.Some? ==> exists uid :: uid in keep.value && Fold(Sanitize(uid)) == folder
  }

  /** A file pruning removes: one the layout owns, in a prunable folder, that was not just written. */
  predicate Stale(c: Contents, written: set<Key>, keep: Option<seq<string>>, k: Key)
    requires k in c.files
  {
    k !in written && Prunable(keep, k.0) && c.files[k].FileLeaf? && IsBundleFile(c.files[k].name)
  }

  function Pruned(c: Contents, written: set<Key>, keep: Option<seq<string>>): Contents {
    c.(files := map k | k in c.files && !Stale(c, written, keep, k) :: c.files[k])
  }

  /** The same files can be written. */
  ghost predicate SameWay(a: Contents, b: Contents) {
    forall k :: CanWrite(a, k) <==> CanWrite(b, k)
  }

  /** The first i groups are written. */
  ghost predicate WrittenSoFar(start: Contents, now: Contents, current: set<Key>, groups: seq<Group>, i: nat,
                               f: Format) {
    && i <= Writable(start, groups, f) && ValidContents(now) && SameWay(start, now)
    && now == WrittenAll(start, groups[..i], f) && current == KeySet(groups[..i], f)
  }

  lemma WritingBegins(start: Contents, groups: seq<Group>, f: Format)
    requires ValidContents(start)
    ensures WrittenSoFar(start, start, {}, groups, 0, f)
  {
    hide ValidContents, Writable, CanWrite;
  }

  lemma WritingEnds(start: Contents, now: Contents, current: set<Key>, groups: seq<Group>, f: Format)
    requires WrittenSoFar(start, now, current, groups, |groups|, f)
    ensures Writable(start, groups, f) == |groups| && groups[..|groups|] == groups
    ensures ValidContents(now) && now == WrittenAll(start, groups, f) && current == KeySet(groups, f)
  {
    hide ValidContents, Writable, SameWay, WrittenAll, KeySet;
    assert groups[..|groups|] == groups;
  }

  /** The next file can be written exactly when there is one more to write; otherwise the disk is as it is to stay. */
  lemma WriteStep(start: Contents, now: Contents, current: set<Key>, groups: seq<Group>, i: nat, f: Format)
    requires i < |groups| && WrittenSoFar(start, now, current, groups, i, f)
    ensures var path := GroupFile(groups[i], f);
            var can, after := CanWrite(now, (Fold(path.0), Fold(path.1))),
              Written(now, path, GroupDoc(StripGroup(groups[i])));
            && ValidContents(now)
            && (can ==> ValidContents(after) ==>
                  WrittenSoFar(start, after, current + {KeyOf(groups[i], f)}, groups, i + 1, f))
            && (!can ==> Writable(start, groups, f) == i < |groups| && now == WrittenAll(start, groups[..i], f))
  {
    hide Fold, CanWrite, Written, GroupFile, StripGroup, KeyOf, WrittenAll, ValidContents, KeySet, Writable;
    var path := GroupFile(groups[i], f);
    WrittenSnoc(start, groups, i, f);
    NextWritable(start, groups, i, f);
    if CanWrite(now, (Fold(path.0), Fold(path.1))) {
      forall k ensures CanWrite(start, k) <==> CanWrite(Written(now, path, GroupDoc(StripGroup(groups[i]))), k) {
        WritingFreesNone(now, path, GroupDoc(StripGroup(groups[i])), k);
      }
    }
  }

  lemma NextWritable(start: Contents, groups: seq<Group>, i: nat, f: Format)
    requires i < |groups| && i <= Writable(start, groups, f)
    ensures var path := GroupFile(groups[i], f);
            CanWrite(start, (Fold(path.0), Fold(path.1))) <==> i < Writable(start, groups, f)
  {
    hide CanWrite, GroupFile, Fold;
    assert Keys(groups, f)[i] == (Fold(GroupFile(groups[i], f).0), Fold(GroupFile(groups[i], f).1));
  }

  lemma WrittenStaysValid(c: Contents, path: (string, string), doc: Doc)
    requires ValidContents(c) && CanWrite(c, (Fold(path.0), Fold(path.1)))
    ensures ValidContents(Written(c, path, doc))
  {
    hide Fold;
  }

  const POINTS_BASE := "contact-points"
  const POLICIES_BASE := "policies"

  /** The places a top-level file may stand. */
  function TopNames(base: string): set<string> {
    {base + ".yaml", base + ".yml", base + ".json"}
  }

  /** A directory with something in it cannot be removed. */
  predicate Removable(c: Contents, base: string) {
    AllRemovable(c.top, TopNames(base))
  }

  /** The top-level file rewritten in one format, every other form of it gone. */
  function TopWritten(c: Contents, base: string, f: Format, doc: Option<Doc>): Contents {
    var cleared := c.top - TopNames(base);
    c.(top := if doc.Some? then cleared[base + FormatExt(f) := FileLeaf(base + FormatExt(f), doc.value)] else cleared)
  }

  /** The names under which a regular file of that base exists. */
  function TopFound(c: Contents, base: string): set<string> {
    set n | n in TopNames(base) && n in c.top && c.top[n].FileLeaf?
  }

  /** A file that reading the bundle looks at. */
  predicate IsRead(c: Contents, k: Key) {
    k in c.files && c.files[k].FileLeaf? && IsBundleFile(c.files[k].name)
  }

  function ReadKeys(c: Contents): set<Key> {
    set k | k in c.files && IsRead(c, k)
  }

  /** Every rule-group file holds a valid group, and no two declare one group or one uid. */
  predicate ReadableFiles(c: Contents) {
    && (forall k | k in ReadKeys(c) :: c.files[k].doc.GroupDoc? && ValidGroup(c.files[k].doc.group))
    && (forall k, l | k in ReadKeys(c) && l in ReadKeys(c) && k != l ::
          Apart(c.files[k].doc.group, c.files[l].doc.group))
  }

  function GroupsAt(c: Contents, keys: seq<Key>): seq<Group>
    requires forall k | k in keys :: k in c.files && c.files[k].FileLeaf? && c.files[k].doc.GroupDoc?
  {
    seq(|keys|, i requires 0 <= i < |keys| => assert keys[i] in keys; c.files[keys[i]].doc.group)
  }

  lemma WrittenSnoc(c: Contents, groups: seq<Group>, i: nat, f: Format)
    requires i < |groups|
    ensures WrittenAll(c, groups[..i + 1], f) ==
            Written(WrittenAll(c, groups[..i], f), GroupFile(groups[i], f), GroupDoc(StripGroup(groups[i])))
    ensures KeySet(groups[..i + 1], f) == KeySet(groups[..i], f) + {KeyOf(groups[i], f)}
  {
    hide Written, GroupFile, KeyOf, StripGroup, Collides;
    assert groups[..i + 1] == groups[..i] + [groups[i]] && groups[..i + 1][..i] == groups[..i];
    KeysSnoc(groups[..i], groups[i], f);
  }

  /** The groups that are present, unless two of them map to one file. */
  method ClaimFiles(groups: seq<Option<Group>>, f: Format) returns (ordered: Option<seq<Group>>)
    ensures ordered == if Collides(Present(groups), f) then None else Some(Present(groups))
  {
    hide Fold, Sanitize, KeyOf, Collides, Keys, Present;
    var claimed: set<Key> := {};
    var present: seq<Group> := [];
    PresentNothing(groups, f);
    for i := 0 to |groups|
      invariant present == Present(groups[..i])
      invariant forall k :: k in claimed <==> k in Keys(present, f)
      invariant !Collides(present, f)
    {
      PresentPrefix(groups, i);
      if groups[i].Some? {
        var group := groups[i].value;
        KeysSnoc(present, group, f);
        if KeyOf(group, f) in claimed {
          assert groups[..i + 1] + groups[i + 1..] == groups;
          PresentConcat(groups[..i + 1], groups[i + 1..]);
          CollisionStays(Present(groups[..i + 1]), Present(groups[i + 1..]), f);
          return None;
        }
        claimed := claimed + {KeyOf(group, f)};
        present := present + [group];
      }
    }
    assert groups[..|groups|] == groups;
    ordered := Some(present);
  }

  /** The stale files of some of the folders removed. */
  function PrunedIn(c: Contents, written: set<Key>, keep: Option<seq<string>>, folders: set<string>): Contents {
    c.(files := map k | k in c.files && !(k.0 in folders && Stale(c, written, keep, k)) :: c.files[k])
  }

  lemma NothingPruned(c: Contents, written: set<Key>, keep: Option<seq<string>>)
    ensures PrunedIn(c, written, keep, {}) == c
    ensures forall s: set<string> :: s - s == {}
  {
    hide Stale;
    assert PrunedIn(c, written, keep, {}).files == c.files;
  }

  lemma AllPruned(c: Contents, written: set<Key>, keep: Option<seq<string>>)
    requires ValidContents(c)
    ensures PrunedIn(c, written, keep, c.folders.Keys - {}) == Pruned(c, written, keep)
    ensures ValidContents(Pruned(c, written, keep))
  {
    hide Stale, Fold;
    assert PrunedIn(c, written, keep, c.folders.Keys - {}).files == Pruned(c, written, keep).files;
  }

  lemma PrunedStaysValid(c: Contents, written: set<Key>, keep: Option<seq<string>>, folders: set<string>)
    requires ValidContents(c)
    ensures ValidContents(PrunedIn(c, written, keep, folders))
            && PrunedIn(c, written, keep, folders).folders == c.folders
  {
    hide Stale, Fold;
  }

  /** One folder more: pruned when it is a directory the caller allows, left alone otherwise. */
  lemma PruneOne(c: Contents, written: set<Key>, keep: Option<seq<string>>, done: set<string>, folder: string)
    requires ValidContents(c) && folder in c.folders
    ensures var now := PrunedIn(c, written, keep, done);
            && Fold(c.folders[folder].name) == folder
            && (keep.None? || (exists uid :: uid in keep.value && Fold(Sanitize(uid)) == folder) <==>
                  Prunable(keep, folder))
            && PrunedIn(c, written, keep, done + {folder}) ==
               if c.folders[folder].isDir && Prunable(keep, folder) then PrunedIn(now, written, keep, {folder}) else now
  {
    hide Fold, Sanitize, IsBundleFile, Prunable;
    var now, next := PrunedIn(c, written, keep, done), PrunedIn(c, written, keep, done + {folder});
    if c.folders[folder].isDir && Prunable(keep, folder) {
      assert next.files == PrunedIn(now, written, keep, {folder}).files;
    } else {
      forall k | k in c.files && k.0 == folder ensures !Stale(c, written, keep, k) {
      }
      assert next.files == now.files;
    }
    PrunableMeans(keep, folder);
  }

  lemma PrunableMeans(keep: Option<seq<string>>, folder: string)
    ensures keep.None? || (exists uid :: uid in keep.value && Fold(Sanitize(uid)) == folder) <==> Prunable(keep, folder)
  {
  }

  /** The folder's files but the remaining ones have been looked at. */
  ghost predicate PruningFolder(start: Contents, now: Contents, written: set<Key>, keep: Option<seq<string>>,
                                folder: string, files: set<Key>) {
    && ValidContents(start) && Prunable(keep, folder) && now == start.(files := now.files)
    && (forall k | k in files :: k.0 == folder && k in now.files)
    && (forall k ::
          k in now.files <==> k in start.files && !(k.0 == folder && k !in files && Stale(start, written, keep, k)))
    && (forall k | k in now.files :: now.files[k] == start.files[k])
  }

  lemma PruneFile(start: Contents, now: Contents, written: set<Key>, keep: Option<seq<string>>, folder: string,
                  files: set<Key>, k: Key)
    requires PruningFolder(start, now, written, keep, folder, files) && k in files
    ensures k in now.files && folder in now.folders
    ensures var leaf := now.files[k];
            var stale := (Fold(now.folders[folder].name), Fold(leaf.name)) !in written && leaf.FileLeaf?
                && IsBundleFile(leaf.name);
            PruningFolder(start, if stale then now.(files := now.files - {k}) else now, written, keep, folder,
                          files - {k})
  {
    hide Fold, IsBundleFile, Prunable;
  }

  lemma FolderPruned(start: Contents, now: Contents, written: set<Key>, keep: Option<seq<string>>, folder: string,
                     files: set<Key>)
    requires PruningFolder(start, now, written, keep, folder, files) && files == {}
    ensures now == PrunedIn(start, written, keep, {folder})
  {
    hide Stale;
    assert now.files == PrunedIn(start, written, keep, {folder}).files;
  }

  const EXTS: seq<string> := [".yaml", ".yml", ".json"]

  function FirstNames(base: string, n: nat): set<string>
    requires n <= |EXTS|
  {
    if n == 0 then {} else FirstNames(base, n - 1) + {base + EXTS[n - 1]}
  }

  lemma AllNames(base: string)
    ensures FirstNames(base, |EXTS|) == TopNames(base)
  {
    assert FirstNames(base, 0) == {};
    assert FirstNames(base, 1) == {base + ".yaml"};
    assert FirstNames(base, 2) == {base + ".yaml", base + ".yml"};
  }

  predicate AllRemovable(top: map<string, Leaf>, names: set<string>) {
    forall n | n in names && n in top :: top[n].FileLeaf? || top[n].empty
  }

  class Disk {
    var c: Contents

    constructor (c: Contents)
      ensures this.c == c
    {
      this.c := c;
    }

    /** Creates the folder when needed and writes the file, unless something else stands there. */
    method WriteFile(path: (string, string), doc: Doc) returns (ok: bool)
      requires ValidContents(c)
      modifies this
      ensures ok <==> CanWrite(old(c), (Fold(path.0), Fold(path.1)))
      ensures c == (if ok then Written(old(c), path, doc) else old(c)) && ValidContents(c)
    {
      hide Fold;
      var k := (Fold(path.0), Fold(path.1));
      if k.0 in c.folders && !c.folders[k.0].isDir {
        return false;
      }
      if k in c.files && c.files[k].DirLeaf? {
        return false;
      }
      WrittenStaysValid(c, path, doc);
      if k.0 !in c.folders {
        c := c.(folders := c.folders[k.0 := Folder(path.0, true)]);
      }
      var name := if k in c.files then c.files[k].name else path.1;
      c := c.(files := c.files[k := FileLeaf(name, doc)]);
      ok := true;
    }

    /**
     Refuses a collision before anything is written; else writes the groups in order, up to one in whose way
     something stands, and when there is none says which files are current.
     */
    method WriteGroupFiles(groups: seq<Option<Group>>, f: Format) returns (written: Option<set<Key>>)
      requires ValidContents(c)
      modifies this
      ensures ValidContents(c)
      ensures var present := Present(groups);
              if Collides(present, f) then written.None? && c == old(c)
              else
                var n := Writable(old(c), present, f);
                c == WrittenAll(old(c), present[..n], f)
                    && written == if n == |present| then Some(KeySet(present, f)) else None
    {
      hide *;
      var ordered := ClaimFiles(groups, f);
      if ordered.None? {
        return None;
      }
      written := WriteOrdered(ordered.value, f);
    }

    method WriteOrdered(groups: seq<Group>, f: Format) returns (written: Option<set<Key>>)
      requires ValidContents(c)
      modifies this
      ensures ValidContents(c)
      ensures var n := Writable(old(c), groups, f);
              c == WrittenAll(old(c), groups[..n], f)
                  && written == if n == |groups| then Some(KeySet(groups, f)) else None
    {
      var current: set<Key> := {};
      ghost var start := c;
      WritingBegins(start, groups, f);
      for i := 0 to |groups|
        invariant WrittenSoFar(start, c, current, groups, i, f)
      {
        hide *;
        WriteStep(start, c, current, groups, i, f);
        var ok := WriteFile(GroupFile(groups[i], f), GroupDoc(StripGroup(groups[i])));
        if !ok {
          return None;
        }
        current := current + {KeyOf(groups[i], f)};
      }
      hide *;
      WritingEnds(start, c, current, groups, f);
      written := Some(current);
    }

    /** Removes the stale files. */
    method PruneGroupFiles(written: set<Key>, keep: Option<seq<string>>)
      requires ValidContents(c)
      modifies this
      ensures c == Pruned(old(c), written, keep) && ValidContents(c)
    {
      var folders := c.folders.Keys;
      NothingPruned(c, written, keep);
      while folders != {}
        invariant folders <= old(c).folders.Keys
        invariant c == PrunedIn(old(c), written, keep, old(c).folders.Keys - folders)
        decreases |folders|
      {
        hide *;
        var folder :| folder in folders;
        PruneOne(old(c), written, keep, old(c).folders.Keys - folders, folder);
        assert old(c).folders.Keys - (folders - {folder}) == old(c).folders.Keys - folders + {folder};
        PrunedStaysValid(old(c), written, keep, old(c).folders.Keys - folders);
        if c.folders[folder].isDir && (keep.None? || exists uid ::
              uid in keep.value && Fold(Sanitize(uid)) == Fold(c.folders[folder].name)) {
          PruneFolder(folder, written, keep);
        }
        folders := folders - {folder};
      }
      AllPruned(old(c), written, keep);
    }

    /** Removes one folder's stale files. */
    method PruneFolder(folder: string, written: set<Key>, ghost keep: Option<seq<string>>)
      requires ValidContents(c) && Prunable(keep, folder)
      modifies this
      ensures c == PrunedIn(old(c), written, keep, {folder})
    {
      ghost var start := c;
      var files := set k | k in c.files && k.0 == folder;
      while files != {}
        invariant PruningFolder(start, c, written, keep, folder, files)
        decreases |files|
      {
        var k :| k in files;
        hide *;
        PruneFile(start, c, written, keep, folder, files, k);
        files := files - {k};
        var leaf := c.files[k];
        if (Fold(c.folders[folder].name), Fold(leaf.name)) !in written && leaf.FileLeaf? && IsBundleFile(leaf.name) {
          c := c.(files := c.files - {k});
        }
      }
      hide *;
      FolderPruned(start, c, written, keep, folder, files);
    }

    /** Removes every form of a top-level file and writes it in the requested format, when there is one. */
    method WriteTopLevelFile(base: string, f: Format, doc: Option<Doc>) returns (ok: bool)
      requires ValidContents(c) && Fold(base) == base
      modifies this
      ensures ValidContents(c) && c == old(c).(top := c.top)
      ensures ok <==> Removable(old(c), base)
      ensures ok ==> c == TopWritten(old(c), base, f, doc)
    {
      ok := ClearTopLevel(base);
      if ok && doc.Some? {
        var name := base + FormatExt(f);
        FoldConcat(base, FormatExt(f));
        assert Fold(FormatExt(f)) == FormatExt(f);
        c := c.(top := c.top[name := FileLeaf(name, doc.value)]);
      }
    }

    /** Removes the file of every extension, up to one that cannot be removed. */
    method ClearTopLevel(base: string) returns (ok: bool)
      requires ValidContents(c)
      modifies this
      ensures ValidContents(c) && c == old(c).(top := c.top)
      ensures ok <==> Removable(old(c), base)
      ensures ok ==> c.top == old(c).top - TopNames(base)
    {
      hide Fold;
      ghost var start := c;
      for i := 0 to |EXTS|
        invariant c == start.(top := start.top - FirstNames(base, i)) && AllRemovable(start.top, FirstNames(base, i))
      {
        var stale := base + EXTS[i];
        if stale in c.top {
          if c.top[stale].DirLeaf? && !c.top[stale].empty {
            assert stale in TopNames(base);
            return false;
          }
          c := c.(top := c.top - {stale});
        }
        assert start.top - FirstNames(base, i + 1) == start.top - FirstNames(base, i) - {stale};
      }
      AllNames(base);
      ok := true;
    }

    /**
     Succeeds exactly when nothing stands in the way of the bundle; until the top level the disk is what the
     groups make of it.
     */
    method WriteBundle(b: FileBundle, f: Format, keep: Option<seq<string>>) returns (ok: bool)
      requires ValidContents(c)
      modifies this
      ensures ValidContents(c)
      ensures ok <==> BundleFits(old(c), b, f)
      ensures var groups := Present(b.groups);
              var n := Writable(old(c), groups, f);
              if Collides(groups, f) then c == old(c)
              else if n < |groups| then c == WrittenAll(old(c), groups[..n], f)
              else c == (if ok then BundleWritten(old(c), b, f, keep)
                         else Pruned(WrittenAll(old(c), groups, f), KeySet(groups, f), keep).(top := c.top))
    {
      hide Fold, Collides, WrittenAll, Pruned, TopWritten, Present, KeyOf, Removable, KeySet, Writable;
      TopUntouched(c, b, f, keep);
      var written := WriteGroupFiles(b.groups, f);
      if written.None? {
        return false;
      }
      assert Present(b.groups)[..|Present(b.groups)|] == Present(b.groups);
      PruneGroupFiles(written.value, keep);
      FoldOfBases();
      ok := WriteTopLevelFile(POINTS_BASE, f, if b.points.Some? then Some(PointsDoc(StripPoints(b.points.value)))
                              else None);
      if !ok {
        return;
      }
      ok := WriteTopLevelFile(POLICIES_BASE, f, if b.policies.Some? then Some(RouteDoc(RouteBody(b.policies.value)))
                              else None);
    }
  }

  /** No two groups map to one file, and nothing but files stands where one is written. */
  predicate BundleFits(c: Contents, b: FileBundle, f: Format) {
    && !Collides(Present(b.groups), f)
    && (forall g | g in Present(b.groups) :: CanWrite(c, KeyOf(g, f)))
    && Removable(c, POINTS_BASE) && Removable(c, POLICIES_BASE)
  }

  lemma BasesDiffer()
    ensures TopNames(POINTS_BASE) !! TopNames(POLICIES_BASE)
  {
    forall a, b | a in TopNames(POINTS_BASE) && b in TopNames(POLICIES_BASE) ensures a[0] != b[0] {
    }
  }

  lemma FormatIsName(base: string, f: Format)
    ensures base + FormatExt(f) in TopNames(base)
  {
  }

  lemma {:induction false} GroupsKeepTop(c: Contents, groups: seq<Group>, f: Format)
    ensures WrittenAll(c, groups, f).top == c.top
  {
    if groups != [] {
      GroupsKeepTop(c, groups[..|groups| - 1], f);
    }
  }

  lemma AllWritable(c: Contents, groups: seq<Group>, f: Format)
    ensures (forall g | g in groups :: CanWrite(c, KeyOf(g, f))) <==> Writable(c, groups, f) == |groups|
  {
    hide CanWrite, KeyOf;
    var n := Writable(c, groups, f);
    assert forall i | 0 <= i < |groups| :: Keys(groups, f)[i] == KeyOf(groups[i], f);
    if n < |groups| {
      assert groups[n] in groups;
    }
  }

  /** Neither the groups nor the contact points decide whether the top level can be cleared. */
  lemma TopUntouched(c: Contents, b: FileBundle, f: Format, keep: Option<seq<string>>)
    ensures var groups := Present(b.groups);
            var pruned := Pruned(WrittenAll(c, groups, f), KeySet(groups, f), keep);
            var doc := if b.points.Some? then Some(PointsDoc(StripPoints(b.points.value))) else None;
            && (Removable(pruned, POINTS_BASE) <==> Removable(c, POINTS_BASE))
            && (Removable(TopWritten(pruned, POINTS_BASE, f, doc), POLICIES_BASE) <==> Removable(c, POLICIES_BASE))
    ensures (forall g | g in Present(b.groups) :: CanWrite(c, KeyOf(g, f))) <==>
            Writable(c, Present(b.groups), f) == |Present(b.groups)|
  {
    hide CanWrite, KeyOf, WrittenAll, Present, TopNames, StripPoints, KeySet;
    GroupsKeepTop(c, Present(b.groups), f);
    BasesDiffer();
    FormatIsName(POINTS_BASE, f);
    AllWritable(c, Present(b.groups), f);
  }

  /** An enumeration of the files that are read. */
  ghost predicate Enumerates(keys: seq<Key>, c: Contents) {
    Distinct(keys) && forall k :: k in keys <==> k in ReadKeys(c)
  }

  /** Fails exactly when a uid of the group was declared before; else the group's uids are declared too. */
  method DeclareRuleUIDs(g: Group, seen: set<string>) returns (after: Option<set<string>>)
    requires UIDsOnce(g.rules)
    ensures after == if DeclaredUIDs(g) !! seen then Some(seen + DeclaredUIDs(g)) else None
  {
    var now := seen;
    for i := 0 to |g.rules|
      invariant now == seen + UIDsIn(g.rules[..i]) && UIDsIn(g.rules[..i]) !! seen
    {
      UIDsInSnoc(g.rules, i);
      if g.rules[i].Some? && g.rules[i].value.uid != "" {
        if g.rules[i].value.uid in now {
          UIDsInAll(g);
          return None;
        }
        now := now + {g.rules[i].value.uid};
      }
    }
    assert g.rules[..|g.rules|] == g.rules;
    UIDsInAll(g);
    after := Some(now);
  }

  function UIDsIn(rules: seq<Option<Rule>>): set<string> {
    set r | r in Present(rules) && r.uid != "" :: r.uid
  }

  lemma UIDsInSnoc(rules: seq<Option<Rule>>, i: nat)
    requires UIDsOnce(rules) && i < |rules|
    ensures UIDsIn(rules[..i + 1]) ==
            if rules[i].Some? && rules[i].value.uid != "" then UIDsIn(rules[..i]) + {rules[i].value.uid}
            else UIDsIn(rules[..i])
    ensures rules[i].Some? && rules[i].value.uid != "" ==> rules[i].value.uid !in UIDsIn(rules[..i])
    ensures UIDsIn(rules[..i + 1]) <= UIDsIn(rules)
  {
    hide Present;
    PresentPrefix(rules, i);
    if rules[i].Some? {
      var uid := rules[i].value.uid;
      forall r | r in Present(rules[..i]) && r.uid != "" ensures r.uid != uid {
        PresentMember(rules[..i], r);
        var k :| 0 <= k < i && rules[..i][k] == Some(r);
        assert rules[k] == Some(r);
      }
    }
    forall r | r in Present(rules[..i + 1]) ensures r in Present(rules) {
      PresentMember(rules[..i + 1], r);
      PresentMember(rules, r);
    }
  }

  lemma UIDsInAll(g: Group)
    ensures UIDsIn(g.rules) == DeclaredUIDs(g)
  {
  }

  /** What has been read after the keys in done. */
  ghost predicate ReadSoFar(c: Contents, done: seq<Key>, groups: seq<Group>, declared: set<string>, uids: set<string>) {
    && Distinct(done)
    && (forall k | k in done :: k in ReadKeys(c) && c.files[k].doc.GroupDoc? && ValidGroup(c.files[k].doc.group))
    && (forall k, l | k in done && l in done && k != l :: Apart(c.files[k].doc.group, c.files[l].doc.group))
    && groups == GroupsAt(c, done)
    && (forall id :: id in declared <==> exists k :: k in done && GroupID(c.files[k].doc.group) == id)
    && (forall uid :: uid in uids <==> exists k :: k in done && uid in DeclaredUIDs(c.files[k].doc.group))
  }

  lemma ReadOneMore(c: Contents, done: seq<Key>, groups: seq<Group>, declared: set<string>, uids: set<string>, k: Key)
    requires ReadSoFar(c, done, groups, declared, uids) && k in ReadKeys(c) && k !in done
    requires c.files[k].doc.GroupDoc? && ValidGroup(c.files[k].doc.group)
    requires GroupID(c.files[k].doc.group) !in declared && DeclaredUIDs(c.files[k].doc.group) !! uids
    ensures var g := c.files[k].doc.group;
            ReadSoFar(c, done + [k], groups + [g], declared + {GroupID(g)}, uids + DeclaredUIDs(g))
  {
    hide ValidGroup, GroupID, DeclaredUIDs, IsBundleFile;
    var g, after := c.files[k].doc.group, done + [k];
    assert forall x :: x in after <==> x in done || x == k;
    forall x | x in done ensures Apart(c.files[x].doc.group, g) && Apart(g, c.files[x].doc.group) {
    }
    forall id ensures id in declared + {GroupID(g)} <==> exists x :: x in after && GroupID(c.files[x].doc.group) == id {
      assert k in after;
    }
    forall uid ensures uid in uids + DeclaredUIDs(g) <==> exists x ::
      x in after && uid in DeclaredUIDs(c.files[x].doc.group) {
      assert k in after;
    }
  }

  lemma ClashesWithEarlier(c: Contents, done: seq<Key>, groups: seq<Group>, declared: set<string>, uids: set<string>,
                           k: Key)
    requires ReadSoFar(c, done, groups, declared, uids) && k in ReadKeys(c) && k !in done && c.files[k].doc.GroupDoc?
    requires GroupID(c.files[k].doc.group) in declared || !(DeclaredUIDs(c.files[k].doc.group) !! uids)
    ensures !ReadableFiles(c)
  {
    hide ValidGroup, GroupID, DeclaredUIDs, IsBundleFile;
    var g := c.files[k].doc.group;
    if GroupID(g) in declared {
      var x :| x in done && GroupID(c.files[x].doc.group) == GroupID(g);
      assert !Apart(c.files[x].doc.group, g);
    } else {
      var uid :| uid in DeclaredUIDs(g) && uid in uids;
      var x :| x in done && uid in DeclaredUIDs(c.files[x].doc.group);
      assert !Apart(c.files[x].doc.group, g);
    }
  }

  /** Everything under rules/, in whatever order the directory lists it, sorted afterwards. */
  method ReadGroupFiles(c: Contents) returns (groups: Option<seq<Group>>, ghost keys: seq<Key>)
    ensures groups.Some? <==> ReadableFiles(c)
    ensures groups.Some? ==> Enumerates(keys, c) && groups == Some(Sort(GroupsAt(c, keys), GroupLeq))
  {
    hide ReadSoFar, Apart, ValidGroup, GroupID, DeclaredUIDs, IsBundleFile;
    keys := [];
    var read: seq<Group> := [];
    var declared: set<string>, uids: set<string> := {}, {};
    var left := c.files.Keys;
    NothingRead(c);
    while left != {}
      invariant left <= c.files.Keys
      invariant ReadSoFar(c, keys, read, declared, uids)
      invariant forall k :: k in keys <==> k in ReadKeys(c) && k !in left
      decreases |left|
    {
      var k :| k in left;
      left := left - {k};
      if c.files[k].FileLeaf? && IsBundleFile(c.files[k].name) {
        assert k in ReadKeys(c);
        if !c.files[k].doc.GroupDoc? {
          return None, [];
        }
        var group := c.files[k].doc.group;
        var valid := ValidateGroup(group);
        if !valid {
          return None, [];
        }
        ValidMeansOnce(group);
        var after := DeclareRuleUIDs(group, uids);
        if GroupID(group) in declared || after.None? {
          ClashesWithEarlier(c, keys, read, declared, uids, k);
          return None, [];
        }
        ReadOneMore(c, keys, read, declared, uids, k);
        ghost var before := keys;
        keys := keys + [k];
        assert forall x :: x in keys <==> x in before || x == k;
        read, declared, uids := read + [group], declared + {GroupID(group)}, after.value;
      }
    }
    AllRead(c, keys, read, declared, uids);
    groups := Some(Sort(read, GroupLeq));
  }

  lemma ValidMeansOnce(g: Group)
    requires ValidGroup(g)
    ensures UIDsOnce(g.rules)
  {
  }

  lemma NothingRead(c: Contents)
    ensures ReadSoFar(c, [], [], {}, {})
  {
  }

  lemma AllRead(c: Contents, keys: seq<Key>, read: seq<Group>, declared: set<string>, uids: set<string>)
    requires ReadSoFar(c, keys, read, declared, uids) && forall k :: k in keys <==> k in ReadKeys(c)
    ensures ReadableFiles(c) && Enumerates(keys, c) && read == GroupsAt(c, keys)
  {
    hide ValidGroup, Apart, IsRead;
  }

  /** The one regular file of that base, if there is one; two of them are a contradiction. */
  method BundleFilePath(c: Contents, base: string) returns (found: Option<Option<string>>)
    ensures found.None? <==> |TopFound(c, base)| > 1
    ensures found.Some? ==> TopFound(c, base) == if found.value.Some? then {found.value.value} else {}
  {
    var path: Option<string> := None;
    AllNames(base);
    for i := 0 to |EXTS|
      invariant FoundIn(c, base, i) == if path.Some? then {path.value} else {}
    {
      var name := base + EXTS[i];
      FoundInSnoc(c, base, i);
      if name in c.top && c.top[name].FileLeaf? {
        if path.Some? {
          TwoFound(c, base, path.value, name);
          return None;
        }
        path := Some(name);
      }
    }
    found := Some(path);
    assert path.Some? ==> |{path.value}| == 1;
  }

  function FoundIn(c: Contents, base: string, n: nat): set<string>
    requires n <= |EXTS|
  {
    set x | x in FirstNames(base, n) && x in c.top && c.top[x].FileLeaf?
  }

  lemma FoundInSnoc(c: Contents, base: string, i: nat)
    requires i < |EXTS|
    ensures var name := base + EXTS[i];
            FoundIn(c, base, i + 1) ==
            FoundIn(c, base, i) + if name in c.top && c.top[name].FileLeaf? then {name} else {}
    ensures base + EXTS[i] !in FirstNames(base, i)
    ensures FirstNames(base, i + 1) <= TopNames(base)
  {
    assert (base + ".yaml")[|base|..] == ".yaml" && (base + ".yml")[|base|..] == ".yml"
           && (base + ".json")[|base|..] == ".json";
    assert FirstNames(base, 0) == {};
    assert FirstNames(base, 1) == {base + ".yaml"};
    assert FirstNames(base, 2) == {base + ".yaml", base + ".yml"};
    AllNames(base);
  }

  lemma TwoFound(c: Contents, base: string, a: string, b: string)
    requires a != b && a in TopNames(base) && b in TopNames(base) && a in c.top && b in c.top && c.top[a].FileLeaf?
             && c.top[b].FileLeaf?
    ensures |TopFound(c, base)| > 1
  {
    assert {a, b} <= TopFound(c, base);
    assert TopFound(c, base) == {a, b} + (TopFound(c, base) - {a, b});
    assert |{a, b}| == 2;
  }

  lemma FoldOfBases()
    ensures Fold(POINTS_BASE) == POINTS_BASE && Fold(POLICIES_BASE) == POLICIES_BASE
  {
  }

  /** The disk after a bundle was written. */
  function BundleWritten(c: Contents, b: FileBundle, f: Format, keep: Option<seq<string>>): Contents {
    var groups := Present(b.groups);
    var pruned := Pruned(WrittenAll(c, groups, f), KeySet(groups, f), keep);
    TopWritten(TopWritten(pruned, POINTS_BASE, f, if b.points.Some? then Some(PointsDoc(StripPoints(b.points.value)))
                          else None),
               POLICIES_BASE, f, if b.policies.Some? then Some(RouteDoc(RouteBody(b.policies.value))) else None)
  }

  lemma PresentNothing(slots: seq<Option<Group>>, f: Format)
    ensures Present(slots[..0]) == [] && Keys([], f) == [] && !Collides([], f)
  {
  }

  lemma KeysSnoc(groups: seq<Group>, g: Group, f: Format)
    ensures Keys(groups + [g], f) == Keys(groups, f) + [KeyOf(g, f)]
    ensures Collides(groups + [g], f) <==> Collides(groups, f) || KeyOf(g, f) in Keys(groups, f)
  {
    hide KeyOf;
    var all := groups + [g];
    if i, j :| 0 <= i < j < |all| && KeyOf(all[i], f) == KeyOf(all[j], f) {
      assert Keys(groups, f)[i] == KeyOf(all[i], f);
      if j < |groups| {
        assert KeyOf(groups[i], f) == KeyOf(groups[j], f);
      }
    }
    if i, j :| 0 <= i < j < |groups| && KeyOf(groups[i], f) == KeyOf(groups[j], f) {
      assert KeyOf(all[i], f) == KeyOf(all[j], f);
    }
    if KeyOf(g, f) in Keys(groups, f) {
      var i :| 0 <= i < |groups| && Keys(groups, f)[i] == KeyOf(g, f);
      assert KeyOf(all[i], f) == KeyOf(all[|groups|], f);
    }
  }

  lemma CollisionStays(groups: seq<Group>, more: seq<Group>, f: Format)
    requires Collides(groups, f)
    ensures Collides(groups + more, f)
  {
    hide KeyOf;
    var i, j :| 0 <= i < j < |groups| && KeyOf(groups[i], f) == KeyOf(groups[j], f);
    assert KeyOf((groups + more)[i], f) == KeyOf((groups + more)[j], f);
  }
}
