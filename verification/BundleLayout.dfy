/**
 The layout of a bundle on disk told character by character and entry by entry: names, what stands in the way
 of a write, what a write leaves, what is accepted.
 */
module BundleLayout {
  import opened Options
  import opened AlertModels
  import opened BundlePlan
  import opened BundleFiles
  import opened BundleRoundTrip
  import JsonValues

  // ---------------------------------------------------------------------------------------------
  // Names
  // ---------------------------------------------------------------------------------------------

  /** The character cannot stand in a path component, or not at its start. */
  predicate IsReplaced(c: char, first: bool) {
    c == '/' || c == '\\' || (c as int) < 0x20 || 0x7F <= c as int <= 0x9F || (first && c == '.')
  }

  /** A component is the name with an underscore for each character that cannot stand there; "_" for none. */
  lemma SanitizedCharByChar(name: string)
    ensures name == "" ==> Sanitize(name) == "_"
    ensures name != "" ==>
              && |Sanitize(name)| == |name|
              && forall i | 0 <= i < |name| ::
                   Sanitize(name)[i] == if IsReplaced(name[i], i == 0) then '_' else name[i]
  {
  }

  /** The filesystem takes ASCII capitals for their small letters and nothing else for something else. */
  lemma FoldedCharByChar(name: string, i: nat)
    requires i < |name|
    ensures 'A' <= name[i] <= 'Z' ==>
              'a' <= Fold(name)[i] <= 'z' && Fold(name)[i] as int - 'a' as int == name[i] as int - 'A' as int
    ensures !('A' <= name[i] <= 'Z') ==> Fold(name)[i] == name[i]
  {
  }

  predicate EndsWith(s: string, suffix: string) {
    |suffix| <= |s| && s[|s| - |suffix|..] == suffix
  }

  lemma {:induction false} ExtIsSuffix(name: string)
    ensures EndsWith(name, Ext(name))
    ensures Ext(name) != "" ==> Ext(name)[0] == '.' && '.' !in Ext(name)[1..]
  {
    hide Ext, EndsWith;
    if name == "" {
      NoExt();
      NoSuffix(name);
    } else {
      var front, last := name[..|name| - 1], name[|name| - 1];
      assert name == front + [last];
      ExtIsSuffix(front);
      ExtSnoc(name);
      NoSuffix(front);
      if last == '.' {
        SuffixGrows(front, "", last);
        assert "" + [last] == ".";
      } else if Ext(front) != "" {
        assert (Ext(front) + [last])[1..] == Ext(front)[1..] + [last];
        SuffixGrows(front, Ext(front), last);
      } else {
        NoSuffix(name);
      }
    }
  }

  lemma NoExt()
    ensures Ext("") == ""
  {
  }

  lemma SuffixGrows(s: string, suffix: string, c: char)
    requires EndsWith(s, suffix)
    ensures EndsWith(s + [c], suffix + [c])
  {
  }

  lemma NoSuffix(s: string)
    ensures EndsWith(s, "")
  {
  }

  lemma FoldedSuffix(name: string, n: nat)
    requires n <= |name|
    ensures Fold(name[|name| - n..]) == Fold(name)[|name| - n..]
  {
  }

  lemma NameEndsInExtension(name: string, ext: string)
    requires ext != "" && ext[0] == '.' && '.' !in ext[1..]
    ensures Fold(Ext(name)) == ext <==> EndsWith(Fold(name), ext)
  {
    hide Fold, Ext;
    ExtIsSuffix(name);
    FoldSize(Ext(name));
    FoldSize(name);
    FoldedSuffix(name, |Ext(name)|);
    if EndsWith(Fold(name), ext) {
      var n := |ext|;
      var head, tail := name[..|name| - n], name[|name| - n..];
      FoldedSuffix(name, n);
      assert Fold(tail) == ext && name == head + tail;
      DotsByFold(tail, ext);
      ExtOfSuffixed(head, tail);
    }
  }

  lemma DotsByFold(a: string, b: string)
    requires Fold(a) == b && b != "" && b[0] == '.' && '.' !in b[1..]
    ensures |a| == |b| && a[0] == '.' && '.' !in a[1..]
  {
    forall i | 0 < i < |a| ensures a[i] != '.' {
      assert b[i] == b[1..][i - 1] && b[i] == LowerChar(a[i]);
    }
    assert b[0] == LowerChar(a[0]);
  }

  /** A file is the layout's when its name ends, in whatever case, in one of three extensions. */
  lemma BundleFileByExtension(name: string)
    ensures IsBundleFile(name) <==>
            EndsWith(Fold(name), ".yaml") || EndsWith(Fold(name), ".yml") || EndsWith(Fold(name), ".json")
  {
    hide Fold, Ext;
    NameEndsInExtension(name, ".yaml");
    NameEndsInExtension(name, ".yml");
    NameEndsInExtension(name, ".json");
  }

  /** A group is written below the component of its folder into the file of its title. */
  lemma GroupFileIsExact(g: Group)
    ensures GroupFile(g, FormatYAML) == (Sanitize(g.folderUID), Sanitize(g.title) + ".yaml")
    ensures GroupFile(g, FormatJSON) == (Sanitize(g.folderUID), Sanitize(g.title) + ".json")
    ensures forall f :: KeyOf(g, f) == (Fold(GroupFile(g, f).0), Fold(GroupFile(g, f).1))
  {
    hide Sanitize, Fold;
  }

  /** Two groups collide when their files are one to a filesystem that does not tell cases apart. */
  lemma CollidesIsExact(groups: seq<Group>, f: Format)
    ensures Collides(groups, f) <==>
            exists i, j ::
              && 0 <= i < j < |groups|
              && Fold(GroupFile(groups[i], f).0) == Fold(GroupFile(groups[j], f).0)
              && Fold(GroupFile(groups[i], f).1) == Fold(GroupFile(groups[j], f).1)
  {
    hide Fold, GroupFile;
    if i, j :| 0 <= i < j < |groups| && KeyOf(groups[i], f) == KeyOf(groups[j], f) {
      assert Fold(GroupFile(groups[i], f).0) == Fold(GroupFile(groups[j], f).0);
    }
    if i, j :| && 0 <= i < j < |groups| && Fold(GroupFile(groups[i], f).0) == Fold(GroupFile(groups[j], f).0)
               && Fold(GroupFile(groups[i], f).1) == Fold(GroupFile(groups[j], f).1) {
      assert KeyOf(groups[i], f) == KeyOf(groups[j], f);
    }
  }

  // ---------------------------------------------------------------------------------------------
  // Writing
  // ---------------------------------------------------------------------------------------------

  /** Nothing but a directory stands where the folder is, and nothing but a file where the file is. */
  predicate GroupFits(c: Contents, folder: string, file: string) {
    && (Fold(folder) in c.folders ==> c.folders[Fold(folder)].isDir)
    && ((Fold(folder), Fold(file)) in c.files ==> c.files[(Fold(folder), Fold(file))].FileLeaf?)
  }

  /** The name can be cleared: nothing is there, or a file, or an empty directory. */
  predicate Clearable(c: Contents, name: string) {
    name in c.top ==> c.top[name].FileLeaf? || c.top[name].empty
  }

  /** A bundle is written exactly when no two groups collide and nothing stands in the way of any of its files. */
  lemma BundleFitsExactly(c: Contents, b: FileBundle, f: Format)
    ensures BundleFits(c, b, f) <==>
            && !Collides(Present(b.groups), f)
            && (forall g | g in Present(b.groups) :: GroupFits(c, GroupFile(g, f).0, GroupFile(g, f).1))
            && Clearable(c, "contact-points.yaml") && Clearable(c, "contact-points.yml")
            && Clearable(c, "contact-points.json")
            && Clearable(c, "policies.yaml") && Clearable(c, "policies.yml") && Clearable(c, "policies.json")
  {
    hide Fold, GroupFile, Collides, Present;
    assert POINTS_BASE + ".yaml" == "contact-points.yaml" && POINTS_BASE + ".yml" == "contact-points.yml"
           && POINTS_BASE + ".json" == "contact-points.json";
    assert POLICIES_BASE + ".yaml" == "policies.yaml" && POLICIES_BASE + ".yml" == "policies.yml"
           && POLICIES_BASE + ".json" == "policies.json";
    forall g ensures CanWrite(c, KeyOf(g, f)) <==> GroupFits(c, GroupFile(g, f).0, GroupFile(g, f).1) {
    }
  }

  /** One write: the file has the document, an entry or folder that was there keeps its spelling, the rest stays. */
  lemma WrittenIsExact(c: Contents, folder: string, file: string, doc: Doc)
    ensures var after, k := Written(c, (folder, file), doc), (Fold(folder), Fold(file));
            && after.top == c.top
            && after.folders.Keys == c.folders.Keys + {k.0} && after.files.Keys == c.files.Keys + {k}
            && (forall n | n in c.folders :: after.folders[n] == c.folders[n])
            && (forall n | n in c.files && n != k :: after.files[n] == c.files[n])
            && after.files[k].FileLeaf? && after.files[k].doc == doc
            && after.files[k].name == (if k in c.files then c.files[k].name else file)
            && (k.0 !in c.folders ==> after.folders[k.0] == Folder(folder, true))
  {
    hide Fold;
  }

  /** What a file holds of a group: its rules in their places, without what Grafana owns. */
  lemma StrippedIsExact(g: Group)
    ensures var s := StripGroup(g);
            && s.folderUID == g.folderUID && s.title == g.title && s.interval == g.interval && |s.rules| == |g.rules|
            && forall i | 0 <= i < |g.rules| ::
                 && (s.rules[i].Some? <==> g.rules[i].Some?)
                 && (g.rules[i].Some? ==>
                       && s.rules[i].value.id == 0 && s.rules[i].value.updated == ""
                       && s.rules[i].value.provenance == ""
                       && SameButReadOnly(s.rules[i].value, g.rules[i].value))
  {
    var s := StripGroup(g);
    forall i | 0 <= i < |g.rules|
      ensures s.rules[i] == if g.rules[i].Some? then Some(StripRule(g.rules[i].value)) else None
    {
    }
  }

  predicate SameButReadOnly(a: Rule, b: Rule) {
    && a.uid == b.uid && a.title == b.title && a.folderUID == b.folderUID && a.ruleGroup == b.ruleGroup
    && a.orgID == b.orgID && a.isPaused == b.isPaused && a.rest == b.rest
  }

  /** What a file holds of contact points: each in its place, without its provenance. */
  lemma StrippedPointsAreExact(points: seq<Option<ContactPoint>>)
    ensures var s := StripPoints(points);
            && |s| == |points|
            && forall i | 0 <= i < |points| ::
                 && (s[i].Some? <==> points[i].Some?)
                 && (points[i].Some? ==>
                       && s[i].value.provenance == "" && s[i].value.uid == points[i].value.uid
                       && s[i].value.name == points[i].value.name && s[i].value.rest == points[i].value.rest)
  {
    forall i | 0 <= i < |points|
      ensures StripPoints(points)[i] == if points[i].Some? then Some(StripPoint(points[i].value)) else None
    {
    }
  }

  /**
   Pruning removes a file under rules/ exactly when it was not just written, its name is the layout's, and all
   folders are to be pruned or its own is among those named.
   */
  lemma PrunedIsExact(c: Contents, written: set<Key>, keep: Option<seq<string>>, k: Key)
    requires k in c.files
    ensures k !in Pruned(c, written, keep).files <==>
            && k !in written && c.files[k].FileLeaf?
            && (EndsWith(Fold(c.files[k].name), ".yaml") || EndsWith(Fold(c.files[k].name), ".yml")
                || EndsWith(Fold(c.files[k].name), ".json"))
            && (keep.None? || exists uid :: uid in keep.value && Fold(Sanitize(uid)) == k.0)
    ensures k in Pruned(c, written, keep).files ==> Pruned(c, written, keep).files[k] == c.files[k]
  {
    hide Fold, Sanitize, IsBundleFile;
    BundleFileByExtension(c.files[k].name);
  }

  // ---------------------------------------------------------------------------------------------
  // Reading
  // ---------------------------------------------------------------------------------------------

  /** The files of a group are those below rules/ whose name is the layout's. */
  lemma ReadKeysAreExact(c: Contents, k: Key)
    ensures k in ReadKeys(c) <==>
            && k in c.files && c.files[k].FileLeaf?
            && (EndsWith(Fold(c.files[k].name), ".yaml") || EndsWith(Fold(c.files[k].name), ".yml")
                || EndsWith(Fold(c.files[k].name), ".json"))
  {
    hide Fold, IsBundleFile;
    if k in c.files {
      BundleFileByExtension(c.files[k].name);
    }
  }

  /** A top-level file may stand under any of three names. */
  lemma TopFoundIsExact(c: Contents, base: string, n: string)
    ensures n in TopFound(c, base) <==>
            (n == base + ".yaml" || n == base + ".yml" || n == base + ".json") && n in c.top && c.top[n].FileLeaf?
  {
  }

  /** The value is there and is a text that is not empty. */
  predicate IsText(fields: map<string, JsonValues.Json>, key: string) {
    JsonValues.Field(fields, key).Str? && JsonValues.Field(fields, key) != JsonValues.Str("")
  }

  /** A rule is valid exactly when it has what a write cannot be built without. */
  lemma ValidRuleIsExact(r: Rule)
    ensures ValidRule(r) <==>
            && r.title != None && r.title != Some("")
            && IsText(r.rest, "condition") && IsText(r.rest, "execErrState") && IsText(r.rest, "noDataState")
            && JsonValues.Field(r.rest, "data").Arr? && JsonValues.Field(r.rest, "data") != JsonValues.Arr([])
            && JsonValues.Field(r.rest, "for") != JsonValues.Null
  {
  }

  lemma ValidPointIsExact(p: ContactPoint)
    ensures ValidPoint(p) <==>
            p.name != "" && IsText(p.rest, "type") && JsonValues.Field(p.rest, "settings") != JsonValues.Null
  {
  }

  /** A group is invalid for lack of a name or folder, an interval not positive, a bad rule or a repeated uid. */
  lemma InvalidGroupIsExact(g: Group)
    ensures !ValidGroup(g) <==>
            || g.folderUID == "" || g.title == "" || g.interval <= 0
            || (exists i :: 0 <= i < |g.rules| && (g.rules[i].None? || !ValidRule(g.rules[i].value)))
            || exists i, j ::
                 && 0 <= i < j < |g.rules| && g.rules[i].Some? && g.rules[j].Some?
                 && g.rules[i].value.uid == g.rules[j].value.uid != ""
  {
    hide ValidRule;
  }

  /** Two groups clash exactly when they have one ID or declare one uid. */
  lemma ClashIsExact(a: Group, b: Group)
    ensures !Apart(a, b) <==>
            || a.folderUID + "/" + a.title == b.folderUID + "/" + b.title
            || exists r, s ::
                 r in Present(a.rules) && s in Present(b.rules) && r.uid == s.uid && r.uid != ""
  {
    hide Present;
    if !(DeclaredUIDs(a) !! DeclaredUIDs(b)) {
      var uid :| uid in DeclaredUIDs(a) && uid in DeclaredUIDs(b);
      var r :| r in Present(a.rules) && r.uid == uid;
      var s :| s in Present(b.rules) && s.uid == uid;
    }
    if r, s :| r in Present(a.rules) && s in Present(b.rules) && r.uid == s.uid && r.uid != "" {
      assert r.uid in DeclaredUIDs(a) && r.uid in DeclaredUIDs(b);
    }
  }
}
