/** Rebuilding a git tree from an archive of it (`archive_git_tree`): the archived files, corrected by
    a delta of which every item must be of a known kind, give the path map that is hashed. */
module GitArchive {
  import opened Basics
  import opened GitTree
  import Strings

  datatype Kind = Directory | Symlink(target: Bytes) | Regular(data: Bytes, executable: bool) | Special
  datatype Member = Member(name: Bytes, kind: Kind)
  /** What an archived path holds. */
  datatype Content = Content(mode: Bytes, data: Bytes)
  /** What the archive is said to lack, and what is said to read differently in it. */
  datatype Delta = Delta(missing: seq<(Bytes, Entry)>, changed: map<Bytes, Entry>)
  /** The commit id and, if known, the tree id that `export-subst` writes. */
  datatype Expected = Expected(commit: Bytes, tree: Option<Bytes>)

  const LF: Byte := 10
  const CR: Byte := 13
  const DOT_DOT: Bytes := [46, 46]
  const LINK_MODE: Bytes := [49, 50, 48, 48, 48, 48]     // "120000"
  const EXEC_MODE: Bytes := [49, 48, 48, 55, 53, 53]     // "100755"
  const PLAIN_MODE: Bytes := [49, 48, 48, 54, 52, 52]    // "100644"
  const MODULE_MODE: Bytes := [49, 54, 48, 48, 48, 48]   // "160000"
  const TAG: Bytes := [46, 116, 97, 103]                 // ".tag"
  const GITIGNORE: Bytes := [46, 103, 105, 116, 105, 103, 110, 111, 114, 101]
  const GITATTRIBUTES: Bytes := [46, 103, 105, 116, 97, 116, 116, 114, 105, 98, 117, 116, 101, 115]
  const TAG_COMMIT: Bytes := [36, 70, 111, 114, 109, 97, 116, 58, 37, 72, 36, LF]   // "$Format:%H$\n"
  const TAG_TREE: Bytes := [36, 70, 111, 114, 109, 97, 116, 58, 37, 84, 36, LF]     // "$Format:%T$\n"

  // ---- reading the archive ----

  /** `name.rstrip("/")`. */
  function RStrip(name: Bytes): Bytes {
    if name != [] && name[|name| - 1] == SLASH then RStrip(name[..|name| - 1]) else name
  }

  function NameParts(m: Member): seq<Bytes> {
    Parts(RStrip(m.name))
  }

  function ContentOf(kind: Kind): Content
    requires kind.Symlink? || kind.Regular?
  {
    match kind
    case Symlink(target) => Content(LINK_MODE, target)
    case Regular(data, executable) => Content(if executable then EXEC_MODE else PLAIN_MODE, data)
  }

  /** One member more: nothing for a foreign path or an unknown kind. */
  function Unpacked1(top: Bytes, files: map<Bytes, Content>, m: Member): Option<map<Bytes, Content>> {
    var parts := NameParts(m);
    var rel := Strings.Join(parts[1..], SLASH);
    if parts[0] != top || DOT_DOT in parts then None
    else if rel == [] || m.kind.Directory? then Some(files)
    else if m.kind.Special? then None
    else Some(files[rel := ContentOf(m.kind)])
  }

  /** The path map of the archive; the last member of a path counts. */
  function Unpacked(members: seq<Member>): Option<map<Bytes, Content>> {
    if members == [] then Some(map[])
    else
      var before := Unpacked(members[..|members| - 1]);
      if before.None? then None
      else Unpacked1(NameParts(members[0])[0], before.value, members[|members| - 1])
  }

  lemma UnpackedOfPrefix(members: seq<Member>, n: nat)
    requires n < |members|
    ensures Unpacked(members[..n + 1]) ==
            if Unpacked(members[..n]).None? then None
            else Unpacked1(NameParts(members[0])[0], Unpacked(members[..n]).value, members[n])
  {
    assert members[..n + 1][..n] == members[..n];
  }

  lemma {:induction false} UnpackingStaysFailed(members: seq<Member>, n: nat)
    requires n <= |members| && Unpacked(members[..n]).None?
    ensures Unpacked(members).None?
    decreases |members| - n
  {
    if n < |members| {
      UnpackedOfPrefix(members, n);
      UnpackingStaysFailed(members, n + 1);
    } else {
      assert members[..n] == members;
    }
  }

  method Unpack(members: seq<Member>) returns (r: Option<map<Bytes, Content>>)
    ensures r == Unpacked(members)
  {
    var files: map<Bytes, Content> := map[];
    var top: Option<Bytes> := None;
    for n := 0 to |members|
      invariant Unpacked(members[..n]) == Some(files)
      invariant if n == 0 then top.None? else top == Some(NameParts(members[0])[0])
    {
      var m := members[n];
      var parts := NameParts(m);
      UnpackedOfPrefix(members, n);
      if top.None? {
        top := Some(parts[0]);
      }
      if parts[0] != top.value || DOT_DOT in parts {
        UnpackingStaysFailed(members, n + 1);
        return None;
      }
      var rel := Strings.Join(parts[1..], SLASH);
      if rel != [] && !m.kind.Directory? {
        if m.kind.Special? {
          UnpackingStaysFailed(members, n + 1);
          return None;
        }
        files := files[rel := ContentOf(m.kind)];
      }
    }
    assert members[..|members|] == members;
    r := Some(files);
  }

  /** A member named `top/rel` is filed under `rel`. */
  lemma MemberIsFiledUnderItsPath(top: Bytes, rel: Bytes, kind: Kind)
    requires SLASH !in top && rel != [] && rel[|rel| - 1] != SLASH
    ensures var m := Member(top + [SLASH] + rel, kind);
            NameParts(m)[0] == top && Strings.Join(NameParts(m)[1..], SLASH) == rel
  {
    var name := top + [SLASH] + rel;
    assert name[|name| - 1] == rel[|rel| - 1];
    Strings.SplitAtSeparator(top, SLASH, rel);
    assert ([top] + Strings.Split(rel, SLASH))[1..] == Strings.Split(rel, SLASH);
    Strings.JoinUndoesSplit(rel, SLASH);
  }

  // ---- the delta ----

  predicate Ignored(rel: Bytes) {
    var parts := Parts(rel);
    parts[|parts| - 1] == GITIGNORE || parts[|parts| - 1] == GITATTRIBUTES
  }

  /** A path may be absent from an archive as a submodule or as an export-ignored file. */
  predicate MayBeMissing(rel: Bytes, entry: Entry) {
    entry.mode == MODULE_MODE || Ignored(rel)
  }

  predicate HasCrLf(data: Bytes) {
    exists i :: 0 <= i < |data| - 1 && data[i] == CR && data[i + 1] == LF
  }

  /** `data.replace(b"\r\n", b"\n")`. */
  function Unix(data: Bytes): Bytes {
    if data == [] then []
    else if |data| >= 2 && data[0] == CR && data[1] == LF then [LF] + Unix(data[2..])
    else [data[0]] + Unix(data[1..])
  }

  /** The archived `.tag` is the expansion of a template whose blob is `sha`. */
  predicate IsExpandedTag(blob: Bytes -> Sha, x: Expected, rel: Bytes, archived: Bytes, sha: Sha) {
    && rel == TAG
    && ( || (archived == x.commit + [LF] && sha == blob(TAG_COMMIT))
         || (x.tree.Some? && archived == x.tree.value + [LF] && sha == blob(TAG_TREE)))
  }

  predicate IsWindowsText(blob: Bytes -> Sha, archived: Bytes, sha: Sha) {
    HasCrLf(archived) && blob(Unix(archived)) == sha
  }

  predicate Explained(blob: Bytes -> Sha, x: Expected, rel: Bytes, archived: Bytes, sha: Sha) {
    IsExpandedTag(blob, x, rel, archived, sha) || IsWindowsText(blob, archived, sha)
  }

  // ---- the rebuilt path map ----

  function EntryOf(blob: Bytes -> Sha, c: Content): Entry {
    Entry(c.mode, blob(c.data))
  }

  ghost predicate MissingAcceptable(files: map<Bytes, Content>, missing: seq<(Bytes, Entry)>) {
    && (forall i :: 0 <= i < |missing| ==> missing[i].0 !in files && MayBeMissing(missing[i].0, missing[i].1))
    && (forall i, j :: 0 <= i < j < |missing| ==> missing[i].0 != missing[j].0)
  }

  ghost predicate ChangedAcceptable(blob: Bytes -> Sha, x: Expected, files: map<Bytes, Content>,
                                    changed: map<Bytes, Entry>) {
    forall rel :: rel in changed ==> rel in files && Explained(blob, x, rel, files[rel].data, changed[rel].sha)
  }

  ghost predicate Acceptable(blob: Bytes -> Sha, x: Expected, files: map<Bytes, Content>, delta: Delta) {
    MissingAcceptable(files, delta.missing) && ChangedAcceptable(blob, x, files, delta.changed)
  }

  ghost predicate Names(missing: seq<(Bytes, Entry)>, rel: Bytes) {
    exists i :: 0 <= i < |missing| && missing[i].0 == rel
  }

  /** `tree` is the archive with the missing paths put back and the changed ones corrected. */
  ghost predicate Corrected(blob: Bytes -> Sha, files: map<Bytes, Content>, delta: Delta, tree: map<Bytes, Entry>) {
    && (forall rel :: rel in tree <==> rel in files || Names(delta.missing, rel))
    && (forall i :: 0 <= i < |delta.missing| ==>
        delta.missing[i].0 in tree && tree[delta.missing[i].0] == delta.missing[i].1)
    && (forall rel :: rel in files && rel in tree ==>
          tree[rel] == if rel in delta.changed then delta.changed[rel] else EntryOf(blob, files[rel]))
  }

  /** The path map that `archive_git_tree` hashes; nothing when it raises. */
  method RestoreTree(blob: Bytes -> Sha, x: Expected, comment: Option<Bytes>, members: seq<Member>, delta: Delta)
    returns (r: Option<map<Bytes, Entry>>)
    ensures r.Some? <==>
              && comment == Some(x.commit) && Unpacked(members).Some?
              && Acceptable(blob, x, Unpacked(members).value, delta)
    ensures r.Some? ==> Corrected(blob, Unpacked(members).value, delta, r.value)
  {
    var unpacked := Unpack(members);
    if unpacked.None? || comment != Some(x.commit) {
      return None;
    }
    var files := PutBackMissing(blob, unpacked.value, delta.missing);
    if files.None? {
      return None;
    }
    r := CorrectChanged(blob, x, unpacked.value, files.value, delta.changed);
  }

  method PutBackMissing(blob: Bytes -> Sha, contents: map<Bytes, Content>, missing: seq<(Bytes, Entry)>)
    returns (r: Option<map<Bytes, Entry>>)
    ensures r.Some? <==> MissingAcceptable(contents, missing)
    ensures r.Some? ==> Corrected(blob, contents, Delta(missing, map[]), r.value)
  {
    var files := map rel | rel in contents :: EntryOf(blob, contents[rel]);
    for n := 0 to |missing|
      invariant MissingAcceptable(contents, missing[..n])
      invariant Corrected(blob, contents, Delta(missing[..n], map[]), files)
    {
      var (rel, entry) := missing[n];
      assert missing[..n + 1] == missing[..n] + [missing[n]];
      NextMissing(contents, missing[..n], missing[n]);
      if rel in files || (entry.mode != MODULE_MODE && !Ignored(rel)) {
        PartsAreAcceptable(contents, missing, n + 1);
        return None;
      }
      PutOneBack(blob, contents, missing[..n], missing[n], files);
      files := files[rel := entry];
    }
    assert missing[..|missing|] == missing;
    r := Some(files);
  }

  lemma NextMissing(contents: map<Bytes, Content>, part: seq<(Bytes, Entry)>, item: (Bytes, Entry))
    ensures MissingAcceptable(contents, part + [item])
       <==> MissingAcceptable(contents, part)
            && item.0 !in contents && !Names(part, item.0) && MayBeMissing(item.0, item.1)
  {
    var next := part + [item];
    assert next[|part|] == item;
    if MissingAcceptable(contents, next) {
      assert forall i :: 0 <= i < |part| ==> next[i] == part[i];
    }
  }

  lemma PartsAreAcceptable(contents: map<Bytes, Content>, missing: seq<(Bytes, Entry)>, n: nat)
    requires n <= |missing|
    ensures MissingAcceptable(contents, missing) ==> MissingAcceptable(contents, missing[..n])
  {
  }

  lemma PutOneBack(blob: Bytes -> Sha, contents: map<Bytes, Content>, part: seq<(Bytes, Entry)>, item: (Bytes, Entry),
                   files: map<Bytes, Entry>)
    requires Corrected(blob, contents, Delta(part, map[]), files) && item.0 !in files
    ensures Corrected(blob, contents, Delta(part + [item], map[]), files[item.0 := item.1])
  {
    AppendNames(part, item);
    forall i | 0 <= i < |part| ensures part[i].0 != item.0 {
      assert part[i].0 in files;
    }
  }

  lemma AppendNames(missing: seq<(Bytes, Entry)>, item: (Bytes, Entry))
    ensures forall rel :: Names(missing + [item], rel) <==> Names(missing, rel) || rel == item.0
  {
    var next := missing + [item];
    forall rel ensures Names(next, rel) <==> Names(missing, rel) || rel == item.0 {
      if i :| 0 <= i < |missing| && missing[i].0 == rel {
        assert next[i].0 == rel;
      }
      assert next[|missing|] == item;
    }
  }

  method CorrectChanged(blob: Bytes -> Sha, x: Expected, contents: map<Bytes, Content>, restored: map<Bytes, Entry>,
                        changed: map<Bytes, Entry>) returns (r: Option<map<Bytes, Entry>>)
    requires forall rel :: rel in contents ==> rel in restored
    ensures r.Some? <==> ChangedAcceptable(blob, x, contents, changed)
    ensures r.Some? ==> r.value.Keys == restored.Keys
    ensures r.Some? ==> forall rel :: rel in restored ==>
        r.value[rel] == if rel in changed then changed[rel] else restored[rel]
  {
    var files, todo := restored, changed.Keys;
    while todo != {}
      invariant todo <= changed.Keys && files.Keys == restored.Keys
      invariant forall rel :: rel in changed && rel !in todo ==>
                  rel in contents && Explained(blob, x, rel, contents[rel].data, changed[rel].sha)
      invariant forall rel :: rel in restored ==>
                  files[rel] == if rel in changed && rel !in todo then changed[rel] else restored[rel]
      decreases |todo|
    {
      var rel :| rel in todo;
      if rel !in contents || !Explained(blob, x, rel, contents[rel].data, changed[rel].sha) {
        return None;
      }
      files := files[rel := changed[rel]];
      todo := todo - {rel};
    }
    r := Some(files);
  }

  // ---- what an accepted archive is ----

  /** The archive is an export of the tree: each archived path is in the tree with the same entry
      or a known difference, and only submodules and export-ignored files are absent. */
  ghost predicate IsExport(blob: Bytes -> Sha, x: Expected, files: map<Bytes, Content>, tree: map<Bytes, Entry>) {
    && (forall rel :: rel in files ==>
          && rel in tree
          && (tree[rel] == EntryOf(blob, files[rel]) || Explained(blob, x, rel, files[rel].data, tree[rel].sha)))
    && (forall rel :: rel in tree && rel !in files ==> MayBeMissing(rel, tree[rel]))
  }

  /** Paths and entries of a map, in some order. */
  lemma {:induction false} ItemsInOrder(tree: map<Bytes, Entry>, rels: set<Bytes>) returns (items: seq<(Bytes, Entry)>)
    requires rels <= tree.Keys
    ensures forall i :: 0 <= i < |items| ==> items[i].0 in rels && items[i].1 == tree[items[i].0]
    ensures forall i, j :: 0 <= i < j < |items| ==> items[i].0 != items[j].0
    ensures forall rel :: rel in rels ==> exists i :: 0 <= i < |items| && items[i].0 == rel
  {
    if rels == {} {
      items := [];
    } else {
      var rel :| rel in rels;
      var rest := ItemsInOrder(tree, rels - {rel});
      items := [(rel, tree[rel])] + rest;
      forall other | other in rels ensures exists i :: 0 <= i < |items| && items[i].0 == other {
        if other == rel {
          assert items[0].0 == other;
        } else {
          assert other in rels - {rel};
          var i :| 0 <= i < |rest| && rest[i].0 == other;
          assert items[i + 1].0 == other;
        }
      }
    }
  }

  /** Some delta rebuilds a tree from an archive exactly when the archive is an export of that tree. */
  lemma SomeDeltaRestoresIffExport(blob: Bytes -> Sha, x: Expected, files: map<Bytes, Content>, tree: map<Bytes, Entry>)
    ensures (exists delta :: Acceptable(blob, x, files, delta) && Corrected(blob, files, delta, tree))
       <==> IsExport(blob, x, files, tree)
  {
    if IsExport(blob, x, files, tree) {
      var missing := ItemsInOrder(tree, tree.Keys - files.Keys);
      var delta := Delta(missing, map rel | rel in files && tree[rel] != EntryOf(blob, files[rel]) :: tree[rel]);
      assert Acceptable(blob, x, files, delta);
      forall rel | rel in tree && rel !in files ensures Names(missing, rel) {
        assert rel in tree.Keys - files.Keys;
      }
      assert Corrected(blob, files, delta, tree);
    }
  }

  /** A delta is right for one tree only. */
  lemma CorrectedIsOneTree(blob: Bytes -> Sha, files: map<Bytes, Content>, delta: Delta, a: map<Bytes, Entry>,
                           b: map<Bytes, Entry>)
    requires Corrected(blob, files, delta, a) && Corrected(blob, files, delta, b)
    ensures a == b
  {
    assert a.Keys == b.Keys;
  }

  ghost predicate Lists(listing: Listing, tree: map<Bytes, Entry>) {
    && DistinctKeys(listing)
    && forall rel, entry :: (rel, entry) in listing <==> rel in tree && tree[rel] == entry
  }

  /** Two listings of which one is prefix-free and which build the same tree: the entries of that
      one are exactly those of the other that no later file replaces. */
  lemma {:induction false} SameTreeSurvivors(f: Listing, g: Listing, restored: map<Bytes, Entry>,
                                             tree: map<Bytes, Entry>)
    requires Lists(f, restored) && Lists(g, tree) && PrefixFree(g)
    requires BuildFrom(f).Ok? && BuildFrom(f) == BuildFrom(g)
    ensures forall rel :: rel in tree ==> rel in restored && restored[rel] == tree[rel]
    ensures forall i: nat :: i < |f| ==> (f[i].0 in tree <==> !Replaced(f, i))
  {
    PrefixFreeBuilds(g);
    forall rel | rel in tree ensures rel in restored && restored[rel] == tree[rel] {
      assert (rel, tree[rel]) in g;
      var i := LookupIsListed(f, Parts(rel));
      PartsDetermineName(f[i].0, rel);
      assert f[i] in f;
    }
    forall i: nat | i < |f| ensures f[i].0 in tree <==> !Replaced(f, i) {
      EntryIsLostIffReplaced(f, i);
      if f[i].0 in tree {
        assert (f[i].0, tree[f[i].0]) in g;
      }
      if !Replaced(f, i) {
        var j := LookupIsListed(g, Parts(f[i].0));
        PartsDetermineName(g[j].0, f[i].0);
        assert g[j] in g;
      }
    }
  }

  lemma {:induction false} SameHashSameTree(hash: Bytes -> Sha, f: Listing, g: Listing)
    requires CleanListing(f) && CleanListing(g) && BuildFrom(f).Ok? && BuildFrom(g).Ok?
    requires NoCollision(hash, Tree(f), Tree(g)) && TreeHash(hash, f) == TreeHash(hash, g)
    ensures BuildFrom(f) == BuildFrom(g)
  {
    DigestDeterminesTree(hash, Tree(f), Tree(g));
  }

  /** An accepted archive that hashes to the id of a tree holds all of it; it is that tree exactly when
      its restored listing has no clash of a file and a directory, and then it is an export of it.
      What more it holds is what a file listed later replaces. */
  lemma {:induction false} RightHashMeansExport(blob: Bytes -> Sha, hash: Bytes -> Sha, x: Expected,
                                                files: map<Bytes, Content>, delta: Delta,
                                                restored: map<Bytes, Entry>, tree: map<Bytes, Entry>,
                                                f: Listing, g: Listing)
    requires Acceptable(blob, x, files, delta) && Corrected(blob, files, delta, restored)
    requires Lists(f, restored) && Lists(g, tree)
    requires PrefixFree(g) && CleanListing(f) && CleanListing(g)
    requires BuildFrom(f).Ok? && BuildFrom(g).Ok? && NoCollision(hash, Tree(f), Tree(g))
    requires TreeHash(hash, f) == TreeHash(hash, g)
    ensures forall rel :: rel in tree ==> rel in restored && restored[rel] == tree[rel]
    ensures forall i: nat :: i < |f| ==> (f[i].0 in tree <==> !Replaced(f, i))
    ensures restored == tree <==> PrefixFree(f)
    ensures PrefixFree(f) ==> IsExport(blob, x, files, tree)
  {
    SameHashSameTree(hash, f, g);
    SameTreeSurvivors(f, g, restored, tree);
    if PrefixFree(f) {
      TreeHashIsInjective(hash, f, g);
      SameListsSameTree(f, g, restored, tree);
      SomeDeltaRestoresIffExport(blob, x, files, tree);
    } else if restored == tree {
      SameMapSameFiles(f, g, tree);
      PrefixFreeFollows(f, g);
    }
  }

  lemma SameMapSameFiles(f: Listing, g: Listing, tree: map<Bytes, Entry>)
    requires Lists(f, tree) && Lists(g, tree)
    ensures SameFiles(f, g)
  {
    forall e ensures e in f <==> e in g {
      assert e == (e.0, e.1);
    }
  }

  lemma PrefixFreeFollows(f: Listing, g: Listing)
    requires SameFiles(f, g) && PrefixFree(g)
    ensures PrefixFree(f)
  {
    forall i, j | 0 <= i < |f| && 0 <= j < |f| ensures !ProperPrefix(Parts(f[i].0), Parts(f[j].0)) {
      assert f[i] in g && f[j] in g;
    }
  }

  /** An archive with a file below `a` and then `a` itself: nothing is said to differ, all is accepted,
      and the hash is that of the tree with `a` alone, of which it is no export. */
  lemma ReplacedFileIsNotHashed(blob: Bytes -> Sha, hash: Bytes -> Sha, x: Expected, data: Bytes, hidden: Bytes)
    ensures var a, ab, kept, lost := [97], [97, SLASH, 98], Content(PLAIN_MODE, data), Content(PLAIN_MODE, hidden);
            var files := map[ab := lost, a := kept];
            var restored := map[ab := EntryOf(blob, lost), a := EntryOf(blob, kept)];
            var f, g := [(ab, EntryOf(blob, lost)), (a, EntryOf(blob, kept))], [(a, EntryOf(blob, kept))];
            && Acceptable(blob, x, files, Delta([], map[])) && Corrected(blob, files, Delta([], map[]), restored)
            && Lists(f, restored) && Lists(g, map[a := EntryOf(blob, kept)])
            && CleanListing(f) && CleanListing(g) && BuildFrom(f).Ok? && BuildFrom(f) == BuildFrom(g)
            && TreeHash(hash, f) == TreeHash(hash, g)
            && !IsExport(blob, x, files, map[a := EntryOf(blob, kept)])
  {
    var a, ab: Bytes := [97], [97, SLASH, 98];
    var kept, lost := Content(PLAIN_MODE, data), Content(PLAIN_MODE, hidden);
    var files := map[ab := lost, a := kept];
    var f, g := [(ab, EntryOf(blob, lost)), (a, EntryOf(blob, kept))], [(a, EntryOf(blob, kept))];
    ConflictCheckDependsOnOrder(EntryOf(blob, kept), EntryOf(blob, lost));
    ListsOfOneAndTwo(a, EntryOf(blob, kept), ab, EntryOf(blob, lost));
    assert ab in files;
    assert CleanListing(f) && CleanListing(g) by {
      PlainIsClean();
    }
  }

  lemma ListsOfOneAndTwo(a: Bytes, e: Entry, b: Bytes, d: Entry)
    requires a != b
    ensures Lists([(a, e)], map[a := e]) && Lists([(b, d), (a, e)], map[b := d, a := e])
  {
    assert [(a, e)][0] in [(a, e)];
    assert [(b, d), (a, e)][0] in [(b, d), (a, e)] && [(b, d), (a, e)][1] in [(b, d), (a, e)];
  }

  lemma PlainIsClean()
    ensures SPACE !in PLAIN_MODE && PLAIN_MODE != DIR_MODE
  {
  }

  lemma SameListsSameTree(f: Listing, g: Listing, a: map<Bytes, Entry>, b: map<Bytes, Entry>)
    requires Lists(f, a) && Lists(g, b) && SameFiles(f, g)
    ensures a == b
  {
    forall rel | rel in a ensures rel in b && b[rel] == a[rel] {
      assert (rel, a[rel]) in f;
    }
    forall rel | rel in b ensures rel in a {
      assert (rel, b[rel]) in g;
    }
    assert a.Keys == b.Keys;
  }

  /** Where blobs do not collide, an export reads as the tree's file, its line-ending variant or its
      expanded template. */
  lemma ExportReadsAsTheTree(blob: Bytes -> Sha, x: Expected, files: map<Bytes, Content>, tree: map<Bytes, Entry>,
                             rel: Bytes, data: Bytes)
    requires IsExport(blob, x, files, tree) && rel in files && tree[rel].sha == blob(data)
    requires forall other ::
               other in {files[rel].data, Unix(files[rel].data), TAG_COMMIT, TAG_TREE} && blob(other) == blob(data) ==>
                 other == data
    ensures || files[rel].data == data
            || (HasCrLf(files[rel].data) && Unix(files[rel].data) == data)
            || (rel == TAG && data == TAG_COMMIT && files[rel].data == x.commit + [LF])
            || (rel == TAG && data == TAG_TREE && x.tree.Some? && files[rel].data == x.tree.value + [LF])
  {
  }

  /** The mode said to be right for a changed file is compared with nothing: any other is accepted as
      well, and is the one that is hashed. */
  lemma ChangedModeIsNotCompared(blob: Bytes -> Sha, x: Expected, files: map<Bytes, Content>, delta: Delta, rel: Bytes,
                                 mode: Bytes)
    requires Acceptable(blob, x, files, delta) && rel in delta.changed
    ensures var other := delta.(changed := delta.changed[rel := Entry(mode, delta.changed[rel].sha)]);
            && Acceptable(blob, x, files, other)
            && forall tree: map<Bytes, Entry> :: Corrected(blob, files, other, tree) ==>
                rel in tree && tree[rel].mode == mode
  {
  }

  // ---- what the readings mean ----

  predicate IsAscii(s: string) {
    forall i :: 0 <= i < |s| ==> s[i] < '\U{0080}'
  }

  function Ascii(s: string): Bytes
    requires IsAscii(s)
  {
    seq(|s|, i requires 0 <= i < |s| => s[i] as int)
  }

  /** The path of a member below the top directory. */
  function RelOf(m: Member): Bytes {
    Strings.Join(NameParts(m)[1..], SLASH)
  }

  /** A member that gives a file its content. */
  predicate Files(m: Member, rel: Bytes) {
    rel != [] && RelOf(m) == rel && (m.kind.Symlink? || m.kind.Regular?)
  }

  /** In the top directory, with no way up, and of a kind that git knows. */
  predicate Belongs(m: Member, top: Bytes) {
    NameParts(m)[0] == top && Ascii("..") !in NameParts(m) && (m.kind.Special? ==> RelOf(m) == [])
  }

  /** A link holds its target, a file its data; the mode is git's. */
  predicate IsContentOf(content: Content, kind: Kind) {
    match kind
    case Symlink(target) => content == Content(Ascii("120000"), target)
    case Regular(data, true) => content == Content(Ascii("100755"), data)
    case Regular(data, false) => content == Content(Ascii("100644"), data)
    case _ => false
  }

  ghost predicate LastFor(members: seq<Member>, rel: Bytes, i: nat) {
    i < |members| && Files(members[i], rel) && forall j :: i < j < |members| ==> !Files(members[j], rel)
  }

  /** Every path that some member files holds what the last of them does. */
  ghost predicate HoldsLast(files: map<Bytes, Content>, members: seq<Member>) {
    && (forall i :: 0 <= i < |members| && Files(members[i], RelOf(members[i])) ==> RelOf(members[i]) in files)
    && (forall rel :: rel in files ==> LastGives(members, rel, files[rel]))
  }

  ghost predicate LastGives(members: seq<Member>, rel: Bytes, content: Content) {
    exists i: nat :: LastFor(members, rel, i) && IsContentOf(content, members[i].kind)
  }

  lemma NamesAreAscii()
    ensures DOT_DOT == Ascii("..") && LINK_MODE == Ascii("120000")
    ensures EXEC_MODE == Ascii("100755") && PLAIN_MODE == Ascii("100644") && MODULE_MODE == Ascii("160000")
    ensures TAG == Ascii(".tag") && GITIGNORE == Ascii(".gitignore") && GITATTRIBUTES == Ascii(".gitattributes")
    ensures TAG_COMMIT == Ascii("$Format:%H$\n") && TAG_TREE == Ascii("$Format:%T$\n")
  {
  }

  lemma ContentIsRight(kind: Kind)
    requires kind.Symlink? || kind.Regular?
    ensures IsContentOf(ContentOf(kind), kind)
  {
    NamesAreAscii();
  }

  lemma LastGivesStill(members: seq<Member>, m: Member, rel: Bytes, content: Content)
    requires LastGives(members, rel, content) && !Files(m, rel)
    ensures LastGives(members + [m], rel, content)
  {
    var i: nat :| LastFor(members, rel, i) && IsContentOf(content, members[i].kind);
    assert LastFor(members + [m], rel, i);
  }

  lemma NewLastGives(members: seq<Member>, m: Member, rel: Bytes)
    requires Files(m, rel)
    ensures LastGives(members + [m], rel, ContentOf(m.kind))
  {
    ContentIsRight(m.kind);
    assert LastFor(members + [m], rel, |members|);
  }

  function Updated(files: map<Bytes, Content>, m: Member): map<Bytes, Content> {
    if Files(m, RelOf(m)) then files[RelOf(m) := ContentOf(m.kind)] else files
  }

  lemma OneMemberMore(files: map<Bytes, Content>, members: seq<Member>, m: Member)
    requires HoldsLast(files, members)
    ensures HoldsLast(Updated(files, m), members + [m])
  {
    var more, after := members + [m], Updated(files, m);
    forall rel | rel in after ensures LastGives(more, rel, after[rel]) {
      if Files(m, rel) {
        NewLastGives(members, m, rel);
      } else {
        LastGivesStill(members, m, rel, files[rel]);
      }
    }
    forall i | 0 <= i < |more| && Files(more[i], RelOf(more[i])) ensures RelOf(more[i]) in after {
      assert i < |members| ==> more[i] == members[i];
    }
  }

  /** An archive is read exactly if all its members belong, and then each path holds what its last
      member does. */
  lemma {:induction false} UnpackedHoldsLast(members: seq<Member>)
    ensures Unpacked(members).Some? <==>
              forall i :: 0 <= i < |members| ==> Belongs(members[i], NameParts(members[0])[0])
    ensures Unpacked(members).Some? ==> HoldsLast(Unpacked(members).value, members)
  {
    if members != [] {
      var n := |members| - 1;
      var before, m := members[..n], members[n];
      assert members == before + [m];
      UnpackedHoldsLast(before);
      NamesAreAscii();
      if Unpacked(before).Some? {
        OneMemberMore(Unpacked(before).value, before, m);
      }
    }
  }

  lemma TailHasNoCrLf(data: Bytes)
    requires data != [] && !HasCrLf(data)
    ensures !HasCrLf(data[1..])
  {
  }

  /** Where no line ends in both, nothing is changed. */
  lemma {:induction false} UnixKeeps(data: Bytes)
    requires !HasCrLf(data)
    ensures Unix(data) == data
  {
    if data != [] {
      TailHasNoCrLf(data);
      UnixKeeps(data[1..]);
      assert data == [data[0]] + data[1..];
    }
  }

  /** The first carriage return with its line feed becomes the line feed, and so on after it. */
  lemma {:induction false} UnixReplacesFirst(front: Bytes, rest: Bytes)
    requires !HasCrLf(front)
    ensures Unix(front + [CR, LF] + rest) == front + [LF] + Unix(rest)
  {
    var data := front + [CR, LF] + rest;
    if front == [] {
      assert data[2..] == rest;
    } else {
      assert data[1..] == front[1..] + [CR, LF] + rest;
      assert |front| > 1 ==> data[1] == front[1];
      TailHasNoCrLf(front);
      UnixReplacesFirst(front[1..], rest);
      assert [front[0]] + (front[1..] + [LF] + Unix(rest)) == front + [LF] + Unix(rest);
    }
  }
}
