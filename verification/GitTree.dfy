/** The git tree hash of an archive: `_tree_hash` rebuilds the directory tree from a flat
    path map, serialises each directory in sorted order and hashes it, leaves first. */
module GitTree {
  import opened Basics
  import Strings

  /** The raw form of an object id: twenty bytes. */
  type Sha = s: Bytes | |s| == 20 witness seq(20, _ => 0)

  datatype Entry = Entry(mode: Bytes, sha: Sha)
  datatype Node = File(entry: Entry) | Dir(kids: map<Bytes, Node>)
  datatype Result<T> = Ok(value: T) | Conflict(at: Bytes)

  const SLASH: Byte := 47
  const SPACE: Byte := 32
  const NUL: Byte := 0
  const DIR_MODE: Bytes := [52, 48, 48, 48, 48]   // "40000"

  // ---- paths ----

  function Parts(rel: Bytes): (parts: seq<Bytes>)
    ensures |parts| > 0 && forall i :: 0 <= i < |parts| ==> SLASH !in parts[i]
  {
    Strings.PartsHoldNoSeparator(rel, SLASH);
    Strings.Split(rel, SLASH)
  }

  lemma PartsDetermineName(p: Bytes, q: Bytes)
    requires Parts(p) == Parts(q)
    ensures p == q
  {
    Strings.JoinUndoesSplit(p, SLASH);
    Strings.JoinUndoesSplit(q, SLASH);
  }

  // ---- building the tree ----

  /** Walk `parts` from a directory, creating what is missing; the last part is overwritten. */
  function Place(kids: map<Bytes, Node>, parts: seq<Bytes>, entry: Entry): Result<map<Bytes, Node>>
    requires |parts| > 0
    decreases |parts|
  {
    if |parts| == 1 then Ok(kids[parts[0] := File(entry)])
    else
      var child := if parts[0] in kids then kids[parts[0]] else Dir(map[]);
      if child.File? then Conflict(parts[0])
      else
        match Place(child.kids, parts[1..], entry)
        case Conflict(at) => Conflict(at)
        case Ok(below) => Ok(kids[parts[0] := Dir(below)])
  }

  /** The entry a tree holds at a path, if the path leads to a file. */
  function Lookup(kids: map<Bytes, Node>, parts: seq<Bytes>): Option<Entry>
    requires |parts| > 0
    decreases |parts|
  {
    if parts[0] !in kids then None
    else match kids[parts[0]]
      case File(entry) => if |parts| == 1 then Some(entry) else None
      case Dir(below) => if |parts| == 1 then None else Lookup(below, parts[1..])
  }

  ghost predicate ProperPrefix(p: seq<Bytes>, q: seq<Bytes>) {
    p < q
  }

  /** Placing an entry changes the tree at its own path, and beyond that only forgets
      what lay below a directory that the file replaced. */
  lemma {:induction false} PlaceThenLookup(kids: map<Bytes, Node>, parts: seq<Bytes>, entry: Entry, q: seq<Bytes>)
    requires |parts| > 0 && |q| > 0 && Place(kids, parts, entry).Ok?
    ensures Lookup(Place(kids, parts, entry).value, q)
         == if q == parts then Some(entry) else if ProperPrefix(parts, q) then None else Lookup(kids, q)
    decreases |parts|
  {
    if |parts| == 1 {
    } else if q[0] == parts[0] {
      var child := if parts[0] in kids then kids[parts[0]] else Dir(map[]);
      if |q| > 1 {
        PlaceThenLookup(child.kids, parts[1..], entry, q[1..]);
        assert q == [q[0]] + q[1..] && parts == [parts[0]] + parts[1..];
        assert ProperPrefix(parts, q) <==> ProperPrefix(parts[1..], q[1..]);
      }
    }
  }

  /** A placement fails only on a file that lies on the way. */
  lemma {:induction false} ConflictMeansFileOnTheWay(kids: map<Bytes, Node>, parts: seq<Bytes>, entry: Entry)
    returns (p: seq<Bytes>)
    requires |parts| > 0 && Place(kids, parts, entry).Conflict?
    ensures |p| > 0 && ProperPrefix(p, parts) && Lookup(kids, p).Some?
    decreases |parts|
  {
    var child := if parts[0] in kids then kids[parts[0]] else Dir(map[]);
    if child.File? {
      p := [parts[0]];
    } else {
      p := ConflictMeansFileOnTheWay(child.kids, parts[1..], entry);
      assert ([parts[0]] + p)[1..] == p;
      assert parts == [parts[0]] + parts[1..];
      p := [parts[0]] + p;
    }
  }

  /** The `files` dictionary in its insertion order. */
  type Listing = seq<(Bytes, Entry)>

  ghost predicate DistinctKeys(files: Listing) {
    forall i, j :: 0 <= i < j < |files| ==> files[i].0 != files[j].0
  }

  /** No path of the listing is a directory on the way to another. */
  ghost predicate PrefixFree(files: Listing) {
    forall i, j :: 0 <= i < |files| && 0 <= j < |files| ==> !ProperPrefix(Parts(files[i].0), Parts(files[j].0))
  }

  ghost predicate Holds(kids: map<Bytes, Node>, files: Listing) {
    && (forall i :: 0 <= i < |files| ==> Lookup(kids, Parts(files[i].0)) == Some(files[i].1))
    && (forall q: seq<Bytes> :: |q| > 0 && Lookup(kids, q).Some? ==>
        exists i :: 0 <= i < |files| && Parts(files[i].0) == q)
  }

  /** Placing the listing entry by entry. */
  function BuildFrom(files: Listing): Result<map<Bytes, Node>> {
    if files == [] then Ok(map[])
    else
      var (rel, entry) := files[|files| - 1];
      match BuildFrom(files[..|files| - 1])
      case Conflict(at) => Conflict(at)
      case Ok(kids) => Place(kids, Parts(rel), entry)
  }

  lemma {:induction false} FileHidesWhatLiesBelow(kids: map<Bytes, Node>, p: seq<Bytes>, q: seq<Bytes>)
    requires |p| > 0 && ProperPrefix(p, q) && Lookup(kids, p).Some?
    ensures Lookup(kids, q) == None
    decreases |p|
  {
    if |p| > 1 {
      FileHidesWhatLiesBelow(kids[p[0]].kids, p[1..], q[1..]);
    }
  }

  lemma LastKeyIsNew(files: Listing, i: nat)
    requires DistinctKeys(files) && i < |files| - 1
    ensures Parts(files[i].0) != Parts(files[|files| - 1].0)
  {
    if Parts(files[i].0) == Parts(files[|files| - 1].0) {
      PartsDetermineName(files[i].0, files[|files| - 1].0);
    }
  }

  lemma ConflictMeansNotPrefixFree(files: Listing, kids: map<Bytes, Node>)
    requires files != [] && Holds(kids, files[..|files| - 1])
    requires Place(kids, Parts(files[|files| - 1].0), files[|files| - 1].1).Conflict?
    ensures !PrefixFree(files)
  {
    var n := |files| - 1;
    var p := ConflictMeansFileOnTheWay(kids, Parts(files[n].0), files[n].1);
    var i :| 0 <= i < n && Parts(files[..n][i].0) == p;
    assert ProperPrefix(Parts(files[i].0), Parts(files[n].0));
  }

  lemma PlaceHoldsOneMore(files: Listing, kids: map<Bytes, Node>)
    requires files != [] && DistinctKeys(files) && PrefixFree(files) && Holds(kids, files[..|files| - 1])
    requires Place(kids, Parts(files[|files| - 1].0), files[|files| - 1].1).Ok?
    ensures Holds(Place(kids, Parts(files[|files| - 1].0), files[|files| - 1].1).value, files)
  {
    var n := |files| - 1;
    var rest, parts, entry := files[..n], Parts(files[n].0), files[n].1;
    var after := Place(kids, parts, entry).value;
    forall i | 0 <= i <= n ensures Lookup(after, Parts(files[i].0)) == Some(files[i].1) {
      PlaceThenLookup(kids, parts, entry, Parts(files[i].0));
      if i < n {
        LastKeyIsNew(files, i);
        assert Lookup(kids, Parts(rest[i].0)) == Some(rest[i].1);
      }
    }
    forall q: seq<Bytes> | |q| > 0 && Lookup(after, q).Some?
      ensures exists i :: 0 <= i < |files| && Parts(files[i].0) == q
    {
      PlaceThenLookup(kids, parts, entry, q);
      if q == parts {
        assert Parts(files[n].0) == q;
      } else {
        var i :| 0 <= i < n && Parts(rest[i].0) == q;
        assert Parts(files[i].0) == q;
      }
    }
  }

  /** A prefix-free listing builds, in any insertion order, into the tree that holds it exactly. */
  lemma {:induction false} PrefixFreeBuilds(files: Listing)
    requires DistinctKeys(files) && PrefixFree(files)
    ensures BuildFrom(files).Ok? && Holds(BuildFrom(files).value, files)
  {
    if files != [] {
      var rest := files[..|files| - 1];
      assert PrefixFree(rest) by {
        forall i, j | 0 <= i < |rest| && 0 <= j < |rest| ensures !ProperPrefix(Parts(rest[i].0), Parts(rest[j].0)) {
          assert rest[i] == files[i] && rest[j] == files[j];
        }
      }
      PrefixFreeBuilds(rest);
      if BuildFrom(files).Conflict? {
        ConflictMeansNotPrefixFree(files, BuildFrom(rest).value);
      }
      PlaceHoldsOneMore(files, BuildFrom(rest).value);
    }
  }

  /** Exactly the prefix-free listings survive the build. A listing that is not either stops on
      the conflict check or, when the directory came first, silently loses entries. */
  lemma {:induction false} BuildFaithfulIffPrefixFree(files: Listing)
    requires DistinctKeys(files)
    ensures BuildFrom(files).Ok? && Holds(BuildFrom(files).value, files) <==> PrefixFree(files)
  {
    if PrefixFree(files) {
      PrefixFreeBuilds(files);
    } else if BuildFrom(files).Ok? && Holds(BuildFrom(files).value, files) {
      var i, j :| 0 <= i < |files| && 0 <= j < |files| && ProperPrefix(Parts(files[i].0), Parts(files[j].0));
      FileHidesWhatLiesBelow(BuildFrom(files).value, Parts(files[i].0), Parts(files[j].0));
      assert false;
    }
  }

  // ---- what becomes of the other listings ----

  /** A file lies on this path or on the way to it. */
  ghost predicate FileAtOrAbove(kids: map<Bytes, Node>, q: seq<Bytes>) {
    exists p: seq<Bytes> :: 0 < |p| && p <= q && Lookup(kids, p).Some?
  }

  lemma {:induction false} FileOnTheWayConflicts(kids: map<Bytes, Node>, p: seq<Bytes>, parts: seq<Bytes>, entry: Entry)
    requires |p| > 0 && ProperPrefix(p, parts) && Lookup(kids, p).Some?
    ensures Place(kids, parts, entry).Conflict?
    decreases |p|
  {
    assert p[0] == parts[0];
    if |p| > 1 {
      FileOnTheWayConflicts(kids[p[0]].kids, p[1..], parts[1..], entry);
    }
  }

  lemma {:induction false} PlaceKeepsFileAtOrAbove(kids: map<Bytes, Node>, parts: seq<Bytes>, entry: Entry,
                                                   q: seq<Bytes>)
    requires |parts| > 0 && Place(kids, parts, entry).Ok? && (q == parts || FileAtOrAbove(kids, q))
    ensures FileAtOrAbove(Place(kids, parts, entry).value, q)
  {
    var after := Place(kids, parts, entry).value;
    PlaceThenLookup(kids, parts, entry, parts);
    if q != parts {
      var p: seq<Bytes> :| 0 < |p| && p <= q && Lookup(kids, p).Some?;
      PlaceThenLookup(kids, parts, entry, p);
      assert Lookup(after, if ProperPrefix(parts, p) then parts else p).Some?;
    }
  }

  lemma {:induction false} BuiltHasFileAtOrAbove(files: Listing, i: nat)
    requires BuildFrom(files).Ok? && i < |files|
    ensures FileAtOrAbove(BuildFrom(files).value, Parts(files[i].0))
  {
    var n := |files| - 1;
    if i < n {
      BuiltHasFileAtOrAbove(files[..n], i);
    }
    PlaceKeepsFileAtOrAbove(BuildFrom(files[..n]).value, Parts(files[n].0), files[n].1, Parts(files[i].0));
  }

  /** What a tree holds came from the listing. */
  lemma {:induction false} LookupIsListed(files: Listing, q: seq<Bytes>) returns (i: nat)
    requires |q| > 0 && BuildFrom(files).Ok? && Lookup(BuildFrom(files).value, q).Some?
    ensures i < |files| && Parts(files[i].0) == q && Lookup(BuildFrom(files).value, q) == Some(files[i].1)
  {
    i := |files| - 1;
    PlaceThenLookup(BuildFrom(files[..i]).value, Parts(files[i].0), files[i].1, q);
    if Parts(files[i].0) != q {
      i := LookupIsListed(files[..i], q);
    }
  }

  /** A listed file is on the way to a path listed after it. */
  ghost predicate Clash(files: Listing, i: nat, j: nat) {
    i < j < |files| && ProperPrefix(Parts(files[i].0), Parts(files[j].0))
  }

  lemma {:induction false} ConflictIsClash(files: Listing) returns (i: nat, j: nat)
    requires BuildFrom(files).Conflict?
    ensures Clash(files, i, j)
  {
    j := |files| - 1;
    var rest := files[..j];
    if BuildFrom(rest).Conflict? {
      i, j := ConflictIsClash(rest);
    } else {
      var p := ConflictMeansFileOnTheWay(BuildFrom(rest).value, Parts(files[j].0), files[j].1);
      i := LookupIsListed(rest, p);
    }
  }

  lemma {:induction false} ClashIsConflict(files: Listing, i: nat, j: nat)
    requires Clash(files, i, j)
    ensures BuildFrom(files).Conflict?
  {
    var before := files[..j];
    assert files[..j + 1][..j] == before;
    if BuildFrom(before).Conflict? {
      StaysConflicted(files, j);
    } else {
      BuiltHasFileAtOrAbove(before, i);
      var p: seq<Bytes> :| 0 < |p| && p <= Parts(files[i].0) && Lookup(BuildFrom(before).value, p).Some?;
      FileOnTheWayConflicts(BuildFrom(before).value, p, Parts(files[j].0), files[j].1);
      StaysConflicted(files, j + 1);
    }
  }

  /** The conflict check fires exactly when a file comes before a path that passes through it. */
  lemma {:induction false} ConflictIffFileFirst(files: Listing)
    ensures BuildFrom(files).Conflict? <==> exists i: nat, j: nat :: Clash(files, i, j)
  {
    if BuildFrom(files).Conflict? {
      var i, j := ConflictIsClash(files);
    }
    if i: nat, j: nat :| Clash(files, i, j) {
      ClashIsConflict(files, i, j);
    }
  }

  /** Something listed later is on the way to the path of entry `i`. */
  ghost predicate Replaced(files: Listing, i: nat)
    requires i < |files|
  {
    exists j :: i < j < |files| && ProperPrefix(Parts(files[j].0), Parts(files[i].0))
  }

  /** When it does not fire, an entry is lost exactly if a file listed later takes the place of one
      of its directories. */
  lemma {:induction false} EntryIsLostIffReplaced(files: Listing, i: nat)
    requires DistinctKeys(files) && BuildFrom(files).Ok? && i < |files|
    ensures Lookup(BuildFrom(files).value, Parts(files[i].0)) == if Replaced(files, i) then None else Some(files[i].1)
  {
    var n := |files| - 1;
    var rest := files[..n];
    PlaceThenLookup(BuildFrom(rest).value, Parts(files[n].0), files[n].1, Parts(files[i].0));
    if i < n {
      LastKeyIsNew(files, i);
      EntryIsLostIffReplaced(rest, i);
      assert Replaced(files, i) <==> Replaced(rest, i) || ProperPrefix(Parts(files[n].0), Parts(files[i].0));
    }
  }

  /** The conflict check is one-sided: `a` inserted before `a/b` is refused, after it is not,
      and then the tree is that of `a` alone. */
  lemma ConflictCheckDependsOnOrder(f: Entry, g: Entry)
    ensures BuildFrom([([97], f), ([97, SLASH, 98], g)]).Conflict?
    ensures BuildFrom([([97, SLASH, 98], g), ([97], f)]) == BuildFrom([([97], f)])
  {
    var a, ab: Bytes := [97], [97, SLASH, 98];
    PartsOfOneOrTwo(97, 98);
    assert [(a, f), (ab, g)][..1] == [(a, f)] && [(ab, g), (a, f)][..1] == [(ab, g)];
    assert [(a, f)][..0] == [] && [(ab, g)][..0] == [];
    assert [[97], [98]][1..] == [[98]];
    var tree: map<Bytes, Node> := map[a := Dir(map[[98] := File(g)])];
    assert BuildFrom([(ab, g)]) == Ok(tree);
    assert BuildFrom([(a, f)]) == Ok(map[a := File(f)]);
    assert tree[a := File(f)] == map[a := File(f)];
  }

  lemma PartsOfOneOrTwo(a: Byte, b: Byte)
    requires a != SLASH && b != SLASH
    ensures Parts([a]) == [[a]] && Parts([a, SLASH, b]) == [[a], [b]]
  {
    Strings.SplitWithoutSeparator([a], SLASH);
    Strings.SplitWithoutSeparator([b], SLASH);
    Strings.SplitAtSeparator([a], SLASH, [b]);
    assert [a] + [SLASH] + [b] == [a, SLASH, b];
  }

  method Build(files: Listing) returns (r: Result<map<Bytes, Node>>)
    requires DistinctKeys(files)
    ensures r == BuildFrom(files)
    ensures r.Ok? && Holds(r.value, files) <==> PrefixFree(files)
    ensures r.Conflict? <==> exists i: nat, j: nat :: Clash(files, i, j)
  {
    ConflictIffFileFirst(files);
    BuildFaithfulIffPrefixFree(files);
    var root: map<Bytes, Node> := map[];
    for i := 0 to |files|
      invariant BuildFrom(files[..i]) == Ok(root)
    {
      assert files[..i + 1][..i] == files[..i];
      var placed := Place(root, Parts(files[i].0), files[i].1);
      if placed.Conflict? {
        StaysConflicted(files, i + 1);
        return BuildFrom(files[..i + 1]);
      }
      root := placed.value;
    }
    assert files[..|files|] == files;
    r := Ok(root);
  }

  lemma {:induction false} StaysConflicted(files: Listing, i: nat)
    requires i <= |files| && BuildFrom(files[..i]).Conflict?
    ensures BuildFrom(files) == BuildFrom(files[..i])
    decreases |files| - i
  {
    if i < |files| {
      assert files[..i + 1][..i] == files[..i];
      StaysConflicted(files, i + 1);
    } else {
      assert files[..i] == files;
    }
  }

  // ---- trees are determined by what they hold ----

  ghost predicate CleanName(name: Bytes) {
    SLASH !in name && NUL !in name
  }

  ghost predicate CleanEntry(e: Entry) {
    SPACE !in e.mode && e.mode != DIR_MODE
  }

  /** Every directory below the root holds something; names and modes are printable. */
  ghost predicate Clean(n: Node) {
    match n
    case File(e) => CleanEntry(e)
    case Dir(kids) => forall k :: k in kids ==>
        CleanName(k) && Clean(kids[k]) && (kids[k].Dir? ==> kids[k].kids != map[])
  }

  lemma {:induction false} PlaceKeepsClean(kids: map<Bytes, Node>, parts: seq<Bytes>, entry: Entry)
    requires |parts| > 0 && Clean(Dir(kids)) && CleanEntry(entry) && Place(kids, parts, entry).Ok?
    requires forall i :: 0 <= i < |parts| ==> CleanName(parts[i])
    ensures Clean(Dir(Place(kids, parts, entry).value)) && Place(kids, parts, entry).value != map[]
    decreases |parts|
  {
    var after := Place(kids, parts, entry).value;
    assert parts[0] in after;
    if |parts| > 1 {
      var child := if parts[0] in kids then kids[parts[0]] else Dir(map[]);
      PlaceKeepsClean(child.kids, parts[1..], entry);
    }
  }

  ghost predicate CleanListing(files: Listing) {
    forall i :: 0 <= i < |files| ==> NUL !in files[i].0 && CleanEntry(files[i].1)
  }

  lemma {:induction false} BuildIsClean(files: Listing)
    requires CleanListing(files) && BuildFrom(files).Ok?
    ensures Clean(Dir(BuildFrom(files).value))
  {
    if files != [] {
      var n := |files| - 1;
      BuildIsClean(files[..n]);
      Strings.SplitAddsNothing(files[n].0, SLASH, NUL);
      PlaceKeepsClean(BuildFrom(files[..n]).value, Parts(files[n].0), files[n].1);
    }
  }

  lemma {:induction false} SomethingInside(n: Node) returns (p: seq<Bytes>)
    requires Clean(n) && n.Dir? && n.kids != map[]
    ensures |p| > 0 && Lookup(n.kids, p).Some?
  {
    var k :| k in n.kids;
    if n.kids[k].File? {
      p := [k];
    } else {
      p := SomethingInside(n.kids[k]);
      assert ([k] + p)[1..] == p;
      p := [k] + p;
    }
  }

  lemma {:induction false} BelowIsLookup(kids: map<Bytes, Node>, k: Bytes, q: seq<Bytes>)
    requires |q| > 0
    ensures Lookup(kids, [k] + q) == if k in kids && kids[k].Dir? then Lookup(kids[k].kids, q) else None
  {
    assert ([k] + q)[1..] == q;
  }

  lemma {:induction false} LookupsDetermineTree(a: Node, b: Node)
    requires a.Dir? && b.Dir? && Clean(a) && Clean(b)
    requires forall q: seq<Bytes> :: |q| > 0 ==> Lookup(a.kids, q) == Lookup(b.kids, q)
    ensures a == b
    decreases a
  {
    forall k | k in a.kids ensures k in b.kids && a.kids[k] == b.kids[k] {
      KidsAgree(a, b, k);
    }
    forall k | k in b.kids ensures k in a.kids {
      if b.kids[k].File? {
        assert Lookup(b.kids, [k]).Some?;
      } else {
        var p := SomethingInside(b.kids[k]);
        BelowIsLookup(b.kids, k, p);
        BelowIsLookup(a.kids, k, p);
      }
    }
    assert a.kids == b.kids;
  }

  lemma {:induction false} KidsAgree(a: Node, b: Node, k: Bytes)
    requires a.Dir? && b.Dir? && Clean(a) && Clean(b) && k in a.kids
    requires forall q: seq<Bytes> :: |q| > 0 ==> Lookup(a.kids, q) == Lookup(b.kids, q)
    ensures k in b.kids && a.kids[k] == b.kids[k]
    decreases a, 0
  {
    if a.kids[k].File? {
      assert Lookup(a.kids, [k]) == Lookup(b.kids, [k]);
    } else {
      var p := SomethingInside(a.kids[k]);
      BelowIsLookup(a.kids, k, p);
      BelowIsLookup(b.kids, k, p);
      forall q: seq<Bytes> | |q| > 0 ensures Lookup(a.kids[k].kids, q) == Lookup(b.kids[k].kids, q) {
        BelowIsLookup(a.kids, k, q);
        BelowIsLookup(b.kids, k, q);
      }
      LookupsDetermineTree(a.kids[k], b.kids[k]);
    }
  }

  // ---- serialising and hashing ----

  /** Bytewise order, as Python compares `bytes`. */
  ghost predicate Below(a: Bytes, b: Bytes) {
    if b == [] then false
    else if a == [] then true
    else a[0] < b[0] || (a[0] == b[0] && Below(a[1..], b[1..]))
  }

  lemma {:induction false} BelowIsTotal(a: Bytes, b: Bytes)
    ensures Below(a, b) || a == b || Below(b, a)
    ensures !(Below(a, b) && (a == b || Below(b, a)))
  {
    if a != [] && b != [] {
      BelowIsTotal(a[1..], b[1..]);
      assert a == [a[0]] + a[1..] && b == [b[0]] + b[1..];
    }
  }

  lemma {:induction false} BelowIsTransitive(a: Bytes, b: Bytes, c: Bytes)
    requires Below(a, b) && Below(b, c)
    ensures Below(a, c)
  {
    if a != [] {
      if a[0] == b[0] == c[0] {
        BelowIsTransitive(a[1..], b[1..], c[1..]);
      }
    }
  }

  /** A directory sorts as if its name ended in a slash. */
  function SortKey(kids: map<Bytes, Node>, name: Bytes): Bytes
    requires name in kids
  {
    if kids[name].Dir? then name + [SLASH] else name
  }

  /** Comes before every other name of `names`, in sort-key order. */
  ghost predicate IsFirst(kids: map<Bytes, Node>, names: set<Bytes>, name: Bytes)
    requires names <= kids.Keys
  {
    name in names && forall m :: m in names && m != name ==> Below(SortKey(kids, name), SortKey(kids, m))
  }

  lemma KeysDiffer(kids: map<Bytes, Node>, m: Bytes, n: Bytes)
    requires Clean(Dir(kids)) && m in kids && n in kids && m != n
    ensures SortKey(kids, m) != SortKey(kids, n)
  {
    var md, nd := m + [SLASH], n + [SLASH];
    assert md[..|m|] == m && nd[..|n|] == n;
    assert md[|m|] == SLASH && nd[|n|] == SLASH;
  }

  lemma {:induction false} SomeFirst(kids: map<Bytes, Node>, names: set<Bytes>) returns (first: Bytes)
    requires Clean(Dir(kids)) && names <= kids.Keys && names != {}
    ensures IsFirst(kids, names, first)
  {
    var name :| name in names;
    if names == {name} {
      first := name;
    } else {
      assert names == (names - {name}) + {name};
      var best := SomeFirst(kids, names - {name});
      KeysDiffer(kids, name, best);
      BelowIsTotal(SortKey(kids, name), SortKey(kids, best));
      if Below(SortKey(kids, name), SortKey(kids, best)) {
        first := name;
        forall m | m in names && m != name ensures Below(SortKey(kids, name), SortKey(kids, m)) {
          if m != best { BelowIsTransitive(SortKey(kids, name), SortKey(kids, best), SortKey(kids, m)); }
        }
      } else {
        first := best;
      }
    }
  }

  /** `sorted(items)`: the names in sort-key order. */
  ghost function SortedNames(kids: map<Bytes, Node>, names: set<Bytes>): (sorted: seq<Bytes>)
    requires Clean(Dir(kids)) && names <= kids.Keys
    ensures forall m :: m in sorted <==> m in names
  {
    if names == {} then []
    else
      assert exists first :: IsFirst(kids, names, first) by { var f := SomeFirst(kids, names); }
      var first :| IsFirst(kids, names, first);
      [first] + SortedNames(kids, names - {first})
  }

  ghost predicate InOrder(kids: map<Bytes, Node>, names: seq<Bytes>)
    requires forall i :: 0 <= i < |names| ==> names[i] in kids
  {
    forall i, j :: 0 <= i < j < |names| ==> Below(SortKey(kids, names[i]), SortKey(kids, names[j]))
  }

  /** Whatever order the items came in, sorting them by key gives this one sequence. */
  lemma {:induction false} SortingHasOneResult(kids: map<Bytes, Node>, names: set<Bytes>, sorted: seq<Bytes>)
    requires Clean(Dir(kids)) && names <= kids.Keys
    requires forall m :: m in sorted <==> m in names
    requires InOrder(kids, sorted)
    ensures sorted == SortedNames(kids, names)
  {
    assert |sorted| > 0 ==> sorted[0] in sorted;
    if names != {} {
      var first := SortedNames(kids, names)[0];
      assert IsFirst(kids, names, first);
      assert first in sorted && sorted[0] in names;
      var i :| 0 <= i < |sorted| && sorted[i] == first;
      BelowIsTotal(SortKey(kids, sorted[0]), SortKey(kids, sorted[i]));
      assert sorted[0] == first;
      forall m ensures m in sorted[1..] <==> m in names - {first} {
        if m in sorted[1..] {
          var j :| 1 <= j < |sorted| && sorted[j] == m;
          BelowIsTotal(SortKey(kids, sorted[0]), SortKey(kids, sorted[j]));
        }
        assert sorted == [first] + sorted[1..];
        assert m in sorted <==> m == first || m in sorted[1..];
      }
      SortingHasOneResult(kids, names - {first}, sorted[1..]);
    }
  }

  /** `"%d" % n`. */
  function Decimal(n: nat): (digits: Bytes)
    ensures NUL !in digits
  {
    if n < 10 then [48 + n] else Decimal(n / 10) + [48 + n % 10]
  }

  /** What git hashes for a directory: a length header and the body. */
  function TreeObject(body: Bytes): Bytes {
    [116, 114, 101, 101, SPACE] + Decimal(|body|) + [NUL] + body
  }

  function Record(mode: Bytes, name: Bytes, sha: Sha): Bytes {
    mode + [SPACE] + name + [NUL] + sha
  }

  ghost function KidRecord(hash: Bytes -> Sha, kids: map<Bytes, Node>, name: Bytes): Bytes
    requires Clean(Dir(kids)) && name in kids
    decreases Dir(kids), 0
  {
    match kids[name]
    case File(e) => Record(e.mode, name, e.sha)
    case Dir(_) => Record(DIR_MODE, name, Digest(hash, kids[name]))
  }

  ghost function Body(hash: Bytes -> Sha, kids: map<Bytes, Node>, names: seq<Bytes>): Bytes
    requires Clean(Dir(kids)) && forall i :: 0 <= i < |names| ==> names[i] in kids
    decreases Dir(kids), 1, |names|
  {
    if names == [] then [] else KidRecord(hash, kids, names[0]) + Body(hash, kids, names[1..])
  }

  ghost function Object(hash: Bytes -> Sha, n: Node): Bytes
    requires n.Dir? && Clean(n)
    decreases n, 2
  {
    TreeObject(Body(hash, n.kids, SortedNames(n.kids, n.kids.Keys)))
  }

  ghost function Digest(hash: Bytes -> Sha, n: Node): Sha
    requires n.Dir? && Clean(n)
    decreases n, 3
  {
    hash(Object(hash, n))
  }

  /** `x` is hashed while digesting `n`. */
  ghost predicate Hashes(hash: Bytes -> Sha, n: Node, x: Bytes)
    requires Clean(n)
  {
    n.Dir? && (x == Object(hash, n) || exists k :: k in n.kids && Hashes(hash, n.kids[k], x))
  }

  /** No two different objects of these two trees share a hash. (No function into twenty bytes
      is free of collisions altogether, so nothing more can be asked of it.) */
  ghost predicate NoCollision(hash: Bytes -> Sha, a: Node, b: Node)
    requires Clean(a) && Clean(b)
  {
    forall x, y :: Hashes(hash, a, x) && Hashes(hash, b, y) && hash(x) == hash(y) ==> x == y
  }

  lemma {:induction false} CutAtMark(p: Bytes, mark: Byte, r: Bytes, q: Bytes, s: Bytes)
    requires mark !in p && mark !in q && p + [mark] + r == q + [mark] + s
    ensures p == q && r == s
  {
    var all := p + [mark] + r;
    assert all == q + [mark] + s;
    assert all[|p|] == mark && all[|q|] == mark;
    assert forall i :: 0 <= i < |p| ==> all[i] == p[i] && p[i] in p;
    assert forall i :: 0 <= i < |q| ==> all[i] == q[i] && q[i] in q;
    assert p == all[..|p|] && r == all[|p| + 1..];
    assert q == all[..|q|] && s == all[|q| + 1..];
  }

  lemma ObjectDeterminesBody(a: Bytes, b: Bytes)
    requires TreeObject(a) == TreeObject(b)
    ensures a == b
  {
    var head: Bytes := [116, 114, 101, 101, SPACE];
    CutAtMark(head + Decimal(|a|), NUL, a, head + Decimal(|b|), b);
  }

  lemma RecordIsSelfDelimiting(m1: Bytes, n1: Bytes, s1: Sha, r1: Bytes, m2: Bytes, n2: Bytes, s2: Sha, r2: Bytes)
    requires SPACE !in m1 && SPACE !in m2 && NUL !in n1 && NUL !in n2
    requires Record(m1, n1, s1) + r1 == Record(m2, n2, s2) + r2
    ensures m1 == m2 && n1 == n2 && s1 == s2 && r1 == r2
  {
    var t1, t2 := n1 + [NUL] + (s1 + r1), n2 + [NUL] + (s2 + r2);
    assert Record(m1, n1, s1) + r1 == m1 + [SPACE] + t1;
    assert Record(m2, n2, s2) + r2 == m2 + [SPACE] + t2;
    CutAtMark(m1, SPACE, t1, m2, t2);
    CutAtMark(n1, NUL, s1 + r1, n2, s2 + r2);
    assert s1 == (s1 + r1)[..20] && r1 == (s1 + r1)[20..];
    assert s2 == (s2 + r2)[..20] && r2 == (s2 + r2)[20..];
  }

  /** Two directories agree on one name up to the digests of their subdirectories. */
  ghost predicate Alike(hash: Bytes -> Sha, a: Node, b: Node)
    requires Clean(a) && Clean(b)
  {
    match (a, b)
    case (File(e), File(f)) => e == f
    case (Dir(_), Dir(_)) => Digest(hash, a) == Digest(hash, b)
    case _ => false
  }

  /** A body decodes in one way only: same names, same order, kids alike. */
  lemma {:induction false} BodyDecodes(hash: Bytes -> Sha, a: map<Bytes, Node>, b: map<Bytes, Node>, m: seq<Bytes>,
                                       n: seq<Bytes>)
    requires Clean(Dir(a)) && Clean(Dir(b))
    requires forall i :: 0 <= i < |m| ==> m[i] in a
    requires forall i :: 0 <= i < |n| ==> n[i] in b
    requires Body(hash, a, m) == Body(hash, b, n)
    ensures m == n && forall i :: 0 <= i < |m| ==> Alike(hash, a[m[i]], b[m[i]])
    decreases |m|
  {
    if m != [] && n != [] {
      var (m1, s1) := Fields(hash, a, m[0]);
      var (m2, s2) := Fields(hash, b, n[0]);
      RecordIsSelfDelimiting(m1, m[0], s1, Body(hash, a, m[1..]), m2, n[0], s2, Body(hash, b, n[1..]));
      BodyDecodes(hash, a, b, m[1..], n[1..]);
      assert m == [m[0]] + m[1..] && n == [n[0]] + n[1..];
    }
  }

  ghost function Fields(hash: Bytes -> Sha, kids: map<Bytes, Node>, name: Bytes): (f: (Bytes, Sha))
    requires Clean(Dir(kids)) && name in kids
    ensures SPACE !in f.0 && KidRecord(hash, kids, name) == Record(f.0, name, f.1)
    ensures kids[name].Dir? <==> f.0 == DIR_MODE
  {
    assert Clean(kids[name]);
    match kids[name]
    case File(e) => (e.mode, e.sha)
    case Dir(_) => (DIR_MODE, Digest(hash, kids[name]))
  }

  lemma {:induction false} SameDigestSameNames(hash: Bytes -> Sha, a: Node, b: Node)
    requires a.Dir? && b.Dir? && Clean(a) && Clean(b) && NoCollision(hash, a, b)
    requires Digest(hash, a) == Digest(hash, b)
    ensures a.kids.Keys == b.kids.Keys && forall k :: k in a.kids ==> Alike(hash, a.kids[k], b.kids[k])
  {
    var m, n := SortedNames(a.kids, a.kids.Keys), SortedNames(b.kids, b.kids.Keys);
    assert Hashes(hash, a, Object(hash, a)) && Hashes(hash, b, Object(hash, b));
    ObjectDeterminesBody(Body(hash, a.kids, m), Body(hash, b.kids, n));
    BodyDecodes(hash, a.kids, b.kids, m, n);
    forall k | k in a.kids ensures k in b.kids && Alike(hash, a.kids[k], b.kids[k]) {
      assert k in m;
    }
    forall k | k in b.kids ensures k in a.kids {
      assert k in n;
    }
  }

  lemma {:induction false} KidsDoNotCollide(hash: Bytes -> Sha, a: Node, b: Node, k: Bytes)
    requires a.Dir? && b.Dir? && Clean(a) && Clean(b) && NoCollision(hash, a, b) && k in a.kids && k in b.kids
    ensures NoCollision(hash, a.kids[k], b.kids[k])
  {
    forall x, y | Hashes(hash, a.kids[k], x) && Hashes(hash, b.kids[k], y) && hash(x) == hash(y) ensures x == y {
      assert Hashes(hash, a, x) && Hashes(hash, b, y);
    }
  }

  /** The digest determines the tree, as long as the hashed objects do not collide. */
  lemma {:induction false} DigestDeterminesTree(hash: Bytes -> Sha, a: Node, b: Node)
    requires a.Dir? && b.Dir? && Clean(a) && Clean(b) && NoCollision(hash, a, b)
    requires Digest(hash, a) == Digest(hash, b)
    ensures a == b
    decreases a
  {
    SameDigestSameNames(hash, a, b);
    forall k | k in a.kids ensures a.kids[k] == b.kids[k] {
      assert Alike(hash, a.kids[k], b.kids[k]);
      if a.kids[k].Dir? {
        KidsDoNotCollide(hash, a, b, k);
        DigestDeterminesTree(hash, a.kids[k], b.kids[k]);
      }
    }
    assert a.kids == b.kids;
  }

  // ---- the hash of a listing ----

  ghost function Tree(files: Listing): (n: Node)
    requires CleanListing(files) && BuildFrom(files).Ok?
    ensures n.Dir? && Clean(n)
  {
    BuildIsClean(files);
    Dir(BuildFrom(files).value)
  }

  ghost function TreeHash(hash: Bytes -> Sha, files: Listing): Sha
    requires CleanListing(files) && BuildFrom(files).Ok?
  {
    Digest(hash, Tree(files))
  }

  ghost predicate SameFiles(f: Listing, g: Listing) {
    forall e :: e in f <==> e in g
  }

  lemma {:induction false} SameFilesSameTree(f: Listing, g: Listing)
    requires DistinctKeys(f) && DistinctKeys(g) && PrefixFree(f) && PrefixFree(g)
    requires CleanListing(f) && CleanListing(g) && SameFiles(f, g)
    ensures BuildFrom(f).Ok? && BuildFrom(f) == BuildFrom(g)
  {
    PrefixFreeBuilds(f);
    PrefixFreeBuilds(g);
    BuildIsClean(f);
    BuildIsClean(g);
    var a, b := BuildFrom(f).value, BuildFrom(g).value;
    forall q: seq<Bytes> | |q| > 0 ensures Lookup(a, q) == Lookup(b, q) {
      HeldInOneHeldInOther(f, g, a, b, q);
      HeldInOneHeldInOther(g, f, b, a, q);
    }
    LookupsDetermineTree(Dir(a), Dir(b));
  }

  lemma {:induction false} HeldInOneHeldInOther(f: Listing, g: Listing, a: map<Bytes, Node>, b: map<Bytes, Node>,
                                                q: seq<Bytes>)
    requires |q| > 0 && Holds(a, f) && Holds(b, g) && SameFiles(f, g)
    ensures Lookup(a, q).Some? ==> Lookup(b, q) == Lookup(a, q)
  {
    if Lookup(a, q).Some? {
      var i :| 0 <= i < |f| && Parts(f[i].0) == q;
      assert f[i] in g;
      var j :| 0 <= j < |g| && g[j] == f[i];
      assert Lookup(b, Parts(g[j].0)) == Some(g[j].1);
    }
  }

  /** Insertion order never reaches the hash. */
  lemma {:induction false} TreeHashIgnoresOrder(hash: Bytes -> Sha, f: Listing, g: Listing)
    requires DistinctKeys(f) && DistinctKeys(g) && PrefixFree(f) && PrefixFree(g)
    requires CleanListing(f) && CleanListing(g) && SameFiles(f, g)
    ensures BuildFrom(f).Ok? && BuildFrom(g).Ok? && TreeHash(hash, f) == TreeHash(hash, g)
  {
    SameFilesSameTree(f, g);
  }

  /** Equal tree hashes mean equal path maps. */
  lemma {:induction false} TreeHashIsInjective(hash: Bytes -> Sha, f: Listing, g: Listing)
    requires DistinctKeys(f) && DistinctKeys(g) && PrefixFree(f) && PrefixFree(g)
    requires CleanListing(f) && CleanListing(g) && BuildFrom(f).Ok? && BuildFrom(g).Ok?
    requires NoCollision(hash, Tree(f), Tree(g))
    requires TreeHash(hash, f) == TreeHash(hash, g)
    ensures SameFiles(f, g)
  {
    PrefixFreeBuilds(f);
    PrefixFreeBuilds(g);
    DigestDeterminesTree(hash, Tree(f), Tree(g));
    SameTreeSameFiles(f, g, BuildFrom(f).value);
    SameTreeSameFiles(g, f, BuildFrom(f).value);
  }

  lemma SameTreeSameFiles(f: Listing, g: Listing, kids: map<Bytes, Node>)
    requires Holds(kids, f) && Holds(kids, g)
    ensures forall e :: e in f ==> e in g
  {
    forall e | e in f ensures e in g {
      var i :| 0 <= i < |f| && f[i] == e;
      assert Lookup(kids, Parts(f[i].0)) == Some(f[i].1);
      var j :| 0 <= j < |g| && Parts(g[j].0) == Parts(f[i].0);
      PartsDetermineName(g[j].0, f[i].0);
      assert Lookup(kids, Parts(g[j].0)) == Some(g[j].1);
      assert g[j] == f[i];
    }
  }
}
