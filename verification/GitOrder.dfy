/** The bytes that are hashed for a directory, read back, and the order of what they list: walking a
    tree in that order goes through its files in the order of their full paths. */
module GitOrder {
  import opened Basics
  import opened GitTree
  import Strings

  // ---- what bytewise order is ----

  /** A proper beginning comes first; otherwise the first byte that differs decides. */
  lemma {:induction false} BelowIffFirstDifference(a: Bytes, b: Bytes)
    ensures Below(a, b) <==> a < b || exists k :: 0 <= k < |a| && k < |b| && a[..k] == b[..k] && a[k] < b[k]
  {
    if a != [] && b != [] && a[0] == b[0] {
      var at, bt := a[1..], b[1..];
      BelowIffFirstDifference(at, bt);
      assert a == [a[0]] + at && b == [b[0]] + bt;
      if a < b {
        assert at < bt;
      } else if k :| 0 <= k < |a| && k < |b| && a[..k] == b[..k] && a[k] < b[k] {
        assert at[..k - 1] == a[..k][1..] && bt[..k - 1] == b[..k][1..];
      }
      if k :| 0 <= k < |at| && k < |bt| && at[..k] == bt[..k] && at[k] < bt[k] {
        assert a[..k + 1] == [a[0]] + at[..k] && b[..k + 1] == [b[0]] + bt[..k];
        assert a[k + 1] < b[k + 1];
      }
    } else if a != [] && b != [] && a[0] < b[0] {
      assert a[..0] == b[..0];
    }
  }

  lemma {:induction false} BelowAfterSame(p: Bytes, a: Bytes, b: Bytes)
    ensures Below(p + a, p + b) <==> Below(a, b)
  {
    if p == [] {
      assert p + a == a && p + b == b;
    } else {
      assert (p + a)[1..] == p[1..] + a && (p + b)[1..] == p[1..] + b;
      BelowAfterSame(p[1..], a, b);
    }
  }

  lemma {:induction false} BelowGoesOn(a: Bytes, b: Bytes, s: Bytes)
    requires Below(a, b)
    ensures Below(a, b + s)
  {
    if a != [] && a[0] == b[0] {
      assert (b + s)[1..] == b[1..] + s;
      BelowGoesOn(a[1..], b[1..], s);
    }
  }

  /** Where neither begins the other, what follows does not matter. */
  lemma {:induction false} BelowBeforeDifference(a: Bytes, b: Bytes, s: Bytes, t: Bytes)
    requires Below(a, b) && !(a <= b)
    ensures Below(a + s, b + t)
  {
    if a[0] == b[0] {
      assert (a + s)[1..] == a[1..] + s && (b + t)[1..] == b[1..] + t;
      BelowBeforeDifference(a[1..], b[1..], s, t);
    }
  }

  // ---- reading a tree object ----

  datatype Item = Item(mode: Bytes, name: Bytes, sha: Bytes)

  function Upto(b: Bytes, mark: Byte): (n: nat)
    ensures n <= |b| && mark !in b[..n] && (n < |b| ==> b[n] == mark)
  {
    if b == [] || b[0] == mark then 0 else 1 + Upto(b[1..], mark)
  }

  lemma {:induction false} UptoMark(p: Bytes, mark: Byte, r: Bytes)
    requires mark !in p
    ensures Upto(p + [mark] + r, mark) == |p|
  {
    var all := p + [mark] + r;
    if p == [] {
      assert all[0] == mark;
    } else {
      assert all[1..] == p[1..] + [mark] + r;
      UptoMark(p[1..], mark, r);
    }
  }

  /** Mode, space, name, zero, twenty bytes; and so on to the end. */
  function ReadItems(body: Bytes): Option<seq<Item>>
    decreases |body|
  {
    if body == [] then Some([])
    else
      var s := Upto(body, SPACE);
      if s == |body| then None
      else
        var named := body[s + 1..];
        var z := Upto(named, NUL);
        if |named| < z + 21 then None
        else
          match ReadItems(named[z + 21..])
          case None => None
          case Some(rest) => Some([Item(body[..s], named[..z], named[z + 1..z + 21])] + rest)
  }

  function Value(digits: Bytes): Option<nat> {
    if digits == [] then None
    else
      var n := |digits| - 1;
      if !(48 <= digits[n] <= 57) then None
      else if n == 0 then Some(digits[n] - 48)
      else match Value(digits[..n])
        case None => None
        case Some(v) => Some(10 * v + digits[n] - 48)
  }

  /** A tree object: the word, the length of the body in decimal, and the body. */
  function ReadTree(data: Bytes): Option<seq<Item>> {
    if |data| < 5 || data[..5] != [116, 114, 101, 101, SPACE] then None
    else
      var rest := data[5..];
      var z := Upto(rest, NUL);
      if z == |rest| || Value(rest[..z]) != Some(|rest| - z - 1) then None
      else ReadItems(rest[z + 1..])
  }

  lemma {:induction false} ValueOfDecimal(n: nat)
    ensures Value(Decimal(n)) == Some(n)
  {
    if n >= 10 {
      ValueOfDecimal(n / 10);
      var digits := Decimal(n);
      assert digits[..|digits| - 1] == Decimal(n / 10);
    }
  }

  lemma {:induction false} RecordReads(mode: Bytes, name: Bytes, sha: Sha, rest: Bytes)
    requires SPACE !in mode && NUL !in name
    ensures ReadItems(Record(mode, name, sha) + rest)
         == match ReadItems(rest) case None => None case Some(more) => Some([Item(mode, name, sha)] + more)
  {
    var named := name + [NUL] + (sha + rest);
    var body := Record(mode, name, sha) + rest;
    assert body == mode + [SPACE] + named;
    UptoMark(mode, SPACE, named);
    assert body[|mode| + 1..] == named && body[..|mode|] == mode;
    AfterName(name, sha, rest);
  }

  lemma AfterName(name: Bytes, sha: Sha, rest: Bytes)
    requires NUL !in name
    ensures var named := name + [NUL] + (sha + rest);
            && Upto(named, NUL) == |name| && named[..|name|] == name
            && named[|name| + 1..|name| + 21] == sha && named[|name| + 21..] == rest
  {
    UptoMark(name, NUL, sha + rest);
    var named := name + [NUL] + (sha + rest);
    assert named[|name| + 1..] == sha + rest;
    assert (sha + rest)[..20] == sha && (sha + rest)[20..] == rest;
    assert named[|name| + 1..|name| + 21] == named[|name| + 1..][..20];
    assert named[|name| + 21..] == named[|name| + 1..][20..];
  }

  /** A file is listed with its own mode and hash, a directory with git's and its digest. */
  ghost predicate Describes(hash: Bytes -> Sha, kids: map<Bytes, Node>, item: Item)
    requires Clean(Dir(kids))
  {
    && item.name in kids
    && match kids[item.name]
       case File(e) => item.mode == e.mode && item.sha == e.sha
       case Dir(_) => item.mode == DIR_MODE && item.sha == Digest(hash, kids[item.name])
  }

  ghost predicate Lists(hash: Bytes -> Sha, kids: map<Bytes, Node>, names: seq<Bytes>, items: seq<Item>)
    requires Clean(Dir(kids))
  {
    |items| == |names| && forall i :: 0 <= i < |items| ==> items[i].name == names[i] && Describes(hash, kids, items[i])
  }

  lemma {:induction false} BodyReads(hash: Bytes -> Sha, kids: map<Bytes, Node>, names: seq<Bytes>)
    requires Clean(Dir(kids)) && forall i :: 0 <= i < |names| ==> names[i] in kids
    ensures var r := ReadItems(Body(hash, kids, names)); r.Some? && Lists(hash, kids, names, r.value)
    decreases |names|
  {
    if names != [] {
      BodyReads(hash, kids, names[1..]);
      var (mode, sha) := Fields(hash, kids, names[0]);
      RecordReads(mode, names[0], sha, Body(hash, kids, names[1..]));
      assert Describes(hash, kids, Item(mode, names[0], sha)) by {
        FieldsDescribe(hash, kids, names[0]);
      }
    }
  }

  lemma FieldsDescribe(hash: Bytes -> Sha, kids: map<Bytes, Node>, name: Bytes)
    requires Clean(Dir(kids)) && name in kids
    ensures var (mode, sha) := Fields(hash, kids, name); Describes(hash, kids, Item(mode, name, sha))
  {
  }

  lemma {:induction false} TreeObjectReads(body: Bytes)
    ensures ReadTree(TreeObject(body)) == ReadItems(body)
  {
    var digits := Decimal(|body|);
    var data, rest := TreeObject(body), digits + [NUL] + body;
    assert data == [116, 114, 101, 101, SPACE] + rest;
    assert data[..5] == [116, 114, 101, 101, SPACE] && data[5..] == rest;
    ValueOfDecimal(|body|);
    UptoMark(digits, NUL, body);
    assert rest[..|digits|] == digits && rest[|digits| + 1..] == body;
  }

  // ---- the order ----

  /** The names as they follow one another in the hashed bytes. */
  ghost function HashedNames(hash: Bytes -> Sha, n: Node): (names: seq<Bytes>)
    requires n.Dir? && Clean(n)
    ensures forall m :: m in names <==> m in n.kids
    ensures InOrder(n.kids, names)
  {
    ObjectReads(hash, n);
    var items := ReadTree(Object(hash, n)).value;
    var names := seq(|items|, i requires 0 <= i < |items| => items[i].name);
    assert names == SortedNames(n.kids, n.kids.Keys);
    SortedIsInOrder(n.kids, n.kids.Keys);
    names
  }

  lemma {:induction false} SortedIsInOrder(kids: map<Bytes, Node>, names: set<Bytes>)
    requires Clean(Dir(kids)) && names <= kids.Keys
    ensures InOrder(kids, SortedNames(kids, names))
  {
    if names != {} {
      var sorted := SortedNames(kids, names);
      var first := sorted[0];
      assert IsFirst(kids, names, first);
      SortedIsInOrder(kids, names - {first});
      assert sorted[1..] == SortedNames(kids, names - {first});
      forall i, j | 0 <= i < j < |sorted| ensures Below(SortKey(kids, sorted[i]), SortKey(kids, sorted[j])) {
        assert sorted[j] == sorted[1..][j - 1] && sorted[j] in names - {first};
        if i > 0 {
          assert sorted[i] == sorted[1..][i - 1];
        }
      }
    }
  }

  /** Read back, what is hashed for a directory is its entries, each once, files with their own mode
      and hash and directories with the digest of what they hold. */
  lemma {:induction false} ObjectReads(hash: Bytes -> Sha, n: Node)
    requires n.Dir? && Clean(n)
    ensures var r := ReadTree(Object(hash, n));
            r.Some? && Lists(hash, n.kids, SortedNames(n.kids, n.kids.Keys), r.value)
  {
    var names := SortedNames(n.kids, n.kids.Keys);
    TreeObjectReads(Body(hash, n.kids, names));
    BodyReads(hash, n.kids, names);
  }

  function Prefixed(p: Bytes, q: seq<Bytes>): seq<Bytes> {
    seq(|q|, i requires 0 <= i < |q| => p + q[i])
  }

  /** The full paths of the files, depth first, each directory in the order of its hashed bytes. */
  ghost function Walk(hash: Bytes -> Sha, n: Node): seq<Bytes>
    requires n.Dir? && Clean(n)
    decreases n, 1
  {
    WalkNames(hash, n.kids, HashedNames(hash, n))
  }

  ghost function WalkNames(hash: Bytes -> Sha, kids: map<Bytes, Node>, names: seq<Bytes>): seq<Bytes>
    requires Clean(Dir(kids)) && forall i :: 0 <= i < |names| ==> names[i] in kids
    decreases Dir(kids), 0, |names|
  {
    if names == [] then [] else WalkName(hash, kids, names[0]) + WalkNames(hash, kids, names[1..])
  }

  ghost function WalkName(hash: Bytes -> Sha, kids: map<Bytes, Node>, name: Bytes): seq<Bytes>
    requires Clean(Dir(kids)) && name in kids
    decreases Dir(kids), 0, 0
  {
    if kids[name].File? then [name] else Prefixed(name + [SLASH], Walk(hash, kids[name]))
  }

  ghost predicate Ascending(paths: seq<Bytes>) {
    forall i, j :: 0 <= i < j < |paths| ==> Below(paths[i], paths[j])
  }

  lemma {:induction false} WalkNamesHolds(hash: Bytes -> Sha, kids: map<Bytes, Node>, names: seq<Bytes>, x: Bytes)
    requires Clean(Dir(kids)) && forall i :: 0 <= i < |names| ==> names[i] in kids
    ensures x in WalkNames(hash, kids, names) <==> exists i :: 0 <= i < |names| && x in WalkName(hash, kids, names[i])
  {
    if names != [] {
      var rest := names[1..];
      WalkNamesHolds(hash, kids, rest, x);
      if i :| 0 <= i < |names| && x in WalkName(hash, kids, names[i]) {
        assert i > 0 ==> names[i] == rest[i - 1];
      }
      if i :| 0 <= i < |rest| && x in WalkName(hash, kids, rest[i]) {
        assert rest[i] == names[i + 1];
      }
    }
  }

  /** Everything below one name comes before everything below a later one. */
  lemma {:induction false} NamesInOrder(hash: Bytes -> Sha, kids: map<Bytes, Node>, a: Bytes, b: Bytes,
                                        x: Bytes, y: Bytes)
    requires Clean(Dir(kids)) && a in kids && b in kids && Below(SortKey(kids, a), SortKey(kids, b))
    requires x in WalkName(hash, kids, a) && y in WalkName(hash, kids, b)
    ensures Below(x, y)
  {
    var k, l := SortKey(kids, a), SortKey(kids, b);
    var s := StartsWithKey(hash, kids, a, x);
    var t := StartsWithKey(hash, kids, b, y);
    if !(k <= l) {
      BelowBeforeDifference(k, l, s, t);
    } else if kids[a].File? {
      BelowGoesOn(k, l, t);
      assert s == [];
    } else {
      assert k[|a|] == SLASH && l[|a|] == SLASH;
      assert |b| <= |a|;
      BelowIsTotal(k, l);
    }
  }

  lemma StartsWithKey(hash: Bytes -> Sha, kids: map<Bytes, Node>, a: Bytes, x: Bytes) returns (s: Bytes)
    requires Clean(Dir(kids)) && a in kids && x in WalkName(hash, kids, a)
    ensures x == SortKey(kids, a) + s && (kids[a].File? ==> s == [])
  {
    if kids[a].File? {
      s := [];
    } else {
      var below := Walk(hash, kids[a]);
      var i :| 0 <= i < |below| && x == (a + [SLASH]) + below[i];
      s := below[i];
    }
  }

  lemma {:induction false} WalkNamesAscends(hash: Bytes -> Sha, kids: map<Bytes, Node>, names: seq<Bytes>)
    requires Clean(Dir(kids)) && (forall i :: 0 <= i < |names| ==> names[i] in kids) && InOrder(kids, names)
    ensures Ascending(WalkNames(hash, kids, names))
    decreases Dir(kids), 0, |names|
  {
    if names != [] {
      var first, rest := WalkName(hash, kids, names[0]), WalkNames(hash, kids, names[1..]);
      WalkNameAscends(hash, kids, names[0]);
      WalkNamesAscends(hash, kids, names[1..]);
      forall x, y | x in first && y in rest ensures Below(x, y) {
        WalkNamesHolds(hash, kids, names[1..], y);
        var j :| 0 <= j < |names[1..]| && y in WalkName(hash, kids, names[1..][j]);
        assert names[1..][j] == names[j + 1];
        NamesInOrder(hash, kids, names[0], names[j + 1], x, y);
      }
      AscendingConcat(first, rest);
    }
  }

  lemma AscendingConcat(p: seq<Bytes>, q: seq<Bytes>)
    requires Ascending(p) && Ascending(q) && forall x, y :: x in p && y in q ==> Below(x, y)
    ensures Ascending(p + q)
  {
  }

  lemma {:induction false} WalkNameAscends(hash: Bytes -> Sha, kids: map<Bytes, Node>, name: Bytes)
    requires Clean(Dir(kids)) && name in kids
    ensures Ascending(WalkName(hash, kids, name))
    decreases Dir(kids), 0, 0
  {
    if kids[name].Dir? {
      var below := Walk(hash, kids[name]);
      WalkAscends(hash, kids[name]);
      forall i, j | 0 <= i < j < |below| ensures Below(name + [SLASH] + below[i], name + [SLASH] + below[j]) {
        BelowAfterSame(name + [SLASH], below[i], below[j]);
      }
    }
  }

  /** Walking a tree in the order that is hashed goes through its files in the order of their paths. */
  lemma {:induction false} WalkAscends(hash: Bytes -> Sha, n: Node)
    requires n.Dir? && Clean(n)
    ensures Ascending(Walk(hash, n))
    decreases n, 1
  {
    WalkNamesAscends(hash, n.kids, HashedNames(hash, n));
  }

  lemma {:induction false} PathOfKid(name: Bytes, parts: seq<Bytes>)
    requires |parts| > 0
    ensures Strings.Join([name] + parts, SLASH) == name + [SLASH] + Strings.Join(parts, SLASH)
  {
    Strings.JoinUnfolds(name, parts, SLASH);
  }

  /** Whatever the walk lists leads to a file. */
  lemma {:induction false} WalkedIsHeld(hash: Bytes -> Sha, n: Node, x: Bytes) returns (parts: seq<Bytes>)
    requires n.Dir? && Clean(n) && x in Walk(hash, n)
    ensures |parts| > 0 && Lookup(n.kids, parts).Some? && Strings.Join(parts, SLASH) == x
    decreases n
  {
    var names := HashedNames(hash, n);
    WalkNamesHolds(hash, n.kids, names, x);
    var i :| 0 <= i < |names| && x in WalkName(hash, n.kids, names[i]);
    var name := names[i];
    assert name in names;
    if n.kids[name].File? {
      parts := [name];
    } else {
      var below := Walk(hash, n.kids[name]);
      var j :| 0 <= j < |below| && x == (name + [SLASH]) + below[j];
      var rest := WalkedIsHeld(hash, n.kids[name], below[j]);
      PathOfKid(name, rest);
      BelowIsLookup(n.kids, name, rest);
      parts := [name] + rest;
    }
  }

  lemma PrefixedHolds(p: Bytes, q: seq<Bytes>, x: Bytes)
    requires x in q
    ensures p + x in Prefixed(p, q)
  {
    var j :| 0 <= j < |q| && q[j] == x;
    assert Prefixed(p, q)[j] == p + x;
  }

  /** And every file is walked. */
  lemma {:induction false} HeldIsWalked(hash: Bytes -> Sha, n: Node, parts: seq<Bytes>)
    requires n.Dir? && Clean(n) && |parts| > 0 && Lookup(n.kids, parts).Some?
    ensures Strings.Join(parts, SLASH) in Walk(hash, n)
    decreases n
  {
    var names, name := HashedNames(hash, n), parts[0];
    assert name in n.kids && name in names;
    if n.kids[name].Dir? {
      var rest := parts[1..];
      HeldIsWalked(hash, n.kids[name], rest);
      assert parts == [name] + rest;
      PathOfKid(name, rest);
      PrefixedHolds(name + [SLASH], Walk(hash, n.kids[name]), Strings.Join(rest, SLASH));
    } else {
      assert WalkName(hash, n.kids, name)[0] == name;
    }
    WalkNamesHolds(hash, n.kids, names, Strings.Join(parts, SLASH));
  }

  /** A prefix-free listing is hashed in the order of its full paths: walked in the order of the hashed
      bytes, its tree lists exactly the paths of the listing, ascending. */
  lemma {:induction false} ListingIsHashedInPathOrder(hash: Bytes -> Sha, files: Listing)
    requires DistinctKeys(files) && PrefixFree(files) && CleanListing(files) && BuildFrom(files).Ok?
    ensures var paths := Walk(hash, Tree(files));
            Ascending(paths) && forall x :: x in paths <==> exists i :: 0 <= i < |files| && files[i].0 == x
  {
    var n := Tree(files);
    var paths := Walk(hash, n);
    PrefixFreeBuilds(files);
    WalkAscends(hash, n);
    forall x | x in paths ensures exists i :: 0 <= i < |files| && files[i].0 == x {
      var parts := WalkedIsHeld(hash, n, x);
      var i :| 0 <= i < |files| && Parts(files[i].0) == parts;
      Strings.JoinUndoesSplit(files[i].0, SLASH);
      assert files[i].0 == x;
    }
    forall i | 0 <= i < |files| ensures files[i].0 in paths {
      HeldIsWalked(hash, n, Parts(files[i].0));
      Strings.JoinUndoesSplit(files[i].0, SLASH);
    }
  }
}
