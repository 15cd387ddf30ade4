/** The dependency walk of `check_needed`: a memoised depth-first search over pairs of an object
    and the RPATH chain it inherits, proved to visit exactly what a loader could reach. */
module LoaderClosure {
  import opened Basics

  type Soname = string
  type Directory = string
  datatype Path = Path(directory: Directory, name: string)

  /** A search-path entry after `$ORIGIN` was substituted; `Unsupported` still holds a `$`. */
  datatype SearchEntry = In(directory: Directory) | Unsupported

  datatype Dynamic = Dynamic(needed: seq<Soname>, rpath: seq<SearchEntry>, runpath: seq<SearchEntry>)

  /** Where an existing file of a search directory really lies. */
  datatype Place = Inside(path: Path) | Outside

  datatype Bundle = Bundle(infos: map<Path, Dynamic>,
                           files: map<(Directory, Soname), Place>,
                           host: set<Soname>)

  datatype Problem =
    | Unreadable(path: Path)
    | Substitution(path: Path)
    | FoundOutside(path: Path, soname: Soname, directory: Directory)
    | NotElf(path: Path, soname: Soname, directory: Directory)
    | Dangling(path: Path, soname: Soname)
    | HostMissing(soname: Soname)
    | HostUnneeded(soname: Soname)

  /** An object together with the RPATHs of the objects that loaded it. */
  type State = (Path, seq<Directory>)

  // ---- one object ----

  function Expand(entries: seq<SearchEntry>): Option<seq<Directory>> {
    if entries == [] then Some([])
    else if entries[0].Unsupported? then None
    else
      match Expand(entries[1..])
      case None => None
      case Some(rest) => Some([entries[0].directory] + rest)
  }

  /** DT_RPATH counts only for an object without DT_RUNPATH. */
  function OwnRpath(d: Dynamic): Option<seq<Directory>> {
    Expand(if d.runpath != [] then [] else d.rpath)
  }

  function Find(b: Bundle, search: seq<Directory>, soname: Soname): Option<Directory> {
    if search == [] then None
    else if (search[0], soname) in b.files then Some(search[0])
    else Find(b, search[1..], soname)
  }

  datatype Outcome = Load(path: Path) | FromHost | Fails(problem: Problem)

  function Resolve(b: Bundle, at: Path, search: seq<Directory>, soname: Soname): Outcome {
    match Find(b, search, soname)
    case None => if soname in b.host then FromHost else Fails(Dangling(at, soname))
    case Some(d) =>
      FindIsInFiles(b, search, soname);
      match b.files[(d, soname)]
      case Outside => Fails(FoundOutside(at, soname, d))
      case Inside(target) => if target in b.infos then Load(target) else Fails(NotElf(at, soname, d))
  }

  lemma {:induction false} FindIsInFiles(b: Bundle, search: seq<Directory>, soname: Soname)
    ensures Find(b, search, soname).Some? ==> (Find(b, search, soname).value, soname) in b.files
  {
    if search != [] {
      FindIsInFiles(b, search[1..], soname);
    }
  }

  predicate Supported(d: Dynamic) {
    Expand(d.runpath).Some? && OwnRpath(d).Some?
  }

  function Chain(d: Dynamic, inherited: seq<Directory>): seq<Directory>
    requires Supported(d)
  {
    OwnRpath(d).value + inherited
  }

  function Search(d: Dynamic, inherited: seq<Directory>): seq<Directory>
    requires Supported(d)
  {
    (if d.runpath != [] then [] else Chain(d, inherited)) + Expand(d.runpath).value
  }

  function Answer(b: Bundle, s: State, soname: Soname): Outcome
    requires s.0 in b.infos && Supported(b.infos[s.0])
  {
    Resolve(b, s.0, Search(b.infos[s.0], s.1), soname)
  }

  // ---- the graph of states ----

  ghost predicate Loads(b: Bundle, s: State, t: State) {
    && s.0 in b.infos && Supported(b.infos[s.0])
    && t.1 == Chain(b.infos[s.0], s.1)
    && exists n :: n in b.infos[s.0].needed && Answer(b, s, n) == Load(t.0)
  }

  ghost predicate UsesHost(b: Bundle, s: State, soname: Soname) {
    && s.0 in b.infos && Supported(b.infos[s.0])
    && soname in b.infos[s.0].needed && Answer(b, s, soname).FromHost?
  }

  ghost predicate HasProblem(b: Bundle, s: State, p: Problem) {
    && s.0 in b.infos
    && if Supported(b.infos[s.0]) then
         exists n :: n in b.infos[s.0].needed && Answer(b, s, n) == Fails(p)
       else p == Substitution(s.0)
  }

  ghost predicate IsRun(b: Bundle, run: seq<State>) {
    |run| > 0 && forall i :: 0 <= i < |run| - 1 ==> Loads(b, run[i], run[i + 1])
  }

  ghost predicate Reachable(b: Bundle, s: State, t: State) {
    exists run: seq<State> :: IsRun(b, run) && run[0] == s && run[|run| - 1] == t
  }

  lemma ReachesItself(b: Bundle, s: State)
    ensures Reachable(b, s, s)
  {
    assert IsRun(b, [s]);
  }

  lemma LoadThenReach(b: Bundle, s: State, t: State, u: State)
    requires Loads(b, s, t) && Reachable(b, t, u)
    ensures Reachable(b, s, u)
  {
    var run: seq<State> :| IsRun(b, run) && run[0] == t && run[|run| - 1] == u;
    assert IsRun(b, [s] + run);
  }

  /** A set of states the walk cannot leave. */
  ghost predicate Closed(b: Bundle, states: set<State>) {
    && (forall s :: s in states ==> s.0 in b.infos)
    && (forall s, t :: s in states && Loads(b, s, t) ==> t in states)
  }

  lemma {:induction false} ClosedHoldsRun(b: Bundle, states: set<State>, run: seq<State>)
    requires Closed(b, states) && IsRun(b, run) && run[0] in states
    ensures run[|run| - 1] in states
  {
    if |run| > 1 {
      ClosedHoldsRun(b, states, run[..|run| - 1]);
    }
  }

  // ---- the walk ----

  /** `used` and `problems` are what they were plus what the states of `newly` contribute. */
  ghost predicate Adds(b: Bundle, newly: set<State>, used0: set<Soname>, problems0: seq<Problem>,
                       used: set<Soname>, problems: seq<Problem>) {
    && (forall n :: n in used <==> (n in used0 || exists t :: t in newly && UsesHost(b, t, n)))
    && (forall p :: p in problems <==> (p in problems0 || exists t :: t in newly && HasProblem(b, t, p)))
  }

  /** As `Adds`, in the middle of a visit to `s` that has answered the needs in `names`. */
  ghost predicate AddsSoFar(b: Bundle, newly: set<State>, s: State, names: seq<Soname>,
                            used0: set<Soname>, problems0: seq<Problem>, used: set<Soname>, problems: seq<Problem>)
    requires s.0 in b.infos && Supported(b.infos[s.0])
  {
    && (forall n :: n in used <==> (
          || n in used0
          || (exists t :: t in newly && UsesHost(b, t, n))
          || (n in names && Answer(b, s, n).FromHost?)))
    && (forall p :: p in problems <==> (
          || p in problems0
          || (exists t :: t in newly && HasProblem(b, t, p))
          || (exists n :: n in names && Answer(b, s, n) == Fails(p))))
  }

  lemma AfterLoad(b: Bundle, newly: set<State>, more: set<State>, s: State, names: seq<Soname>, soname: Soname,
                  used0: set<Soname>, problems0: seq<Problem>, used1: set<Soname>, problems1: seq<Problem>,
                  used2: set<Soname>, problems2: seq<Problem>)
    requires s.0 in b.infos && Supported(b.infos[s.0]) && Answer(b, s, soname).Load?
    requires AddsSoFar(b, newly, s, names, used0, problems0, used1, problems1)
    requires Adds(b, more, used1, problems1, used2, problems2)
    ensures AddsSoFar(b, newly + more, s, names + [soname], used0, problems0, used2, problems2)
  {
  }

  lemma AfterAnswer(b: Bundle, newly: set<State>, s: State, names: seq<Soname>, soname: Soname,
                    used0: set<Soname>, problems0: seq<Problem>, used: set<Soname>, problems: seq<Problem>)
    requires s.0 in b.infos && Supported(b.infos[s.0]) && !Answer(b, s, soname).Load?
    requires AddsSoFar(b, newly, s, names, used0, problems0, used, problems)
    ensures Answer(b, s, soname).FromHost? ==>
              AddsSoFar(b, newly, s, names + [soname], used0, problems0, used + {soname}, problems)
    ensures Answer(b, s, soname).Fails? ==>
              AddsSoFar(b, newly, s, names + [soname], used0, problems0, used,
                        problems + [Answer(b, s, soname).problem])
  {
  }

  lemma VisitIsDone(b: Bundle, newly: set<State>, s: State, used0: set<Soname>, problems0: seq<Problem>,
                    used: set<Soname>, problems: seq<Problem>)
    requires s.0 in b.infos && Supported(b.infos[s.0])
    requires AddsSoFar(b, newly, s, b.infos[s.0].needed, used0, problems0, used, problems)
    ensures Adds(b, newly + {s}, used0, problems0, used, problems)
  {
  }

  /** Everything in `newly` is reached from `s` and leads only into `seen`. */
  ghost predicate Explored(b: Bundle, s: State, newly: set<State>, seen: set<State>) {
    && (forall t :: t in newly ==> Reachable(b, s, t))
    && (forall t, u :: t in newly && Loads(b, t, u) ==> u in seen)
  }

  lemma ExploredMore(b: Bundle, s: State, u: State, newly: set<State>, more: set<State>, seen: set<State>,
                     later: set<State>)
    requires Explored(b, s, newly, seen) && Loads(b, s, u) && Explored(b, u, more, later) && seen <= later
    ensures Explored(b, s, newly + more, later)
  {
    forall t | t in more ensures Reachable(b, s, t) {
      LoadThenReach(b, s, u, t);
    }
  }

  /** The needs in `names` that load something load a state in `seen`. */
  ghost predicate Followed(b: Bundle, s: State, names: seq<Soname>, seen: set<State>)
    requires s.0 in b.infos && Supported(b.infos[s.0])
  {
    forall n :: n in names && Answer(b, s, n).Load? ==> (Answer(b, s, n).path, Chain(b.infos[s.0], s.1)) in seen
  }

  lemma ExploredAll(b: Bundle, s: State, newly: set<State>, seen: set<State>)
    requires s.0 in b.infos && Supported(b.infos[s.0])
    requires Explored(b, s, newly, seen) && Followed(b, s, b.infos[s.0].needed, seen)
    ensures Explored(b, s, newly + {s}, seen)
  {
    ReachesItself(b, s);
  }

  class Walk {
    const bundle: Bundle
    var seen: set<State>
    var used: set<Soname>
    var problems: seq<Problem>

    constructor (b: Bundle, found: seq<Problem>)
      ensures bundle == b && seen == {} && used == {} && problems == found
    {
      bundle, seen, used, problems := b, {}, {}, found;
    }

    /** Visits a state and everything it leads to. `universe` bounds the walk; without some finite
        closed set around it the recursion of the source would not end. */
    method Visit(path: Path, inherited: seq<Directory>, ghost universe: set<State>)
      requires Closed(bundle, universe) && (path, inherited) in universe && seen <= universe
      modifies this
      ensures old(seen) <= seen <= universe && (path, inherited) in seen
      ensures Adds(bundle, seen - old(seen), old(used), old(problems), used, problems)
      ensures Explored(bundle, (path, inherited), seen - old(seen), seen)
      decreases universe - seen
    {
      var s := (path, inherited);
      if s in seen {
        return;
      }
      ghost var before := seen;
      seen := seen + {s};
      var info := bundle.infos[path];
      if !Supported(info) {
        problems := problems + [Substitution(path)];
        assert seen - before == {s};
        ReachesItself(bundle, s);
        return;
      }
      var chain := Chain(info, inherited);
      var search := Search(info, inherited);
      for i := 0 to |info.needed|
        invariant before + {s} <= seen <= universe
        invariant AddsSoFar(bundle, seen - before - {s}, s, info.needed[..i], old(used), old(problems), used, problems)
        invariant Explored(bundle, s, seen - before - {s}, seen)
        invariant Followed(bundle, s, info.needed[..i], seen)
      {
        var soname := info.needed[i];
        assert info.needed[..i + 1] == info.needed[..i] + [soname];
        assert Answer(bundle, s, soname) == Resolve(bundle, path, search, soname);
        ghost var mid, midUsed, midProblems := seen, used, problems;
        match Resolve(bundle, path, search, soname)
        case Load(target) =>
          assert soname in info.needed && Loads(bundle, s, (target, chain));
          Visit(target, chain, universe);
          ExploredMore(bundle, s, (target, chain), mid - before - {s}, seen - mid, mid, seen);
          AfterLoad(bundle, mid - before - {s}, seen - mid, s, info.needed[..i], soname,
                    old(used), old(problems), midUsed, midProblems, used, problems);
          assert seen - before - {s} == (mid - before - {s}) + (seen - mid);
        case FromHost =>
          AfterAnswer(bundle, mid - before - {s}, s, info.needed[..i], soname, old(used), old(problems), used,
                      problems);
          used := used + {soname};
        case Fails(p) =>
          AfterAnswer(bundle, mid - before - {s}, s, info.needed[..i], soname, old(used), old(problems), used,
                      problems);
          problems := problems + [p];
      }
      assert info.needed[..|info.needed|] == info.needed;
      ExploredAll(bundle, s, seen - before - {s}, seen);
      VisitIsDone(bundle, seen - before - {s}, s, old(used), old(problems), used, problems);
      assert seen - before == (seen - before - {s}) + {s};
    }
  }

  // ---- the whole check ----

  /** What reading one file of the bundle gave. */
  datatype Reading = NotAnObject | Broken | Object(info: Dynamic)

  type Listing = seq<(Path, Reading)>

  /** Distinct paths, and the dictionary built from them. */
  ghost predicate Describes(b: Bundle, listing: Listing) {
    && (forall i, j :: 0 <= i < j < |listing| ==> listing[i].0 != listing[j].0)
    && (forall p :: p in b.infos <==> exists i :: 0 <= i < |listing| && listing[i].0 == p && listing[i].1.Object?)
    && (forall i :: 0 <= i < |listing| && listing[i].1.Object? ==> b.infos[listing[i].0] == listing[i].1.info)
  }

  method ReadAll(listing: Listing, files: map<(Directory, Soname), Place>, host: set<Soname>)
    returns (b: Bundle, problems: seq<Problem>)
    requires forall i, j :: 0 <= i < j < |listing| ==> listing[i].0 != listing[j].0
    ensures Describes(b, listing) && b.files == files && b.host == host
    ensures forall p :: p in problems <==>
              exists i :: 0 <= i < |listing| && listing[i].1.Broken? && p == Unreadable(listing[i].0)
  {
    var infos: map<Path, Dynamic> := map[];
    problems := [];
    for i := 0 to |listing|
      invariant forall p :: p in infos <==> exists k :: 0 <= k < i && listing[k].0 == p && listing[k].1.Object?
      invariant forall k :: 0 <= k < i && listing[k].1.Object? ==> infos[listing[k].0] == listing[k].1.info
      invariant forall p :: p in problems <==>
                  exists k :: 0 <= k < i && listing[k].1.Broken? && p == Unreadable(listing[k].0)
    {
      match listing[i].1
      case NotAnObject =>
      case Broken => problems := problems + [Unreadable(listing[i].0)];
      case Object(info) => infos := infos[listing[i].0 := info];
    }
    b := Bundle(infos, files, host);
  }

  ghost predicate Wanted(b: Bundle, name: string) {
    exists p :: p in b.infos && name in b.infos[p].needed
  }

  /** Loaded by path: an object whose own name nothing in the bundle needs. */
  ghost predicate IsRoot(b: Bundle, s: State) {
    s.0 in b.infos && !Wanted(b, s.0.name) && s.1 == []
  }

  ghost predicate Visited(b: Bundle, t: State) {
    exists s :: IsRoot(b, s) && Reachable(b, s, t)
  }

  ghost predicate RootsIn(b: Bundle, universe: set<State>) {
    forall s :: IsRoot(b, s) ==> s in universe
  }

  lemma ClosedRootsHoldVisited(b: Bundle, seen: set<State>)
    requires Closed(b, seen) && RootsIn(b, seen)
    ensures forall t :: Visited(b, t) ==> t in seen
  {
    forall t | Visited(b, t) ensures t in seen {
      var s :| IsRoot(b, s) && Reachable(b, s, t);
      var run: seq<State> :| IsRun(b, run) && run[0] == s && run[|run| - 1] == t;
      ClosedHoldsRun(b, seen, run);
    }
  }

  /** Everything the check reports, over the states a loader can reach and nothing else. */
  ghost predicate Reported(b: Bundle, listing: Listing, hostPresent: set<Soname>, p: Problem) {
    || (exists i :: 0 <= i < |listing| && listing[i].1.Broken? && p == Unreadable(listing[i].0))
    || (exists t :: Visited(b, t) && HasProblem(b, t, p))
    || (p.HostMissing? && p.soname in b.host && p.soname !in hostPresent)
    || (p.HostUnneeded? && p.soname in b.host && forall t :: Visited(b, t) ==> !UsesHost(b, t, p.soname))
  }

  method VisitRoots(walk: Walk, ghost universe: set<State>)
    requires Closed(walk.bundle, universe) && RootsIn(walk.bundle, universe)
    requires walk.seen == {} && walk.used == {}
    modifies walk
    ensures forall t :: t in walk.seen <==> Visited(walk.bundle, t)
    ensures Adds(walk.bundle, walk.seen, {}, old(walk.problems), walk.used, walk.problems)
  {
    var b := walk.bundle;
    var rest := b.infos.Keys;
    while rest != {}
      invariant rest <= b.infos.Keys && walk.seen <= universe && walk.bundle == b
      invariant Adds(b, walk.seen, {}, old(walk.problems), walk.used, walk.problems)
      invariant forall t :: t in walk.seen ==> Visited(b, t)
      invariant forall t, u :: t in walk.seen && Loads(b, t, u) ==> u in walk.seen
      invariant forall p :: p in b.infos.Keys - rest && IsRoot(b, (p, [])) ==> (p, []) in walk.seen
      decreases rest
    {
      var path :| path in rest;
      rest := rest - {path};
      if !exists p | p in b.infos.Keys :: path.name in b.infos[p].needed {
        assert IsRoot(b, (path, []));
        ghost var before := walk.seen;
        walk.Visit(path, [], universe);
        assert walk.seen == before + (walk.seen - before);
      }
    }
    assert RootsIn(b, walk.seen);
    ClosedRootsHoldVisited(b, walk.seen);
  }

  method CheckHost(host: set<Soname>, hostPresent: set<Soname>, used: set<Soname>) returns (problems: set<Problem>)
    ensures forall p :: p in problems <==> (
      || (p.HostMissing? && p.soname in host && p.soname !in hostPresent)
      || (p.HostUnneeded? && p.soname in host && p.soname !in used))
  {
    var rest := host;
    problems := {};
    while rest != {}
      invariant rest <= host
      invariant forall p :: p in problems <==> (
        || (p.HostMissing? && p.soname in host - rest && p.soname !in hostPresent)
        || (p.HostUnneeded? && p.soname in host - rest && p.soname !in used))
      decreases rest
    {
      var soname :| soname in rest;
      rest := rest - {soname};
      if soname !in hostPresent {
        problems := problems + {HostMissing(soname)};
      }
      if soname !in used {
        problems := problems + {HostUnneeded(soname)};
      }
    }
  }

  method CheckNeeded(listing: Listing, files: map<(Directory, Soname), Place>, host: set<Soname>,
                     hostPresent: set<Soname>, ghost universe: set<State>)
    returns (b: Bundle, count: nat, problems: set<Problem>)
    requires forall i, j :: 0 <= i < j < |listing| ==> listing[i].0 != listing[j].0
    requires forall b' :: Describes(b', listing) && b'.files == files && b'.host == host ==>
        Closed(b', universe) && RootsIn(b', universe)
    ensures Describes(b, listing) && b.files == files && b.host == host && count == |b.infos|
    ensures forall p :: p in problems <==> Reported(b, listing, hostPresent, p)
  {
    var found;
    b, found := ReadAll(listing, files, host);
    var walk := new Walk(b, found);
    VisitRoots(walk, universe);
    var ofHost := CheckHost(host, hostPresent, walk.used);
    problems := (set p | p in walk.problems) + ofHost;
    count := |b.infos|;
  }

  /** A clean report: every need of every reachable state loads an object of the bundle or is in
      the manifest, and every manifest entry is needed by some reachable state. */
  lemma CleanReportMeansLoadable(b: Bundle, listing: Listing, hostPresent: set<Soname>)
    requires forall p :: !Reported(b, listing, hostPresent, p)
    ensures forall t :: Visited(b, t) && t.0 in b.infos ==> Supported(b.infos[t.0])
    ensures forall t, n :: Visited(b, t) && t.0 in b.infos && n in b.infos[t.0].needed ==>
      match Answer(b, t, n)
      case Load(target) => target in b.infos && Visited(b, (target, Chain(b.infos[t.0], t.1)))
      case FromHost => n in b.host && n in hostPresent
      case Fails(_) => false
    ensures forall n :: n in b.host ==> exists t :: Visited(b, t) && UsesHost(b, t, n)
  {
    forall t | Visited(b, t) && t.0 in b.infos ensures Supported(b.infos[t.0]) {
      assert !Reported(b, listing, hostPresent, Substitution(t.0));
    }
    forall t, n | Visited(b, t) && t.0 in b.infos && n in b.infos[t.0].needed
      ensures match Answer(b, t, n)
        case Load(target) => target in b.infos && Visited(b, (target, Chain(b.infos[t.0], t.1)))
        case FromHost => n in b.host && n in hostPresent
        case Fails(_) => false
    {
      match Answer(b, t, n)
      case Load(target) =>
        assert Loads(b, t, (target, Chain(b.infos[t.0], t.1)));
        VisitedLoads(b, t, (target, Chain(b.infos[t.0], t.1)));
      case FromHost =>
        assert !Reported(b, listing, hostPresent, HostMissing(n));
      case Fails(p) =>
        assert HasProblem(b, t, p) && !Reported(b, listing, hostPresent, p);
    }
    forall n | n in b.host ensures exists t :: Visited(b, t) && UsesHost(b, t, n) {
      assert !Reported(b, listing, hostPresent, HostUnneeded(n));
    }
  }

  /** A need that in some visited state loads an object of the bundle or is on the host. */
  ghost predicate Met(b: Bundle, hostPresent: set<Soname>, p: Path, soname: Soname)
    requires p in b.infos
  {
    exists t :: Visited(b, t) && t.0 == p && Supported(b.infos[p]) &&
      match Answer(b, t, soname)
      case Load(target) => target in b.infos
      case FromHost => soname in b.host && soname in hostPresent
      case Fails(_) => false
  }

  ghost predicate EveryNeedMet(b: Bundle, hostPresent: set<Soname>) {
    forall p, n :: p in b.infos && n in b.infos[p].needed ==> Met(b, hostPresent, p, n)
  }

  /** Something the walk visits loads this object. */
  ghost predicate IsLoaded(b: Bundle, p: Path) {
    exists s, t :: Visited(b, s) && Loads(b, s, t) && t.0 == p
  }

  lemma VisitedIsRootOrLoaded(b: Bundle, t: State)
    requires Visited(b, t)
    ensures IsRoot(b, t) || IsLoaded(b, t.0)
  {
    var s :| IsRoot(b, s) && Reachable(b, s, t);
    var run: seq<State> :| IsRun(b, run) && run[0] == s && run[|run| - 1] == t;
    var n := |run| - 1;
    if n > 0 {
      assert IsRun(b, run[..n]) && Reachable(b, s, run[n - 1]) && Loads(b, run[n - 1], run[n]);
    }
  }

  lemma RootOrLoadedIsVisited(b: Bundle, p: Path) returns (t: State)
    requires p in b.infos && (Wanted(b, p.name) ==> IsLoaded(b, p))
    ensures Visited(b, t) && t.0 == p
  {
    if Wanted(b, p.name) {
      var s, u :| Visited(b, s) && Loads(b, s, u) && u.0 == p;
      VisitedLoads(b, s, u);
      t := u;
    } else {
      t := (p, []);
      ReachesItself(b, t);
    }
  }

  /** With a clean report every need of every object is met exactly when every object that needs
      something, and whose own name is needed, is loaded by something the walk visits. */
  lemma CleanReportMeetsEveryNeedIff(b: Bundle, listing: Listing, hostPresent: set<Soname>)
    requires forall p :: !Reported(b, listing, hostPresent, p)
    ensures EveryNeedMet(b, hostPresent) <==>
      forall p :: p in b.infos && b.infos[p].needed != [] && Wanted(b, p.name) ==> IsLoaded(b, p)
  {
    if EveryNeedMet(b, hostPresent) {
      forall p | p in b.infos && b.infos[p].needed != [] && Wanted(b, p.name) ensures IsLoaded(b, p) {
        var n := b.infos[p].needed[0];
        assert Met(b, hostPresent, p, n);
        var t :| Visited(b, t) && t.0 == p;
        VisitedIsRootOrLoaded(b, t);
      }
    }
    if forall p :: p in b.infos && b.infos[p].needed != [] && Wanted(b, p.name) ==> IsLoaded(b, p) {
      forall p, n | p in b.infos && n in b.infos[p].needed ensures Met(b, hostPresent, p, n) {
        var t := RootOrLoadedIsVisited(b, p);
        CleanReportMeansLoadable(b, listing, hostPresent);
      }
    }
  }

  lemma VisitedLoads(b: Bundle, t: State, u: State)
    requires Visited(b, t) && Loads(b, t, u)
    ensures Visited(b, u)
  {
    var s :| IsRoot(b, s) && Reachable(b, s, t);
    var run: seq<State> :| IsRun(b, run) && run[0] == s && run[|run| - 1] == t;
    assert IsRun(b, run + [u]);
    assert Reachable(b, s, u);
  }

  // ---- chains ----

  /** The RPATHs of the loading objects, nearest loader first. */
  ghost function RpathsAlong(b: Bundle, loaders: seq<State>): seq<Directory>
    requires forall i :: 0 <= i < |loaders| ==> loaders[i].0 in b.infos && Supported(b.infos[loaders[i].0])
  {
    if loaders == [] then []
    else
      var nearest := loaders[|loaders| - 1];
      assert Supported(b.infos[nearest.0]);
      OwnRpath(b.infos[nearest.0]).value + RpathsAlong(b, loaders[..|loaders| - 1])
  }

  /** What a state inherits is the concatenation of its loaders' RPATHs, nearest first. */
  lemma {:induction false} ChainIsRpathsOfLoaders(b: Bundle, run: seq<State>)
    requires IsRun(b, run) && run[0].1 == []
    ensures forall i :: 0 <= i < |run| - 1 ==> run[i].0 in b.infos && Supported(b.infos[run[i].0])
    ensures run[|run| - 1].1 == RpathsAlong(b, run[..|run| - 1])
  {
    forall i | 0 <= i < |run| - 1 ensures run[i].0 in b.infos && Supported(b.infos[run[i].0]) {
      assert Loads(b, run[i], run[i + 1]);
    }
    if |run| > 1 {
      var n := |run| - 1;
      ChainIsRpathsOfLoaders(b, run[..n]);
      assert Loads(b, run[n - 1], run[n]);
      assert run[..n][..n - 1] == run[..n - 1];
    }
  }

  // ---- what the check does not promise ----

  const LIB: Path := Path("lib", "a.so")

  /** One object that needs itself by name, finds itself, and needs something missing besides. */
  function NeedsItself(): Bundle {
    Bundle(map[LIB := Dynamic(["a.so", "missing.so"], [], [In("lib")])], map[("lib", "a.so") := Inside(LIB)], {})
  }

  /** Objects that only need one another have no root among them and are never looked at: the
      report stays clean although a need of theirs resolves nowhere. */
  lemma RootlessCycleIsNotChecked()
    ensures var b := NeedsItself();
            var listing := [(LIB, Object(b.infos[LIB]))];
            && Describes(b, listing)
            && "missing.so" in b.infos[LIB].needed
            && (forall p :: !Reported(b, listing, {}, p))
            && forall c :: Answer(b, (LIB, c), "missing.so") == Fails(Dangling(LIB, "missing.so"))
  {
    var b := NeedsItself();
    var listing := [(LIB, Object(b.infos[LIB]))];
    assert listing[0].0 == LIB;
    assert b.infos[LIB].needed[1] == "missing.so" && b.infos[LIB].needed[0] == "a.so";
    assert Wanted(b, "a.so");
    assert [In("lib")][1..] == [] && ["lib"] + [] == ["lib"];
    assert Expand(b.infos[LIB].runpath) == Some(["lib"]);
    forall c ensures Answer(b, (LIB, c), "missing.so") == Fails(Dangling(LIB, "missing.so")) {
      assert Search(b.infos[LIB], c) == ["lib"];
      assert Find(b, ["lib"], "missing.so") == None;
    }
  }

  const APP: Path := Path("bin", "app")
  const FIRST: Path := Path("one", "x")
  const SECOND: Path := Path("two", "x")

  /** Two objects of one name, of which only the first is ever found. */
  function Shadowed(): Bundle {
    Bundle(map[APP := Dynamic(["x"], [], [In("one")]), FIRST := Dynamic([], [], []),
               SECOND := Dynamic(["missing.so"], [], [])],
           map[("one", "x") := Inside(FIRST), ("two", "x") := Inside(SECOND)], {})
  }

  lemma ShadowedAnswer()
    ensures Supported(Shadowed().infos[APP]) && Chain(Shadowed().infos[APP], []) == []
    ensures Answer(Shadowed(), (APP, []), "x") == Load(FIRST)
  {
    var app := Shadowed().infos[APP];
    assert [In("one")][1..] == [] && ["one"] + [] == ["one"] && [] + ["one"] == ["one"];
    assert Expand(app.runpath) == Some(["one"]);
    assert Search(app, []) == ["one"];
  }

  lemma ShadowedLoads(t: State)
    requires Loads(Shadowed(), (APP, []), t)
    ensures t == (FIRST, [])
  {
    ShadowedAnswer();
    assert Shadowed().infos[APP].needed[0] == "x";
  }

  lemma ShadowedVisits()
    ensures forall t :: Visited(Shadowed(), t) ==> t == (APP, []) || t == (FIRST, [])
  {
    var b := Shadowed();
    var universe: set<State> := {(APP, []), (FIRST, [])};
    forall s, t | s in universe && Loads(b, s, t) ensures t in universe {
      ShadowedLoads(t);
    }
    assert b.infos[APP].needed[0] == "x" && Wanted(b, "x");
    forall s | IsRoot(b, s) ensures s in universe {
      assert s == (s.0, []);
    }
    ClosedRootsHoldVisited(b, universe);
  }

  lemma ShadowedIsClean(t: State, p: Problem)
    requires Visited(Shadowed(), t)
    ensures !HasProblem(Shadowed(), t, p)
  {
    ShadowedVisits();
    if t == (APP, []) {
      ShadowedAnswer();
      assert Shadowed().infos[APP].needed == ["x"];
    } else {
      assert Shadowed().infos[FIRST].needed == [];
    }
  }

  /** So is an object that another of its name hides from every search. */
  lemma ShadowedCopyIsNotChecked()
    ensures var b := Shadowed();
            var listing := [(APP, Object(b.infos[APP])), (FIRST, Object(b.infos[FIRST])),
                            (SECOND, Object(b.infos[SECOND]))];
            && Describes(b, listing)
            && "missing.so" in b.infos[SECOND].needed
            && (forall p :: !Reported(b, listing, {}, p))
            && forall c :: Answer(b, (SECOND, c), "missing.so") == Fails(Dangling(SECOND, "missing.so"))
  {
    var b := Shadowed();
    var listing := [(APP, Object(b.infos[APP])), (FIRST, Object(b.infos[FIRST])), (SECOND, Object(b.infos[SECOND]))];
    assert listing[0].0 == APP && listing[1].0 == FIRST && listing[2].0 == SECOND;
    assert b.infos[SECOND].needed[0] == "missing.so";
    forall t, p | Visited(b, t) ensures !HasProblem(b, t, p) {
      ShadowedIsClean(t, p);
    }
    forall c ensures Answer(b, (SECOND, c), "missing.so") == Fails(Dangling(SECOND, "missing.so")) {
      NothingFound(b, Search(b.infos[SECOND], c), "missing.so");
    }
  }

  lemma {:induction false} NothingFound(b: Bundle, search: seq<Directory>, soname: Soname)
    requires forall d :: (d, soname) !in b.files
    ensures Find(b, search, soname) == None
  {
    if search != [] {
      NothingFound(b, search[1..], soname);
    }
  }
}
