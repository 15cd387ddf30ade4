/** The dynamic loader's rules for RPATH and RUNPATH, and the answers of the walk of `check_needed`
    against them. */
module LoaderRules {
  import opened Basics
  import opened LoaderClosure

  // ---- the rules ----

  /** These entries, none of them unsupported, name these directories. */
  ghost predicate AreDirectories(entries: seq<SearchEntry>, dirs: seq<Directory>) {
    |dirs| == |entries| && forall i :: 0 <= i < |entries| ==> entries[i] == In(dirs[i])
  }

  ghost predicate AllSupported(entries: seq<SearchEntry>) {
    forall i :: 0 <= i < |entries| ==> entries[i].In?
  }

  /** The RPATH an object hands on: none if it has a RUNPATH. */
  ghost predicate HandsOn(d: Dynamic, own: seq<Directory>) {
    if d.runpath != [] then own == [] else AreDirectories(d.rpath, own)
  }

  /** What the loading objects hand on, nearest loader first. */
  ghost predicate NearestFirst(b: Bundle, loaders: seq<Path>, dirs: seq<Directory>) {
    if loaders == [] then dirs == []
    else
      var n := |loaders| - 1;
      exists own: seq<Directory>, rest: seq<Directory> ::
        && loaders[n] in b.infos && HandsOn(b.infos[loaders[n]], own)
        && NearestFirst(b, loaders[..n], rest) && dirs == own + rest
  }

  /** The directories to search for a need of the last of these objects, each loaded by the one before:
      its RUNPATH and nothing else, or its own RPATH and then those of its loaders, nearest first. */
  ghost predicate Searched(b: Bundle, paths: seq<Path>, dirs: seq<Directory>) {
    && |paths| > 0 && paths[|paths| - 1] in b.infos
    && var info := b.infos[paths[|paths| - 1]];
       if info.runpath != [] then AreDirectories(info.runpath, dirs) else NearestFirst(b, paths, dirs)
  }

  ghost predicate FirstHolding(b: Bundle, dirs: seq<Directory>, soname: Soname, k: nat) {
    && k < |dirs| && (dirs[k], soname) in b.files
    && forall i :: 0 <= i < k ==> (dirs[i], soname) !in b.files
  }

  /** The first of the directories that holds the name decides; if none does, the host may. */
  ghost predicate Decided(b: Bundle, at: Path, dirs: seq<Directory>, soname: Soname, o: Outcome) {
    && (forall k: nat :: FirstHolding(b, dirs, soname, k) ==>
          match b.files[(dirs[k], soname)]
          case Outside => o == Fails(FoundOutside(at, soname, dirs[k]))
          case Inside(target) => o == if target in b.infos then Load(target) else Fails(NotElf(at, soname, dirs[k])))
    && ((forall i :: 0 <= i < |dirs| ==> (dirs[i], soname) !in b.files) ==>
          o == if soname in b.host then FromHost else Fails(Dangling(at, soname)))
  }

  // ---- the walk keeps them ----

  lemma {:induction false} ExpandedAreDirectories(entries: seq<SearchEntry>)
    ensures Expand(entries).Some? <==> AllSupported(entries)
    ensures Expand(entries).Some? ==> AreDirectories(entries, Expand(entries).value)
  {
    if entries != [] {
      ExpandedAreDirectories(entries[1..]);
      assert forall i :: 1 <= i < |entries| ==> entries[i] == entries[1..][i - 1];
    }
  }

  lemma DirectoriesAreOne(entries: seq<SearchEntry>, c: seq<Directory>, d: seq<Directory>)
    requires AreDirectories(entries, c) && AreDirectories(entries, d)
    ensures c == d
  {
    forall i | 0 <= i < |c| ensures c[i] == d[i] {
      assert entries[i] == In(c[i]) && entries[i] == In(d[i]);
    }
  }

  /** An object is looked into exactly when its RUNPATH or, without one, its RPATH is supported. */
  lemma SupportedIff(d: Dynamic)
    ensures Supported(d) <==> AllSupported(if d.runpath != [] then d.runpath else d.rpath)
    ensures Supported(d) ==> HandsOn(d, OwnRpath(d).value)
  {
    ExpandedAreDirectories(d.runpath);
    ExpandedAreDirectories(d.rpath);
  }

  lemma {:induction false} FindIsFirst(b: Bundle, dirs: seq<Directory>, soname: Soname)
    ensures match Find(b, dirs, soname)
            case None => forall i :: 0 <= i < |dirs| ==> (dirs[i], soname) !in b.files
            case Some(d) => exists k: nat :: FirstHolding(b, dirs, soname, k) && dirs[k] == d
  {
    if dirs != [] {
      if (dirs[0], soname) in b.files {
        assert FirstHolding(b, dirs, soname, 0);
      } else {
        FindIsFirst(b, dirs[1..], soname);
        if k: nat :| FirstHolding(b, dirs[1..], soname, k) {
          assert FirstHolding(b, dirs, soname, k + 1);
        }
      }
    }
  }

  lemma ResolveDecides(b: Bundle, at: Path, dirs: seq<Directory>, soname: Soname)
    ensures Decided(b, at, dirs, soname, Resolve(b, at, dirs, soname))
  {
    FindIsFirst(b, dirs, soname);
    FindIsInFiles(b, dirs, soname);
    forall k: nat, j: nat | FirstHolding(b, dirs, soname, k) && FirstHolding(b, dirs, soname, j) ensures k == j {
    }
  }

  lemma DecidedIsOne(b: Bundle, at: Path, dirs: seq<Directory>, soname: Soname, o: Outcome, p: Outcome)
    requires Decided(b, at, dirs, soname, o) && Decided(b, at, dirs, soname, p)
    ensures o == p
  {
    FindIsFirst(b, dirs, soname);
  }

  /** An object with a RUNPATH searches that alone, whatever was handed down to it. */
  lemma RunpathDecides(b: Bundle, s: State, soname: Soname, dirs: seq<Directory>)
    requires s.0 in b.infos && b.infos[s.0].runpath != [] && AreDirectories(b.infos[s.0].runpath, dirs)
    ensures Supported(b.infos[s.0]) && Decided(b, s.0, dirs, soname, Answer(b, s, soname))
    ensures forall c :: Answer(b, (s.0, c), soname) == Answer(b, s, soname)
  {
    var info := b.infos[s.0];
    SupportedIff(info);
    ExpandedAreDirectories(info.runpath);
    DirectoriesAreOne(info.runpath, dirs, Expand(info.runpath).value);
    forall c ensures Decided(b, s.0, dirs, soname, Answer(b, (s.0, c), soname)) {
      assert Search(info, c) == dirs;
      ResolveDecides(b, s.0, dirs, soname);
    }
    assert Decided(b, s.0, dirs, soname, Answer(b, (s.0, s.1), soname));
    forall c ensures Answer(b, (s.0, c), soname) == Answer(b, s, soname) {
      DecidedIsOne(b, s.0, dirs, soname, Answer(b, (s.0, c), soname), Answer(b, s, soname));
    }
  }

  function PathsOf(run: seq<State>): seq<Path> {
    seq(|run|, i requires 0 <= i < |run| => run[i].0)
  }

  lemma PathsOfPrefix(run: seq<State>, n: nat)
    requires n <= |run|
    ensures PathsOf(run[..n]) == PathsOf(run)[..n]
  {
  }

  /** What a state inherits is what its loaders hand on. */
  lemma {:induction false} ChainIsNearestFirst(b: Bundle, run: seq<State>)
    requires IsRun(b, run) && run[0].1 == []
    ensures NearestFirst(b, PathsOf(run)[..|run| - 1], run[|run| - 1].1)
  {
    var n := |run| - 1;
    if n > 0 {
      ChainIsNearestFirst(b, run[..n]);
      PathsOfPrefix(run, n);
      assert Loads(b, run[n - 1], run[n]);
      SupportedIff(b.infos[run[n - 1].0]);
      assert PathsOf(run)[..n][..n - 1] == PathsOf(run)[..n - 1];
      assert run[n].1 == OwnRpath(b.infos[run[n - 1].0]).value + run[n - 1].1;
    }
  }

  lemma {:induction false} NearestFirstIsOne(b: Bundle, loaders: seq<Path>, c: seq<Directory>, d: seq<Directory>)
    requires NearestFirst(b, loaders, c) && NearestFirst(b, loaders, d)
    ensures c == d
  {
    if loaders != [] {
      var n := |loaders| - 1;
      var own, rest: seq<Directory> :| HandsOn(b.infos[loaders[n]], own)
        && NearestFirst(b, loaders[..n], rest) && c == own + rest;
      var own', rest': seq<Directory> :| HandsOn(b.infos[loaders[n]], own')
        && NearestFirst(b, loaders[..n], rest') && d == own' + rest';
      NearestFirstIsOne(b, loaders[..n], rest, rest');
      if b.infos[loaders[n]].runpath == [] {
        DirectoriesAreOne(b.infos[loaders[n]].rpath, own, own');
      }
    }
  }

  /** Without a RUNPATH an object searches its own RPATH and those of its loaders. */
  lemma {:induction false} RpathDecides(b: Bundle, run: seq<State>, soname: Soname, dirs: seq<Directory>)
    requires IsRun(b, run) && run[0].1 == [] && run[|run| - 1].0 in b.infos
    requires b.infos[run[|run| - 1].0].runpath == [] && NearestFirst(b, PathsOf(run), dirs)
    ensures Supported(b.infos[run[|run| - 1].0])
    ensures Decided(b, run[|run| - 1].0, dirs, soname, Answer(b, run[|run| - 1], soname))
  {
    var n, loaders := |run| - 1, PathsOf(run)[..|run| - 1];
    var info := b.infos[run[n].0];
    var own: seq<Directory>, rest: seq<Directory> :| HandsOn(info, own)
      && NearestFirst(b, loaders, rest) && dirs == own + rest;
    SupportedIff(info);
    ChainIsNearestFirst(b, run);
    NearestFirstIsOne(b, loaders, rest, run[n].1);
    DirectoriesAreOne(info.rpath, own, OwnRpath(info).value);
    assert Search(info, run[n].1) == dirs + [] == dirs;
    ResolveDecides(b, run[n].0, dirs, soname);
  }

  /** Along any run from a root, the directories to search exist exactly for a supported object, and the
      first of them that holds a needed name decides what the walk makes of it. */
  lemma AnswerFollowsRules(b: Bundle, run: seq<State>, soname: Soname)
    requires IsRun(b, run) && run[0].1 == [] && run[|run| - 1].0 in b.infos
    ensures var at := run[|run| - 1];
            && (Supported(b.infos[at.0]) <==> exists dirs :: Searched(b, PathsOf(run), dirs))
            && forall dirs :: Searched(b, PathsOf(run), dirs) ==>
                 Supported(b.infos[at.0]) && Decided(b, at.0, dirs, soname, Answer(b, at, soname))
  {
    var n := |run| - 1;
    var info := b.infos[run[n].0];
    forall dirs | Searched(b, PathsOf(run), dirs)
      ensures Supported(info) && Decided(b, run[n].0, dirs, soname, Answer(b, run[n], soname))
    {
      if info.runpath != [] {
        RunpathDecides(b, run[n], soname, dirs);
      } else {
        RpathDecides(b, run, soname, dirs);
      }
    }
    if Supported(info) {
      var dirs := SomeSearched(b, run);
    }
  }

  lemma SomeSearched(b: Bundle, run: seq<State>) returns (dirs: seq<Directory>)
    requires IsRun(b, run) && run[0].1 == []
    requires run[|run| - 1].0 in b.infos && Supported(b.infos[run[|run| - 1].0])
    ensures Searched(b, PathsOf(run), dirs)
  {
    var n := |run| - 1;
    var info := b.infos[run[n].0];
    SupportedIff(info);
    ExpandedAreDirectories(info.runpath);
    if info.runpath != [] {
      dirs := Expand(info.runpath).value;
    } else {
      ChainIsNearestFirst(b, run);
      dirs := OwnRpath(info).value + run[n].1;
      assert NearestFirst(b, PathsOf(run), dirs);
    }
  }

  // ---- what the loader reaches, and the report ----

  /** The last object loads this one by the rules. */
  ghost predicate LoadsNext(b: Bundle, paths: seq<Path>, target: Path)
    requires |paths| > 0
  {
    exists dirs, soname :: Searched(b, paths, dirs) && Needs(b, paths, soname)
                        && Decided(b, paths[|paths| - 1], dirs, soname, Load(target))
  }

  ghost predicate Needs(b: Bundle, paths: seq<Path>, soname: Soname) {
    |paths| > 0 && paths[|paths| - 1] in b.infos && soname in b.infos[paths[|paths| - 1]].needed
  }

  /** Objects each of which loads the next, the first loaded by path. */
  ghost predicate LoadedAlong(b: Bundle, paths: seq<Path>) {
    var n := |paths| - 1;
    && n >= 0
    && if n == 0 then paths[0] in b.infos && !Wanted(b, paths[0].name)
       else LoadedAlong(b, paths[..n]) && LoadsNext(b, paths[..n], paths[n])
  }

  lemma LoadIsByRules(b: Bundle, run: seq<State>, next: State)
    requires IsRun(b, run) && run[0].1 == [] && Loads(b, run[|run| - 1], next)
    ensures LoadsNext(b, PathsOf(run), next.0)
  {
    var at := run[|run| - 1];
    var soname :| soname in b.infos[at.0].needed && Answer(b, at, soname) == Load(next.0);
    var dirs := SomeSearched(b, run);
    AnswerFollowsRules(b, run, soname);
    assert Needs(b, PathsOf(run), soname);
  }

  lemma RulesAreLoad(b: Bundle, run: seq<State>, target: Path) returns (next: State)
    requires IsRun(b, run) && run[0].1 == [] && LoadsNext(b, PathsOf(run), target)
    ensures next.0 == target && Loads(b, run[|run| - 1], next)
  {
    var at := run[|run| - 1];
    var dirs, soname :| Searched(b, PathsOf(run), dirs) && Needs(b, PathsOf(run), soname)
      && Decided(b, at.0, dirs, soname, Load(target));
    AnswerFollowsRules(b, run, soname);
    DecidedIsOne(b, at.0, dirs, soname, Load(target), Answer(b, at, soname));
    next := (target, Chain(b.infos[at.0], at.1));
  }

  lemma {:induction false} RunIsLoadedAlong(b: Bundle, run: seq<State>)
    requires IsRun(b, run) && IsRoot(b, run[0])
    ensures LoadedAlong(b, PathsOf(run))
  {
    var n := |run| - 1;
    if n > 0 {
      RunIsLoadedAlong(b, run[..n]);
      PathsOfPrefix(run, n);
      LoadIsByRules(b, run[..n], run[n]);
    }
  }

  lemma LoadOneMore(b: Bundle, run: seq<State>, next: State)
    requires IsRun(b, run) && Loads(b, run[|run| - 1], next)
    ensures IsRun(b, run + [next]) && PathsOf(run + [next]) == PathsOf(run) + [next.0] && next.0 in b.infos
  {
  }

  lemma {:induction false} LoadedAlongIsRun(b: Bundle, paths: seq<Path>) returns (run: seq<State>)
    requires LoadedAlong(b, paths)
    ensures IsRun(b, run) && IsRoot(b, run[0]) && PathsOf(run) == paths
  {
    var n := |paths| - 1;
    if n == 0 {
      run := [(paths[0], [])];
      assert PathsOf(run) == paths;
    } else {
      var before := LoadedAlongIsRun(b, paths[..n]);
      var next := RulesAreLoad(b, before, paths[n]);
      LoadOneMore(b, before, next);
      run := before + [next];
    }
  }

  lemma {:induction false} RunEndsInside(b: Bundle, run: seq<State>)
    requires IsRun(b, run) && IsRoot(b, run[0])
    ensures run[|run| - 1].0 in b.infos
  {
    if |run| > 1 {
      assert Loads(b, run[|run| - 2], run[|run| - 1]);
    }
  }

  /** What is wrong with an object so loaded: an unsupported substitution, or a need that fails. */
  ghost predicate WrongWith(b: Bundle, paths: seq<Path>, p: Problem)
    requires |paths| > 0
  {
    if exists dirs :: Searched(b, paths, dirs) then
      exists dirs, soname :: Searched(b, paths, dirs) && Needs(b, paths, soname)
                          && Decided(b, paths[|paths| - 1], dirs, soname, Fails(p))
    else p == Substitution(paths[|paths| - 1])
  }

  ghost predicate NeedsHost(b: Bundle, paths: seq<Path>, soname: Soname)
    requires |paths| > 0
  {
    exists dirs :: Searched(b, paths, dirs) && Needs(b, paths, soname)
                && Decided(b, paths[|paths| - 1], dirs, soname, FromHost)
  }

  lemma ProblemIsWrong(b: Bundle, run: seq<State>, p: Problem)
    requires IsRun(b, run) && IsRoot(b, run[0]) && run[|run| - 1].0 in b.infos
    ensures HasProblem(b, run[|run| - 1], p) <==> WrongWith(b, PathsOf(run), p)
  {
    var at, paths := run[|run| - 1], PathsOf(run);
    AnswerFollowsRules(b, run, "");
    if Supported(b.infos[at.0]) {
      if HasProblem(b, at, p) {
        var soname :| soname in b.infos[at.0].needed && Answer(b, at, soname) == Fails(p);
        var dirs := SomeSearched(b, run);
        AnswerFollowsRules(b, run, soname);
        assert Needs(b, paths, soname);
      }
      if WrongWith(b, paths, p) {
        var dirs, soname :| Searched(b, paths, dirs) && Needs(b, paths, soname)
          && Decided(b, at.0, dirs, soname, Fails(p));
        AnswerFollowsRules(b, run, soname);
        DecidedIsOne(b, at.0, dirs, soname, Fails(p), Answer(b, at, soname));
      }
    }
  }

  lemma HostIsNeeded(b: Bundle, run: seq<State>, soname: Soname)
    requires IsRun(b, run) && IsRoot(b, run[0]) && run[|run| - 1].0 in b.infos
    ensures UsesHost(b, run[|run| - 1], soname) <==> NeedsHost(b, PathsOf(run), soname)
  {
    var at, paths := run[|run| - 1], PathsOf(run);
    AnswerFollowsRules(b, run, soname);
    if UsesHost(b, at, soname) {
      var dirs := SomeSearched(b, run);
      assert Needs(b, paths, soname);
    }
    if NeedsHost(b, paths, soname) {
      var dirs :| Searched(b, paths, dirs) && Needs(b, paths, soname) && Decided(b, at.0, dirs, soname, FromHost);
      DecidedIsOne(b, at.0, dirs, soname, FromHost, Answer(b, at, soname));
    }
  }

  /** Loaded along this way, the last object is handed down this chain. */
  ghost predicate LoadedAs(b: Bundle, paths: seq<Path>, t: State) {
    LoadedAlong(b, paths) && paths[|paths| - 1] == t.0 && NearestFirst(b, paths[..|paths| - 1], t.1)
  }

  lemma VisitedIsLoaded(b: Bundle, t: State)
    requires Visited(b, t)
    ensures exists paths :: LoadedAs(b, paths, t)
  {
    var run := RunTo(b, t);
    RunIsLoadedAlong(b, run);
    ChainIsNearestFirst(b, run);
    assert LoadedAs(b, PathsOf(run), t);
  }

  lemma LoadedIsVisited(b: Bundle, paths: seq<Path>, t: State)
    requires LoadedAs(b, paths, t)
    ensures Visited(b, t)
  {
    var run := LoadedAlongIsRun(b, paths);
    ChainIsNearestFirst(b, run);
    NearestFirstIsOne(b, paths[..|paths| - 1], t.1, run[|run| - 1].1);
    assert run[|run| - 1] == t;
    assert Reachable(b, run[0], t);
  }

  /** The walk visits exactly the objects that the loader may load, with what their loaders hand on. */
  lemma VisitedIffLoaded(b: Bundle, t: State)
    ensures Visited(b, t) <==> exists paths :: LoadedAs(b, paths, t)
  {
    if Visited(b, t) {
      VisitedIsLoaded(b, t);
    }
    if paths :| LoadedAs(b, paths, t) {
      LoadedIsVisited(b, paths, t);
    }
  }

  lemma RunTo(b: Bundle, t: State) returns (run: seq<State>)
    requires Visited(b, t)
    ensures IsRun(b, run) && IsRoot(b, run[0]) && run[|run| - 1] == t
  {
    var s :| IsRoot(b, s) && Reachable(b, s, t);
    run :| IsRun(b, run) && run[0] == s && run[|run| - 1] == t;
  }

  /** Whether the report of `check_needed` names a problem, by the loader's rules alone. */
  ghost predicate ReportedByRules(b: Bundle, listing: Listing, hostPresent: set<Soname>, p: Problem) {
    || (exists i :: 0 <= i < |listing| && listing[i].1.Broken? && p == Unreadable(listing[i].0))
    || (exists paths :: LoadedAlong(b, paths) && WrongWith(b, paths, p))
    || (p.HostMissing? && p.soname in b.host && p.soname !in hostPresent)
    || (p.HostUnneeded? && p.soname in b.host
        && forall paths :: LoadedAlong(b, paths) ==> !NeedsHost(b, paths, p.soname))
  }

  /** The state and the way to it agree on a problem. */
  ghost predicate Agree(b: Bundle, t: State, paths: seq<Path>, p: Problem)
    requires |paths| > 0
  {
    && (HasProblem(b, t, p) <==> WrongWith(b, paths, p))
    && (p.HostUnneeded? ==> (UsesHost(b, t, p.soname) <==> NeedsHost(b, paths, p.soname)))
  }

  lemma RunAgrees(b: Bundle, run: seq<State>, p: Problem)
    requires IsRun(b, run) && IsRoot(b, run[0])
    ensures Agree(b, run[|run| - 1], PathsOf(run), p)
  {
    RunEndsInside(b, run);
    ProblemIsWrong(b, run, p);
    if p.HostUnneeded? {
      HostIsNeeded(b, run, p.soname);
    }
  }

  /** The report is right about every object the loader may load, along every way it may be loaded. */
  lemma ReportFollowsRules(b: Bundle, listing: Listing, hostPresent: set<Soname>, p: Problem)
    ensures Reported(b, listing, hostPresent, p) <==> ReportedByRules(b, listing, hostPresent, p)
  {
    forall t | Visited(b, t) ensures exists paths :: LoadedAlong(b, paths) && Agree(b, t, paths, p) {
      var run := RunTo(b, t);
      RunIsLoadedAlong(b, run);
      RunAgrees(b, run, p);
    }
    forall paths | LoadedAlong(b, paths) ensures exists t :: Visited(b, t) && Agree(b, t, paths, p) {
      var run := LoadedAlongIsRun(b, paths);
      RunAgrees(b, run, p);
      assert Reachable(b, run[0], run[|run| - 1]);
      assert Visited(b, run[|run| - 1]);
    }
  }
}
