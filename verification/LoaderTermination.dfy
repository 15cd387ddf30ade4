/** When the walk of `check_needed` ends. What an object inherits may grow for ever, but a search only
    ever sees the first occurrence of each directory, so what matters is finite. */
module LoaderTermination {
  import opened Basics
  import opened LoaderClosure

  /** Some finite set of states holds the whole walk. */
  ghost predicate WalkEnds(b: Bundle) {
    exists universe: set<State> :: Closed(b, universe) && RootsIn(b, universe)
  }

  ghost predicate HoldsWalk(b: Bundle, states: set<State>) {
    forall t :: Visited(b, t) ==> t in states
  }

  /** That is to say, it visits finitely many states. */
  lemma EndsIffFinitelyVisited(b: Bundle)
    ensures WalkEnds(b) <==> exists states: set<State> :: HoldsWalk(b, states)
  {
    if WalkEnds(b) {
      var universe: set<State> :| Closed(b, universe) && RootsIn(b, universe);
      ClosedRootsHoldVisited(b, universe);
      assert HoldsWalk(b, universe);
    }
    if states: set<State> :| HoldsWalk(b, states) {
      VisitedIsClosed(b, set t | t in states && Visited(b, t) && t.0 in b.infos);
    }
  }

  lemma VisitedIsClosed(b: Bundle, visited: set<State>)
    requires forall t :: t in visited <==> Visited(b, t) && t.0 in b.infos
    ensures Closed(b, visited) && RootsIn(b, visited)
  {
    forall s, t | s in visited && Loads(b, s, t) ensures t in visited {
      VisitedLoads(b, s, t);
    }
    forall s | IsRoot(b, s) ensures s in visited {
      ReachesItself(b, s);
    }
  }

  // ---- chains without repetition ----

  function Minus(c: seq<Directory>, gone: set<Directory>): seq<Directory> {
    if c == [] then [] else (if c[0] in gone then [] else [c[0]]) + Minus(c[1..], gone)
  }

  /** Each directory where it first occurs. */
  function Compact(c: seq<Directory>): seq<Directory> {
    if c == [] then [] else [c[0]] + Minus(Compact(c[1..]), {c[0]})
  }

  function KeyOf(s: State): State {
    (s.0, Compact(s.1))
  }

  ghost function Elements(c: seq<Directory>): set<Directory> {
    set d | d in c
  }

  lemma {:induction false} MinusHolds(c: seq<Directory>, gone: set<Directory>)
    ensures forall d :: d in Minus(c, gone) <==> d in c && d !in gone
  {
    if c != [] {
      MinusHolds(c[1..], gone);
    }
  }

  lemma {:induction false} MinusNone(c: seq<Directory>)
    ensures Minus(c, {}) == c
  {
    if c != [] {
      MinusNone(c[1..]);
    }
  }

  lemma {:induction false} MinusAppend(c: seq<Directory>, e: seq<Directory>, gone: set<Directory>)
    ensures Minus(c + e, gone) == Minus(c, gone) + Minus(e, gone)
  {
    if c == [] {
      assert c + e == e;
    } else {
      assert (c + e)[1..] == c[1..] + e;
      MinusAppend(c[1..], e, gone);
    }
  }

  lemma {:induction false} MinusTwice(c: seq<Directory>, gone: set<Directory>, more: set<Directory>)
    ensures Minus(Minus(c, gone), more) == Minus(c, gone + more)
  {
    if c != [] {
      MinusTwice(c[1..], gone, more);
      MinusAppend(if c[0] in gone then [] else [c[0]], Minus(c[1..], gone), more);
    }
  }

  lemma {:induction false} MinusAll(c: seq<Directory>, gone: set<Directory>)
    requires forall d :: d in c ==> d in gone
    ensures Minus(c, gone) == []
  {
    if c != [] {
      MinusAll(c[1..], gone);
    }
  }

  lemma {:induction false} CompactHolds(c: seq<Directory>)
    ensures forall d :: d in Compact(c) <==> d in c
  {
    if c != [] {
      CompactHolds(c[1..]);
      MinusHolds(Compact(c[1..]), {c[0]});
    }
  }

  lemma {:induction false} CompactAppend(c: seq<Directory>, e: seq<Directory>)
    ensures Compact(c + e) == Compact(c) + Minus(Compact(e), Elements(c))
  {
    if c == [] {
      assert c + e == e && Elements(c) == {};
      MinusNone(Compact(e));
    } else {
      var rest, first := c[1..], {c[0]};
      assert (c + e)[1..] == rest + e;
      CompactAppend(rest, e);
      assert Elements(c) == Elements(rest) + first by {
        assert c == [c[0]] + rest;
      }
      assert Minus(Compact(rest + e), first) == Minus(Compact(rest), first) + Minus(Compact(e), Elements(c)) by {
        MinusAppend(Compact(rest), Minus(Compact(e), Elements(rest)), first);
        MinusTwice(Compact(e), Elements(rest), first);
      }
    }
  }

  /** To put the same directories in front twice changes nothing. */
  lemma {:induction false} CompactAbsorbs(r: seq<Directory>, c: seq<Directory>)
    ensures Compact(r + (r + c)) == Compact(r + c)
  {
    var own := Elements(r);
    var rest := Minus(Compact(c), own);
    CompactAppend(r, c);
    CompactAppend(r, r + c);
    assert Minus(Compact(r) + rest, own) == rest by {
      MinusAppend(Compact(r), rest, own);
      CompactHolds(r);
      MinusAll(Compact(r), own);
      MinusTwice(Compact(c), own, own);
      assert own + own == own;
    }
  }

  lemma {:induction false} FindMinus(b: Bundle, c: seq<Directory>, d: Directory, soname: Soname)
    requires (d, soname) !in b.files
    ensures Find(b, Minus(c, {d}), soname) == Find(b, c, soname)
  {
    if c != [] {
      FindMinus(b, c[1..], d, soname);
      assert c[0] != d ==> Minus(c, {d})[1..] == Minus(c[1..], {d});
      assert c[0] == d ==> Minus(c, {d}) == Minus(c[1..], {d});
    }
  }

  /** A search does not see repetitions. */
  lemma {:induction false} FindCompact(b: Bundle, c: seq<Directory>, soname: Soname)
    ensures Find(b, Compact(c), soname) == Find(b, c, soname)
  {
    if c != [] && (c[0], soname) !in b.files {
      FindMinus(b, Compact(c[1..]), c[0], soname);
      FindCompact(b, c[1..], soname);
    }
  }

  // ---- states with the same key behave alike ----

  lemma SameAnswer(b: Bundle, s: State, v: State, soname: Soname)
    requires s.0 in b.infos && Supported(b.infos[s.0]) && v.0 == s.0
    requires var own := OwnRpath(b.infos[s.0]).value; Compact(own + s.1) == Compact(own + v.1)
    ensures Answer(b, s, soname) == Answer(b, v, soname)
  {
    var info := b.infos[s.0];
    if info.runpath == [] {
      assert Search(info, s.1) == Chain(info, s.1) && Search(info, v.1) == Chain(info, v.1);
      FindCompact(b, Chain(info, s.1), soname);
      FindCompact(b, Chain(info, v.1), soname);
    }
  }

  /** What one state loads, a state with the same key loads too. */
  lemma LoadFollows(b: Bundle, s: State, t: State, v: State) returns (u: State)
    requires Loads(b, s, t) && KeyOf(v) == KeyOf(s)
    ensures Loads(b, v, u) && KeyOf(u) == KeyOf(t) && |u.1| - |v.1| == |t.1| - |s.1|
  {
    var own := OwnRpath(b.infos[s.0]).value;
    CompactAppend(own, s.1);
    CompactAppend(own, v.1);
    var n :| n in b.infos[s.0].needed && Answer(b, s, n) == Load(t.0);
    SameAnswer(b, s, v, n);
    u := (t.0, Chain(b.infos[v.0], v.1));
  }

  lemma ReachThenLoad(b: Bundle, s: State, t: State, u: State)
    requires Reachable(b, s, t) && Loads(b, t, u)
    ensures Reachable(b, s, u)
  {
    var run: seq<State> :| IsRun(b, run) && run[0] == s && run[|run| - 1] == t;
    assert IsRun(b, run + [u]);
  }

  lemma ReachThenReach(b: Bundle, s: State, t: State, u: State)
    requires Reachable(b, s, t) && Reachable(b, t, u)
    ensures Reachable(b, s, u)
  {
    var first: seq<State> :| IsRun(b, first) && first[0] == s && first[|first| - 1] == t;
    var second: seq<State> :| IsRun(b, second) && second[0] == t && second[|second| - 1] == u;
    var run := first + second[1..];
    forall i | 0 <= i < |run| - 1 ensures Loads(b, run[i], run[i + 1]) {
      if i >= |first| - 1 {
        assert Loads(b, second[i + 1 - |first|], second[i + 2 - |first|]);
      }
    }
    assert IsRun(b, run);
  }

  lemma {:induction false} RunFollows(b: Bundle, run: seq<State>, v: State) returns (u: State)
    requires IsRun(b, run) && KeyOf(v) == KeyOf(run[0])
    ensures var t := run[|run| - 1];
            Reachable(b, v, u) && KeyOf(u) == KeyOf(t) && |u.1| - |v.1| == |t.1| - |run[0].1|
  {
    var n := |run| - 1;
    if n == 0 {
      u := v;
      ReachesItself(b, v);
    } else {
      var w := RunFollows(b, run[..n], v);
      assert Loads(b, run[n - 1], run[n]);
      u := LoadFollows(b, run[n - 1], run[n], w);
      ReachThenLoad(b, v, w, u);
    }
  }

  lemma ReachFollows(b: Bundle, s: State, t: State, v: State) returns (u: State)
    requires Reachable(b, s, t) && KeyOf(v) == KeyOf(s)
    ensures Reachable(b, v, u) && KeyOf(u) == KeyOf(t) && |u.1| - |v.1| == |t.1| - |s.1|
  {
    var run: seq<State> :| IsRun(b, run) && run[0] == s && run[|run| - 1] == t;
    u := RunFollows(b, run, v);
  }

  lemma VisitedReaches(b: Bundle, s: State, t: State)
    requires Visited(b, s) && Reachable(b, s, t)
    ensures Visited(b, t)
  {
    var root :| IsRoot(b, root) && Reachable(b, root, s);
    ReachThenReach(b, root, s, t);
  }

  // ---- a walk that comes back longer does not end ----

  /** The walk comes back to an object that sees the same directories, with a longer chain. */
  ghost predicate ComesBackLonger(b: Bundle) {
    exists s, t :: Visited(b, s) && Reachable(b, s, t) && KeyOf(s) == KeyOf(t) && |s.1| < |t.1|
  }

  lemma {:induction false} TurnsGrow(b: Bundle, s: State, t: State, n: nat) returns (v: State)
    requires Reachable(b, s, t) && KeyOf(s) == KeyOf(t) && |s.1| < |t.1|
    ensures Reachable(b, s, v) && KeyOf(v) == KeyOf(s) && |v.1| >= n
  {
    if n == 0 {
      v := s;
      ReachesItself(b, s);
    } else {
      var w := TurnsGrow(b, s, t, n - 1);
      v := ReachFollows(b, s, t, w);
      ReachThenReach(b, s, w, v);
    }
  }

  lemma {:induction false} LongestChain(states: set<State>) returns (n: nat)
    ensures forall s :: s in states ==> |s.1| <= n
  {
    if states == {} {
      n := 0;
    } else {
      var s :| s in states;
      n := LongestChain(states - {s});
      n := if n < |s.1| then |s.1| else n;
    }
  }

  lemma EndsWithoutComingBack(b: Bundle)
    requires WalkEnds(b)
    ensures !ComesBackLonger(b)
  {
    if ComesBackLonger(b) {
      var universe: set<State> :| Closed(b, universe) && RootsIn(b, universe);
      var s, t :| Visited(b, s) && Reachable(b, s, t) && KeyOf(s) == KeyOf(t) && |s.1| < |t.1|;
      var n := LongestChain(universe);
      var v := TurnsGrow(b, s, t, n + 1);
      VisitedReaches(b, s, v);
      ClosedRootsHoldVisited(b, universe);
    }
  }

  // ---- there are finitely many keys ----

  ghost function Rpath(b: Bundle, p: Path): seq<Directory> {
    if p in b.infos && OwnRpath(b.infos[p]).Some? then OwnRpath(b.infos[p]).value else []
  }

  ghost function Directories(b: Bundle): set<Directory> {
    set p, i | p in b.infos && 0 <= i < |Rpath(b, p)| :: Rpath(b, p)[i]
  }

  /** All sequences over a set that repeat nothing. */
  ghost function Arrangements(dirs: set<Directory>): set<seq<Directory>> {
    {[]} + set d, r | d in dirs && r in Arrangements(dirs - {d}) :: [d] + r
  }

  ghost function Keys(b: Bundle): set<State> {
    set p, c | p in b.infos && c in Arrangements(Directories(b)) :: (p, c)
  }

  lemma {:induction false} CompactIsArranged(c: seq<Directory>, gone: set<Directory>, dirs: set<Directory>)
    requires forall d :: d in c && d !in gone ==> d in dirs
    ensures Minus(Compact(c), gone) in Arrangements(dirs)
  {
    if c != [] {
      var rest := Compact(c[1..]);
      MinusTwice(rest, {c[0]}, gone);
      assert Compact(c)[1..] == Minus(rest, {c[0]});
      if c[0] in gone {
        CompactIsArranged(c[1..], gone, dirs);
        assert {c[0]} + gone == gone;
        assert Minus(Compact(c), gone) == Minus(rest, gone);
      } else {
        CompactIsArranged(c[1..], {c[0]} + gone, dirs - {c[0]});
        assert Minus(Compact(c), gone) == [c[0]] + Minus(rest, {c[0]} + gone);
      }
    }
  }

  lemma {:induction false} RunStaysInside(b: Bundle, run: seq<State>)
    requires IsRun(b, run) && IsRoot(b, run[0])
    ensures var t := run[|run| - 1]; t.0 in b.infos && forall d :: d in t.1 ==> d in Directories(b)
  {
    var n := |run| - 1;
    if n > 0 {
      RunStaysInside(b, run[..n]);
      assert Loads(b, run[n - 1], run[n]);
      assert run[n].1 == Rpath(b, run[n - 1].0) + run[n - 1].1;
    }
  }

  /** However long the chains, only finitely many keys are visited. */
  lemma VisitedKeys(b: Bundle, s: State)
    requires Visited(b, s)
    ensures s.0 in b.infos && KeyOf(s) in Keys(b)
  {
    var root :| IsRoot(b, root) && Reachable(b, root, s);
    var run: seq<State> :| IsRun(b, run) && run[0] == root && run[|run| - 1] == s;
    RunStaysInside(b, run);
    CompactIsArranged(s.1, {}, Directories(b));
    MinusNone(Compact(s.1));
  }

  // ---- ranks ----

  /** Never rises along a load, and falls wherever the loader adds an RPATH of its own. */
  ghost predicate Ranks(b: Bundle, rank: State -> nat) {
    forall s, t :: Visited(b, s) && Loads(b, s, t) ==> Falls(b, rank, s, t)
  }

  ghost predicate Falls(b: Bundle, rank: State -> nat, s: State, t: State) {
    rank(KeyOf(t)) <= rank(KeyOf(s)) && (Rpath(b, s.0) != [] ==> rank(KeyOf(t)) < rank(KeyOf(s)))
  }

  ghost predicate LeadsTo(b: Bundle, k: State, l: State) {
    exists s, t :: Visited(b, s) && KeyOf(s) == k && Reachable(b, s, t) && KeyOf(t) == l
  }

  ghost function Ahead(b: Bundle, k: State): set<State> {
    set l | l in Keys(b) && LeadsTo(b, k, l)
  }

  lemma AheadShrinks(b: Bundle, s: State, t: State)
    requires Visited(b, s) && Loads(b, s, t)
    ensures Ahead(b, KeyOf(t)) <= Ahead(b, KeyOf(s))
  {
    forall l | l in Ahead(b, KeyOf(t)) ensures LeadsTo(b, KeyOf(s), l) {
      var u := ReachFromKey(b, t, l);
      LoadThenReach(b, s, t, u);
    }
  }

  lemma ReachFromKey(b: Bundle, t: State, l: State) returns (u: State)
    requires LeadsTo(b, KeyOf(t), l)
    ensures Reachable(b, t, u) && KeyOf(u) == l && |t.1| <= |u.1|
  {
    var v, w :| Visited(b, v) && KeyOf(v) == KeyOf(t) && Reachable(b, v, w) && KeyOf(w) == l;
    u := ReachFollows(b, v, w, t);
    var run: seq<State> :| IsRun(b, run) && run[0] == t && run[|run| - 1] == u;
    ChainsNeverShrink(b, run);
  }

  lemma {:induction false} ChainsNeverShrink(b: Bundle, run: seq<State>)
    requires IsRun(b, run)
    ensures |run[0].1| <= |run[|run| - 1].1|
  {
    var n := |run| - 1;
    if n > 0 {
      ChainsNeverShrink(b, run[..n]);
      assert Loads(b, run[n - 1], run[n]);
    }
  }

  lemma AheadLosesLoader(b: Bundle, s: State, t: State)
    requires !ComesBackLonger(b) && Visited(b, s) && Loads(b, s, t) && Rpath(b, s.0) != []
    ensures KeyOf(s) in Ahead(b, KeyOf(s)) && KeyOf(s) !in Ahead(b, KeyOf(t))
  {
    VisitedKeys(b, s);
    ReachesItself(b, s);
    assert LeadsTo(b, KeyOf(s), KeyOf(s));
    if LeadsTo(b, KeyOf(t), KeyOf(s)) {
      var u := ReachFromKey(b, t, KeyOf(s));
      LoadThenReach(b, s, t, u);
      assert false;
    }
  }

  lemma AheadCounts(b: Bundle, s: State, t: State)
    requires !ComesBackLonger(b) && Visited(b, s) && Loads(b, s, t)
    ensures |Ahead(b, KeyOf(t))| <= |Ahead(b, KeyOf(s))|
    ensures Rpath(b, s.0) != [] ==> |Ahead(b, KeyOf(t))| < |Ahead(b, KeyOf(s))|
  {
    var fewer, more := Ahead(b, KeyOf(t)), Ahead(b, KeyOf(s));
    AheadShrinks(b, s, t);
    SubsetIsNotLarger(fewer, more);
    if Rpath(b, s.0) != [] {
      AheadLosesLoader(b, s, t);
      ProperSubsetIsSmaller(fewer, more, KeyOf(s));
    }
  }

  /** Without a longer return the number of keys still ahead is a rank. */
  lemma NoReturnGivesRank(b: Bundle) returns (rank: State -> nat)
    requires !ComesBackLonger(b)
    ensures Ranks(b, rank)
  {
    rank := k => |Ahead(b, k)|;
    forall s, t | Visited(b, s) && Loads(b, s, t) ensures Falls(b, rank, s, t) {
      AheadCounts(b, s, t);
    }
  }

  lemma {:induction false} SubsetIsNotLarger(small: set<State>, large: set<State>)
    requires small <= large
    ensures |small| <= |large|
  {
    assert large == small + (large - small);
  }

  lemma ProperSubsetIsSmaller(small: set<State>, large: set<State>, k: State)
    requires small <= large && k in large && k !in small
    ensures |small| < |large|
  {
    SubsetIsNotLarger(small, large - {k});
  }

  // ---- a rank bounds the walk ----

  ghost function Rpaths(b: Bundle): set<seq<Directory>> {
    set p | p in b.infos :: Rpath(b, p)
  }

  /** All concatenations of at most `n` of them. */
  ghost function Chains(rpaths: set<seq<Directory>>, n: nat): set<seq<Directory>> {
    if n == 0 then {[]}
    else Chains(rpaths, n - 1) + set r, c | r in rpaths && c in Chains(rpaths, n - 1) :: r + c
  }

  lemma {:induction false} ChainsGrow(rpaths: set<seq<Directory>>, m: nat, n: nat)
    requires m <= n
    ensures [] in Chains(rpaths, m) && Chains(rpaths, m) <= Chains(rpaths, n)
    decreases n
  {
    if m < n {
      ChainsGrow(rpaths, m, n - 1);
    } else if n > 0 {
      ChainsGrow(rpaths, n - 1, n - 1);
    }
  }

  lemma {:induction false} LongerChain(rpaths: set<seq<Directory>>, r: seq<Directory>, c: seq<Directory>, n: nat,
                                       m: nat)
    requires r in rpaths && c in Chains(rpaths, n) && n <= m && (r != [] ==> n < m)
    ensures r + c in Chains(rpaths, m)
  {
    if r == [] {
      assert r + c == c;
      ChainsGrow(rpaths, n, m);
    } else {
      assert r + c in Chains(rpaths, n + 1);
      ChainsGrow(rpaths, n + 1, m);
    }
  }

  /** The lower the rank, the more RPATHs may lie behind. */
  ghost predicate Behind(rpaths: set<seq<Directory>>, c: seq<Directory>, rank: nat, top: nat) {
    rank <= top && c in Chains(rpaths, top - rank)
  }

  ghost predicate Fits(b: Bundle, rank: State -> nat, top: nat, s: State) {
    s.0 in b.infos && Visited(b, s) && Behind(Rpaths(b), s.1, rank(KeyOf(s)), top)
  }

  lemma MoreBehind(rpaths: set<seq<Directory>>, c: seq<Directory>, own: seq<Directory>, before: nat, after: nat,
                   top: nat)
    requires Behind(rpaths, c, before, top) && own in rpaths && after <= before && (own != [] ==> after < before)
    ensures Behind(rpaths, own + c, after, top)
  {
    LongerChain(rpaths, own, c, top - before, top - after);
  }

  lemma LoadAddsRpath(b: Bundle, s: State, t: State)
    requires Loads(b, s, t)
    ensures t.0 in b.infos && Rpath(b, s.0) in Rpaths(b) && t.1 == Rpath(b, s.0) + s.1
  {
  }

  lemma FitsAfterLoad(b: Bundle, rank: State -> nat, top: nat, s: State, t: State)
    requires Falls(b, rank, s, t) && Fits(b, rank, top, s) && Loads(b, s, t)
    ensures Fits(b, rank, top, t)
  {
    LoadAddsRpath(b, s, t);
    VisitedLoads(b, s, t);
    MoreBehind(Rpaths(b), s.1, Rpath(b, s.0), rank(KeyOf(s)), rank(KeyOf(t)), top);
  }

  ghost function Pairs(paths: set<Path>, chains: set<seq<Directory>>): set<State> {
    set p, c | p in paths && c in chains :: (p, c)
  }

  ghost function Universe(b: Bundle, rank: State -> nat, top: nat): set<State> {
    set s | s in Pairs(b.infos.Keys, Chains(Rpaths(b), top)) && Fits(b, rank, top, s)
  }

  lemma {:induction false} BehindIsChain(rpaths: set<seq<Directory>>, c: seq<Directory>, rank: nat, top: nat)
    requires Behind(rpaths, c, rank, top)
    ensures c in Chains(rpaths, top)
  {
    ChainsGrow(rpaths, top - rank, top);
  }

  lemma UniverseHolds(b: Bundle, rank: State -> nat, top: nat, s: State)
    requires Fits(b, rank, top, s)
    ensures s in Universe(b, rank, top)
  {
    BehindIsChain(Rpaths(b), s.1, rank(KeyOf(s)), top);
    assert s == (s.0, s.1);
  }

  lemma {:induction false} HighestRank(rank: State -> nat, paths: set<Path>) returns (top: nat)
    ensures forall p :: p in paths ==> rank((p, [])) <= top
  {
    if paths == {} {
      top := 0;
    } else {
      var p :| p in paths;
      top := HighestRank(rank, paths - {p});
      top := if top < rank((p, [])) then rank((p, [])) else top;
    }
  }

  lemma RootFits(b: Bundle, rank: State -> nat, top: nat, s: State)
    requires IsRoot(b, s) && rank((s.0, [])) <= top
    ensures Fits(b, rank, top, s)
  {
    ReachesItself(b, s);
    assert s == (s.0, []) && KeyOf(s) == s;
    NothingBehind(Rpaths(b), rank(s), top);
  }

  lemma NothingBehind(rpaths: set<seq<Directory>>, rank: nat, top: nat)
    requires rank <= top
    ensures Behind(rpaths, [], rank, top)
  {
    ChainsGrow(rpaths, 0, top - rank);
  }

  lemma RankEndsWalk(b: Bundle, rank: State -> nat)
    requires Ranks(b, rank)
    ensures WalkEnds(b)
  {
    var top := HighestRank(rank, b.infos.Keys);
    var universe := Universe(b, rank, top);
    forall s, t | s in universe && Loads(b, s, t) ensures t in universe {
      assert Falls(b, rank, s, t);
      FitsAfterLoad(b, rank, top, s, t);
      UniverseHolds(b, rank, top, t);
    }
    forall s | IsRoot(b, s) ensures s in universe {
      RootFits(b, rank, top, s);
      UniverseHolds(b, rank, top, s);
    }
    assert Closed(b, universe) && RootsIn(b, universe);
  }

  /** The walk ends exactly when it never comes back to an object that sees the same directories
      with a longer chain; equally, exactly when some rank falls with every RPATH added. */
  lemma WalkEndsIff(b: Bundle)
    ensures WalkEnds(b) <==> !ComesBackLonger(b)
    ensures WalkEnds(b) <==> exists rank: State -> nat :: Ranks(b, rank)
  {
    if WalkEnds(b) {
      EndsWithoutComingBack(b);
    }
    if !ComesBackLonger(b) {
      var rank := NoReturnGivesRank(b);
      RankEndsWalk(b, rank);
    }
    if rank: State -> nat :| Ranks(b, rank) {
      RankEndsWalk(b, rank);
    }
  }

  // ---- cycles ----

  /** A visited object that loads itself and adds an RPATH never stops. */
  lemma SelfLoadNeverEnds(b: Bundle, s: State, t: State)
    requires Visited(b, s) && Loads(b, s, t) && t.0 == s.0 && Rpath(b, s.0) != []
    ensures !WalkEnds(b)
  {
    var own := Rpath(b, s.0);
    CompactAbsorbs(own, s.1);
    var n :| n in b.infos[s.0].needed && Answer(b, s, n) == Load(t.0);
    SameAnswer(b, s, t, n);
    var u := (t.0, own + t.1);
    assert Loads(b, t, u);
    VisitedLoads(b, s, t);
    ReachesItself(b, u);
    LoadThenReach(b, t, u, u);
    WalkEndsIff(b);
  }

  const A: Path := Path("z", "a")
  const B: Path := Path("z", "b")
  const B2: Path := Path("y", "b")

  /** `app` brings in `z`, where `a` and `b` need each other, and `b` brings in `y` with a `b` of its own. */
  function ShadowedCycle(): Bundle {
    Bundle(map[APP := Dynamic(["a"], [In("z")], []), A := Dynamic(["b"], [], []),
               B := Dynamic(["a"], [In("y")], []), B2 := Dynamic([], [], [])],
           map[("z", "a") := Inside(A), ("z", "b") := Inside(B), ("y", "b") := Inside(B2)], {})
  }

  /** Every load of this walk leads to one state. */
  function ShadowedNext(s: State): State {
    if s == (APP, []) then (A, ["z"])
    else if s == (A, ["z"]) then (B, ["z"])
    else if s == (B, ["z"]) then (A, ["y", "z"])
    else (B2, ["y", "z"])
  }

  lemma {:induction false} ShadowedCycleSearch(c: seq<Directory>)
    requires c == ["z"] || c == ["y", "z"]
    ensures Find(ShadowedCycle(), c, "a") == Some("z")
    ensures Find(ShadowedCycle(), c, "b") == Some(c[0])
  {
    assert ["y", "z"][1..] == ["z"];
  }

  lemma ShadowedCycleRpaths()
    ensures forall p :: p in ShadowedCycle().infos ==> Supported(ShadowedCycle().infos[p])
    ensures Rpath(ShadowedCycle(), APP) == ["z"] && Rpath(ShadowedCycle(), B) == ["y"]
    ensures Rpath(ShadowedCycle(), A) == [] && Rpath(ShadowedCycle(), B2) == []
  {
    assert [In("z")][1..] == [] && [In("y")][1..] == [];
    assert ["z"] + [] == ["z"] && ["y"] + [] == ["y"];
  }

  lemma ShadowedCycleLoads(s: State)
    requires s in {(APP, []), (A, ["z"]), (B, ["z"]), (A, ["y", "z"])}
    ensures forall t :: Loads(ShadowedCycle(), s, t) <==> t == ShadowedNext(s)
  {
    var b := ShadowedCycle();
    ShadowedCycleRpaths();
    var info := b.infos[s.0];
    var c := Chain(info, s.1);
    assert ["y"] + ["z"] == ["y", "z"] && ["z"] + [] == ["z"] && [] + s.1 == s.1;
    assert c == ShadowedNext(s).1 && Search(info, s.1) == c;
    ShadowedCycleSearch(c);
    var n := info.needed[0];
    assert Answer(b, s, n) == Load(ShadowedNext(s).0);
  }

  const TURNS: set<State> := {(APP, []), (A, ["z"]), (B, ["z"]), (A, ["y", "z"])}

  lemma ShadowedCycleRoots()
    ensures RootsIn(ShadowedCycle(), TURNS)
  {
    var b := ShadowedCycle();
    assert b.infos[APP].needed[0] == "a" && b.infos[A].needed[0] == "b";
    assert Wanted(b, A.name) && Wanted(b, B.name);
    forall s | IsRoot(b, s) ensures s in TURNS {
      assert s == (s.0, s.1) && s.0 == APP;
    }
  }

  lemma ShadowedCycleIsClosed(universe: set<State>)
    requires universe == TURNS + {(B2, ["y", "z"])}
    ensures Closed(ShadowedCycle(), universe)
  {
    forall s, t | s in universe && Loads(ShadowedCycle(), s, t) ensures t in universe {
      if s in TURNS {
        ShadowedCycleLoads(s);
        assert ShadowedNext(s) in universe;
      }
    }
  }

  /** An RPATH on a cycle of loads need not keep the walk going: here `a` loads `b` and `b` loads `a`,
      and on the second turn the `b` that the RPATH brought in is found first. */
  lemma ShadowedCycleEnds()
    ensures Loads(ShadowedCycle(), (A, ["z"]), (B, ["z"])) && Loads(ShadowedCycle(), (B, ["z"]), (A, ["y", "z"]))
    ensures Rpath(ShadowedCycle(), B) != [] && WalkEnds(ShadowedCycle())
  {
    ShadowedCycleRpaths();
    ShadowedCycleLoads((A, ["z"]));
    ShadowedCycleLoads((B, ["z"]));
    ShadowedCycleRoots();
    ShadowedCycleIsClosed(TURNS + {(B2, ["y", "z"])});
  }
}
