/** Word-level edit distance: the row-by-row dynamic programme of `word_errors`,
    proved to return the cheapest edit script, and the metric laws that follow. */
module WordErrors {

  type Word = string

  /** One step of an edit script. A `Swap` of a word for itself is free. */
  datatype Edit = Swap(was: Word, now: Word) | Delete(was: Word) | Insert(now: Word)

  type Script = seq<Edit>

  function EditCost(e: Edit): nat {
    if e.Swap? && e.was == e.now then 0 else 1
  }

  function Cost(s: Script): nat {
    if s == [] then 0 else Cost(s[..|s| - 1]) + EditCost(s[|s| - 1])
  }

  /** The words a script consumes. */
  function Source(s: Script): seq<Word> {
    if s == [] then []
    else
      var e := s[|s| - 1];
      Source(s[..|s| - 1]) + (if e.Insert? then [] else [e.was])
  }

  /** The words a script produces. */
  function Target(s: Script): seq<Word> {
    if s == [] then []
    else
      var e := s[|s| - 1];
      Target(s[..|s| - 1]) + (if e.Delete? then [] else [e.now])
  }

  ghost predicate Turns(s: Script, x: seq<Word>, y: seq<Word>) {
    Source(s) == x && Target(s) == y
  }

  /** `d` is the cost of some script from `x` to `y`, and no script is cheaper. */
  ghost predicate IsLeastCost(x: seq<Word>, y: seq<Word>, d: int) {
    && (exists s: Script :: Turns(s, x, y) && Cost(s) == d)
    && (forall s: Script :: Turns(s, x, y) ==> d <= Cost(s))
  }

  function Min(a: int, b: int): int {
    if a <= b then a else b
  }

  /** The left-to-right recurrence over prefixes. */
  function Distance(x: seq<Word>, y: seq<Word>): nat
    decreases |x| + |y|
  {
    if x == [] then |y|
    else if y == [] then |x|
    else
      var x', y' := x[..|x| - 1], y[..|y| - 1];
      var swap := Distance(x', y') + (if x[|x| - 1] == y[|y| - 1] then 0 else 1);
      Min(swap, Min(Distance(x', y) + 1, Distance(x, y') + 1))
  }

  lemma {:induction false} Snoc(s: Script, e: Edit)
    ensures Cost(s + [e]) == Cost(s) + EditCost(e)
    ensures Source(s + [e]) == Source(s) + (if e.Insert? then [] else [e.was])
    ensures Target(s + [e]) == Target(s) + (if e.Delete? then [] else [e.now])
  {
    assert (s + [e])[..|s|] == s;
  }

  /** One more edit at the end raises the recurrence by no more than its cost. */
  lemma OneMoreEdit(x: seq<Word>, y: seq<Word>, e: Edit)
    ensures var x1 := x + (if e.Insert? then [] else [e.was]);
            var y1 := y + (if e.Delete? then [] else [e.now]);
            Distance(x1, y1) <= Distance(x, y) + EditCost(e)
  {
    match e
    case Swap(a, b) => assert (x + [a])[..|x|] == x && (y + [b])[..|y|] == y;
    case Delete(a) => assert (x + [a])[..|x|] == x && y + [] == y;
    case Insert(b) => assert (y + [b])[..|y|] == y && x + [] == x;
  }

  /** No script beats the recurrence. */
  lemma {:induction false} NoScriptIsCheaper(s: Script)
    ensures Distance(Source(s), Target(s)) <= Cost(s)
  {
    if s != [] {
      var rest := s[..|s| - 1];
      NoScriptIsCheaper(rest);
      OneMoreEdit(Source(rest), Target(rest), s[|s| - 1]);
    }
  }

  /** The last edit of a cheapest script, and the words before it. */
  lemma LastEdit(x: seq<Word>, y: seq<Word>) returns (e: Edit, x': seq<Word>, y': seq<Word>)
    requires x != [] || y != []
    ensures x == x' + (if e.Insert? then [] else [e.was]) && y == y' + (if e.Delete? then [] else [e.now])
    ensures Distance(x, y) == Distance(x', y') + EditCost(e)
  {
    if x == [] {
      e, x', y' := Insert(y[|y| - 1]), x, y[..|y| - 1];
    } else if y == [] || Distance(x, y) == Distance(x[..|x| - 1], y) + 1 {
      e, x', y' := Delete(x[|x| - 1]), x[..|x| - 1], y;
    } else if Distance(x, y) == Distance(x, y[..|y| - 1]) + 1 {
      e, x', y' := Insert(y[|y| - 1]), x, y[..|y| - 1];
    } else {
      e, x', y' := Swap(x[|x| - 1], y[|y| - 1]), x[..|x| - 1], y[..|y| - 1];
    }
  }

  /** Some script attains the recurrence. */
  lemma {:induction false} CheapestScript(x: seq<Word>, y: seq<Word>) returns (s: Script)
    ensures Turns(s, x, y) && Cost(s) == Distance(x, y)
    decreases |x| + |y|
  {
    if x == [] && y == [] {
      s := [];
    } else {
      var e, x', y' := LastEdit(x, y);
      s := CheapestScript(x', y');
      Snoc(s, e);
      s := s + [e];
    }
  }

  lemma {:induction false} DistanceIsLeastCost(x: seq<Word>, y: seq<Word>)
    ensures IsLeastCost(x, y, Distance(x, y))
  {
    var s := CheapestScript(x, y);
    forall t: Script | Turns(t, x, y) ensures Distance(x, y) <= Cost(t) {
      NoScriptIsCheaper(t);
    }
  }

  // ---- the metric laws, from inverting and composing scripts ----

  function Inverse(s: Script): Script {
    seq(|s|, i requires 0 <= i < |s| =>
      match s[i]
      case Swap(a, b) => Swap(b, a)
      case Delete(a) => Insert(a)
      case Insert(b) => Delete(b))
  }

  lemma {:induction false} InverseTurnsBack(s: Script)
    ensures Turns(Inverse(s), Target(s), Source(s)) && Cost(Inverse(s)) == Cost(s)
  {
    if s != [] {
      var rest := s[..|s| - 1];
      InverseTurnsBack(rest);
      assert Inverse(s)[..|s| - 1] == Inverse(rest);
    }
  }

  /** Two scripts that meet in the middle compose without costing more than both. */
  lemma {:induction false} Compose(s: Script, t: Script) returns (u: Script)
    requires Target(s) == Source(t)
    ensures Turns(u, Source(s), Target(t)) && Cost(u) <= Cost(s) + Cost(t)
    decreases |s| + |t|
  {
    if s != [] && s[|s| - 1].Delete? {
      u := Compose(s[..|s| - 1], t);
      Snoc(u, s[|s| - 1]);
      u := u + [s[|s| - 1]];
    } else if t != [] && t[|t| - 1].Insert? {
      u := Compose(s, t[..|t| - 1]);
      Snoc(u, t[|t| - 1]);
      u := u + [t[|t| - 1]];
    } else if s == [] || t == [] {
      u := [];
    } else {
      var a, b, s', t' := s[|s| - 1], t[|t| - 1], s[..|s| - 1], t[..|t| - 1];
      assert Target(s') == Target(s)[..|Target(s)| - 1];
      assert Source(t') == Source(t)[..|Source(t)| - 1];
      assert a.now == Target(s)[|Target(s)| - 1] == b.was;
      u := Compose(s', t');
      if a.Insert? && b.Delete? {
        assert Source(s) == Source(s') && Target(t) == Target(t');
      } else {
        var e := if a.Insert? then Insert(b.now) else if b.Delete? then Delete(a.was) else Swap(a.was, b.now);
        Snoc(u, e);
        u := u + [e];
      }
    }
  }

  lemma {:induction false} DistanceIsSymmetric(x: seq<Word>, y: seq<Word>)
    ensures Distance(x, y) == Distance(y, x)
  {
    var s := CheapestScript(x, y);
    var t := CheapestScript(y, x);
    InverseTurnsBack(s);
    InverseTurnsBack(t);
    NoScriptIsCheaper(Inverse(s));
    NoScriptIsCheaper(Inverse(t));
  }

  lemma {:induction false} TriangleInequality(x: seq<Word>, y: seq<Word>, z: seq<Word>)
    ensures Distance(x, z) <= Distance(x, y) + Distance(y, z)
  {
    var s := CheapestScript(x, y);
    var t := CheapestScript(y, z);
    var u := Compose(s, t);
    NoScriptIsCheaper(u);
  }

  lemma {:induction false} ZeroIffEqual(x: seq<Word>, y: seq<Word>)
    ensures Distance(x, y) == 0 <==> x == y
    decreases |x| + |y|
  {
    if x != [] && y != [] {
      var x', y' := x[..|x| - 1], y[..|y| - 1];
      ZeroIffEqual(x', y');
      assert x == x' + [x[|x| - 1]] && y == y' + [y[|y| - 1]];
    }
  }

  lemma {:induction false} LengthBounds(x: seq<Word>, y: seq<Word>)
    ensures |x| - |y| <= Distance(x, y) && |y| - |x| <= Distance(x, y)
    ensures Distance(x, y) <= |x| || Distance(x, y) <= |y|
    decreases |x| + |y|
  {
    if x != [] && y != [] {
      LengthBounds(x[..|x| - 1], y[..|y| - 1]);
      LengthBounds(x[..|x| - 1], y);
      LengthBounds(x, y[..|y| - 1]);
    }
  }

  // ---- the programme ----

  /** Word numbers agree with a vocabulary in which every word has its own number. */
  ghost predicate Numbered(vocabulary: map<Word, int>, words: seq<Word>, ids: seq<int>) {
    && |ids| == |words|
    && forall i :: 0 <= i < |words| ==> words[i] in vocabulary && ids[i] == vocabulary[words[i]]
  }

  ghost predicate OneNumberEach(vocabulary: map<Word, int>) {
    && (forall w :: w in vocabulary ==> 0 <= vocabulary[w] < |vocabulary|)
    && (forall v, w :: v in vocabulary && w in vocabulary && vocabulary[v] == vocabulary[w] ==> v == w)
  }

  lemma NextNumberIsFree(vocabulary: map<Word, int>, word: Word)
    requires OneNumberEach(vocabulary) && word !in vocabulary
    ensures OneNumberEach(vocabulary[word := |vocabulary|])
  {
    var more := vocabulary[word := |vocabulary|];
    assert |more| == |vocabulary| + 1;
    forall w | w in more ensures 0 <= more[w] < |more| && (w != word ==> more[w] < |vocabulary|) {
    }
  }

  ghost predicate Extends(more: map<Word, int>, vocabulary: map<Word, int>) {
    forall w :: w in vocabulary ==> w in more && more[w] == vocabulary[w]
  }

  lemma NumberOneMore(vocabulary: map<Word, int>, more: map<Word, int>, words: seq<Word>, ids: seq<int>, word: Word)
    requires Numbered(vocabulary, words, ids) && Extends(more, vocabulary) && word in more
    ensures Numbered(more, words + [word], ids + [more[word]])
  {
  }

  /** `setdefault(word, len(vocabulary))` for each word in turn. */
  method Intern(vocabulary: map<Word, int>, words: seq<Word>) returns (extended: map<Word, int>, ids: seq<int>)
    requires OneNumberEach(vocabulary)
    ensures OneNumberEach(extended) && Numbered(extended, words, ids)
    ensures Extends(extended, vocabulary)
  {
    extended, ids := vocabulary, [];
    for i := 0 to |words|
      invariant OneNumberEach(extended) && Numbered(extended, words[..i], ids)
      invariant Extends(extended, vocabulary)
    {
      ghost var before := extended;
      if words[i] !in extended {
        NextNumberIsFree(extended, words[i]);
        extended := extended[words[i] := |extended|];
      }
      NumberOneMore(before, extended, words[..i], ids, words[i]);
      assert words[..i + 1] == words[..i] + [words[i]];
      ids := ids + [extended[words[i]]];
    }
    assert words[..|words|] == words;
  }

  /** One cell of the table, read off the three cells before it. */
  lemma {:induction false} Cell(x: seq<Word>, a: Word, y: seq<Word>, b: Word, longer: seq<Word>, longer': seq<Word>)
    requires longer == x + [a] && longer' == y + [b]
    ensures Distance(longer, longer')
         == Min(Min(Distance(x, longer') + 1, Distance(x, y) + (if b != a then 1 else 0)), Distance(longer, y) + 1)
  {
    assert longer[..|x|] == x && longer'[..|y|] == y;
  }

  /** `row` holds the distances from `x` to every prefix of `y`. */
  ghost predicate IsRow(row: seq<int>, x: seq<Word>, y: seq<Word>) {
    && |row| == |y| + 1
    && forall j :: 0 <= j <= |y| ==> row[j] == Distance(x, y[..j])
  }

  /** What the cell above and the two diagonals offer, before insertions are considered. */
  function Offer(above: seq<int>, hyp: seq<int>, token: int, index: int, j: nat): int
    requires |above| == |hyp| + 1 && j <= |hyp|
  {
    if j == 0 then index else Min(above[j] + 1, above[j - 1] + (if hyp[j - 1] != token then 1 else 0))
  }

  /** `np.minimum(row[1:] + 1, row[:-1] + (hyp != token), out=candidate[1:])`. */
  method FillCandidate(row: array<int>, hyp: seq<int>, token: int, index: nat, candidate: array<int>)
    requires row != candidate && row.Length == candidate.Length == |hyp| + 1
    modifies candidate
    ensures forall j :: 0 <= j <= |hyp| ==> candidate[j] == Offer(row[..], hyp, token, index, j)
  {
    candidate[0] := index;
    for j := 1 to row.Length
      invariant forall k :: 0 <= k < j ==> candidate[k] == Offer(row[..], hyp, token, index, k)
    {
      candidate[j] := Min(row[j] + 1, row[j - 1] + (if hyp[j - 1] != token then 1 else 0));
    }
  }

  /** The least of `values[k] - k` for `k` up to `j`. */
  function RunningMinimum(values: seq<int>, j: nat): int
    requires j < |values|
  {
    if j == 0 then values[0] else Min(RunningMinimum(values, j - 1), values[j] - j)
  }

  /** `np.minimum.accumulate(candidate - steps) + steps`, into a new row. */
  method AccumulateInsertions(candidate: array<int>) returns (row: array<int>)
    requires candidate.Length > 0
    ensures fresh(row) && row.Length == candidate.Length
    ensures forall j :: 0 <= j < row.Length ==> row[j] == RunningMinimum(candidate[..], j) + j
  {
    ghost var offers := candidate[..];
    row := new int[candidate.Length];
    row[0] := candidate[0];
    var least := candidate[0];
    var j := 1;
    while j < row.Length
      invariant 1 <= j <= row.Length && least == RunningMinimum(offers, j - 1)
      invariant AccumulatedTo(row[..], offers, j)
    {
      least := Min(least, candidate[j] - j);
      row[j] := least + j;
      j := j + 1;
    }
  }

  ghost predicate AccumulatedTo(row: seq<int>, offers: seq<int>, n: nat)
    requires n <= |row| == |offers|
  {
    forall j: nat :: j < n ==> row[j] == RunningMinimum(offers, j) + j
  }

  /** The running minimum is the left-to-right recurrence: row `i` follows from row `i - 1`. */
  lemma {:induction false} RunningMinimumIsDistance(above: seq<int>, offers: seq<int>, hyp: seq<int>, token: int,
                                                    x: seq<Word>, y: seq<Word>, i: nat, j: nat)
    requires 1 <= i <= |x| && j <= |y| == |hyp| && IsRow(above, x[..i - 1], y)
    requires forall k :: 0 <= k < |y| ==> (hyp[k] != token <==> y[k] != x[i - 1])
    requires |offers| == |y| + 1 && forall k :: 0 <= k <= |y| ==> offers[k] == Offer(above, hyp, token, i, k)
    ensures RunningMinimum(offers, j) + j == Distance(x[..i], y[..j])
  {
    if j == 0 {
      DistanceToNothing(x[..i], y[..0]);
    } else {
      RunningMinimumIsDistance(above, offers, hyp, token, x, y, i, j - 1);
      CellFromRow(above, hyp, token, x, y, i, j);
      assert offers[j] == Offer(above, hyp, token, i, j);
    }
  }

  lemma {:induction false} DistanceToNothing(x: seq<Word>, y: seq<Word>)
    requires y == []
    ensures Distance(x, y) == |x|
  {
  }

  lemma CellFromRow(above: seq<int>, hyp: seq<int>, token: int, x: seq<Word>, y: seq<Word>, i: nat, j: nat)
    requires 1 <= i <= |x| && 1 <= j <= |y| == |hyp| && IsRow(above, x[..i - 1], y)
    requires forall k :: 0 <= k < |y| ==> (hyp[k] != token <==> y[k] != x[i - 1])
    ensures Distance(x[..i], y[..j]) == Min(Offer(above, hyp, token, i, j), Distance(x[..i], y[..j - 1]) + 1)
  {
    Cell(x[..i - 1], x[i - 1], y[..j - 1], y[j - 1], x[..i], y[..j]);
  }

  lemma {:induction false} NextRowIsRow(above: seq<int>, offers: seq<int>, below: seq<int>, hyp: seq<int>, token: int,
                     x: seq<Word>, y: seq<Word>, i: nat)
    requires 1 <= i <= |x| && |y| == |hyp| && IsRow(above, x[..i - 1], y)
    requires forall k :: 0 <= k < |y| ==> (hyp[k] != token <==> y[k] != x[i - 1])
    requires |offers| == |y| + 1 && forall k :: 0 <= k <= |y| ==> offers[k] == Offer(above, hyp, token, i, k)
    requires |below| == |y| + 1 && forall j :: 0 <= j <= |y| ==> below[j] == RunningMinimum(offers, j) + j
    ensures IsRow(below, x[..i], y)
  {
    forall j | 0 <= j <= |y| ensures below[j] == Distance(x[..i], y[..j]) {
      RunningMinimumIsDistance(above, offers, hyp, token, x, y, i, j);
    }
  }

  method WordErrors(reference: seq<Word>, hypothesis: seq<Word>) returns (errors: int)
    ensures IsLeastCost(reference, hypothesis, errors)
    ensures errors == Distance(reference, hypothesis)
  {
    DistanceIsLeastCost(reference, hypothesis);
    if reference == [] || hypothesis == [] {
      return if |reference| >= |hypothesis| then |reference| else |hypothesis|;
    }
    var vocabulary, ref := Intern(map[], reference);
    var all, hyp := Intern(vocabulary, hypothesis);
    errors := LastRow(reference, hypothesis, ref, hyp);
  }

  /** The loop over rows. Comparing numbers is comparing words. */
  method LastRow(ghost x: seq<Word>, ghost y: seq<Word>, ref: seq<int>, hyp: seq<int>) returns (errors: int)
    requires |x| == |ref| > 0 && |y| == |hyp|
    requires forall i, k :: 0 <= i < |x| && 0 <= k < |y| ==> (hyp[k] != ref[i] <==> y[k] != x[i])
    ensures errors == Distance(x, y)
  {
    var row := new int[|hyp| + 1](j => j);
    var candidate := new int[|hyp| + 1];
    for index := 1 to |ref| + 1
      invariant row != candidate && row.Length == candidate.Length == |hyp| + 1 && fresh(candidate)
      invariant IsRow(row[..], x[..index - 1], y)
    {
      ghost var above := row[..];
      FillCandidate(row, hyp, ref[index - 1], index, candidate);
      ghost var offers := candidate[..];
      row := AccumulateInsertions(candidate);
      NextRowIsRow(above, offers, row[..], hyp, ref[index - 1], x, y, index);
    }
    assert x[..|ref|] == x && y[..|hyp|] == y;
    errors := row[..][|hyp|];
  }
}
