/** How the runner scores its candidates and ranks them. */
module Match {
  import opened Division
  import opened Sequences
  import opened Utf8

  const EXACT: int := 0x100_0000
  const MAX_USE: nat := 0x1_0000

  /** The longest query the prompt's buffer can hold. */
  const QUERY_LIMIT: nat := 255

  predicate IsUpper(b: Byte) { 0x41 <= b <= 0x5A }

  function Fold(b: Byte, fold: bool): Byte { if fold && IsUpper(b) then b + 0x20 else b }

  function FoldAll(s: seq<Byte>, fold: bool): (r: seq<Byte>)
    ensures |r| == |s| && forall i :: 0 <= i < |s| ==> r[i] == Fold(s[i], fold)
  {
    seq(|s|, i requires 0 <= i < |s| => Fold(s[i], fold))
  }

  /** What a word can start after: - _ . and a blank. */
  predicate EndsWord(b: Byte) { b == 0x2D || b == 0x5F || b == 0x2E || b == 0x20 }

  /* ---- the score ---- */

  /** Where a scan stands: the score, the letters in a row, and the places in query and candidate. */
  datatype Scan = Scan(score: int, run: nat, q: nat, c: nat)

  function Start(): Scan { Scan(0, 0, 0, 0) }

  function Look(c: seq<Byte>, q: seq<Byte>, fold: bool, s: Scan): Scan
    requires s.c < |c| && s.q < |q|
  {
    if Fold(c[s.c], fold) != Fold(q[s.q], fold) then s.(run := 0, c := s.c + 1)
    else
      var bonus := if s.c == 0 then 8 else if EndsWord(c[s.c - 1]) then 4 else 0;
      Scan(s.score + 1 + 3 * s.run + bonus, s.run + 1, s.q + 1, s.c + 1)
  }

  /** The scan taken to its end. */
  function Scanned(c: seq<Byte>, q: seq<Byte>, fold: bool, s: Scan): (r: Scan)
    requires s.c <= |c| && s.q <= |q|
    ensures r.c <= |c| && r.q <= |q|
    decreases |c| - s.c
  {
    if s.c == |c| || s.q == |q| then s else Scanned(c, q, fold, Look(c, q, fold, s))
  }

  function Score(c: seq<Byte>, q: seq<Byte>, fold: bool, fuzzy: bool): int {
    if c == q then EXACT
    else if !fuzzy then (if q <= c then 1 else 0)
    else
      var s := Scanned(c, q, fold, Start());
      if s.q < |q| then 0
      else Max((s.score + if s.c == |q| then 20 else 0) * 8 - (|c| - |q|), 1)
  }

  /** The score, by one pass over the candidate. */
  method ScoreOf(c: seq<Byte>, q: seq<Byte>, fold: bool, fuzzy: bool) returns (result: int)
    ensures result == Score(c, q, fold, fuzzy)
  {
    if |c| == |q| && c == q { return EXACT; }
    if !fuzzy { return if q <= c then 1 else 0; }
    hide Fold;
    hide EndsWord;
    var score, run: nat, qi: nat, ci: nat := 0, 0, 0, 0;
    while ci < |c| && qi < |q|
      invariant ci <= |c| && qi <= |q|
      invariant Scanned(c, q, fold, Scan(score, run, qi, ci)) == Scanned(c, q, fold, Start())
    {
      if Fold(c[ci], fold) != Fold(q[qi], fold) {
        run := 0;
      } else {
        score := score + 1 + 3 * run;
        if ci == 0 {
          score := score + 8;
        } else if EndsWord(c[ci - 1]) {
          score := score + 4;
        }
        run := run + 1;
        qi := qi + 1;
      }
      ci := ci + 1;
    }
    if qi < |q| { return 0; }
    if ci == |q| { score := score + 20; }
    result := Max(score * 8 - (|c| - |q|), 1);
  }

  /* ---- a score means the letters appear in order ---- */

  /** Places in c, in order, where the letters of q stand. */
  predicate Embeds(places: seq<nat>, q: seq<Byte>, c: seq<Byte>) {
    && |places| == |q|
    && (forall i :: 0 <= i < |q| ==> places[i] < |c| && c[places[i]] == q[i])
    && (forall i, j :: 0 <= i < j < |q| ==> places[i] < places[j])
  }

  ghost predicate Subsequence(q: seq<Byte>, c: seq<Byte>) {
    exists places :: Embeds(places, q, c)
  }

  /** Taking every letter at its first chance. */
  predicate Greedy(q: seq<Byte>, c: seq<Byte>) {
    q == [] || (c != [] && if q[0] == c[0] then Greedy(q[1..], c[1..]) else Greedy(q, c[1..]))
  }

  function Shifted(places: seq<nat>, d: int): (r: seq<nat>)
    requires forall i :: 0 <= i < |places| ==> places[i] + d >= 0
    ensures |r| == |places| && forall i :: 0 <= i < |r| ==> r[i] == places[i] + d
  {
    seq(|places|, i requires 0 <= i < |places| => places[i] + d)
  }

  lemma {:induction false} GreedyMissesNothing(q: seq<Byte>, c: seq<Byte>, places: seq<nat>)
    requires Embeds(places, q, c)
    ensures Greedy(q, c)
    decreases |c|
  {
    if q != [] {
      assert places[0] < |c|;
      if q[0] == c[0] {
        var later := Shifted(places[1..], -1);
        assert Embeds(later, q[1..], c[1..]);
        GreedyMissesNothing(q[1..], c[1..], later);
      } else {
        assert places[0] != 0;
        var later := Shifted(places, -1);
        assert Embeds(later, q, c[1..]);
        GreedyMissesNothing(q, c[1..], later);
      }
    }
  }

  lemma {:induction false} GreedyFinds(q: seq<Byte>, c: seq<Byte>) returns (places: seq<nat>)
    requires Greedy(q, c)
    ensures Embeds(places, q, c)
    decreases |c|
  {
    hide Embeds;
    if q == [] {
      places := [];
      assert Embeds(places, q, c) by { NothingEmbeds(c); }
    } else if q[0] == c[0] {
      var later := GreedyFinds(q[1..], c[1..]);
      places := [0] + Shifted(later, 1);
      EmbedsHit(later, q, c);
    } else {
      var later := GreedyFinds(q, c[1..]);
      places := Shifted(later, 1);
      EmbedsMiss(later, q, c);
    }
  }

  lemma NothingEmbeds(c: seq<Byte>)
    ensures Embeds([], [], c)
  {
  }

  lemma EmbedsHit(later: seq<nat>, q: seq<Byte>, c: seq<Byte>)
    requires q != [] && c != [] && q[0] == c[0] && Embeds(later, q[1..], c[1..])
    ensures Embeds([0] + Shifted(later, 1), q, c)
  {
    var places: seq<nat> := [0] + Shifted(later, 1);
    forall i | 1 <= i < |q|
      ensures places[i] == later[i - 1] + 1 && places[i] < |c| && c[places[i]] == q[i]
    {
      assert c[1..][later[i - 1]] == q[1..][i - 1];
    }
  }

  lemma EmbedsMiss(later: seq<nat>, q: seq<Byte>, c: seq<Byte>)
    requires c != [] && Embeds(later, q, c[1..])
    ensures Embeds(Shifted(later, 1), q, c)
  {
    forall i | 0 <= i < |q|
      ensures c[later[i] + 1] == q[i]
    {
      assert c[1..][later[i]] == q[i];
    }
  }

  lemma {:induction false} ScanIsGreedy(c: seq<Byte>, q: seq<Byte>, fold: bool, s: Scan)
    requires s.c <= |c| && s.q <= |q|
    ensures Scanned(c, q, fold, s).q == |q| <==> Greedy(FoldAll(q, fold)[s.q..], FoldAll(c, fold)[s.c..])
    decreases |c| - s.c
  {
    hide Fold;
    var fq, fc := FoldAll(q, fold), FoldAll(c, fold);
    if s.c < |c| && s.q < |q| {
      assert fq[s.q..][1..] == fq[s.q + 1..] && fc[s.c..][1..] == fc[s.c + 1..];
      ScanIsGreedy(c, q, fold, Look(c, q, fold, s));
    }
  }

  /** With fuzzy matching a candidate scores exactly when the letters of the query appear in it in order. */
  lemma FuzzyIsComplete(c: seq<Byte>, q: seq<Byte>, fold: bool)
    ensures Score(c, q, fold, true) != 0 <==> Subsequence(FoldAll(q, fold), FoldAll(c, fold))
  {
    hide Fold;
    var fq, fc := FoldAll(q, fold), FoldAll(c, fold);
    ScanIsGreedy(c, q, fold, Start());
    assert fq[0..] == fq && fc[0..] == fc;
    if c == q {
      assert Embeds(seq(|q|, i => i), fq, fc);
    } else {
      hide Scanned;
      if Greedy(fq, fc) {
        var places := GreedyFinds(fq, fc);
      }
      if places :| Embeds(places, fq, fc) {
        GreedyMissesNothing(fq, fc, places);
      }
    }
  }

  /* ---- exact names win ---- */

  lemma {:induction false} ScanBound(c: seq<Byte>, q: seq<Byte>, fold: bool, s: Scan)
    requires s.c <= |c| && s.q <= |q| && s.q <= s.c && s.run <= s.q && 0 <= s.score <= 9 * s.q + 3 * s.q * s.q
    ensures var r := Scanned(c, q, fold, s); r.q <= r.c && 0 <= r.score <= 9 * r.q + 3 * r.q * r.q
    decreases |c| - s.c
  {
    hide Fold;
    if s.c < |c| && s.q < |q| {
      var t := Look(c, q, fold, s);
      assert t.q == s.q + 1 ==> 3 * t.q * t.q == 3 * s.q * s.q + 6 * s.q + 3;
      ScanBound(c, q, fold, t);
    }
  }

  lemma BoundFits(n: nat)
    requires n <= QUERY_LIMIT
    ensures 9 * n + 3 * n * n <= 197_370
  {
    MulGrows(n, QUERY_LIMIT, n);
    MulGrows(QUERY_LIMIT, QUERY_LIMIT, n);
    assert 3 * n * n == 3 * (n * n);
  }

  /** Short of the exact name, no query that fits the prompt scores anywhere near it. */
  lemma ScoreBound(c: seq<Byte>, q: seq<Byte>, fold: bool, fuzzy: bool)
    requires c != q && |q| <= QUERY_LIMIT
    ensures 0 <= Score(c, q, fold, fuzzy) <= 1_600_000
  {
    hide Scanned;
    if fuzzy {
      ScanBound(c, q, fold, Start());
      var s := Scanned(c, q, fold, Start());
      BoundFits(s.q);
      assert 0 <= s.score <= 197_370;
    }
  }

  datatype Candidate = Candidate(name: seq<Byte>, alt: Option<seq<Byte>>, use: nat)

  /** A candidate's best score by either of its names, raised by how often it was used. */
  function Total(x: Candidate, q: seq<Byte>, fold: bool, fuzzy: bool, counted: bool): int {
    var byName := Score(x.name, q, fold, fuzzy);
    var best := if x.alt.Some? then Max(byName, Score(x.alt.value, q, fold, fuzzy)) else byName;
    if best != 0 && counted then best + Min(x.use, MAX_USE) * 16 else best
  }

  predicate IsExact(x: Candidate, q: seq<Byte>) { x.name == q || x.alt == Some(q) }

  /** An exact name outranks every other candidate, however often that one was used. */
  lemma ExactWins(x: Candidate, y: Candidate, q: seq<Byte>, fold: bool, fuzzy: bool, counted: bool)
    requires |q| <= QUERY_LIMIT && IsExact(x, q) && !IsExact(y, q)
    ensures Total(x, q, fold, fuzzy, counted) > Total(y, q, fold, fuzzy, counted)
  {
    hide Scanned;
    ScoreBound(y.name, q, fold, fuzzy);
    if y.alt.Some? { ScoreBound(y.alt.value, q, fold, fuzzy); }
    if x.name != q { ScoreBound(x.name, q, fold, fuzzy); }
    if x.alt.Some? && x.alt.value != q { ScoreBound(x.alt.value, q, fold, fuzzy); }
  }

  /** No total leaves 32 bits, and none is negative. */
  lemma TotalFits(x: Candidate, q: seq<Byte>, fold: bool, fuzzy: bool, counted: bool)
    requires |q| <= QUERY_LIMIT
    ensures 0 <= Total(x, q, fold, fuzzy, counted) <= 0x7FFF_FFFF
  {
    hide Scanned;
    if x.name != q { ScoreBound(x.name, q, fold, fuzzy); }
    if x.alt.Some? && x.alt.value != q { ScoreBound(x.alt.value, q, fold, fuzzy); }
  }

  /* ---- the ranking ---- */

  /** How the comparison of two candidates comes out: the higher score first, then the lower index. */
  function Compare(scores: seq<int>, left: nat, right: nat): int
    requires left < |scores| && right < |scores|
  {
    if scores[left] != scores[right] then scores[right] - scores[left] else left - right
  }

  predicate InRange(list: seq<nat>, n: nat) { forall i :: 0 <= i < |list| ==> list[i] < n }

  predicate Ranked(list: seq<nat>, scores: seq<int>)
    requires InRange(list, |scores|)
  {
    forall i, j :: 0 <= i < j < |list| ==> Compare(scores, list[i], list[j]) < 0
  }

  /** Two rankings of the same candidates are the same ranking, so it does not matter how the sort works. */
  lemma {:induction false} RankingIsUnique(a: seq<nat>, b: seq<nat>, scores: seq<int>)
    requires InRange(a, |scores|) && InRange(b, |scores|) && Ranked(a, scores) && Ranked(b, scores)
    requires forall k :: k in a <==> k in b
    ensures a == b
    decreases |a|
  {
    if a == [] {
      assert forall i :: 0 <= i < |b| ==> b[i] in b;
    } else {
      assert a[0] in b;
      assert b[0] in a;
      FirstIsLeast(a, scores, b[0]);
      FirstIsLeast(b, scores, a[0]);
      assert a[0] == b[0];
      forall k
        ensures k in a[1..] <==> k in b[1..]
      {
        RestHas(a, scores, k);
        RestHas(b, scores, k);
      }
      RankingIsUnique(a[1..], b[1..], scores);
      assert a == [a[0]] + a[1..] && b == [b[0]] + b[1..];
    }
  }

  lemma FirstIsLeast(list: seq<nat>, scores: seq<int>, k: nat)
    requires InRange(list, |scores|) && Ranked(list, scores) && k in list
    ensures k == list[0] || Compare(scores, list[0], k) < 0
  {
  }

  lemma RestHas(list: seq<nat>, scores: seq<int>, k: nat)
    requires list != [] && InRange(list, |scores|) && Ranked(list, scores)
    ensures k in list[1..] <==> k in list && k != list[0]
  {
    if k in list[1..] {
      var i :| 0 <= i < |list| - 1 && list[1..][i] == k;
      assert Compare(scores, list[0], list[i + 1]) < 0;
    }
    if k in list && k != list[0] {
      var i :| 0 <= i < |list| && list[i] == k;
      assert list[1..][i - 1] == k;
    }
  }

  /** A ranking with one more candidate, put where it belongs. */
  function Inserted(list: seq<nat>, k: nat, scores: seq<int>): (r: seq<nat>)
    requires k < |scores| && InRange(list, |scores|)
    ensures |r| == |list| + 1 && InRange(r, |scores|)
    ensures forall x :: x in r <==> x == k || x in list
  {
    if list == [] then [k]
    else if Compare(scores, k, list[0]) < 0 then [k] + list
    else
      var rest := Inserted(list[1..], k, scores);
      assert list == [list[0]] + list[1..];
      [list[0]] + rest
  }

  lemma {:induction false} InsertedIsRanked(list: seq<nat>, k: nat, scores: seq<int>)
    requires k < |scores| && InRange(list, |scores|) && Ranked(list, scores) && k !in list
    ensures Ranked(Inserted(list, k, scores), scores)
    decreases |list|
  {
    if list != [] && Compare(scores, k, list[0]) >= 0 {
      InsertedIsRanked(list[1..], k, scores);
      var rest := Inserted(list[1..], k, scores);
      forall i | 0 <= i < |rest|
        ensures Compare(scores, list[0], rest[i]) < 0
      {
        assert rest[i] in rest;
        RestHas(list, scores, rest[i]);
        if rest[i] != k { FirstIsLeast(list, scores, rest[i]); }
      }
    }
  }

  function Totals(xs: seq<Candidate>, q: seq<Byte>, fold: bool, fuzzy: bool, counted: bool): (r: seq<int>)
    ensures |r| == |xs|
  {
    seq(|xs|, i requires 0 <= i < |xs| => Total(xs[i], q, fold, fuzzy, counted))
  }

  /** An uppercase letter makes the match case sensitive. */
  predicate Folds(q: seq<Byte>) { forall i :: 0 <= i < |q| ==> !IsUpper(q[i]) }

  /**
   * The candidates for a query: exactly those that score, ranked. With
   * nothing typed all of a short list or none; for a calculation none.
   */
  method Filter(xs: seq<Candidate>, q: seq<Byte>, listAll: bool, isCalc: bool, fuzzy: bool, counted: bool)
    returns (matches: seq<nat>)
    ensures q == [] ==> matches == if listAll then seq(|xs|, i => i) else []
    ensures q != [] && isCalc ==> matches == []
    ensures q != [] && !isCalc ==> var totals := Totals(xs, q, Folds(q), fuzzy, counted);
      && InRange(matches, |xs|) && Ranked(matches, totals)
      && (forall k :: k in matches <==> 0 <= k < |xs| && totals[k] != 0)
  {
    matches := [];
    if q == [] && listAll {
      var i: nat := 0;
      while i < |xs|
        invariant i <= |xs| && matches == seq(i, j => j)
      {
        matches := matches + [i];
        i := i + 1;
      }
    }
    if q == [] || isCalc { return; }
    var fold := true;
    var i: nat := 0;
    while i < |q|
      invariant i <= |q| && fold == Folds(q[..i])
    {
      assert q[..i + 1] == q[..i] + [q[i]];
      if IsUpper(q[i]) { fold := false; }
      i := i + 1;
    }
    assert q[..|q|] == q;
    var scores: seq<int>;
    matches, scores := ScoreAll(xs, q, fold, fuzzy, counted);
    matches := Sort(matches, scores);
  }

  /** The candidates that score, in order, and everyone's total. */
  method ScoreAll(xs: seq<Candidate>, q: seq<Byte>, fold: bool, fuzzy: bool, counted: bool)
    returns (matches: seq<nat>, scores: seq<int>)
    ensures scores == Totals(xs, q, fold, fuzzy, counted) && InRange(matches, |xs|)
    ensures forall j, k :: 0 <= j < k < |matches| ==> matches[j] < matches[k]
    ensures forall k :: k in matches <==> 0 <= k < |xs| && scores[k] != 0
  {
    hide Score;
    matches, scores := [], [];
    var i: nat := 0;
    while i < |xs|
      invariant i <= |xs| && |scores| == i && InRange(matches, i)
      invariant forall k :: 0 <= k < i ==> scores[k] == Total(xs[k], q, fold, fuzzy, counted)
      invariant forall j, k :: 0 <= j < k < |matches| ==> matches[j] < matches[k]
      invariant forall k :: k in matches <==> 0 <= k < i && scores[k] != 0
    {
      var score := ScoreOf(xs[i].name, q, fold, fuzzy);
      if xs[i].alt.Some? {
        var other := ScoreOf(xs[i].alt.value, q, fold, fuzzy);
        score := Max(score, other);
      }
      if score != 0 {
        if counted { score := score + Min(xs[i].use, MAX_USE) * 16; }
        TotalIsPositive(xs[i], q, fold, fuzzy, counted);
        matches := matches + [i];
      }
      scores := scores + [score];
      i := i + 1;
    }
  }

  /** Adding for the uses never makes a match a miss. */
  lemma TotalIsPositive(x: Candidate, q: seq<Byte>, fold: bool, fuzzy: bool, counted: bool)
    ensures Total(x, q, fold, fuzzy, counted) != 0 <==>
            Score(x.name, q, fold, fuzzy) != 0 || (x.alt.Some? && Score(x.alt.value, q, fold, fuzzy) != 0)
  {
    hide Scanned;
  }

  /** Any sort by the comparison ends in the one ranking there is. */
  method Sort(list: seq<nat>, scores: seq<int>) returns (sorted: seq<nat>)
    requires InRange(list, |scores|) && forall i, j :: 0 <= i < j < |list| ==> list[i] != list[j]
    ensures InRange(sorted, |scores|) && Ranked(sorted, scores) && forall k :: k in sorted <==> k in list
  {
    sorted := [];
    var i: nat := 0;
    while i < |list|
      invariant i <= |list| && InRange(sorted, |scores|) && Ranked(sorted, scores)
      invariant forall k :: k in sorted <==> k in list[..i]
    {
      assert list[..i + 1] == list[..i] + [list[i]];
      InsertedIsRanked(sorted, list[i], scores);
      sorted := Inserted(sorted, list[i], scores);
      i := i + 1;
    }
    assert list[..|list|] == list;
  }

  /** In any ranking of the matches a candidate whose name was typed exactly comes before all others. */
  lemma ExactComesFirst(xs: seq<Candidate>, q: seq<Byte>, fold: bool, fuzzy: bool, counted: bool,
                        list: seq<nat>, i: nat, j: nat)
    requires |q| <= QUERY_LIMIT && InRange(list, |xs|) && Ranked(list, Totals(xs, q, fold, fuzzy, counted))
    requires i < |list| && j < |list| && IsExact(xs[list[i]], q) && !IsExact(xs[list[j]], q)
    ensures i < j
  {
    hide Score;
    ExactWins(xs[list[i]], xs[list[j]], q, fold, fuzzy, counted);
    hide Total;
  }
}
