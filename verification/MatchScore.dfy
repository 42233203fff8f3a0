/**
 * What a score is worth: read off the places where the letters of the query
 * stand in the candidate, without the scan that adds it up.
 */
module MatchScore {
  import opened Division
  import opened Utf8
  import opened Match

  predicate Alike(a: Byte, b: Byte, fold: bool) { Fold(a, fold) == Fold(b, fold) }

  /** Where the search for letter i starts: behind the letter before it. */
  function From(places: seq<nat>, i: nat): nat
    requires i <= |places|
  {
    if i == 0 then 0 else places[i - 1] + 1
  }

  predicate NoneBetween(c: seq<Byte>, letter: Byte, fold: bool, from: nat, to: nat)
    requires to <= |c|
  {
    forall j :: from <= j < to ==> !Alike(c[j], letter, fold)
  }

  predicate Inside(places: seq<nat>, n: nat) { forall i :: 0 <= i < |places| ==> places[i] < n }

  /** A letter stands at the first place behind the one before it where a letter like it stands. */
  predicate FirstChance(places: seq<nat>, c: seq<Byte>, q: seq<Byte>, fold: bool, i: nat)
    requires i < |places| && i < |q|
  {
    && From(places, i) <= places[i] < |c| && Alike(c[places[i]], q[i], fold)
    && NoneBetween(c, q[i], fold, From(places, i), places[i])
  }

  predicate FirstChances(places: seq<nat>, c: seq<Byte>, q: seq<Byte>, fold: bool) {
    && |places| <= |q| && Inside(places, |c|)
    && forall i :: 0 <= i < |places| ==> FirstChance(places, c, q, fold, i)
  }

  predicate BeginsWith(c: seq<Byte>, q: seq<Byte>, fold: bool) { FoldAll(q, fold) <= FoldAll(c, fold) }

  /** How many letters in a row end right before letter i. */
  function RowBefore(places: seq<nat>, i: nat): nat
    requires i < |places|
  {
    if i > 0 && places[i - 1] + 1 == places[i] then RowBefore(places, i - 1) + 1 else 0
  }

  /** A letter is worth 1, 8 more at the start of the name or 4 at that of a word, and 3 for each right before it. */
  function Worth(c: seq<Byte>, places: seq<nat>, i: nat): nat
    requires i < |places| && places[i] < |c|
  {
    1 + 3 * RowBefore(places, i) +
    (if places[i] == 0 then 8
     else if c[places[i] - 1] == '-' as nat || c[places[i] - 1] == '_' as nat
             || c[places[i] - 1] == '.' as nat || c[places[i] - 1] == ' ' as nat then 4
     else 0)
  }

  function Worths(c: seq<Byte>, places: seq<nat>, n: nat): nat
    requires n <= |places| && Inside(places, |c|)
  {
    if n == 0 then 0 else Worths(c, places, n - 1) + Worth(c, places, n - 1)
  }

  /* ---- the scan takes first chances ---- */

  /** A scan stands behind the letters it has found, and has passed nothing like the next one. */
  predicate Stands(c: seq<Byte>, q: seq<Byte>, fold: bool, s: Scan, places: seq<nat>) {
    && FirstChances(places, c, q, fold)
    && s.q == |places| && From(places, s.q) <= s.c <= |c|
    && (if s.q < |q| then NoneBetween(c, q[s.q], fold, From(places, s.q), s.c) else s.c == From(places, s.q))
    && s.run == (if s.q > 0 && s.c == From(places, s.q) then RowBefore(places, s.q - 1) + 1 else 0)
    && s.score == Worths(c, places, s.q)
  }

  lemma {:induction false} WorthsOfMore(c: seq<Byte>, places: seq<nat>, more: seq<nat>, n: nat)
    requires n <= |places| && places <= more && Inside(more, |c|)
    ensures Worths(c, more, n) == Worths(c, places, n)
    ensures n > 0 ==> RowBefore(more, n - 1) == RowBefore(places, n - 1)
  {
    if n > 0 {
      assert places[n - 1] < |c|;
      WorthsOfMore(c, places, more, n - 1);
      assert n > 1 ==> more[n - 2] == places[n - 2];
    }
  }

  lemma HitStands(c: seq<Byte>, q: seq<Byte>, fold: bool, s: Scan, places: seq<nat>)
    requires Stands(c, q, fold, s, places) && s.q < |q| && s.c < |c| && Alike(c[s.c], q[s.q], fold)
    ensures Stands(c, q, fold, Look(c, q, fold, s), places + [s.c])
  {
    hide Fold;
    var more := places + [s.c];
    MoreChances(c, q, fold, s, places);
    WorthsOfMore(c, places, more, s.q);
    assert RowBefore(more, s.q) == s.run;
    hide FirstChances;
    hide NoneBetween;
  }

  lemma MoreChances(c: seq<Byte>, q: seq<Byte>, fold: bool, s: Scan, places: seq<nat>)
    requires Stands(c, q, fold, s, places) && s.q < |q| && s.c < |c| && Alike(c[s.c], q[s.q], fold)
    ensures FirstChances(places + [s.c], c, q, fold)
  {
    hide Fold;
    hide Worths;
    hide RowBefore;
    var more := places + [s.c];
    forall i | 0 <= i < |more|
      ensures FirstChance(more, c, q, fold, i)
    {
      assert i < |places| ==> FirstChance(places, c, q, fold, i);
    }
  }

  lemma MissStands(c: seq<Byte>, q: seq<Byte>, fold: bool, s: Scan, places: seq<nat>)
    requires Stands(c, q, fold, s, places) && s.q < |q| && s.c < |c| && !Alike(c[s.c], q[s.q], fold)
    ensures Stands(c, q, fold, Look(c, q, fold, s), places)
  {
    hide Fold;
    hide Worths;
  }

  lemma {:induction false} ScanStands(c: seq<Byte>, q: seq<Byte>, fold: bool, s: Scan, places: seq<nat>)
    returns (all: seq<nat>)
    requires Stands(c, q, fold, s, places)
    ensures var r := Scanned(c, q, fold, s); Stands(c, q, fold, r, all) && (r.c == |c| || r.q == |q|)
    decreases |c| - s.c
  {
    if s.c == |c| || s.q == |q| {
      all := places;
    } else if Alike(c[s.c], q[s.q], fold) {
      HitStands(c, q, fold, s, places);
      hide Stands;
      all := ScanStands(c, q, fold, Look(c, q, fold, s), places + [s.c]);
    } else {
      MissStands(c, q, fold, s, places);
      hide Stands;
      all := ScanStands(c, q, fold, Look(c, q, fold, s), places);
    }
  }

  lemma FirstChancesMeet(a: seq<nat>, b: seq<nat>, c: seq<Byte>, q: seq<Byte>, fold: bool, i: nat)
    requires FirstChances(a, c, q, fold) && FirstChances(b, c, q, fold) && i < |a| && i < |b|
    requires From(a, i) == From(b, i)
    ensures a[i] == b[i]
  {
    hide Alike;
    assert FirstChance(a, c, q, fold, i) && FirstChance(b, c, q, fold, i);
  }

  /** There is one way to take first chances. */
  lemma {:induction false} FirstChancesAgree(a: seq<nat>, b: seq<nat>, c: seq<Byte>, q: seq<Byte>, fold: bool, n: nat)
    requires FirstChances(a, c, q, fold) && FirstChances(b, c, q, fold) && n <= |a| && n <= |b|
    ensures a[..n] == b[..n] && From(a, n) == From(b, n)
  {
    hide FirstChances;
    if n > 0 {
      FirstChancesAgree(a, b, c, q, fold, n - 1);
      FirstChancesMeet(a, b, c, q, fold, n - 1);
      assert a[..n] == a[..n - 1] + [a[n - 1]] && b[..n] == b[..n - 1] + [b[n - 1]];
    }
  }

  lemma StandsAtStart(c: seq<Byte>, q: seq<Byte>, fold: bool)
    ensures Stands(c, q, fold, Start(), [])
  {
  }

  lemma NextChance(places: seq<nat>, all: seq<nat>, c: seq<Byte>, q: seq<Byte>, fold: bool, i: nat)
    requires FirstChances(places, c, q, fold) && i < |places| && i <= |all| && From(all, i) == From(places, i)
    ensures !NoneBetween(c, q[i], fold, From(all, i), |c|)
  {
    hide Alike;
    assert FirstChance(places, c, q, fold, i);
  }

  /** With first chances for every letter the scan finds them all, and its score is what they are worth. */
  lemma ScanIsWorth(c: seq<Byte>, q: seq<Byte>, fold: bool, places: seq<nat>)
    requires FirstChances(places, c, q, fold) && |places| == |q|
    ensures var s := Scanned(c, q, fold, Start());
      s.q == |q| && s.c == From(places, |q|) && s.score == Worths(c, places, |q|)
  {
    StandsAtStart(c, q, fold);
    var all := ScanStands(c, q, fold, Start(), []);
    var s := Scanned(c, q, fold, Start());
    hide Scanned;
    hide FirstChances;
    hide NoneBetween;
    FirstChancesAgree(places, all, c, q, fold, s.q);
    if s.q < |q| {
      NextChance(places, all, c, q, fold, s.q);
    }
    assert places[..s.q] == places && all[..s.q] == all;
  }

  lemma InPlaceBegins(places: seq<nat>, c: seq<Byte>, q: seq<Byte>, fold: bool)
    requires FirstChances(places, c, q, fold) && |places| == |q| == From(places, |q|)
    ensures BeginsWith(c, q, fold)
  {
    hide Fold;
    PlacesSpread(places, c, q, fold, |q|);
    forall i | 0 <= i < |q|
      ensures places[i] == i && i < |c| && Fold(c[i], fold) == Fold(q[i], fold)
    {
      PlacesSpread(places, c, q, fold, i + 1);
      PlacesClimb(places, c, q, fold, i, |q|);
      assert FirstChance(places, c, q, fold, i);
    }
    assert |q| > 0 ==> places[|q| - 1] == |q| - 1 < |c|;
  }

  /** Every letter taken in place means the candidate begins with the query, and the other way round. */
  lemma BeginsWithQuery(c: seq<Byte>, q: seq<Byte>, fold: bool, places: seq<nat>)
    requires FirstChances(places, c, q, fold) && |places| == |q|
    ensures From(places, |q|) == |q| <==> BeginsWith(c, q, fold)
  {
    hide BeginsWith;
    hide FirstChances;
    if From(places, |q|) == |q| { InPlaceBegins(places, c, q, fold); }
    if BeginsWith(c, q, fold) { PrefixInPlace(places, c, q, fold, |q|); }
  }

  lemma {:induction false} PlacesSpread(places: seq<nat>, c: seq<Byte>, q: seq<Byte>, fold: bool, n: nat)
    requires FirstChances(places, c, q, fold) && n <= |places|
    ensures From(places, n) >= n
  {
    hide Alike;
    if n > 0 {
      PlacesSpread(places, c, q, fold, n - 1);
      assert FirstChance(places, c, q, fold, n - 1);
    }
  }

  lemma {:induction false} PlacesClimb(places: seq<nat>, c: seq<Byte>, q: seq<Byte>, fold: bool, i: nat, n: nat)
    requires FirstChances(places, c, q, fold) && i < n <= |places|
    ensures places[i] + (n - i) <= From(places, n)
    decreases n
  {
    hide Alike;
    if i + 1 < n {
      PlacesClimb(places, c, q, fold, i, n - 1);
      assert FirstChance(places, c, q, fold, n - 1);
    }
  }

  lemma {:induction false} PrefixInPlace(places: seq<nat>, c: seq<Byte>, q: seq<Byte>, fold: bool, n: nat)
    requires FirstChances(places, c, q, fold) && |places| == |q| && n <= |q|
    requires BeginsWith(c, q, fold)
    ensures From(places, n) == n
  {
    hide Fold;
    if n > 0 {
      PrefixInPlace(places, c, q, fold, n - 1);
      assert FirstChance(places, c, q, fold, n - 1);
      assert FoldAll(q, fold)[n - 1] == FoldAll(c, fold)[n - 1];
      assert Alike(c[n - 1], q[n - 1], fold);
    }
  }

  function Value(sum: nat, begins: bool, extra: int): int {
    Max((sum + if begins then 20 else 0) * 8 - extra, 1)
  }

  /**
   * The score of a match short of the exact name: the worth of its letters at
   * their first chances, and 20 if the name begins with the query, times 8,
   * less the letters it has more than the query, and at least 1.
   */
  lemma ScoreIsWorth(c: seq<Byte>, q: seq<Byte>, fold: bool, places: seq<nat>)
    requires c != q && FirstChances(places, c, q, fold) && |places| == |q|
    ensures Score(c, q, fold, true) == Value(Worths(c, places, |q|), BeginsWith(c, q, fold), |c| - |q|)
  {
    ScanIsWorth(c, q, fold, places);
    BeginsWithQuery(c, q, fold, places);
    hide Scanned;
    hide FirstChances;
    hide Worths;
    hide BeginsWith;
  }

  /** Whatever scores has such places. */
  lemma MatchHasPlaces(c: seq<Byte>, q: seq<Byte>, fold: bool) returns (places: seq<nat>)
    requires c != q && Score(c, q, fold, true) != 0
    ensures FirstChances(places, c, q, fold) && |places| == |q|
  {
    StandsAtStart(c, q, fold);
    places := ScanStands(c, q, fold, Start(), []);
    hide Scanned;
    hide FirstChances;
  }

  /** Of two names with equally good letters the shorter one leads, unless both are down at the least score. */
  lemma ShorterWins(c: seq<Byte>, d: seq<Byte>, q: seq<Byte>, fold: bool, inC: seq<nat>, inD: seq<nat>)
    requires c != q && d != q && |c| < |d| && |inC| == |inD| == |q|
    requires FirstChances(inC, c, q, fold) && FirstChances(inD, d, q, fold)
    requires Worths(c, inC, |q|) == Worths(d, inD, |q|)
    requires BeginsWith(c, q, fold) <==> BeginsWith(d, q, fold)
    ensures Score(c, q, fold, true) >= Score(d, q, fold, true)
    ensures Score(c, q, fold, true) > 1 ==> Score(c, q, fold, true) > Score(d, q, fold, true)
  {
    ScoreIsWorth(c, q, fold, inC);
    ScoreIsWorth(d, q, fold, inD);
    LongerIsLess(Worths(c, inC, |q|), BeginsWith(c, q, fold), |c| - |q|, |d| - |q|);
    hide *;
  }

  lemma LongerIsLess(sum: nat, begins: bool, less: int, more: int)
    requires less < more
    ensures Value(sum, begins, less) >= Value(sum, begins, more)
    ensures Value(sum, begins, less) > 1 ==> Value(sum, begins, less) > Value(sum, begins, more)
  {
  }

  /** Without fuzzy matching exactly the names that begin with the query score, all alike but the exact one. */
  lemma PrefixesScoreAlike(c: seq<Byte>, q: seq<Byte>, fold: bool)
    ensures Score(c, q, fold, false) != 0 <==> exists rest :: c == q + rest
    ensures c != q && q <= c ==> Score(c, q, fold, false) == 1
    ensures Score(q, q, fold, false) == Score(q, q, fold, true) == 0x100_0000
  {
    if q <= c { assert c == q + c[|q|..]; }
  }

  /** Letters are alike when they are the same, or with folding when they differ in case alone. */
  lemma AlikeInCase(a: Byte, b: Byte)
    ensures Alike(a, b, false) <==> a == b
    ensures Alike(a, b, true) <==>
      || a == b
      || ('A' as nat <= a <= 'Z' as nat && b == a - 'A' as nat + 'a' as nat)
      || ('A' as nat <= b <= 'Z' as nat && a == b - 'A' as nat + 'a' as nat)
  {
  }

  /** A query without capitals finds its letters in either case, one with a capital only as they were typed. */
  lemma CapitalsCount(c: seq<Byte>, q: seq<Byte>)
    ensures (exists i :: 0 <= i < |q| && 'A' as nat <= q[i] <= 'Z' as nat) ==>
      (Score(c, q, Folds(q), true) != 0 <==> Subsequence(q, c))
    ensures (forall i :: 0 <= i < |q| ==> !('A' as nat <= q[i] <= 'Z' as nat)) ==>
      (Score(c, q, Folds(q), true) != 0 <==> Subsequence(q, FoldAll(c, true)))
  {
    FuzzyIsComplete(c, q, Folds(q));
    FoldsAre(q);
    FoldedIs(c);
    FoldedIs(q);
    hide *;
  }

  lemma FoldsAre(q: seq<Byte>)
    ensures Folds(q) <==> forall i :: 0 <= i < |q| ==> !('A' as nat <= q[i] <= 'Z' as nat)
  {
  }

  lemma FoldedIs(s: seq<Byte>)
    ensures FoldAll(s, false) == s && (Folds(s) ==> FoldAll(s, true) == s)
  {
  }

  /** A candidate is as good as the better of its names, and each use up to 65536 lifts a match by 16. */
  lemma UsesLift(x: Candidate, q: seq<Byte>, fold: bool, fuzzy: bool, use: nat)
    ensures Total(x, q, fold, fuzzy, false) >= Score(x.name, q, fold, fuzzy)
    ensures x.alt.None? ==> Total(x, q, fold, fuzzy, false) == Score(x.name, q, fold, fuzzy)
    ensures x.alt.Some? ==> Total(x, q, fold, fuzzy, false) >= Score(x.alt.value, q, fold, fuzzy)
    ensures x.alt.Some? && Total(x, q, fold, fuzzy, false) != Score(x.name, q, fold, fuzzy) ==>
      Total(x, q, fold, fuzzy, false) == Score(x.alt.value, q, fold, fuzzy)
    ensures Total(x.(use := 0), q, fold, fuzzy, true) == Total(x, q, fold, fuzzy, false)
    ensures var one := Total(x.(use := use), q, fold, fuzzy, true);
      var two := Total(x.(use := use + 1), q, fold, fuzzy, true);
      if Total(x, q, fold, fuzzy, false) == 0 then one == two == 0
      else if use < 0x1_0000 then two == one + 16 else two == one
  {
    hide Score;
  }

  /** In a ranking the higher total comes first, and of two equal ones the earlier candidate. */
  lemma RankedMeans(list: seq<nat>, scores: seq<int>)
    requires InRange(list, |scores|)
    ensures Ranked(list, scores) <==> forall i, j :: 0 <= i < j < |list| ==>
      scores[list[i]] > scores[list[j]] || (scores[list[i]] == scores[list[j]] && list[i] < list[j])
  {
    if Ranked(list, scores) {
      forall i, j | 0 <= i < j < |list|
        ensures scores[list[i]] > scores[list[j]] || (scores[list[i]] == scores[list[j]] && list[i] < list[j])
      {
        assert Compare(scores, list[i], list[j]) < 0;
      }
    }
  }

  lemma FirefoxFor(fold: bool)
    ensures Score([0x66, 0x69, 0x72, 0x65, 0x66, 0x6F, 0x78], [0x66, 0x66], fold, true) == 75
  {
    var q, c, places := [0x66, 0x66], [0x66, 0x69, 0x72, 0x65, 0x66, 0x6F, 0x78], [0, 4];
    assert FirstChance(places, c, q, fold, 0) && FirstChance(places, c, q, fold, 1);
    ScoreIsWorth(c, q, fold, places);
    assert Worths(c, places, 1) == 9 && Worth(c, places, 1) == 1;
    assert FoldAll(q, fold)[1] != FoldAll(c, fold)[1];
    hide Score;
  }

  lemma CaffeFor(fold: bool)
    ensures Score([0x63, 0x61, 0x66, 0x66, 0x65], [0x66, 0x66], fold, true) == 37
  {
    var q, c, places := [0x66, 0x66], [0x63, 0x61, 0x66, 0x66, 0x65], [2, 3];
    assert FirstChance(places, c, q, fold, 0) && FirstChance(places, c, q, fold, 1);
    ScoreIsWorth(c, q, fold, places);
    assert Worths(c, places, 1) == 1 && Worth(c, places, 1) == 4;
    assert FoldAll(q, fold)[0] != FoldAll(c, fold)[0];
    hide Score;
  }
}
