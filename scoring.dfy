/**
  Score rules of a finished game and the top-10 leaderboard (src/scoring.py).

  The leaderboard file is read as a list of entries and re-sorted on every load;
  `list.sort(key=score, reverse=True)` is a stable sort, modelled here by
  `SortDesc`, an insertion sort that places each element after the entries
  whose score is at least as high.  The lemmas below show that it is sorted,
  a permutation and stable, and that these three facts determine it.
*/
module Scoring {

  /** One leaderboard record: `{'name', 'score', 'time'}`. */
  datatype ScoreEntry = ScoreEntry(name: string, score: int, time: string)

  /** The scores file as the loader finds it. */
  datatype ScoresFile =
    | Missing                              // the file does not exist
    | Unparsable                           // `json.load` raised
    | Stored(entries: seq<ScoreEntry>)     // the parsed list, in file order

  /** How many records the leaderboard keeps. */
  const TopSize: nat := 10

  // ---------------------------------------------------------------------
  // The score formula
  // ---------------------------------------------------------------------

  /** Final score: 0 for a loss, otherwise 1000 + 50 per point of material left
      minus 2 per second spent, never below 0. */
  function FinalScore(winner: bool, material: int, seconds: int): (r: int)
    ensures r >= 0
    ensures !winner ==> r == 0
  {
    if !winner then 0
    else
      var points := 1000 + material * 50 - seconds * 2;
      if points > 0 then points else 0
  }

  /** A won game scores the raw formula whenever it is not negative, and 0 otherwise. */
  lemma FinalScoreOfWin(material: int, seconds: int)
    ensures 1000 + 50 * material - 2 * seconds >= 0 ==>
              FinalScore(true, material, seconds) == 1000 + 50 * material - 2 * seconds
    ensures 1000 + 50 * material - 2 * seconds < 0 ==> FinalScore(true, material, seconds) == 0
  {
  }

  /** More remaining material never lowers the score; more time spent never raises it. */
  lemma FinalScoreMonotone(winner: bool, m1: int, m2: int, t1: int, t2: int)
    requires m1 <= m2 && t2 <= t1
    ensures FinalScore(winner, m1, t1) <= FinalScore(winner, m2, t2)
  {
  }

  // ---------------------------------------------------------------------
  // Sorting by score, descending, stable
  // ---------------------------------------------------------------------

  predicate SortedDesc(s: seq<ScoreEntry>) {
    forall i, j :: 0 <= i < j < |s| ==> s[i].score >= s[j].score
  }

  /** Inserts `e` into the descending list `s` after every entry whose score is
      at least `e.score`, so that earlier entries win ties. */
  function InsertStable(s: seq<ScoreEntry>, e: ScoreEntry): (r: seq<ScoreEntry>)
    ensures |r| == |s| + 1
    ensures multiset(r) == multiset(s) + multiset{e}
  {
    if s == [] then [e]
    else if s[0].score >= e.score then
      assert s == [s[0]] + s[1..];
      [s[0]] + InsertStable(s[1..], e)
    else [e] + s
  }

  lemma {:induction false} InsertStableSorted(s: seq<ScoreEntry>, e: ScoreEntry)
    requires SortedDesc(s)
    ensures SortedDesc(InsertStable(s, e))
  {
    if s != [] && s[0].score >= e.score {
      var rest := InsertStable(s[1..], e);
      InsertStableSorted(s[1..], e);
      forall j | 0 <= j < |rest| ensures s[0].score >= rest[j].score {
        assert rest[j] in multiset(rest);
        assert rest[j] in multiset(s[1..]) || rest[j] == e;
      }
    }
  }

  /** The stable descending sort of `s`: the last element is inserted into the
      sorted rest after all entries that score at least as much. */
  function SortDesc(s: seq<ScoreEntry>): (r: seq<ScoreEntry>)
    ensures |r| == |s|
    ensures multiset(r) == multiset(s)
    ensures SortedDesc(r)
  {
    if s == [] then []
    else
      assert s == s[..|s| - 1] + [s[|s| - 1]];
      InsertStableSorted(SortDesc(s[..|s| - 1]), s[|s| - 1]);
      InsertStable(SortDesc(s[..|s| - 1]), s[|s| - 1])
  }

  /** The entries of `s` whose score is `v`, in their order in `s`. */
  function WithScore(s: seq<ScoreEntry>, v: int): seq<ScoreEntry> {
    if s == [] then []
    else (if s[0].score == v then [s[0]] else []) + WithScore(s[1..], v)
  }

  lemma {:induction false} WithScoreConcat(a: seq<ScoreEntry>, b: seq<ScoreEntry>, v: int)
    ensures WithScore(a + b, v) == WithScore(a, v) + WithScore(b, v)
  {
    if a == [] {
      assert a + b == b;
    } else {
      var ab := a + b;
      var head := if a[0].score == v then [a[0]] else [];
      assert ab[0] == a[0];
      assert ab[1..] == a[1..] + b;
      WithScoreConcat(a[1..], b, v);
      calc {
        WithScore(ab, v);
        head + WithScore(a[1..] + b, v);
        head + (WithScore(a[1..], v) + WithScore(b, v));
        (head + WithScore(a[1..], v)) + WithScore(b, v);
        WithScore(a, v) + WithScore(b, v);
      }
    }
  }

  lemma {:induction false} WithScoreNone(s: seq<ScoreEntry>, v: int)
    requires forall i :: 0 <= i < |s| ==> s[i].score < v
    ensures WithScore(s, v) == []
  {
    if s != [] {
      WithScoreNone(s[1..], v);
    }
  }

  /** Inserting `e` puts it behind every entry of the same score. */
  lemma {:induction false} InsertStableKeepsTies(s: seq<ScoreEntry>, e: ScoreEntry, v: int)
    requires SortedDesc(s)
    ensures WithScore(InsertStable(s, e), v) == WithScore(s, v) + WithScore([e], v)
  {
    if s == [] {
    } else if s[0].score >= e.score {
      InsertStableKeepsTies(s[1..], e, v);
      TiesBehindHead(s, e, v);
    } else {
      TiesInFront(s, e, v);
    }
  }

  /** The step of `InsertStableKeepsTies` where `e` goes past the head. */
  lemma TiesBehindHead(s: seq<ScoreEntry>, e: ScoreEntry, v: int)
    requires s != [] && s[0].score >= e.score
    requires WithScore(InsertStable(s[1..], e), v) == WithScore(s[1..], v) + WithScore([e], v)
    ensures WithScore(InsertStable(s, e), v) == WithScore(s, v) + WithScore([e], v)
  {
    assert InsertStable(s, e) == [s[0]] + InsertStable(s[1..], e);
    WithScoreCons(s[0], s[1..], [e], InsertStable(s[1..], e), v);
    assert [s[0]] + s[1..] == s;
  }

  lemma WithScoreCons(x: ScoreEntry, a: seq<ScoreEntry>, b: seq<ScoreEntry>, rest: seq<ScoreEntry>, v: int)
    requires WithScore(rest, v) == WithScore(a, v) + WithScore(b, v)
    ensures WithScore([x] + rest, v) == WithScore([x] + a, v) + WithScore(b, v)
  {
    WithScoreConcat([x], rest, v);
    WithScoreConcat([x], a, v);
  }

  /** The step of `InsertStableKeepsTies` where `e` goes in front. */
  lemma TiesInFront(s: seq<ScoreEntry>, e: ScoreEntry, v: int)
    requires SortedDesc(s) && s != [] && s[0].score < e.score
    ensures WithScore(InsertStable(s, e), v) == WithScore(s, v) + WithScore([e], v)
  {
    assert InsertStable(s, e) == [e] + s;
    WithScoreConcat([e], s, v);
    if e.score == v {
      WithScoreNone(s, v);
    }
  }

  /** Stability: the entries sharing any one score keep their original order. */
  lemma {:induction false} SortDescStable(s: seq<ScoreEntry>, v: int)
    ensures WithScore(SortDesc(s), v) == WithScore(s, v)
  {
    if s != [] {
      var init, last := s[..|s| - 1], s[|s| - 1];
      SortDescStable(init, v);
      InsertStableKeepsTies(SortDesc(init), last, v);
      WithScoreConcat(init, [last], v);
      assert init + [last] == s;
    }
  }

  lemma SortedPrefix(s: seq<ScoreEntry>, n: nat)
    requires SortedDesc(s) && n <= |s|
    ensures SortedDesc(s[..n])
  {
  }

  /** Inserting an entry that scores no more than anything in `s` appends it. */
  lemma {:induction false} InsertStableAppends(s: seq<ScoreEntry>, e: ScoreEntry)
    requires SortedDesc(s)
    requires forall i :: 0 <= i < |s| ==> s[i].score >= e.score
    ensures InsertStable(s, e) == s + [e]
  {
    if s != [] {
      InsertStableAppends(s[1..], e);
      assert [s[0]] + (s[1..] + [e]) == s + [e];
    }
  }

  /** Sorting an already sorted list changes nothing. */
  lemma {:induction false} SortDescOfSorted(s: seq<ScoreEntry>)
    requires SortedDesc(s)
    ensures SortDesc(s) == s
  {
    if s != [] {
      var init, last := s[..|s| - 1], s[|s| - 1];
      SortDescOfSorted(init);
      InsertStableAppends(init, last);
      assert init + [last] == s;
    }
  }

  /** Where `e` lands: at an index `k` such that every entry before it scores at
      least `e.score`, and the entry it displaces (if any) scores less. */
  lemma {:induction false} InsertStableIndex(s: seq<ScoreEntry>, e: ScoreEntry) returns (k: nat)
    requires SortedDesc(s)
    ensures k <= |s| && InsertStable(s, e)[k] == e
    ensures forall i :: 0 <= i < k ==> s[i].score >= e.score
    ensures k < |s| ==> s[k].score < e.score
  {
    if s == [] {
      k := 0;
    } else if s[0].score >= e.score {
      var k' := InsertStableIndex(s[1..], e);
      k := k' + 1;
    } else {
      k := 0;
    }
  }

  /** Sorted permutations of each other start with equally high scores. */
  lemma SameTopScore(r: seq<ScoreEntry>, t: seq<ScoreEntry>)
    requires SortedDesc(r) && SortedDesc(t)
    requires multiset(r) == multiset(t) && r != []
    ensures t != [] && r[0].score == t[0].score
  {
    assert r[0] in multiset(t);
    var i :| 0 <= i < |t| && t[i] == r[0];
    assert t[0] in multiset(r);
    var j :| 0 <= j < |r| && r[j] == t[0];
  }

  /** Removing equal first entries keeps the per-score agreement. */
  lemma TailsAgree(r: seq<ScoreEntry>, t: seq<ScoreEntry>, w: int)
    requires r != [] && t != [] && r[0] == t[0]
    requires WithScore(r, w) == WithScore(t, w)
    ensures WithScore(r[1..], w) == WithScore(t[1..], w)
  {
    var head := if r[0].score == w then [r[0]] else [];
    assert WithScore(r, w) == head + WithScore(r[1..], w);
    assert WithScore(t, w) == head + WithScore(t[1..], w);
    assert WithScore(r[1..], w) == WithScore(r, w)[|head|..];
  }

  /** Two sorted lists that agree on the entries of every score are equal:
      sortedness, permutation and stability determine the sort. */
  lemma {:induction false} SortedStableUnique(r: seq<ScoreEntry>, t: seq<ScoreEntry>)
    requires SortedDesc(r) && SortedDesc(t)
    requires multiset(r) == multiset(t)
    requires forall v :: WithScore(r, v) == WithScore(t, v)
    ensures r == t
  {
    if r == [] {
      assert |t| == |multiset(t)| == 0;
    } else {
      SameTopScore(r, t);
      var v := r[0].score;
      assert WithScore(r, v)[0] == r[0];
      assert WithScore(t, v) == WithScore(r, v);
      assert WithScore(t, v)[0] == t[0];
      assert r[0] == t[0];
      var r', t' := r[1..], t[1..];
      assert r == [r[0]] + r';
      assert t == [t[0]] + t';
      assert multiset(r') == multiset(t') by {
        assert multiset(r) == multiset{r[0]} + multiset(r');
        assert multiset(t) == multiset{r[0]} + multiset(t');
        forall x ensures multiset(r')[x] == multiset(t')[x] {
          assert multiset(r)[x] == multiset{r[0]}[x] + multiset(r')[x];
          assert multiset(t)[x] == multiset{r[0]}[x] + multiset(t')[x];
        }
      }
      forall w ensures WithScore(r', w) == WithScore(t', w) {
        TailsAgree(r, t, w);
      }
      SortedStableUnique(r', t');
    }
  }

  /** `SortDesc` is the only sorted, stable permutation of its input. */
  lemma SortDescCharacterized(s: seq<ScoreEntry>, r: seq<ScoreEntry>)
    requires SortedDesc(r) && multiset(r) == multiset(s)
    requires forall v :: WithScore(r, v) == WithScore(s, v)
    ensures r == SortDesc(s)
  {
    forall v ensures WithScore(r, v) == WithScore(SortDesc(s), v) {
      SortDescStable(s, v);
    }
    SortedStableUnique(r, SortDesc(s));
  }

  // ---------------------------------------------------------------------
  // The leaderboard operations
  // ---------------------------------------------------------------------

  /** The records in the file, or none when it is missing or unreadable. */
  function StoredEntries(f: ScoresFile): seq<ScoreEntry> {
    if f.Stored? then f.entries else []
  }

  /** `load_scores`: the stored records sorted by score, highest first; an
      absent or unreadable file reads as the empty list. */
  function LoadScores(f: ScoresFile): (r: seq<ScoreEntry>)
    ensures SortedDesc(r)
    ensures multiset(r) == multiset(StoredEntries(f))
  {
    match f
    case Stored(entries) => SortDesc(entries)
    case _ => []
  }

  /** Sorting a list with one more entry at the end inserts that entry into the
      sorted list. */
  lemma SortDescSnoc(s: seq<ScoreEntry>, e: ScoreEntry)
    ensures SortDesc(s + [e]) == InsertStable(SortDesc(s), e)
  {
    var t := s + [e];
    assert t[..|t| - 1] == s;
  }

  /** Loading keeps the records of each score in file order. */
  lemma LoadScoresStable(f: ScoresFile, v: int)
    ensures WithScore(LoadScores(f), v) == WithScore(StoredEntries(f), v)
  {
    SortDescStable(StoredEntries(f), v);
  }

  /** Loading is sorting the stored records. */
  lemma LoadIsSort(f: ScoresFile)
    ensures LoadScores(f) == SortDesc(StoredEntries(f))
  {
  }

  /** The list `save_score` sorts equals the stable sort of the stored records
      followed by the new one: sorting the loaded copy again changes nothing. */
  lemma SaveSortsOnce(f: ScoresFile, e: ScoreEntry)
    ensures SortDesc(LoadScores(f) + [e]) == InsertStable(LoadScores(f), e)
    ensures SortDesc(StoredEntries(f) + [e]) == InsertStable(LoadScores(f), e)
  {
    SortDescSnoc(LoadScores(f), e);
    SortDescOfSorted(LoadScores(f));
    SortDescSnoc(StoredEntries(f), e);
    LoadIsSort(f);
  }

  /** `save_score`: the list written back, i.e. the loaded records with the new
      one appended, sorted again and cut to the first ten. */
  function SaveScore(f: ScoresFile, name: string, score: int, time: string): (r: seq<ScoreEntry>)
    ensures |r| <= TopSize
    ensures |r| == if |StoredEntries(f)| + 1 < TopSize then |StoredEntries(f)| + 1 else TopSize
    ensures SortedDesc(r)
    ensures r == SortDesc(StoredEntries(f) + [ScoreEntry(name, score, time)])[..|r|]
  {
    var e := ScoreEntry(name, score, time);
    var sorted := SortDesc(LoadScores(f) + [e]);
    var n := if |sorted| <= TopSize then |sorted| else TopSize;
    SaveScoreFacts(f, e, n);
    sorted[..n]
  }

  lemma SaveScoreFacts(f: ScoresFile, e: ScoreEntry, n: nat)
    requires n <= |StoredEntries(f)| + 1
    ensures SortDesc(LoadScores(f) + [e])[..n] == SortDesc(StoredEntries(f) + [e])[..n]
    ensures SortedDesc(SortDesc(LoadScores(f) + [e])[..n])
  {
    SaveSortsOnce(f, e);
    SortedPrefix(SortDesc(LoadScores(f) + [e]), n);
  }

  /** `check_is_highscore`: a score enters the board while it has fewer than ten
      records, or when it beats at least one stored record. */
  function IsHighscore(f: ScoresFile, score: int): (b: bool)
    ensures b <==> |StoredEntries(f)| < TopSize ||
                   exists x :: x in StoredEntries(f) && score > x.score
  {
    var scores := LoadScores(f);
    assert forall x :: x in scores <==> x in StoredEntries(f) by {
      forall x ensures x in scores <==> x in StoredEntries(f) {
        assert x in scores <==> x in multiset(scores);
      }
    }
    |scores| < TopSize || exists i :: 0 <= i < |scores| && score > scores[i].score
  }

  /** What `save_score` writes, in terms of one insertion into the loaded list. */
  lemma SaveScoreInserts(f: ScoresFile, name: string, score: int, time: string)
    ensures var t := LoadScores(f);
            SaveScore(f, name, score, time) ==
              InsertStable(t, ScoreEntry(name, score, time))[..if |t| + 1 < TopSize then |t| + 1 else TopSize]
  {
    SaveSortsOnce(f, ScoreEntry(name, score, time));
  }

  /** When `e` beats the last entry, that entry ends up last. */
  lemma {:induction false} InsertStableLast(s: seq<ScoreEntry>, e: ScoreEntry)
    requires s != [] && s[|s| - 1].score < e.score
    ensures InsertStable(s, e)[|s|] == s[|s| - 1]
  {
    if |s| > 1 && s[0].score >= e.score {
      InsertStableLast(s[1..], e);
    }
  }

  /** Inserting into a list whose last entry `e` beats and cutting the result
      back to the old length drops that last entry, never `e`. */
  lemma FullInsertCount(t: seq<ScoreEntry>, e: ScoreEntry)
    requires t != [] && t[|t| - 1].score < e.score
    ensures multiset(InsertStable(t, e)[..|t|])[e] == multiset(t)[e] + 1
  {
    var r := InsertStable(t, e);
    InsertStableLast(t, e);
    assert r == r[..|t|] + [t[|t| - 1]];
    assert multiset(r) == multiset(r[..|t|]) + multiset{t[|t| - 1]};
    assert t[|t| - 1] != e;
    assert multiset(r)[e] == multiset(r[..|t|])[e];
  }

  /** In a sorted list, an entry that beats some entry beats the last one. */
  lemma LastBeaten(t: seq<ScoreEntry>, e: ScoreEntry)
    requires SortedDesc(t)
    requires exists j :: 0 <= j < |t| && t[j].score < e.score
    ensures t != [] && t[|t| - 1].score < e.score
  {
    var j :| 0 <= j < |t| && t[j].score < e.score;
    if j < |t| - 1 {
      assert t[j].score >= t[|t| - 1].score;
    }
  }

  /** In a sorted list of at most `n` entries, an entry that beats one of them
      or finds the list short lands within the first `n` places, and what is
      cut off is not a copy of it. */
  lemma InsertWithinTop(t: seq<ScoreEntry>, e: ScoreEntry, n: nat)
    requires SortedDesc(t) && |t| <= n
    requires |t| < n || exists j :: 0 <= j < |t| && t[j].score < e.score
    ensures e in InsertStable(t, e)[..if |t| + 1 < n then |t| + 1 else n]
    ensures multiset(InsertStable(t, e)[..if |t| + 1 < n then |t| + 1 else n])[e] == multiset(t)[e] + 1
  {
    var m := if |t| + 1 < n then |t| + 1 else n;
    if |t| < n {
      assert InsertStable(t, e)[..m] == InsertStable(t, e);
    } else {
      LastBeaten(t, e);
      FullInsertCount(t, e);
    }
    assert e in multiset(InsertStable(t, e)[..m]);
  }

  /** A record of the loaded list beats `score` exactly when a stored one does. */
  lemma LoadedBeaten(f: ScoresFile, score: int)
    requires exists x :: x in StoredEntries(f) && score > x.score
    ensures exists j :: 0 <= j < |LoadScores(f)| && LoadScores(f)[j].score < score
  {
    var x :| x in StoredEntries(f) && score > x.score;
    assert x in multiset(StoredEntries(f));
    assert x in LoadScores(f);
  }

  /** A highscore is kept by the save that follows it, provided the file holds
      at most ten records (the shape `save_score` itself writes). */
  lemma {:induction false} HighscoreIsKept(f: ScoresFile, name: string, score: int, time: string)
    requires |StoredEntries(f)| <= TopSize
    requires IsHighscore(f, score)
    ensures ScoreEntry(name, score, time) in SaveScore(f, name, score, time)
    ensures multiset(SaveScore(f, name, score, time))[ScoreEntry(name, score, time)]
            == multiset(LoadScores(f))[ScoreEntry(name, score, time)] + 1
  {
    var e := ScoreEntry(name, score, time);
    var t := LoadScores(f);
    assert |t| == |StoredEntries(f)|;
    SaveScoreInserts(f, name, score, time);
    if |t| >= TopSize {
      LoadedBeaten(f, score);
    }
    InsertWithinTop(t, e, TopSize);
  }

  /** Every stored record scores at least `score` when it is not a highscore. */
  lemma LoadedNotBeaten(f: ScoresFile, score: int)
    requires forall x :: x in StoredEntries(f) ==> x.score >= score
    ensures forall j :: 0 <= j < |LoadScores(f)| ==> LoadScores(f)[j].score >= score
  {
    forall j | 0 <= j < |LoadScores(f)| ensures LoadScores(f)[j].score >= score {
      assert LoadScores(f)[j] in multiset(StoredEntries(f));
    }
  }

  /** In a full sorted list, an entry that beats none of them falls off the end. */
  lemma AppendedOutsideTop(t: seq<ScoreEntry>, e: ScoreEntry, n: nat)
    requires SortedDesc(t) && |t| >= n
    requires forall j :: 0 <= j < |t| ==> t[j].score >= e.score
    ensures InsertStable(t, e)[..if |t| + 1 < n then |t| + 1 else n] == t[..n]
  {
    InsertStableAppends(t, e);
    assert (t + [e])[..n] == t[..n];
  }

  /** A score that is not a highscore leaves the top ten exactly as they were. */
  lemma {:induction false} LowScoreChangesNothing(f: ScoresFile, name: string, score: int, time: string)
    requires !IsHighscore(f, score)
    ensures SaveScore(f, name, score, time) == LoadScores(f)[..TopSize]
  {
    var e := ScoreEntry(name, score, time);
    var t := LoadScores(f);
    assert |t| >= TopSize by {
      assert |multiset(t)| == |multiset(StoredEntries(f))|;
    }
    LoadedNotBeaten(f, score);
    AppendedOutsideTop(t, e, TopSize);
    SaveScoreInserts(f, name, score, time);
  }
}
