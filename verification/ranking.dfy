/** The top-5 leaderboard: which scores qualify for it and how a saved
    score is merged into it. */
module Ranking {
  import opened Types

  /** How many entries the leaderboard keeps. */
  const RANKING_SIZE: int := 5
  /** How many characters of the player's name an entry keeps. */
  const NAME_LENGTH: int := 3

  function Min(a: int, b: int): int
  {
    if a <= b then a else b
  }

  /** A finished game's score earns a place on the board: it is positive and
      the board has room or the score beats the board's last entry. */
  predicate Qualifies(score: int, ranking: seq<ScoreEntry>)
  {
    score > 0 && (|ranking| < RANKING_SIZE || score > ranking[|ranking| - 1].score)
  }

  /** Highest score first. */
  predicate SortedDesc(xs: seq<ScoreEntry>)
  {
    forall i, j :: 0 <= i < j < |xs| ==> xs[i].score >= xs[j].score
  }

  /** An entry that scores at least as much as a sorted board stays sorted in front of it. */
  lemma ConsSorted(h: ScoreEntry, t: seq<ScoreEntry>)
    requires SortedDesc(t)
    requires forall i :: 0 <= i < |t| ==> t[i].score <= h.score
    ensures SortedDesc([h] + t)
  {
    forall i, j | 0 <= i < j < |[h] + t|
      ensures ([h] + t)[i].score >= ([h] + t)[j].score
    {
      assert ([h] + t)[j] == t[j - 1];
      if i > 0 {
        assert ([h] + t)[i] == t[i - 1];
      }
    }
  }

  /** Puts `x` into the sorted `ys` before the first entry whose score is not
      above its own, so that it stays ahead of entries it ties with. */
  function Insert(x: ScoreEntry, ys: seq<ScoreEntry>): (r: seq<ScoreEntry>)
    ensures |r| == |ys| + 1
    ensures multiset(r) == multiset(ys) + multiset{x}
  {
    if |ys| == 0 || x.score >= ys[0].score then [x] + ys
    else
      assert ys == [ys[0]] + ys[1..];
      [ys[0]] + Insert(x, ys[1..])
  }

  /** Inserting into a sorted board keeps it sorted. */
  lemma {:induction false} InsertKeepsSorted(x: ScoreEntry, ys: seq<ScoreEntry>)
    requires SortedDesc(ys)
    ensures SortedDesc(Insert(x, ys))
  {
    if |ys| == 0 || x.score >= ys[0].score {
      ConsSorted(x, ys);
    } else {
      var rest := Insert(x, ys[1..]);
      InsertKeepsSorted(x, ys[1..]);
      forall i | 0 <= i < |rest|
        ensures rest[i].score <= ys[0].score
      {
        assert rest[i] in multiset(rest);
        assert rest[i] == x || rest[i] in multiset(ys[1..]);
        if rest[i] != x {
          var j :| 0 <= j < |ys[1..]| && ys[1..][j] == rest[i];
          assert ys[1 + j] == rest[i];
        }
      }
      ConsSorted(ys[0], rest);
    }
  }

  /** The stable sort by descending score of the leaderboard update
      (insertion sort from the back). */
  function SortByScore(xs: seq<ScoreEntry>): (r: seq<ScoreEntry>)
    ensures |r| == |xs|
    ensures multiset(r) == multiset(xs)
  {
    if |xs| == 0 then []
    else
      assert xs == [xs[0]] + xs[1..];
      Insert(xs[0], SortByScore(xs[1..]))
  }

  /** The sort orders by descending score. */
  lemma {:induction false} SortSorts(xs: seq<ScoreEntry>)
    ensures SortedDesc(SortByScore(xs))
  {
    if |xs| > 0 {
      SortSorts(xs[1..]);
      InsertKeepsSorted(xs[0], SortByScore(xs[1..]));
    }
  }

  /** The entries of `xs` that scored `k`, in their order in `xs`. */
  function ScoreClass(xs: seq<ScoreEntry>, k: int): seq<ScoreEntry>
  {
    if |xs| == 0 then []
    else (if xs[0].score == k then [xs[0]] else []) + ScoreClass(xs[1..], k)
  }

  lemma {:induction false} InsertScoreClass(x: ScoreEntry, ys: seq<ScoreEntry>, k: int)
    ensures ScoreClass(Insert(x, ys), k) == (if x.score == k then [x] else []) + ScoreClass(ys, k)
  {
    if |ys| == 0 || x.score >= ys[0].score {
      assert ([x] + ys)[1..] == ys;
    } else {
      var rest := Insert(x, ys[1..]);
      InsertScoreClass(x, ys[1..], k);
      assert ([ys[0]] + rest)[1..] == rest;
      var head := if ys[0].score == k then [ys[0]] else [];
      assert ScoreClass(ys, k) == head + ScoreClass(ys[1..], k);
      assert ScoreClass([ys[0]] + rest, k) == head + ScoreClass(rest, k);
      if x.score == k {
        assert head == [];
      }
    }
  }

  /** The sort is stable: entries with equal scores keep their relative order. */
  lemma {:induction false} SortIsStable(xs: seq<ScoreEntry>, k: int)
    ensures ScoreClass(SortByScore(xs), k) == ScoreClass(xs, k)
  {
    if |xs| > 0 {
      SortIsStable(xs[1..], k);
      InsertScoreClass(xs[0], SortByScore(xs[1..]), k);
    }
  }

  /** JavaScript's white space and line terminators, the characters `trim` removes. */
  predicate IsWhitespace(c: char)
  {
    var n := c as int;
    || 0x09 <= n <= 0x0D || n == 0x20 || n == 0xA0 || n == 0x1680
    || 0x2000 <= n <= 0x200A || n == 0x2028 || n == 0x2029
    || n == 0x202F || n == 0x205F || n == 0x3000 || n == 0xFEFF
  }

  /** The name is empty once trimmed. */
  predicate IsBlank(name: string)
  {
    forall i :: 0 <= i < |name| ==> IsWhitespace(name[i])
  }

  /** The entry a save records: the first characters of the name, the score
      and the difficulty it was earned on, and the date. */
  function NewEntry(name: string, score: int, difficulty: Difficulty, date: string): (e: ScoreEntry)
    ensures |e.name| <= NAME_LENGTH && e.name <= name
    ensures |e.name| == Min(NAME_LENGTH, |name|)
    ensures e.score == score && e.difficulty == difficulty && e.date == date
  {
    ScoreEntry(name[..Min(NAME_LENGTH, |name|)], score, difficulty, date)
  }

  lemma MultisetSplit(s: seq<ScoreEntry>, k: nat)
    requires k <= |s|
    ensures multiset(s[..k]) <= multiset(s)
    ensures multiset(s) - multiset(s[..k]) == multiset(s[k..])
  {
    assert s == s[..k] + s[k..];
  }

  lemma PrefixOutranksSuffix(s: seq<ScoreEntry>, k: nat)
    requires SortedDesc(s) && k <= |s|
    ensures forall a, b :: a in s[..k] && b in s[k..] ==> b.score <= a.score
  {
    forall a, b | a in s[..k] && b in s[k..]
      ensures b.score <= a.score
    {
      var i :| 0 <= i < k && s[..k][i] == a;
      var j :| 0 <= j < |s| - k && s[k..][j] == b;
      assert s[i] == a && s[k + j] == b;
    }
  }

  /** A prefix of a sorted board is sorted and outranks everything cut off. */
  lemma TopPrefix(s: seq<ScoreEntry>, k: nat)
    requires SortedDesc(s) && k <= |s|
    ensures SortedDesc(s[..k])
    ensures multiset(s[..k]) <= multiset(s)
    ensures forall a, b :: a in s[..k] && b in multiset(s) - multiset(s[..k]) ==> b.score <= a.score
  {
    MultisetSplit(s, k);
    PrefixOutranksSuffix(s, k);
  }

  /** Saving a score under `name`: nothing for a blank name; otherwise the
      new entry joins the board, which is re-sorted and cut to the top five. */
  function SaveScore(ranking: seq<ScoreEntry>, name: string, score: int,
                     difficulty: Difficulty, date: string): (r: seq<ScoreEntry>)
    ensures IsBlank(name) ==> r == ranking
    ensures !IsBlank(name) ==> |r| == Min(RANKING_SIZE, |ranking| + 1)
  {
    if IsBlank(name) then ranking
    else
      var sorted := SortByScore(ranking + [NewEntry(name, score, difficulty, date)]);
      sorted[..Min(RANKING_SIZE, |sorted|)]
  }

  /** A save leaves a board sorted by descending score, drawn from the old
      entries and the new one, and every entry it cuts scores no more than
      any entry it keeps. */
  lemma SaveKeepsTheTop(ranking: seq<ScoreEntry>, name: string, score: int,
                        difficulty: Difficulty, date: string)
    requires !IsBlank(name)
    ensures var all := ranking + [NewEntry(name, score, difficulty, date)];
      var r := SaveScore(ranking, name, score, difficulty, date);
      && SortedDesc(r)
      && multiset(r) <= multiset(all)
      && (forall a, b :: a in r && b in multiset(all) - multiset(r) ==> b.score <= a.score)
  {
    var all := ranking + [NewEntry(name, score, difficulty, date)];
    SortSorts(all);
    TopPrefix(SortByScore(all), Min(RANKING_SIZE, |all|));
  }

  /** How many entries at the top of `ranking` score at least `score`: on a
      sorted board, the index a new entry with that score lands at. */
  function Position(ranking: seq<ScoreEntry>, score: int): (p: nat)
    ensures p <= |ranking|
  {
    if |ranking| == 0 || ranking[0].score < score then 0
    else 1 + Position(ranking[1..], score)
  }

  /** Every entry above the position scores at least `score`, the one at it less. */
  lemma {:induction false} PositionSplits(ranking: seq<ScoreEntry>, score: int)
    ensures forall i :: 0 <= i < Position(ranking, score) ==> ranking[i].score >= score
    ensures Position(ranking, score) < |ranking| ==> ranking[Position(ranking, score)].score < score
  {
    if |ranking| > 0 && ranking[0].score >= score {
      PositionSplits(ranking[1..], score);
    }
  }

  /** An entry that scores at least as much as everything in `z` goes in front. */
  lemma InsertInFront(x: ScoreEntry, z: seq<ScoreEntry>)
    requires |z| == 0 || x.score >= z[0].score
    ensures Insert(x, z) == [x] + z
  {
  }

  /** An entry `e` slid into the sorted `rest` at its position. */
  function SlideIn(rest: seq<ScoreEntry>, e: ScoreEntry): seq<ScoreEntry>
  {
    var q := Position(rest, e.score);
    rest[..q] + [e] + rest[q..]
  }

  lemma ConsSlices(a: ScoreEntry, rest: seq<ScoreEntry>, q: nat, e: ScoreEntry)
    requires q <= |rest|
    ensures ([a] + rest)[..1 + q] + [e] + ([a] + rest)[1 + q..] == [a] + (rest[..q] + [e] + rest[q..])
  {
    assert ([a] + rest)[..1 + q] == [a] + rest[..q];
    assert ([a] + rest)[1 + q..] == rest[q..];
  }

  /** Below an entry that scores at least as much, the slide happens in the rest. */
  lemma SlideInBehind(a: ScoreEntry, rest: seq<ScoreEntry>, e: ScoreEntry)
    requires a.score >= e.score
    requires |rest| > 0 ==> rest[0].score <= a.score
    ensures Insert(a, SlideIn(rest, e)) == SlideIn([a] + rest, e)
  {
    var q := Position(rest, e.score);
    var z := rest[..q] + [e] + rest[q..];
    assert z[0] == (if q > 0 then rest[0] else e);
    InsertInFront(a, z);
    assert ([a] + rest)[1..] == rest;
    assert Position([a] + rest, e.score) == 1 + q;
    ConsSlices(a, rest, q, e);
  }

  /** Above an entry that scores less, the new entry goes first. */
  lemma SlideInAhead(a: ScoreEntry, rest: seq<ScoreEntry>, e: ScoreEntry)
    requires a.score < e.score
    requires |rest| > 0 ==> rest[0].score <= a.score
    ensures Insert(a, SlideIn(rest, e)) == SlideIn([a] + rest, e)
  {
    assert Position(rest, e.score) == 0;
    assert SlideIn(rest, e) == [e] + rest;
    InsertInFront(a, rest);
    assert ([e] + rest)[1..] == rest;
    assert Insert(a, [e] + rest) == [e] + ([a] + rest);
    assert Position([a] + rest, e.score) == 0;
  }

  /** On a sorted board, sorting after appending an entry just slides the
      entry in below every entry that scores at least as much. */
  lemma {:induction false} SortAppendToSorted(ranking: seq<ScoreEntry>, e: ScoreEntry)
    requires SortedDesc(ranking)
    ensures SortByScore(ranking + [e]) == SlideIn(ranking, e)
  {
    if |ranking| == 0 {
      assert ranking + [e] == [e];
      assert SortByScore([e]) == Insert(e, SortByScore([]));
    } else {
      var a, rest := ranking[0], ranking[1..];
      assert ranking == [a] + rest;
      assert SortedDesc(rest);
      assert (ranking + [e])[0] == a && (ranking + [e])[1..] == rest + [e];
      SortAppendToSorted(rest, e);
      assert SortByScore(ranking + [e]) == Insert(a, SlideIn(rest, e));
      if a.score >= e.score {
        SlideInBehind(a, rest, e);
      } else {
        SlideInAhead(a, rest, e);
      }
    }
  }

  /** On a sorted board of at most five entries, a score qualifies exactly
      when it is positive and its entry would land within the top five. */
  lemma QualifiesIffWithinTopFive(score: int, ranking: seq<ScoreEntry>)
    requires SortedDesc(ranking) && |ranking| <= RANKING_SIZE
    ensures Qualifies(score, ranking) <==> score > 0 && Position(ranking, score) < RANKING_SIZE
  {
    var p := Position(ranking, score);
    PositionSplits(ranking, score);
    if |ranking| == RANKING_SIZE && p < RANKING_SIZE {
      assert ranking[p].score >= ranking[|ranking| - 1].score;
    }
  }

  /** On a sorted board a save slides the new entry in and cuts to five. */
  lemma SaveOnSortedBoard(ranking: seq<ScoreEntry>, name: string, score: int,
                          difficulty: Difficulty, date: string)
    requires SortedDesc(ranking) && !IsBlank(name)
    ensures var e := NewEntry(name, score, difficulty, date);
      SaveScore(ranking, name, score, difficulty, date)
        == SlideIn(ranking, e)[..Min(RANKING_SIZE, |ranking| + 1)]
  {
    SortAppendToSorted(ranking, NewEntry(name, score, difficulty, date));
  }

  /** A qualifying save puts the entry at its position, keeps the entries
      above it in place, and so changes the board. */
  lemma QualifyingSaveInserts(ranking: seq<ScoreEntry>, name: string, score: int,
                              difficulty: Difficulty, date: string)
    requires SortedDesc(ranking) && |ranking| <= RANKING_SIZE
    requires !IsBlank(name) && Qualifies(score, ranking)
    ensures var r := SaveScore(ranking, name, score, difficulty, date);
      var p := Position(ranking, score);
      && p < |r| && r[p] == NewEntry(name, score, difficulty, date) && r[..p] == ranking[..p]
      && r != ranking
  {
    var e := NewEntry(name, score, difficulty, date);
    var r := SaveScore(ranking, name, score, difficulty, date);
    var p := Position(ranking, score);
    QualifiesIffWithinTopFive(score, ranking);
    PositionSplits(ranking, score);
    SaveOnSortedBoard(ranking, name, score, difficulty, date);
    var merged := ranking[..p] + [e] + ranking[p..];
    assert r == merged[..Min(RANKING_SIZE, |ranking| + 1)];
    assert merged[p] == e;
    assert r[..p] == ranking[..p];
    if |ranking| == RANKING_SIZE {
      assert r[p] != ranking[p];
    } else {
      assert |r| != |ranking|;
    }
  }

  /** A save of a positive score that does not qualify leaves a full sorted
      board as it was. */
  lemma NonQualifyingSaveKeepsBoard(ranking: seq<ScoreEntry>, name: string, score: int,
                                    difficulty: Difficulty, date: string)
    requires SortedDesc(ranking) && |ranking| <= RANKING_SIZE
    requires !IsBlank(name) && score > 0 && !Qualifies(score, ranking)
    ensures SaveScore(ranking, name, score, difficulty, date) == ranking
  {
    var e := NewEntry(name, score, difficulty, date);
    var p := Position(ranking, score);
    QualifiesIffWithinTopFive(score, ranking);
    SaveOnSortedBoard(ranking, name, score, difficulty, date);
    assert p == |ranking| == RANKING_SIZE;
    assert (ranking[..p] + [e] + ranking[p..])[..RANKING_SIZE] == ranking;
  }

  /** On a sorted board of at most five entries, saving a positive score
      changes the board exactly when the score qualifies. */
  lemma SaveChangesBoardIffQualifies(ranking: seq<ScoreEntry>, name: string, score: int,
                                     difficulty: Difficulty, date: string)
    requires SortedDesc(ranking) && |ranking| <= RANKING_SIZE
    requires !IsBlank(name) && score > 0
    ensures Qualifies(score, ranking) <==> SaveScore(ranking, name, score, difficulty, date) != ranking
  {
    if Qualifies(score, ranking) {
      QualifyingSaveInserts(ranking, name, score, difficulty, date);
    } else {
      NonQualifyingSaveKeepsBoard(ranking, name, score, difficulty, date);
    }
  }
}
