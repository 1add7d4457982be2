/** The scores panel: players ranked by score, highest first, with the leader's trophy
    and the judge's crown. */
module Scores {
  import opened Seqs

  /** A player as the panel reads it. */
  datatype Player = Player(id: string, name: string, score: int, isJudge: bool)

  // ----- ranking -----

  /** Scores never increase from one row to the next. */
  ghost predicate SortedDesc(s: seq<Player>) {
    forall i, j :: 0 <= i < j < |s| ==> s[i].score >= s[j].score
  }

  function HasScore(v: int): Player -> bool {
    (p: Player) => p.score == v
  }

  /** Places `x` before the first player of `t` whose score is not higher than its own:
      one step of a stable sort by the comparator `b.score - a.score`, where `x` came
      before every player of `t` in the input. */
  function Insert(x: Player, t: seq<Player>): (r: seq<Player>)
    ensures |r| == |t| + 1
  {
    if |t| == 0 then [x]
    else if t[0].score <= x.score then [x] + t
    else [t[0]] + Insert(x, t[1..])
  }

  /** Inserting adds `x` and loses nobody. */
  lemma {:induction false} InsertPermutes(x: Player, t: seq<Player>)
    ensures multiset(Insert(x, t)) == multiset(t) + multiset{x}
  {
    if |t| > 0 && t[0].score > x.score {
      InsertPermutes(x, t[1..]);
      assert t == [t[0]] + t[1..];
    }
  }

  /** `players.sort((a, b) => b.score - a.score)`: the sort is stable, so players with
      equal scores keep their relative order. */
  function SortByScore(s: seq<Player>): (r: seq<Player>)
    ensures |r| == |s|
    ensures multiset(r) == multiset(s)
  {
    if |s| == 0 then []
    else
      assert s == [s[0]] + s[1..];
      InsertPermutes(s[0], SortByScore(s[1..]));
      Insert(s[0], SortByScore(s[1..]))
  }

  /** A bound on every score of `t` and on `x` bounds every score after inserting. */
  lemma {:induction false} InsertBounded(x: Player, t: seq<Player>, bound: int)
    requires x.score <= bound && forall i :: 0 <= i < |t| ==> t[i].score <= bound
    ensures forall i :: 0 <= i < |Insert(x, t)| ==> Insert(x, t)[i].score <= bound
  {
    if |t| > 0 && t[0].score > x.score {
      InsertBounded(x, t[1..], bound);
      var rest := Insert(x, t[1..]);
      assert Insert(x, t) == [t[0]] + rest;
    }
  }

  /** Inserting into a ranking keeps it a ranking. */
  lemma {:induction false} InsertSorted(x: Player, t: seq<Player>)
    requires SortedDesc(t)
    ensures SortedDesc(Insert(x, t))
  {
    if |t| > 0 && t[0].score > x.score {
      var rest := Insert(x, t[1..]);
      InsertSorted(x, t[1..]);
      InsertBounded(x, t[1..], t[0].score);
      var r := [t[0]] + rest;
      assert Insert(x, t) == r;
      forall i, j | 0 <= i < j < |r|
        ensures r[i].score >= r[j].score
      {
        if i > 0 {
          assert r[i] == rest[i - 1] && r[j] == rest[j - 1];
        } else {
          assert r[j] == rest[j - 1];
        }
      }
    }
  }

  /** The panel lists players from the highest score down. */
  lemma {:induction false} SortByScoreSorted(s: seq<Player>)
    ensures SortedDesc(SortByScore(s))
  {
    if |s| > 0 {
      SortByScoreSorted(s[1..]);
      InsertSorted(s[0], SortByScore(s[1..]));
    }
  }

  /** Filtering a single player keeps it exactly when it holds the score. */
  lemma FilterOne(p: Player, v: int)
    ensures Filter([p], HasScore(v)) == if p.score == v then [p] else []
  {
    assert [p][1..] == [];
  }

  /** Among the players holding one score, inserting `x` puts it before the others. */
  lemma {:induction false} InsertKeepsTies(x: Player, t: seq<Player>, v: int)
    ensures Filter(Insert(x, t), HasScore(v)) == Filter([x], HasScore(v)) + Filter(t, HasScore(v))
  {
    if |t| == 0 {
      assert Insert(x, t) == [x] + t;
      FilterAppend([x], t, HasScore(v));
    } else if t[0].score <= x.score {
      assert Insert(x, t) == [x] + t;
      FilterAppend([x], t, HasScore(v));
    } else {
      InsertKeepsTies(x, t[1..], v);
      InsertBehindHigher(x, t, v);
    }
  }

  /** Filtering a sequence splits at its first element. */
  lemma FilterCons(t: seq<Player>, v: int)
    requires |t| > 0
    ensures Filter(t, HasScore(v)) == Filter([t[0]], HasScore(v)) + Filter(t[1..], HasScore(v))
  {
    assert t == [t[0]] + t[1..];
    FilterAppend([t[0]], t[1..], HasScore(v));
  }

  /** A player `p` with a higher score than `x` can be moved in front of `x` without
      changing the order among the holders of any one score. */
  lemma PassHigher(p: Player, x: Player, rest: seq<Player>, tail: seq<Player>, v: int)
    requires p.score > x.score
    requires Filter(rest, HasScore(v)) == Filter([x], HasScore(v)) + Filter(tail, HasScore(v))
    ensures Filter([p] + rest, HasScore(v)) == Filter([x], HasScore(v)) + Filter([p] + tail, HasScore(v))
  {
    var keep := HasScore(v);
    FilterAppend([p], rest, keep);
    FilterAppend([p], tail, keep);
    FilterOne(p, v);
    FilterOne(x, v);
    SwapPastEmpty(Filter([p], keep), Filter([x], keep), Filter(tail, keep));
  }

  /** Two blocks, one of them empty, can be exchanged. */
  lemma SwapPastEmpty<T>(a: seq<T>, b: seq<T>, c: seq<T>)
    requires a == [] || b == []
    ensures a + (b + c) == b + (a + c)
  {
  }

  /** The step of `InsertKeepsTies` where `x` moves past a higher score. */
  lemma InsertBehindHigher(x: Player, t: seq<Player>, v: int)
    requires |t| > 0 && t[0].score > x.score
    requires Filter(Insert(x, t[1..]), HasScore(v)) == Filter([x], HasScore(v)) + Filter(t[1..], HasScore(v))
    ensures Filter(Insert(x, t), HasScore(v)) == Filter([x], HasScore(v)) + Filter(t, HasScore(v))
  {
    assert Insert(x, t) == [t[0]] + Insert(x, t[1..]);
    PassHigher(t[0], x, Insert(x, t[1..]), t[1..], v);
    FilterAppend([t[0]], t[1..], HasScore(v));
    FilterCons(t, v);
  }

  /** Stability: for every score, the players holding it appear in the ranking in the
      order they had in the input. */
  lemma {:induction false} SortByScoreStable(s: seq<Player>, v: int)
    ensures Filter(SortByScore(s), HasScore(v)) == Filter(s, HasScore(v))
  {
    if |s| > 0 {
      SortByScoreStable(s[1..], v);
      assert SortByScore(s) == Insert(s[0], SortByScore(s[1..]));
      InsertKeepsTies(s[0], SortByScore(s[1..]), v);
      FilterCons(s, v);
    }
  }

  /** The highest score among the players. */
  function MaxScore(s: seq<Player>): (m: int)
    requires |s| > 0
    ensures exists i :: 0 <= i < |s| && s[i].score == m
    ensures forall i :: 0 <= i < |s| ==> s[i].score <= m
  {
    if |s| == 1 then s[0].score
    else
      var rest := MaxScore(s[1..]);
      assert forall i :: 1 <= i < |s| ==> s[i] == s[1..][i - 1];
      if s[0].score >= rest then s[0].score else rest
  }

  /** The first row of the ranking is the earliest player, in input order, among those
      holding the highest score. */
  lemma FirstRowIsFirstTopScorer(s: seq<Player>)
    requires |s| > 0
    ensures var r := SortByScore(s); var m := MaxScore(s);
      |Filter(s, HasScore(m))| > 0 && r[0] == Filter(s, HasScore(m))[0]
  {
    var r := SortByScore(s);
    var m := MaxScore(s);
    SortByScoreSorted(s);
    SortByScoreStable(s, m);
    assert r[0] in multiset(s);
    var i :| 0 <= i < |s| && s[i].score == m;
    assert s[i] in multiset(r);
    assert r[0].score == m;
    assert r == [r[0]] + r[1..];
    FilterAppend([r[0]], r[1..], HasScore(m));
  }

  // ----- rows -----

  /** The background a row gets. */
  datatype RowStyle = Leader | JudgeRow | Plain

  /** What a row shows: the trophy for the leader, and the crown and `(Judge)` tag for
      the judge. */
  datatype Row = Row(player: Player, style: RowStyle, trophy: bool, crown: bool)

  /** The trophy condition: the first row, with a positive score, of a player who is not
      the judge. */
  predicate ShowsTrophy(index: int, p: Player) {
    index == 0 && p.score > 0 && !p.isJudge
  }

  function RowFor(index: int, p: Player): Row {
    Row(p,
        if ShowsTrophy(index, p) then Leader else if p.isJudge then JudgeRow else Plain,
        ShowsTrophy(index, p),
        p.isJudge)
  }

  /** The rows the panel renders, in ranking order. */
  function ScoreRows(players: seq<Player>): (rows: seq<Row>)
    ensures |rows| == |players|
  {
    var r := SortByScore(players);
    seq(|r|, i requires 0 <= i < |r| => RowFor(i, r[i]))
  }

  /** Only the first row can carry the trophy, and it then has the leader's style; every
      judge row carries the crown and no other row does. */
  lemma TrophyOnlyOnFirstRow(players: seq<Player>)
    ensures var rows := ScoreRows(players);
      && (forall i :: 0 <= i < |rows| && rows[i].trophy ==> i == 0 && rows[i].style == Leader)
      && (forall i :: 0 <= i < |rows| ==> (rows[i].crown <==> rows[i].player.isJudge))
  {
  }

  /** The trophy is shown exactly when the earliest top scorer, in input order, is not the
      judge and has scored: a judge sharing the top score who came first takes the first
      row and so suppresses the trophy. */
  lemma TrophyGoesToFirstTopScorer(players: seq<Player>)
    ensures var rows := ScoreRows(players);
      (exists i :: 0 <= i < |rows| && rows[i].trophy) <==>
        |players| > 0 &&
        var top := Filter(players, HasScore(MaxScore(players)))[0];
        top.score > 0 && !top.isJudge
  {
    var rows := ScoreRows(players);
    if |players| > 0 {
      FirstRowIsFirstTopScorer(players);
      assert rows[0].player == SortByScore(players)[0];
      if exists i :: 0 <= i < |rows| && rows[i].trophy {
        var i :| 0 <= i < |rows| && rows[i].trophy;
        assert i == 0;
      } else {
        assert !rows[0].trophy;
      }
    }
  }

  /** The rows show every player exactly once, in an order that never lets a lower score
      come first. */
  lemma ScoreRowsRankPlayers(players: seq<Player>)
    ensures var rows := ScoreRows(players);
      && multiset(seq(|rows|, i requires 0 <= i < |rows| => rows[i].player)) == multiset(players)
      && (forall i, j :: 0 <= i < j < |rows| ==> rows[i].player.score >= rows[j].player.score)
  {
    var rows := ScoreRows(players);
    SortByScoreSorted(players);
    assert seq(|rows|, i requires 0 <= i < |rows| => rows[i].player) == SortByScore(players);
  }
}
