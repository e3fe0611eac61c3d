/**
  The recommendation list (app.py:64-83): the cleaned and scored sheet without
  the players already drafted (app.py:82), ordered by `Score_Final` from high to
  low (app.py:83), and the whole sequence of steps that produces it.

  A row is dropped when its `sleeper_id` is one of the drafted ids; a row
  without an id (`isin` is false for NaN) always stays. `sort_values` puts
  missing values last and uses an unstable sort, so pandas does not promise an
  order among equal scores. `SortByScore` is an insertion sort and keeps such
  rows in input order. Its contract and `RecommendSpec` state only that the
  result is a permutation of the available rows in non-increasing score order;
  `RecommendPicks` and the worked example state the exact list, tie order
  included.
 */
module Ranking {
  import opened Numbers
  import opened Frame
  import Sleeper
  import Scoring

  // ---- `~df_scored['sleeper_id'].isin(picked_ids)` ----

  /** The row survives the filter: it has no id, or its id was not drafted. */
  predicate Kept(r: Row, picked: seq<string>)
  {
    !(r.sleeperId.Some? && r.sleeperId.value in picked)
  }

  /** `df_scored[~df_scored['sleeper_id'].isin(picked_ids)]`, in frame order: only undrafted rows, never more. */
  function Undrafted(s: seq<Row>, picked: seq<string>): (r: seq<Row>)
    ensures |r| <= |s|
    ensures forall i :: 0 <= i < |r| ==> Kept(r[i], picked)
  {
    if s == [] then []
    else (if Kept(s[0], picked) then [s[0]] else []) + Undrafted(s[1..], picked)
  }

  /**
    The filter keeps every occurrence of each surviving row and no occurrence of
    a drafted one.
   */
  lemma {:induction false} UndraftedCounts(s: seq<Row>, picked: seq<string>)
    ensures forall x :: multiset(Undrafted(s, picked))[x] == if Kept(x, picked) then multiset(s)[x] else 0
  {
    if s != [] {
      UndraftedCounts(s[1..], picked);
      assert s == [s[0]] + s[1..];
      assert multiset(s) == multiset{s[0]} + multiset(s[1..]);
    }
  }

  /** A row is available exactly when it is in the scored frame and was not drafted. */
  lemma UndraftedMembers(s: seq<Row>, picked: seq<string>)
    ensures forall x :: x in Undrafted(s, picked) <==> x in s && Kept(x, picked)
    ensures |Undrafted(s, picked)| <= |s|
  {
    UndraftedCounts(s, picked);
    assert forall x :: x in Undrafted(s, picked) <==> x in multiset(Undrafted(s, picked));
    assert multiset(Undrafted(s, picked)) <= multiset(s);
  }

  /** A player the name dictionary does not know is never filtered out. */
  lemma UnmappedRowKept(s: seq<Row>, picked: seq<string>, i: nat)
    requires i < |s| && s[i].sleeperId.None?
    ensures s[i] in Undrafted(s, picked)
  {
    UndraftedMembers(s, picked);
  }

  /** Filtering by two batches of picks in turn is filtering by both at once. */
  lemma {:induction false} UndraftedAccumulates(s: seq<Row>, p: seq<string>, q: seq<string>)
    ensures Undrafted(s, p + q) == Undrafted(Undrafted(s, p), q)
  {
    if s != [] {
      UndraftedAccumulates(s[1..], p, q);
      var head := if Kept(s[0], p) then [s[0]] else [];
      UndraftedAppend(head, Undrafted(s[1..], p), q);
      if Kept(s[0], p) {
        assert Undrafted(head, q) == if Kept(s[0], q) then [s[0]] else [] by {
          assert head[1..] == [];
        }
      }
    }
  }

  /** The filter works row by row, so it distributes over concatenation. */
  lemma {:induction false} UndraftedAppend(s: seq<Row>, t: seq<Row>, picked: seq<string>)
    ensures Undrafted(s + t, picked) == Undrafted(s, picked) + Undrafted(t, picked)
  {
    if s == [] {
      assert s + t == t;
    } else {
      assert (s + t)[1..] == s[1..] + t;
      UndraftedAppend(s[1..], t, picked);
    }
  }

  // ---- `sort_values(by='Score_Final', ascending=False)` ----

  /** `a` may come before `b`: `b` has no score, or both have one and `a`'s is not lower. */
  predicate Ranked(a: Row, b: Row)
  {
    b.scoreFinal.None? || (a.scoreFinal.Some? && a.scoreFinal.value >= b.scoreFinal.value)
  }

  predicate SortedByScore(s: seq<Row>)
  {
    forall i, j :: 0 <= i < j < |s| ==> Ranked(s[i], s[j])
  }

  /** Puts `x` in front of the first row it may precede. */
  function Insert(x: Row, s: seq<Row>): (r: seq<Row>)
    ensures multiset(r) == multiset(s) + multiset{x}
  {
    if s == [] || Ranked(x, s[0]) then [x] + s
    else
      assert s == [s[0]] + s[1..];
      [s[0]] + Insert(x, s[1..])
  }

  /** Inserting into a sorted list keeps it sorted. */
  lemma {:induction false} InsertSorted(x: Row, s: seq<Row>)
    requires SortedByScore(s)
    ensures SortedByScore(Insert(x, s))
  {
    if s != [] && !Ranked(x, s[0]) {
      var t := s[1..];
      var ins := Insert(x, t);
      InsertSorted(x, t);
      assert Insert(x, s) == [s[0]] + ins;
      forall k | 0 <= k < |ins| ensures Ranked(s[0], ins[k]) {
        assert ins[k] in multiset(ins);
        if ins[k] != x {
          assert ins[k] in multiset(t);
          var j :| 0 <= j < |t| && t[j] == ins[k];
          assert t[j] == s[j + 1];
        }
      }
    }
  }

  /** The rows ordered by `Score_Final` from high to low, rows without a score last. */
  function SortByScore(s: seq<Row>): (r: seq<Row>)
    ensures multiset(r) == multiset(s)
    ensures SortedByScore(r)
  {
    if s == [] then []
    else
      var rest := SortByScore(s[1..]);
      InsertSorted(s[0], rest);
      assert s == [s[0]] + s[1..];
      Insert(s[0], rest)
  }

  // ---- The whole run: lines 64-83 ----

  /** A row as it reaches the filter: cleaned, scored and given its Sleeper id. */
  function ProcessedRow(r: Row, nameToId: map<string, string>): Row
    requires Parses(r)
  {
    WithId(Scored(CleanRow(r)), nameToId)
  }

  /** `df_scored` after line 79, for a sheet whose numeric cells all parse. */
  function ProcessedFrame(rows: seq<Row>, catalog: seq<Sleeper.Entry>): (f: seq<Row>)
    requires forall i :: 0 <= i < |rows| ==> Parses(rows[i])
    ensures |f| == |rows|
    ensures forall i :: 0 <= i < |rows| ==> f[i] == ProcessedRow(rows[i], Sleeper.NameToId(catalog))
  {
    CleanAllSpec(rows);
    var cleaned := CleanAll(rows).rows;
    WithIds(WithScores(cleaned), Sleeper.NameToId(catalog))
  }

  /**
    What the run shows under "Top Picks" before the first twenty are taken: the
    text `float()` rejected, or the available rows in score order.
   */
  function Recommend(rows: seq<Row>, catalog: seq<Sleeper.Entry>, picked: seq<string>): (r: Result<seq<Row>>)
    ensures r.Ok? ==> SortedByScore(r.value) && |r.value| <= |rows|
  {
    var c := CleanAll(rows);
    if c.failure.Some? then Err(c.failure.value)
    else
      CleanAllSpec(rows);
      var kept := Undrafted(ProcessedFrame(rows, catalog), picked);
      var out := SortByScore(kept);
      assert |out| == |kept| by {
        assert |multiset(out)| == |multiset(kept)|;
      }
      Ok(out)
  }

  /**
    A list holding the undrafted rows of a frame, in any order, holds each
    undrafted row as often as the frame does and no drafted row.
   */
  lemma AvailableRows(frame: seq<Row>, picked: seq<string>, out: seq<Row>)
    requires multiset(out) == multiset(Undrafted(frame, picked))
    ensures forall x :: multiset(out)[x] == if Kept(x, picked) then multiset(frame)[x] else 0
    ensures forall x :: x in out <==> x in frame && Kept(x, picked)
  {
    UndraftedCounts(frame, picked);
    assert forall x :: x in out <==> x in multiset(out);
    assert forall x :: x in frame <==> x in multiset(frame);
  }

  /**
    The run produces a list exactly when every numeric cell parses, and fails
    with the text of a cell that does not. The list is in non-increasing score
    order, every row in it is scored and undrafted, and it holds the processed
    version of an input row exactly when that row was not drafted, as many
    times as the processed sheet holds it.
   */
  lemma RecommendSpec(rows: seq<Row>, catalog: seq<Sleeper.Entry>, picked: seq<string>)
    ensures Recommend(rows, catalog, picked).Ok? <==> forall i :: 0 <= i < |rows| ==> Parses(rows[i])
    ensures Recommend(rows, catalog, picked).Err? ==>
      exists i, col :: 0 <= i < |rows| && CleanNum(Get(rows[i], col)) == Err(Recommend(rows, catalog, picked).rejected)
    ensures Recommend(rows, catalog, picked).Ok? ==>
      var out := Recommend(rows, catalog, picked).value;
      var nameToId := Sleeper.NameToId(catalog);
      && SortedByScore(out)
      && |out| <= |rows|
      && (forall x :: x in out ==> x.scoreFinal.Some? && Kept(x, picked))
      && (forall x :: x in out ==> exists i :: 0 <= i < |rows| && x == ProcessedRow(rows[i], nameToId))
      && (forall i :: 0 <= i < |rows| ==>
            (ProcessedRow(rows[i], nameToId) in out <==> Kept(ProcessedRow(rows[i], nameToId), picked)))
    ensures Recommend(rows, catalog, picked).Ok? ==>
      forall x :: multiset(Recommend(rows, catalog, picked).value)[x] ==
        if Kept(x, picked) then multiset(ProcessedFrame(rows, catalog))[x] else 0
  {
    CleanAllSpec(rows);
    if CleanAll(rows).failure.None? {
      var frame := ProcessedFrame(rows, catalog);
      var out := SortByScore(Undrafted(frame, picked));
      assert Recommend(rows, catalog, picked) == Ok(out);
      ListOfFrame(rows, Sleeper.NameToId(catalog), frame, picked, out);
    }
  }

  /**
    The facts `RecommendSpec` states about the list, for any frame of processed
    rows and any reordering of its undrafted rows.
   */
  lemma ListOfFrame(rows: seq<Row>, nameToId: map<string, string>, frame: seq<Row>, picked: seq<string>, out: seq<Row>)
    requires forall i :: 0 <= i < |rows| ==> Parses(rows[i])
    requires |frame| == |rows| && forall i :: 0 <= i < |rows| ==> frame[i] == ProcessedRow(rows[i], nameToId)
    requires multiset(out) == multiset(Undrafted(frame, picked))
    ensures forall x :: x in out ==> x.scoreFinal.Some? && Kept(x, picked)
    ensures forall x :: x in out ==> exists i :: 0 <= i < |rows| && x == ProcessedRow(rows[i], nameToId)
    ensures forall i :: 0 <= i < |rows| ==>
      (ProcessedRow(rows[i], nameToId) in out <==> Kept(ProcessedRow(rows[i], nameToId), picked))
    ensures forall x :: multiset(out)[x] == if Kept(x, picked) then multiset(frame)[x] else 0
  {
    AvailableRows(frame, picked, out);
    forall x | x in out
      ensures x.scoreFinal.Some? && exists i :: 0 <= i < |rows| && x == ProcessedRow(rows[i], nameToId)
    {
      var i :| 0 <= i < |frame| && frame[i] == x;
    }
    forall i | 0 <= i < |rows|
      ensures ProcessedRow(rows[i], nameToId) in out <==> Kept(ProcessedRow(rows[i], nameToId), picked)
    {
      assert frame[i] in frame;
    }
  }

  /**
    Lines 69-83 on the sheet read from Google Sheets: clean it in place, score
    it, attach the Sleeper ids, drop the drafted players and sort. `catalog`
    stands for the Sleeper player catalogue and `picked` for the ids of the
    draft's picks, both fetched over HTTP by the program. The sheet itself is
    left as the program leaves `df_raw`, which `df_scored` aliases: processed
    on success, and with the columns cleaned before the failing one otherwise.
   */
  method RecommendPicks(dfRaw: array<Row>, catalog: seq<Sleeper.Entry>, picked: seq<string>)
    returns (available: Result<seq<Row>>)
    modifies dfRaw
    ensures available == Recommend(old(dfRaw[..]), catalog, picked)
    ensures available.Ok? ==>
      && (forall i :: 0 <= i < dfRaw.Length ==> Parses(old(dfRaw[i])))
      && dfRaw[..] == ProcessedFrame(old(dfRaw[..]), catalog)
    ensures available.Err? ==> dfRaw[..] == CleanAll(old(dfRaw[..])).rows
  {
    ghost var sheet := dfRaw[..];
    var failure := CleanNumericColumns(dfRaw);
    if failure.Some? {
      return Err(failure.value);
    }
    CleanAllSpec(sheet);
    var nameToId := Sleeper.NameToId(catalog);
    var dfScored := CalculateWarRoomScore(dfRaw);
    AttachSleeperIds(dfScored, nameToId);
    assert dfRaw[..] == ProcessedFrame(sheet, catalog);
    available := Ok(SortByScore(Undrafted(dfScored[..], picked)));
  }

  // ---- Scenarios ----

  /**
    One running back with ADP "1,0" typed in the sheet, an empty projection and
    no history, with no picks made: the list is that row, scored 209 * 0.9 * 1.3.
   */
  lemma TopRunningBack()
    ensures Recommend([Row("A", "RB", Missing, Text("1,0"), Num(0.0), None, None)], [], [])
      == Ok([Row("A", "RB", Num(0.0), Num(1.0), Num(0.0), Some(244.53), None)])
  {
    var r := Row("A", "RB", Missing, Text("1,0"), Num(0.0), None, None);
    var p := Row("A", "RB", Num(0.0), Num(1.0), Num(0.0), Some(244.53), None);
    TopRunningBackProcessed();
    RecommendSpec([r], [], []);
    assert Undrafted([p], []) == [p] by {
      assert [p][1..] == [];
    }
    assert SortByScore([p]) == [p] by {
      assert [p][1..] == [];
    }
  }

  lemma TopRunningBackProcessed()
    ensures var r := Row("A", "RB", Missing, Text("1,0"), Num(0.0), None, None);
      && Parses(r)
      && ProcessedFrame([r], []) == [Row("A", "RB", Num(0.0), Num(1.0), Num(0.0), Some(244.53), None)]
  {
    var r := Row("A", "RB", Missing, Text("1,0"), Num(0.0), None, None);
    ReadsOneCommaZero();
    assert Parses(r);
    assert CleanRow(r) == Row("A", "RB", Num(0.0), Num(1.0), Num(0.0), None, None);
    Scoring.ScoreExample();
    assert Sleeper.NameToId([]) == map[];
  }
}
