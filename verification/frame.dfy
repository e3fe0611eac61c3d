/**
  The player sheet as the program holds it: a pandas DataFrame read from Google
  Sheets, one row per player, whose columns the program rewrites in place.

  - The cleaning loop (app.py:68-70) replaces the `Proj`, `ADP` and
    `Media_4_Anos` columns, in that order, by `clean_num` of each cell. A column
    is converted in full before it is assigned, so a cell `clean_num` rejects
    leaves its own column untouched but the columns cleaned before it stay
    cleaned; the exception then ends the run.
  - `calculate_war_room_score` (app.py:31, 53-54) adds `Score_Final` to the
    frame it is given and returns that same frame.
  - app.py:79 adds `sleeper_id`, the Sleeper id looked up by the exact
    `Player` text, or NaN when the name is not in the dictionary.

  The frame is an array of rows, each row a value; a step that rewrites a column
  rewrites every row of the array.
 */
module Frame {
  import opened Numbers
  import Scoring

  /** One row of the sheet, with the two columns the program adds. */
  datatype Row = Row(
    player: string,              // Player
    fantPos: string,             // FantPos
    proj: Cell,                  // Proj
    adp: Cell,                   // ADP
    media: Cell,                 // Media_4_Anos
    scoreFinal: Option<real>,    // Score_Final; None while the column does not exist
    sleeperId: Option<string>)   // sleeper_id; None while absent or NaN

  /** The three numeric columns the cleaning loop rewrites. */
  datatype NumColumn = Proj | Adp | Media

  /** The cleaning loop's column list, in its order. */
  const NumericColumns: seq<NumColumn> := [Proj, Adp, Media]

  function Get(r: Row, col: NumColumn): Cell
  {
    match col
    case Proj => r.proj
    case Adp => r.adp
    case Media => r.media
  }

  function Set(r: Row, col: NumColumn, c: Cell): Row
  {
    match col
    case Proj => r.(proj := c)
    case Adp => r.(adp := c)
    case Media => r.(media := c)
  }

  /** `clean_num` accepts the row's cell in column `col`. */
  predicate Cleans(r: Row, col: NumColumn)
  {
    CleanNum(Get(r, col)).Ok?
  }

  /** The row with its cell in `col` replaced by the number `clean_num` makes of it. */
  function CleanCell(r: Row, col: NumColumn): Row
    requires Cleans(r, col)
  {
    Set(r, col, Num(CleanNum(Get(r, col)).value))
  }

  /** Converting one cell leaves the other numeric cells of the row as they were. */
  lemma CleanCellKeepsOthers(r: Row, col: NumColumn, other: NumColumn)
    requires Cleans(r, col) && other != col
    ensures Get(CleanCell(r, col), other) == Get(r, other)
  {
    var c := Num(CleanNum(Get(r, col)).value);
    assert Get(Set(r, col, c), other) == Get(r, other);
  }

  // ---- One column: `df_raw[col] = df_raw[col].apply(clean_num)` ----

  /**
    The column after `apply(clean_num)`: every cell converted, or the text of the
    first cell, from the top, that `float()` rejects.
   */
  function CleanColumn(s: seq<Row>, col: NumColumn): (r: Result<seq<Row>>)
    ensures r.Ok? ==> |r.value| == |s| && forall i :: 0 <= i < |s| ==> Get(r.value[i], col).Num?
  {
    if s == [] then Ok([])
    else
      match CleanNum(Get(s[0], col))
      case Err(t) => Err(t)
      case Ok(v) =>
        match CleanColumn(s[1..], col)
        case Err(t) => Err(t)
        case Ok(rest) => Ok([Set(s[0], col, Num(v))] + rest)
  }

  /** A column cleans exactly when every one of its cells does. */
  lemma {:induction false} CleanColumnOk(s: seq<Row>, col: NumColumn)
    ensures CleanColumn(s, col).Ok? <==> forall i :: 0 <= i < |s| ==> Cleans(s[i], col)
  {
    if s != [] {
      CleanColumnOk(s[1..], col);
      if forall i :: 0 <= i < |s[1..]| ==> Cleans(s[1..][i], col) {
        forall i | 0 < i < |s| ensures Cleans(s[i], col) {
          assert s[i] == s[1..][i - 1];
        }
      } else {
        var i :| 0 <= i < |s[1..]| && !Cleans(s[1..][i], col);
        assert s[1..][i] == s[i + 1];
      }
    }
  }

  /** The cleaned column has the same rows in the same order, each with that one cell converted. */
  lemma {:induction false} CleanColumnRows(s: seq<Row>, col: NumColumn)
    requires CleanColumn(s, col).Ok?
    ensures |CleanColumn(s, col).value| == |s|
    ensures forall i :: 0 <= i < |s| ==> Cleans(s[i], col) && CleanColumn(s, col).value[i] == CleanCell(s[i], col)
  {
    if s != [] {
      CleanColumnRows(s[1..], col);
      var rest := CleanColumn(s[1..], col).value;
      assert CleanColumn(s, col).value == [CleanCell(s[0], col)] + rest;
      forall i | 0 < i < |s| ensures Cleans(s[i], col) && CleanColumn(s, col).value[i] == CleanCell(s[i], col) {
        assert s[i] == s[1..][i - 1];
      }
    }
  }

  /** A failing column names the text of one of its own cells. */
  lemma {:induction false} CleanColumnRejects(s: seq<Row>, col: NumColumn)
    requires CleanColumn(s, col).Err?
    ensures exists i :: 0 <= i < |s| && CleanNum(Get(s[i], col)) == Err(CleanColumn(s, col).rejected)
  {
    if Cleans(s[0], col) {
      CleanColumnRejects(s[1..], col);
      var i :| 0 <= i < |s[1..]| && CleanNum(Get(s[1..][i], col)) == Err(CleanColumn(s, col).rejected);
      assert s[1..][i] == s[i + 1];
    }
  }

  /** When the first rejected cell of a column is at index `k`, the failure carries that cell's text. */
  lemma {:induction false} CleanColumnFirstError(s: seq<Row>, col: NumColumn, k: nat)
    requires k < |s| && !Cleans(s[k], col)
    requires forall i :: 0 <= i < k ==> Cleans(s[i], col)
    ensures CleanColumn(s, col) == Err(CleanNum(Get(s[k], col)).rejected)
  {
    if k > 0 {
      assert Cleans(s[0], col);
      forall i | 0 <= i < k - 1 ensures Cleans(s[1..][i], col) {
        assert s[1..][i] == s[i + 1];
      }
      CleanColumnFirstError(s[1..], col, k - 1);
    }
  }

  /** The in-place version of `CleanColumn`: the array is rewritten only when the whole column converts. */
  method CleanColumnInPlace(rows: array<Row>, col: NumColumn) returns (failure: Option<string>)
    modifies rows
    ensures CleanColumn(old(rows[..]), col).Ok? ==>
      failure.None? && rows[..] == CleanColumn(old(rows[..]), col).value
    ensures CleanColumn(old(rows[..]), col).Err? ==>
      failure == Some(CleanColumn(old(rows[..]), col).rejected) && rows[..] == old(rows[..])
  {
    // `apply` converts the whole column before anything is assigned.
    var values: seq<real> := [];
    var i := 0;
    while i < rows.Length
      invariant 0 <= i <= rows.Length && |values| == i
      invariant rows[..] == old(rows[..])
      invariant forall k :: 0 <= k < i ==> CleanNum(Get(rows[k], col)) == Ok(values[k])
    {
      var c := CleanNum(Get(rows[i], col));
      if c.Err? {
        CleanColumnFirstError(rows[..], col, i);
        return Some(c.rejected);
      }
      values := values + [c.value];
      i := i + 1;
    }
    ghost var before := rows[..];
    CleanColumnOk(before, col);
    CleanColumnRows(before, col);
    i := 0;
    while i < rows.Length
      invariant 0 <= i <= rows.Length
      invariant forall k :: 0 <= k < i ==> rows[k] == CleanCell(before[k], col)
      invariant forall k :: i <= k < rows.Length ==> rows[k] == before[k]
    {
      rows[i] := Set(rows[i], col, Num(values[i]));
      i := i + 1;
    }
    failure := None;
  }

  // ---- The cleaning loop: `for col in ['Proj', 'ADP', 'Media_4_Anos']` ----

  /** The frame after the cleaning loop, and the rejected text if a column raised. */
  datatype Cleaning = Cleaning(rows: seq<Row>, failure: Option<string>)

  /**
    Cleans the columns in order and stops at the first that raises; earlier
    columns stay cleaned. No row is ever added or dropped.
   */
  function CleanColumns(s: seq<Row>, cols: seq<NumColumn>): (c: Cleaning)
    ensures |c.rows| == |s|
    decreases |cols|
  {
    if cols == [] then Cleaning(s, None)
    else
      match CleanColumn(s, cols[0])
      case Err(t) => Cleaning(s, Some(t))
      case Ok(s') => CleanColumns(s', cols[1..])
  }

  /** Lines 69-70: `Proj`, `ADP` and `Media_4_Anos` cleaned in turn; the frame keeps its rows. */
  function CleanAll(s: seq<Row>): (c: Cleaning)
    ensures |c.rows| == |s|
  {
    CleanColumns(s, NumericColumns)
  }

  /** Lines 69-70 on the frame in place; `failure` is the text whose `float()` raised, if any. */
  method CleanNumericColumns(rows: array<Row>) returns (failure: Option<string>)
    modifies rows
    ensures Cleaning(rows[..], failure) == CleanAll(old(rows[..]))
  {
    var cols := NumericColumns;
    var i := 0;
    failure := None;
    while i < |cols| && failure.None?
      invariant 0 <= i <= |cols|
      invariant failure.None? ==> CleanColumns(rows[..], cols[i..]) == CleanAll(old(rows[..]))
      invariant failure.Some? ==> Cleaning(rows[..], failure) == CleanAll(old(rows[..]))
    {
      ghost var before := rows[..];
      failure := CleanColumnInPlace(rows, cols[i]);
      assert cols[i..][1..] == cols[i + 1..];
      if failure.None? {
        assert CleanColumns(before, cols[i..]) == CleanColumns(rows[..], cols[i + 1..]);
      }
      i := i + 1;
    }
  }

  /** Every numeric cell of the row is accepted by `clean_num`. */
  predicate Parses(r: Row)
  {
    Cleans(r, Proj) && Cleans(r, Adp) && Cleans(r, Media)
  }

  /** All three numeric cells hold numbers, as after a successful cleaning loop. */
  predicate Cleaned(r: Row)
  {
    r.proj.Num? && r.adp.Num? && r.media.Num?
  }

  /** The row after a successful cleaning loop. */
  function CleanRow(r: Row): (c: Row)
    requires Parses(r)
    ensures Cleaned(c)
  {
    CleanCell(CleanCell(CleanCell(r, Proj), Adp), Media)
  }

  /** The cleaning loop unrolled over its three columns. */
  lemma CleanAllSteps(s: seq<Row>)
    ensures CleanColumn(s, Proj).Err? ==> CleanAll(s) == Cleaning(s, Some(CleanColumn(s, Proj).rejected))
    ensures CleanColumn(s, Proj).Ok? ==>
      var s1 := CleanColumn(s, Proj).value;
      && (CleanColumn(s1, Adp).Err? ==> CleanAll(s) == Cleaning(s1, Some(CleanColumn(s1, Adp).rejected)))
      && (CleanColumn(s1, Adp).Ok? ==>
        var s2 := CleanColumn(s1, Adp).value;
        && (CleanColumn(s2, Media).Err? ==> CleanAll(s) == Cleaning(s2, Some(CleanColumn(s2, Media).rejected)))
        && (CleanColumn(s2, Media).Ok? ==> CleanAll(s) == Cleaning(CleanColumn(s2, Media).value, None)))
  {
    assert NumericColumns[1..] == [Adp, Media] && [Adp, Media][1..] == [Media] && [Media][1..] == [];
  }

  /** Three columns cleaned one after the other leave each row as `CleanRow` makes it. */
  lemma CleanedInTurn(s: seq<Row>, s1: seq<Row>, s2: seq<Row>, s3: seq<Row>)
    requires |s1| == |s2| == |s3| == |s|
    requires forall i :: 0 <= i < |s| ==> Cleans(s[i], Proj) && s1[i] == CleanCell(s[i], Proj)
    requires forall i :: 0 <= i < |s| ==> Cleans(s1[i], Adp) && s2[i] == CleanCell(s1[i], Adp)
    requires forall i :: 0 <= i < |s| ==> Cleans(s2[i], Media) && s3[i] == CleanCell(s2[i], Media)
    ensures forall i :: 0 <= i < |s| ==> Parses(s[i]) && s3[i] == CleanRow(s[i])
  {
    forall i | 0 <= i < |s| ensures Parses(s[i]) && s3[i] == CleanRow(s[i]) {
      CleanCellKeepsOthers(s[i], Proj, Adp);
      CleanCellKeepsOthers(s[i], Proj, Media);
      CleanCellKeepsOthers(s1[i], Adp, Media);
    }
  }

  /** When every numeric cell parses, the loop completes and every row is cleaned in place. */
  lemma CleanAllOk(s: seq<Row>)
    requires forall i :: 0 <= i < |s| ==> Parses(s[i])
    ensures CleanAll(s).failure.None?
    ensures |CleanAll(s).rows| == |s|
    ensures forall i :: 0 <= i < |s| ==> CleanAll(s).rows[i] == CleanRow(s[i])
  {
    CleanAllSteps(s);
    CleanColumnOk(s, Proj);
    var s1 := CleanColumn(s, Proj).value;
    CleanColumnRows(s, Proj);
    forall i | 0 <= i < |s1| ensures Cleans(s1[i], Adp) {
      CleanCellKeepsOthers(s[i], Proj, Adp);
    }
    CleanColumnOk(s1, Adp);
    var s2 := CleanColumn(s1, Adp).value;
    CleanColumnRows(s1, Adp);
    forall i | 0 <= i < |s2| ensures Cleans(s2[i], Media) {
      CleanCellKeepsOthers(s[i], Proj, Media);
      CleanCellKeepsOthers(s1[i], Adp, Media);
    }
    CleanColumnOk(s2, Media);
    CleanColumnRows(s2, Media);
    CleanedInTurn(s, s1, s2, CleanColumn(s2, Media).value);
  }

  /** A loop that completes has met only cells that parse. */
  lemma CompletedCleaningParsedAll(s: seq<Row>)
    requires CleanAll(s).failure.None?
    ensures forall i :: 0 <= i < |s| ==> Parses(s[i])
  {
    CleanAllSteps(s);
    var s1 := CleanColumn(s, Proj).value;
    CleanColumnRows(s, Proj);
    var s2 := CleanColumn(s1, Adp).value;
    CleanColumnRows(s1, Adp);
    CleanColumnRows(s2, Media);
    forall i | 0 <= i < |s| ensures Parses(s[i]) {
      CleanCellKeepsOthers(s[i], Proj, Adp);
      CleanCellKeepsOthers(s[i], Proj, Media);
      CleanCellKeepsOthers(s1[i], Adp, Media);
    }
  }

  /** A loop that raises reports the text of a cell that does not parse. */
  lemma CleaningFailureNamesCell(s: seq<Row>)
    requires CleanAll(s).failure.Some?
    ensures exists i, col :: 0 <= i < |s| && CleanNum(Get(s[i], col)) == Err(CleanAll(s).failure.value)
  {
    CleanAllSteps(s);
    if CleanColumn(s, Proj).Err? {
      CleanColumnRejects(s, Proj);
      return;
    }
    var s1 := CleanColumn(s, Proj).value;
    CleanColumnRows(s, Proj);
    if CleanColumn(s1, Adp).Err? {
      CleanColumnRejects(s1, Adp);
      var i :| 0 <= i < |s1| && CleanNum(Get(s1[i], Adp)) == Err(CleanAll(s).failure.value);
      CleanCellKeepsOthers(s[i], Proj, Adp);
      return;
    }
    var s2 := CleanColumn(s1, Adp).value;
    CleanColumnRows(s1, Adp);
    CleanColumnRejects(s2, Media);
    var i :| 0 <= i < |s2| && CleanNum(Get(s2[i], Media)) == Err(CleanAll(s).failure.value);
    CleanCellKeepsOthers(s[i], Proj, Media);
    CleanCellKeepsOthers(s1[i], Adp, Media);
  }

  /**
    The cleaning loop succeeds exactly when every numeric cell of every row
    parses; it then keeps the rows and their order, leaves every row cleaned
    with the numbers `clean_num` gives for its original cells, and changes no
    other column. When it fails it reports the text of a cell that does not parse.
   */
  lemma CleanAllSpec(s: seq<Row>)
    ensures CleanAll(s).failure.None? <==> forall i :: 0 <= i < |s| ==> Parses(s[i])
    ensures CleanAll(s).failure.None? ==>
      && |CleanAll(s).rows| == |s|
      && forall i :: 0 <= i < |s| ==> CleanAll(s).rows[i] == CleanRow(s[i])
    ensures CleanAll(s).failure.Some? ==>
      exists i, col :: 0 <= i < |s| && CleanNum(Get(s[i], col)) == Err(CleanAll(s).failure.value)
  {
    if CleanAll(s).failure.None? {
      CompletedCleaningParsedAll(s);
      CleanAllOk(s);
    } else {
      CleaningFailureNamesCell(s);
      if forall i :: 0 <= i < |s| ==> Parses(s[i]) {
        CleanAllOk(s);
      }
    }
  }

  /**
    When `ADP` raises, `Proj` has already been replaced and stays replaced,
    while `ADP` and `Media_4_Anos` keep their original cells.
   */
  lemma AdpFailureKeepsProj(s: seq<Row>)
    requires forall i :: 0 <= i < |s| ==> Cleans(s[i], Proj)
    requires exists i :: 0 <= i < |s| && !Cleans(s[i], Adp)
    ensures CleanAll(s).failure.Some?
    ensures |CleanAll(s).rows| == |s|
    ensures forall i :: 0 <= i < |s| ==> CleanAll(s).rows[i] == CleanCell(s[i], Proj)
  {
    CleanAllSteps(s);
    CleanColumnOk(s, Proj);
    CleanColumnRows(s, Proj);
    var s1 := CleanColumn(s, Proj).value;
    CleanColumnOk(s1, Adp);
    var i :| 0 <= i < |s| && !Cleans(s[i], Adp);
    CleanCellKeepsOthers(s[i], Proj, Adp);
  }

  // ---- `Score_Final` ----

  /** `score_row` on a cleaned row. */
  function RowScore(r: Row): real
    requires Cleaned(r)
  {
    Scoring.Score(r.fantPos, r.adp.x, r.proj.x, r.media.x)
  }

  /** The row with its `Score_Final` cell set. */
  function Scored(r: Row): Row
    requires Cleaned(r)
  {
    r.(scoreFinal := Some(RowScore(r)))
  }

  predicate AllCleaned(s: seq<Row>)
  {
    forall i :: 0 <= i < |s| ==> Cleaned(s[i])
  }

  /** The frame after `df['Score_Final'] = df.apply(score_row, axis=1)`: every row scored, still cleaned. */
  function WithScores(s: seq<Row>): (r: seq<Row>)
    requires AllCleaned(s)
    ensures |r| == |s| && AllCleaned(r)
    ensures forall i :: 0 <= i < |r| ==> r[i].scoreFinal.Some? && r[i].(scoreFinal := s[i].scoreFinal) == s[i]
  {
    seq(|s|, i requires 0 <= i < |s| => Scored(s[i]))
  }

  /**
    Scoring keeps the rows and their order, sets `Score_Final` on every row to
    `score_row` of that row, and leaves every other cell as it was.
   */
  lemma ScoreColumnSpec(s: seq<Row>)
    requires AllCleaned(s)
    ensures |WithScores(s)| == |s|
    ensures forall i :: 0 <= i < |s| ==>
      && WithScores(s)[i].scoreFinal == Some(Scoring.Score(s[i].fantPos, s[i].adp.x, s[i].proj.x, s[i].media.x))
      && WithScores(s)[i].(scoreFinal := s[i].scoreFinal) == s[i]
  {
  }

  /**
    `calculate_war_room_score(df)`: sets `Score_Final` on every row of `df`,
    keeps every other cell, and returns `df` itself.
   */
  method CalculateWarRoomScore(df: array<Row>) returns (scored: array<Row>)
    requires forall i :: 0 <= i < df.Length ==> Cleaned(df[i])
    modifies df
    ensures scored == df
    ensures AllCleaned(old(df[..])) && df[..] == WithScores(old(df[..]))
  {
    ghost var before := df[..];
    var i := 0;
    while i < df.Length
      invariant 0 <= i <= df.Length
      invariant forall k :: 0 <= k < i ==> df[k] == Scored(before[k])
      invariant forall k :: i <= k < df.Length ==> df[k] == before[k]
    {
      df[i] := Scored(df[i]);
      i := i + 1;
    }
    scored := df;
  }

  // ---- `sleeper_id` ----

  /** `Player` looked up in the name dictionary; a miss is NaN. */
  function WithId(r: Row, nameToId: map<string, string>): Row
  {
    r.(sleeperId := if r.player in nameToId then Some(nameToId[r.player]) else None)
  }

  /**
    The frame after `df['sleeper_id'] = df['Player'].map(name_to_id)`: a row has
    an id exactly when its `Player` text is a key, and keeps its score.
   */
  function WithIds(s: seq<Row>, nameToId: map<string, string>): (r: seq<Row>)
    ensures |r| == |s|
    ensures forall i :: 0 <= i < |r| ==>
      (r[i].sleeperId.Some? <==> s[i].player in nameToId) && r[i].scoreFinal == s[i].scoreFinal
  {
    seq(|s|, i requires 0 <= i < |s| => WithId(s[i], nameToId))
  }

  /** Line 79 on the frame in place. */
  method AttachSleeperIds(df: array<Row>, nameToId: map<string, string>)
    modifies df
    ensures df[..] == WithIds(old(df[..]), nameToId)
  {
    ghost var before := df[..];
    var i := 0;
    while i < df.Length
      invariant 0 <= i <= df.Length
      invariant forall k :: 0 <= k < i ==> df[k] == WithId(before[k], nameToId)
      invariant forall k :: i <= k < df.Length ==> df[k] == before[k]
    {
      df[i] := WithId(df[i], nameToId);
      i := i + 1;
    }
  }

  /** A row gets an id exactly when its `Player` text is a key, and then the id stored under it. */
  lemma WithIdSpec(r: Row, nameToId: map<string, string>)
    ensures WithId(r, nameToId).sleeperId.Some? <==> r.player in nameToId
    ensures r.player in nameToId ==> WithId(r, nameToId).sleeperId == Some(nameToId[r.player])
    ensures WithId(r, nameToId).(sleeperId := r.sleeperId) == r
  {
  }
}
