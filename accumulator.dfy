/**
 * Accumulation of rows over the fetched pages into the dictionary of 25
 * parallel column lists, and the conversion of those columns back into rows.
 */
module Accumulator {
  import opened Wrappers
  import opened Records
  import Normalizer

  /** Which participant a `<role>_player_*` column describes. */
  datatype Role = Main | Opposite

  /** The ten per-participant column suffixes. */
  datatype SideField = Name | Sid | Character | Score | LeagueRank | Lp | Mr | MrRanking | InputType | Platform

  /**
   * The keys of the `match_results` dictionary: `SideColumn(Main, Name)` is
   * `main_player_name`, and so on, then the five shared columns.
   */
  datatype Column =
    | SideColumn(role: Role, field: SideField)
    | MatchWon | LeftSide | UploadedAt | ReplayId | ReplayBattleTypeName

  const SideFields: set<SideField> := {Name, Sid, Character, Score, LeagueRank, Lp, Mr, MrRanking, InputType, Platform}

  const AllColumns: set<Column> :=
    (set f | f in SideFields :: SideColumn(Main, f)) + (set f | f in SideFields :: SideColumn(Opposite, f))
    + {MatchWon, LeftSide, UploadedAt, ReplayId, ReplayBattleTypeName}

  lemma AllColumnsListed()
    ensures forall c: Column :: c in AllColumns
  {
    forall c: Column
      ensures c in AllColumns
    {
      if c.SideColumn? {
        assert c.field in SideFields by {
          match c.field
          case Name => case Sid => case Character => case Score => case LeagueRank =>
          case Lp => case Mr => case MrRanking => case InputType => case Platform =>
        }
        if c.role == Main {
          assert c in (set f | f in SideFields :: SideColumn(Main, f));
        } else {
          assert c in (set f | f in SideFields :: SideColumn(Opposite, f));
        }
      }
    }
  }

  /** The position of a per-participant column suffix, in dictionary order. */
  function FieldIndex(field: SideField): (k: nat)
    ensures k < 10
  {
    match field
    case Name => 0
    case Sid => 1
    case Character => 2
    case Score => 3
    case LeagueRank => 4
    case Lp => 5
    case Mr => 6
    case MrRanking => 7
    case InputType => 8
    case Platform => 9
  }

  function FieldAt(k: nat): SideField
  {
    if k == 0 then Name else
    if k == 1 then Sid else
    if k == 2 then Character else
    if k == 3 then Score else
    if k == 4 then LeagueRank else
    if k == 5 then Lp else
    if k == 6 then Mr else
    if k == 7 then MrRanking else
    if k == 8 then InputType else Platform
  }

  /** The position of a column in the dictionary: main columns, opposite columns, then shared ones. */
  function ColumnIndex(c: Column): (n: nat)
    ensures n < 25
  {
    match c
    case SideColumn(Main, field) => FieldIndex(field)
    case SideColumn(Opposite, field) => 10 + FieldIndex(field)
    case MatchWon => 20
    case LeftSide => 21
    case UploadedAt => 22
    case ReplayId => 23
    case ReplayBattleTypeName => 24
  }

  function ColumnAt(n: nat): Column
  {
    if n < 10 then SideColumn(Main, FieldAt(n))
    else if n < 20 then SideColumn(Opposite, FieldAt(n - 10))
    else if n == 20 then MatchWon
    else if n == 21 then LeftSide
    else if n == 22 then UploadedAt
    else if n == 23 then ReplayId
    else ReplayBattleTypeName
  }

  /** Column positions are one-to-one. */
  lemma ColumnIndexInverse(c: Column)
    ensures ColumnAt(ColumnIndex(c)) == c
  {
  }

  lemma ColumnAtInverse(n: nat)
    requires n < 25
    ensures ColumnIndex(ColumnAt(n)) == n
  {
  }

  /** The columns at positions below `n` are `n` in number. */
  lemma {:induction false} ColumnsBefore(n: nat)
    requires n <= 25
    ensures |set k: nat | k < n :: ColumnAt(k)| == n
  {
    if n > 0 {
      ColumnsBefore(n - 1);
      var before := set k: nat | k < n - 1 :: ColumnAt(k);
      ColumnAtInverse(n - 1);
      forall k | 0 <= k < n - 1
        ensures ColumnAt(k) != ColumnAt(n - 1)
      {
        ColumnAtInverse(k);
      }
      assert ColumnAt(n - 1) !in before;
      assert (set k: nat | k < n :: ColumnAt(k)) == before + {ColumnAt(n - 1)};
    } else {
      assert (set k: nat | k < n :: ColumnAt(k)) == {};
    }
  }

  /** The dictionary has exactly 25 keys: ten per participant and five shared. */
  lemma ColumnCount()
    ensures |AllColumns| == 25
  {
    ColumnsBefore(25);
    AllColumnsListed();
    var positioned := set k: nat | k < 25 :: ColumnAt(k);
    forall c | c in AllColumns
      ensures c in positioned
    {
      ColumnIndexInverse(c);
    }
    assert positioned == AllColumns;
  }

  /** A value appended to a column list: a string, an integer or `None`. */
  datatype Cell = Text(text: string) | Number(number: int) | Null

  type Table = map<Column, seq<Cell>>

  /** The outcome of fetching one page: `None` when the response was not ok. */
  type Page = Option<seq<Replay>>

  /** Every column is a key of the table. */
  predicate Complete(table: Table)
  {
    AllColumns <= table.Keys
  }

  lemma CompleteHasEveryColumn(table: Table)
    requires Complete(table)
    ensures forall c: Column :: c in table
  {
    AllColumnsListed();
  }

  function OptionalCell(value: Option<int>): Cell
  {
    match value
    case None => Null
    case Some(n) => Number(n)
  }

  /** The value that one side of a row appends to its column `field`. */
  function SideCell(side: Side, field: SideField): Cell
  {
    match field
    case Name => Text(side.name)
    case Sid => Number(side.sid)
    case Character => Text(side.character)
    case Score => Number(side.score)
    case LeagueRank => OptionalCell(side.leagueRank)
    case Lp => OptionalCell(side.lp)
    case Mr => OptionalCell(side.mr)
    case MrRanking => OptionalCell(side.mrRanking)
    case InputType => Number(side.inputType)
    case Platform => Text(side.platform)
  }

  /** The value that one row appends to column `c`. */
  function CellOf(row: Row, c: Column): Cell
  {
    match c
    case SideColumn(Main, field) => SideCell(row.main, field)
    case SideColumn(Opposite, field) => SideCell(row.opposite, field)
    case MatchWon => Number(row.matchWon)
    case LeftSide => Number(row.leftSide)
    case UploadedAt => Number(row.uploadedAt)
    case ReplayId => Text(row.replayId)
    case ReplayBattleTypeName => Text(row.replayBattleTypeName)
  }

  /** The dictionary before the first page: every column an empty list. */
  function EmptyTable(): (empty: Table)
    ensures Complete(empty)
    ensures forall c | c in empty :: empty[c] == []
  {
    AllColumnsListed();
    map c | c in AllColumns :: []
  }

  /** One `.append` on every column list, with the row's value for that column. */
  function AppendRow(table: Table, row: Row): Table
  {
    map c | c in table :: table[c] + [CellOf(row, c)]
  }

  /** The column view of a sequence of rows, built one row at a time. */
  function Tabulate(rows: seq<Row>): Table
  {
    if rows == [] then EmptyTable()
    else AppendRow(Tabulate(rows[..|rows| - 1]), rows[|rows| - 1])
  }

  lemma TabulateSnoc(rows: seq<Row>, row: Row)
    ensures Tabulate(rows + [row]) == AppendRow(Tabulate(rows), row)
  {
    assert (rows + [row])[..|rows|] == rows;
  }

  /**
   * The column view has every column, every column is as long as the sequence
   * of rows, and position `i` of column `c` holds row `i`'s value for `c`.
   */
  lemma {:induction false} TabulateColumns(rows: seq<Row>)
    ensures Complete(Tabulate(rows))
    ensures forall c | c in Tabulate(rows) :: |Tabulate(rows)[c]| == |rows|
    ensures forall c, i | c in Tabulate(rows) && 0 <= i < |rows| :: Tabulate(rows)[c][i] == CellOf(rows[i], c)
  {
    if rows != [] {
      var n := |rows| - 1;
      var prefix := rows[..n];
      TabulateColumns(prefix);
      var before := Tabulate(prefix);
      assert Tabulate(rows) == AppendRow(before, rows[n]);
      assert Tabulate(rows).Keys == before.Keys;
      forall c, i | c in Tabulate(rows) && 0 <= i < |rows|
        ensures Tabulate(rows)[c][i] == CellOf(rows[i], c)
      {
        var column := before[c] + [CellOf(rows[n], c)];
        assert Tabulate(rows)[c] == column;
        if i < n {
          assert column[i] == before[c][i];
          assert prefix[i] == rows[i];
        }
      }
    }
  }

  /** The replays of the successful pages, page after page. */
  function SuccessfulReplays(pages: seq<Page>): seq<Replay>
  {
    if pages == [] then []
    else
      var last := pages[|pages| - 1];
      SuccessfulReplays(pages[..|pages| - 1]) + (if last.Some? then last.value else [])
  }

  lemma {:induction false} SuccessfulReplaysAppend(a: seq<Page>, b: seq<Page>)
    ensures SuccessfulReplays(a + b) == SuccessfulReplays(a) + SuccessfulReplays(b)
  {
    if b != [] {
      var n := |b| - 1;
      assert (a + b)[..|a + b| - 1] == a + b[..n];
      SuccessfulReplaysAppend(a, b[..n]);
    } else {
      assert a + b == a;
    }
  }

  /** A page whose response was not ok contributes no replay, wherever it comes. */
  lemma FailedPageContributesNothing(before: seq<Page>, after: seq<Page>)
    ensures SuccessfulReplays(before + [None] + after) == SuccessfulReplays(before + after)
  {
    SuccessfulReplaysAppend(before + [None], after);
    SuccessfulReplaysAppend(before, [None]);
    SuccessfulReplaysAppend(before, after);
    assert SuccessfulReplays([None]) == [];
  }

  /** When every page failed, nothing is collected. */
  lemma {:induction false} AllPagesFailed(pages: seq<Page>)
    requires forall p | 0 <= p < |pages| :: pages[p].None?
    ensures SuccessfulReplays(pages) == []
  {
    if pages != [] {
      AllPagesFailed(pages[..|pages| - 1]);
    }
  }

  /** The rows of a sequence of replays, one per replay, in order. */
  function NormalizeAll(replays: seq<Replay>, playerSid: int): (rows: seq<Row>)
    ensures |rows| == |replays|
    ensures forall i | 0 <= i < |replays| :: rows[i] == Normalizer.Normalize(replays[i], playerSid)
  {
    if replays == [] then []
    else NormalizeAll(replays[..|replays| - 1], playerSid) + [Normalizer.Normalize(replays[|replays| - 1], playerSid)]
  }

  lemma NormalizeAllSnoc(replays: seq<Replay>, replay: Replay, playerSid: int)
    ensures NormalizeAll(replays + [replay], playerSid)
         == NormalizeAll(replays, playerSid) + [Normalizer.Normalize(replay, playerSid)]
  {
    assert (replays + [replay])[..|replays|] == replays;
  }

  /** The rows are exactly the rows of the replays. */
  lemma NormalizeAllMembers(replays: seq<Replay>, playerSid: int)
    ensures forall replay | replay in replays :: Normalizer.Normalize(replay, playerSid) in NormalizeAll(replays, playerSid)
    ensures forall r | r in NormalizeAll(replays, playerSid) ::
              exists replay | replay in replays :: r == Normalizer.Normalize(replay, playerSid)
  {
    var rows := NormalizeAll(replays, playerSid);
    forall replay | replay in replays
      ensures Normalizer.Normalize(replay, playerSid) in rows
    {
      var i :| 0 <= i < |replays| && replays[i] == replay;
      assert rows[i] == Normalizer.Normalize(replay, playerSid);
    }
    forall r | r in rows
      ensures exists replay | replay in replays :: r == Normalizer.Normalize(replay, playerSid)
    {
      var i :| 0 <= i < |rows| && rows[i] == r;
      assert replays[i] in replays;
    }
  }

  /** The rows collected from the successful pages. */
  function CollectedRows(pages: seq<Page>, playerSid: int): seq<Row>
  {
    NormalizeAll(SuccessfulReplays(pages), playerSid)
  }

  /** Every column is present and all have length `n`. */
  predicate Rectangular(table: Table, n: nat)
  {
    Complete(table) && forall c | c in table :: |table[c]| == n
  }

  /**
   * Walks the pages in order, skipping the failed ones, and appends one value
   * to every column for each replay of a successful page.
   */
  method CollectMatches(pages: seq<Page>, playerSid: int) returns (table: Table)
    ensures table == Tabulate(CollectedRows(pages, playerSid))
    ensures Rectangular(table, |SuccessfulReplays(pages)|)
  {
    table := EmptyTable();
    for p := 0 to |pages|
      invariant table == Tabulate(CollectedRows(pages[..p], playerSid))
    {
      ghost var before := SuccessfulReplays(pages[..p]);
      NextPage(pages, p);
      if pages[p].Some? {
        var replays := pages[p].value;
        for q := 0 to |replays|
          invariant table == Tabulate(NormalizeAll(before + replays[..q], playerSid))
        {
          NextReplay(before, replays, q, playerSid);
          var row := Normalizer.Normalize(replays[q], playerSid);
          table := AppendRow(table, row);
        }
        assert replays[..|replays|] == replays;
        assert table == Tabulate(NormalizeAll(SuccessfulReplays(pages[..p + 1]), playerSid));
      } else {
        assert before + [] == before;
        assert table == Tabulate(NormalizeAll(SuccessfulReplays(pages[..p + 1]), playerSid));
      }
    }
    assert pages[..|pages|] == pages;
    TabulateColumns(CollectedRows(pages, playerSid));
  }

  lemma NextPage(pages: seq<Page>, p: nat)
    requires p < |pages|
    ensures SuccessfulReplays(pages[..p + 1])
         == SuccessfulReplays(pages[..p]) + (if pages[p].Some? then pages[p].value else [])
    ensures pages[p].Some? ==> SuccessfulReplays(pages[..p]) + pages[p].value[..0] == SuccessfulReplays(pages[..p])
  {
    assert pages[..p + 1][..p] == pages[..p];
  }

  lemma NextReplay(before: seq<Replay>, replays: seq<Replay>, q: nat, playerSid: int)
    requires q < |replays|
    ensures Tabulate(NormalizeAll(before + replays[..q + 1], playerSid))
         == AppendRow(Tabulate(NormalizeAll(before + replays[..q], playerSid)), Normalizer.Normalize(replays[q], playerSid))
  {
    assert before + replays[..q + 1] == (before + replays[..q]) + [replays[q]];
    NormalizeAllSnoc(before + replays[..q], replays[q], playerSid);
    TabulateSnoc(NormalizeAll(before + replays[..q], playerSid), Normalizer.Normalize(replays[q], playerSid));
  }

  /** A cell that an optional column may hold: a number or `None`. */
  predicate IsOptional(cell: Cell)
  {
    cell.Number? || cell.Null?
  }

  function OptionalValue(cell: Cell): Option<int>
  {
    if cell.Number? then Some(cell.number) else None
  }

  /** Position `i` of every column exists. */
  ghost predicate HasRow(table: Table, i: nat)
  {
    forall c: Column :: c in table && i < |table[c]|
  }

  /** The ten columns of one participant at position `i`; `None` when a cell has the wrong kind. */
  function SideAt(table: Table, i: nat, role: Role): Option<Side>
    requires HasRow(table, i)
  {
    var name := table[SideColumn(role, Name)][i];
    var sid := table[SideColumn(role, Sid)][i];
    var character := table[SideColumn(role, Character)][i];
    var score := table[SideColumn(role, Score)][i];
    var leagueRank := table[SideColumn(role, LeagueRank)][i];
    var lp := table[SideColumn(role, Lp)][i];
    var mr := table[SideColumn(role, Mr)][i];
    var mrRanking := table[SideColumn(role, MrRanking)][i];
    var inputType := table[SideColumn(role, InputType)][i];
    var platform := table[SideColumn(role, Platform)][i];
    if && name.Text? && sid.Number? && character.Text? && score.Number?
       && IsOptional(leagueRank) && IsOptional(lp) && IsOptional(mr) && IsOptional(mrRanking)
       && inputType.Number? && platform.Text?
    then Some(Side(name.text, sid.number, character.text, score.number,
                   OptionalValue(leagueRank), OptionalValue(lp), OptionalValue(mr), OptionalValue(mrRanking),
                   inputType.number, platform.text))
    else None
  }

  /** Row `i` read across the columns; `None` when a cell has the wrong kind. */
  function RowAt(table: Table, i: nat): Option<Row>
    requires HasRow(table, i)
  {
    var main := SideAt(table, i, Main);
    var opposite := SideAt(table, i, Opposite);
    var matchWon := table[MatchWon][i];
    var leftSide := table[LeftSide][i];
    var uploadedAt := table[UploadedAt][i];
    var replayId := table[ReplayId][i];
    var battleTypeName := table[ReplayBattleTypeName][i];
    if && main.Some? && opposite.Some? && matchWon.Number? && leftSide.Number? && uploadedAt.Number?
       && replayId.Text? && battleTypeName.Text?
    then Some(Row(main.value, opposite.value, matchWon.number, leftSide.number, uploadedAt.number,
                  replayId.text, battleTypeName.text))
    else None
  }

  lemma SideAtCells(table: Table, i: nat, role: Role, side: Side)
    requires HasRow(table, i)
    requires forall f: SideField :: SideColumn(role, f) in table ==> table[SideColumn(role, f)][i] == SideCell(side, f)
    ensures SideAt(table, i, role) == Some(side)
  {
  }

  /** A row whose 25 values sit at position `i` of the columns is read back unchanged. */
  lemma RowAtCells(table: Table, i: nat, row: Row)
    requires HasRow(table, i)
    requires forall c | c in table :: table[c][i] == CellOf(row, c)
    ensures RowAt(table, i) == Some(row)
  {
    SideAtCells(table, i, Main, row.main);
    SideAtCells(table, i, Opposite, row.opposite);
  }

  /** The first `n` rows read across the columns. */
  function RowsUpTo(table: Table, n: nat): Option<seq<Row>>
    requires forall c: Column :: c in table && n <= |table[c]|
  {
    if n == 0 then Some([])
    else
      var rows :- RowsUpTo(table, n - 1);
      var row :- RowAt(table, n - 1);
      Some(rows + [row])
  }

  /**
   * The data frame built from the column dictionary: `None` when the columns
   * do not all have the same length or a cell cannot be read back.
   */
  function Frame(table: Table): Option<seq<Row>>
  {
    if Complete(table) && Rectangular(table, |table[SideColumn(Main, Name)]|)
    then
      CompleteHasEveryColumn(table);
      RowsUpTo(table, |table[SideColumn(Main, Name)]|)
    else None
  }

  /** Position `i` of the columns reads back as `row`. */
  ghost predicate ReadsBack(table: Table, i: nat, row: Row)
  {
    HasRow(table, i) && RowAt(table, i) == Some(row)
  }

  /** Rows that can each be read back at their position are read back together. */
  lemma {:induction false} RowsUpToReadBack(table: Table, rows: seq<Row>, n: nat)
    requires n <= |rows|
    requires forall c: Column :: c in table && |table[c]| == |rows|
    requires forall i {:trigger ReadsBack(table, i, rows[i])} | 0 <= i < |rows| :: ReadsBack(table, i, rows[i])
    ensures RowsUpTo(table, n) == Some(rows[..n])
  {
    if n > 0 {
      RowsUpToReadBack(table, rows, n - 1);
      assert ReadsBack(table, n - 1, rows[n - 1]);
      RowsUpToSnoc(table, n, rows[..n - 1], rows[n - 1]);
      PrefixSnoc(rows, n);
    }
  }

  lemma PrefixSnoc<T>(s: seq<T>, n: nat)
    requires 0 < n <= |s|
    ensures s[..n] == s[..n - 1] + [s[n - 1]]
  {
  }

  lemma RowsUpToSnoc(table: Table, n: nat, prefix: seq<Row>, row: Row)
    requires 0 < n && HasRow(table, n - 1)
    requires RowsUpTo(table, n - 1) == Some(prefix) && RowAt(table, n - 1) == Some(row)
    ensures RowsUpTo(table, n) == Some(prefix + [row])
  {
  }

  /** Zipping the columns back into rows gives the rows that were appended. */
  lemma FrameOfTabulate(rows: seq<Row>)
    ensures Frame(Tabulate(rows)) == Some(rows)
  {
    TabulateColumns(rows);
    var table := Tabulate(rows);
    CompleteHasEveryColumn(table);
    forall i | 0 <= i < |rows|
      ensures ReadsBack(table, i, rows[i])
    {
      RowAtCells(table, i, rows[i]);
    }
    RowsUpToReadBack(table, rows, |rows|);
    assert rows[..|rows|] == rows;
  }
}
