/**
 * The parser's default preprocessing. On its own copy of the raw table it
 * drops eight unused columns, turns the two boolean columns into 0/1,
 * replaces team abbreviations and pitcher names by dense integer codes, and
 * finally drops every row that still has a missing cell.
 *
 * The codes depend on the iteration order of a Python set, which the model
 * leaves open: `Enumerate` picks any order, `CleanWith` is the outcome for a
 * given pair of orders, and the lemmas hold for every valid pair.
 */
module Preprocessing {
  import opened Frames

  const Unused: seq<string> := [
    "date", "season", "home_team_season", "away_team_season",
    "home_team_rest", "away_team_rest", "home_pitcher_rest", "away_pitcher_rest"
  ]

  const NightGame: string := "is_night_game"
  const HomeWin: string := "home_team_win"
  const HomeTeam: string := "home_team_abbr"
  const AwayTeam: string := "away_team_abbr"
  const HomePitcher: string := "home_pitcher"
  const AwayPitcher: string := "away_pitcher"

  /** The columns the preprocessing touches are distinct, and none of them is dropped. */
  lemma ColumnsApart()
    ensures forall c | c in [NightGame, HomeWin, HomeTeam, AwayTeam, HomePitcher, AwayPitcher] :: c !in Unused
    ensures Distinct([NightGame, HomeWin, HomeTeam, AwayTeam, HomePitcher, AwayPitcher])
  {
  }

  /** No element occurs twice. */
  predicate Distinct<T(==)>(xs: seq<T>) {
    forall i, j | 0 <= i < j < |xs| :: xs[i] != xs[j]
  }

  /** `order` lists every element of `s` exactly once: a possible `list(s)`. */
  predicate Enumerates<T(==)>(order: seq<T>, s: set<T>) {
    Distinct(order) && (set x | x in order) == s
  }

  /** `list(s)`: the elements of `s`, in an order the model leaves open. */
  method Enumerate<T(==)>(s: set<T>) returns (order: seq<T>)
    ensures Enumerates(order, s)
  {
    order := [];
    var rest := s;
    while rest != {}
      invariant Distinct(order)
      invariant (set x | x in order) + rest == s
      invariant forall x | x in order :: x !in rest
      decreases |rest|
    {
      var x :| x in rest;
      order := order + [x];
      rest := rest - {x};
    }
  }

  /** An enumeration is as long as the set it lists. */
  lemma {:induction false} EnumerationLength<T>(order: seq<T>, s: set<T>)
    requires Enumerates(order, s)
    ensures |order| == |s|
    decreases |order|
  {
    if order != [] {
      var last := |order| - 1;
      var init := order[..last];
      var rest := set x | x in init;
      assert order == init + [order[last]];
      assert order[last] !in rest;
      assert s == rest + {order[last]};
      EnumerationLength(init, rest);
    }
  }

  /** `{order[i]: i for i in range(len(order))}`. */
  function CodeMap<K(==)>(order: seq<K>): (m: map<K, int>)
    ensures m.Keys == set x | x in order
    ensures forall x | x in m :: 0 <= m[x] < |order|
    decreases |order|
  {
    if order == [] then map[]
    else CodeMap(order[..|order| - 1])[order[|order| - 1] := |order| - 1]
  }

  /** Without repeats, the element at position `i` gets the code `i`. */
  lemma {:induction false} CodeMapPositions<K>(order: seq<K>)
    requires Distinct(order)
    ensures forall i | 0 <= i < |order| :: CodeMap(order)[order[i]] == i
    decreases |order|
  {
    if order != [] {
      var last := |order| - 1;
      var init := order[..last];
      assert Distinct(init);
      CodeMapPositions(init);
      var m := CodeMap(init);
      assert CodeMap(order) == m[order[last] := last];
      forall i | 0 <= i < |order|
        ensures CodeMap(order)[order[i]] == i
      {
        if i < last {
          assert init[i] == order[i] && order[i] != order[last];
        }
      }
    }
  }

  /** The codes of an enumeration of `s` are a bijection from `s` onto `0 .. |s|-1`. */
  lemma CodeMapBijection<K>(order: seq<K>, s: set<K>)
    requires Enumerates(order, s)
    ensures CodeMap(order).Keys == s && |order| == |s|
    ensures forall x | x in s :: 0 <= CodeMap(order)[x] < |s|
    ensures forall x, y | x in s && y in s :: CodeMap(order)[x] == CodeMap(order)[y] ==> x == y
    ensures forall k | 0 <= k < |s| :: order[k] in s && CodeMap(order)[order[k]] == k
  {
    EnumerationLength(order, s);
    CodeMapPositions(order);
    forall x, y | x in s && y in s && CodeMap(order)[x] == CodeMap(order)[y]
      ensures x == y
    {
      var i :| 0 <= i < |order| && order[i] == x;
      var j :| 0 <= j < |order| && order[j] == y;
      assert i == j;
    }
  }

  /** `set(t[a].tolist() + t[b].tolist())`. */
  function DistinctValues(t: Table, a: string, b: string): (s: set<Cell>)
    requires a in t.columns && b in t.columns
    ensures forall i | 0 <= i < |t.rows| :: t.rows[i].cells[a] in s && t.rows[i].cells[b] in s
    ensures forall x | x in s :: x in Column(t, a) || x in Column(t, b)
  {
    var both := Column(t, a) + Column(t, b);
    assert forall i | 0 <= i < |t.rows| :: both[i] == t.rows[i].cells[a] && both[|t.rows| + i] == t.rows[i].cells[b];
    set x | x in both
  }

  /** The first three steps: the unused columns dropped, the two flags turned into numbers. */
  function Flagged(raw: Table): (r: Result<Table, Error>)
    ensures r.Success? ==> r.value.columns == Without(raw.columns, Unused) && |r.value.rows| == |raw.rows|
  {
    var dropped :- Drop(raw, Unused);
    var night :- AddZero(dropped, NightGame);
    AddZero(night, HomeWin)
  }

  /** A column the first three steps do not touch keeps its cells. */
  lemma FlaggedKeeps(raw: Table, c: string)
    requires Flagged(raw).Success?
    requires c !in Unused && c != NightGame && c != HomeWin
    ensures c in Flagged(raw).value.columns <==> c in raw.columns
    ensures c in raw.columns ==> Column(Flagged(raw).value, c) == Column(raw, c)
  {
  }

  /** Recoding one column keeps the cells of every other column. */
  lemma RecodeKeeps(t: Table, col: string, codes: map<Cell, int>, c: string)
    requires Recode(t, col, codes).Success?
    requires c != col
    ensures c in Recode(t, col, codes).value.columns <==> c in t.columns
    ensures c in t.columns ==> Column(Recode(t, col, codes).value, c) == Column(t, c)
  {
  }

  /**
   * The two orders are possible iteration orders of the team and pitcher
   * sets of `raw`, for as far as the preprocessing gets to list them.
   */
  predicate ValidOrders(raw: Table, teamOrder: seq<Cell>, pitcherOrder: seq<Cell>) {
    var teamsListed := Flagged(raw).Success? && HomeTeam in raw.columns && AwayTeam in raw.columns;
    && (teamsListed ==> Enumerates(teamOrder, DistinctValues(raw, HomeTeam, AwayTeam)))
    && (teamsListed && HomePitcher in raw.columns && AwayPitcher in raw.columns ==>
          Enumerates(pitcherOrder, DistinctValues(raw, HomePitcher, AwayPitcher)))
  }

  /** The first three steps succeed on `raw`. */
  predicate Flaggable(raw: Table) {
    && (forall n | n in Unused :: n in raw.columns)
    && NightGame in raw.columns && HomeWin in raw.columns
    && NoText(raw, NightGame) && NoText(raw, HomeWin)
  }

  /** The preprocessing of `raw` succeeds. */
  predicate Cleanable(raw: Table) {
    && Flaggable(raw)
    && HomeTeam in raw.columns && AwayTeam in raw.columns
    && HomePitcher in raw.columns && AwayPitcher in raw.columns
  }

  /**
   * One code-mapping block: the distinct values of columns `a` and `b` are
   * listed in `order`, numbered by position, and both columns are rewritten
   * with those numbers.
   */
  function CodePair(t: Table, a: string, b: string, order: seq<Cell>): (r: Result<Table, Error>)
    ensures a !in t.columns ==> r == Failure(KeyError([a]))
    ensures a in t.columns && b !in t.columns ==> r == Failure(KeyError([b]))
    ensures r.Success? ==> r.value.columns == t.columns && |r.value.rows| == |t.rows|
  {
    var homeValues :- ColumnList(t, a);
    var awayValues :- ColumnList(t, b);
    var codes := CodeMap(order);
    var homeCoded :- Recode(t, a, codes);
    Recode(homeCoded, b, codes)
  }

  /** All steps but the last, when the sets iterate in the given orders. */
  function Coded(raw: Table, teamOrder: seq<Cell>, pitcherOrder: seq<Cell>): (r: Result<Table, Error>)
    ensures r.Success? ==> r.value.columns == Without(raw.columns, Unused) && |r.value.rows| == |raw.rows|
  {
    var flags :- Flagged(raw);
    var teamsCoded :- CodePair(flags, HomeTeam, AwayTeam, teamOrder);
    CodePair(teamsCoded, HomePitcher, AwayPitcher, pitcherOrder)
  }

  /** The outcome of the preprocessing of `raw` when the sets iterate in the given orders. */
  function CleanWith(raw: Table, teamOrder: seq<Cell>, pitcherOrder: seq<Cell>): (r: Result<Table, Error>)
    ensures r.Success? <==> Coded(raw, teamOrder, pitcherOrder).Success?
    ensures r.Success? ==> r.value.columns == Without(raw.columns, Unused)
    ensures r.Success? ==> forall i | 0 <= i < |r.value.rows| :: Complete(r.value.rows[i])
  {
    var coded :- Coded(raw, teamOrder, pitcherOrder);
    Success(DropNA(coded))
  }

  /** The code-mapping block on `df`; `order` is the order in which the set was listed. */
  method EncodePair(df: Table, a: string, b: string) returns (r: Result<Table, Error>, order: seq<Cell>)
    requires a != b
    ensures r == CodePair(df, a, b, order)
    ensures r.Success? <==> a in df.columns && b in df.columns
    ensures a in df.columns && b in df.columns ==> Enumerates(order, DistinctValues(df, a, b))
  {
    order := [];
    var homeValues :- ColumnList(df, a);
    var awayValues :- ColumnList(df, b);
    order := Enumerate(set x | x in homeValues + awayValues);
    assert (set x | x in homeValues + awayValues) == DistinctValues(df, a, b);
    var codes := CodeMap(order);
    assert codes.Keys == DistinctValues(df, a, b);
    var homeCoded := Recode(df, a, codes);
    assert homeCoded.Success? && Column(homeCoded.value, b) == Column(df, b);
    r := Recode(homeCoded.value, b, codes);
  }

  /** A column outside `a` and `b` keeps its cells through a successful code-mapping block. */
  lemma CodePairKeeps(t: Table, a: string, b: string, order: seq<Cell>, c: string)
    requires CodePair(t, a, b, order).Success?
    requires c != a && c != b
    ensures c in CodePair(t, a, b, order).value.columns <==> c in t.columns
    ensures c in t.columns ==> Column(CodePair(t, a, b, order).value, c) == Column(t, c)
  {
    var codes := CodeMap(order);
    RecodeKeeps(t, a, codes, c);
    RecodeKeeps(Recode(t, a, codes).value, b, codes, c);
  }

  /** Equal columns give equal value sets. */
  lemma SameDistinctValues(t: Table, u: Table, a: string, b: string)
    requires a in t.columns && b in t.columns && a in u.columns && b in u.columns
    requires Column(t, a) == Column(u, a) && Column(t, b) == Column(u, b)
    ensures DistinctValues(t, a, b) == DistinctValues(u, a, b)
  {
  }

  /**
   * The default preprocessing, step by step on a copy of `raw`; the orders in
   * which the two sets were listed are returned beside the result.
   */
  method Preprocess(raw: Table) returns (r: Result<Table, Error>, teamOrder: seq<Cell>, pitcherOrder: seq<Cell>)
    ensures r == CleanWith(raw, teamOrder, pitcherOrder)
    ensures ValidOrders(raw, teamOrder, pitcherOrder)
  {
    teamOrder, pitcherOrder := [], [];
    var df := raw;
    df :- Drop(df, Unused);
    df :- AddZero(df, NightGame);
    df :- AddZero(df, HomeWin);
    assert df == Flagged(raw).value;
    ColumnsApart();
    var flags := df;
    FlaggedKeeps(raw, HomeTeam);
    FlaggedKeeps(raw, AwayTeam);
    FlaggedKeeps(raw, HomePitcher);
    FlaggedKeeps(raw, AwayPitcher);
    if HomeTeam in raw.columns && AwayTeam in raw.columns {
      SameDistinctValues(flags, raw, HomeTeam, AwayTeam);
    }

    df, teamOrder :- EncodePair(df, HomeTeam, AwayTeam);
    var teamsCoded := df;
    CodePairKeeps(flags, HomeTeam, AwayTeam, teamOrder, HomePitcher);
    CodePairKeeps(flags, HomeTeam, AwayTeam, teamOrder, AwayPitcher);
    if HomePitcher in raw.columns && AwayPitcher in raw.columns {
      SameDistinctValues(teamsCoded, raw, HomePitcher, AwayPitcher);
    }

    df, pitcherOrder :- EncodePair(df, HomePitcher, AwayPitcher);
    df := DropNA(df);
    r := Success(df);
  }

  /** The error the first three steps stop with, in source order. */
  function FlagError(raw: Table): Error
    requires !Flaggable(raw)
  {
    if !(forall n | n in Unused :: n in raw.columns) then KeyError(Without(Unused, raw.columns))
    else if NightGame !in raw.columns then KeyError([NightGame])
    else if !NoText(raw, NightGame) then TypeError(NightGame)
    else if HomeWin !in raw.columns then KeyError([HomeWin])
    else TypeError(HomeWin)
  }

  /** The error the preprocessing of `raw` stops with: the first step that fails, in source order. */
  function FirstError(raw: Table): Error
    requires !Cleanable(raw)
  {
    if !Flaggable(raw) then FlagError(raw)
    else if HomeTeam !in raw.columns then KeyError([HomeTeam])
    else if AwayTeam !in raw.columns then KeyError([AwayTeam])
    else if HomePitcher !in raw.columns then KeyError([HomePitcher])
    else KeyError([AwayPitcher])
  }

  /** Two tables that agree on column `c` agree on whether it holds text. */
  lemma SameNoText(t: Table, u: Table, c: string)
    requires c in t.columns && c in u.columns && Column(t, c) == Column(u, c)
    ensures NoText(t, c) <==> NoText(u, c)
  {
    assert forall i | 0 <= i < |t.rows| :: t.rows[i].cells[c] == u.rows[i].cells[c];
  }

  /** Dropping the unused columns keeps every other column and its cells. */
  lemma DropUnusedKeeps(raw: Table, c: string)
    requires Drop(raw, Unused).Success? && c !in Unused
    ensures c in Drop(raw, Unused).value.columns <==> c in raw.columns
    ensures c in raw.columns ==> Column(Drop(raw, Unused).value, c) == Column(raw, c)
  {
  }

  /** `t[col] += 0` keeps every other column and its cells. */
  lemma AddZeroKeeps(t: Table, col: string, c: string)
    requires AddZero(t, col).Success? && c != col
    ensures c in AddZero(t, col).value.columns <==> c in t.columns
    ensures c in t.columns ==> Column(AddZero(t, col).value, c) == Column(t, c)
  {
  }

  /** The first three steps succeed exactly on flaggable tables, and otherwise stop with the first error. */
  lemma FlaggedOutcome(raw: Table)
    ensures Flagged(raw).Success? <==> Flaggable(raw)
    ensures !Flaggable(raw) ==> Flagged(raw) == Failure(FlagError(raw))
  {
    if !(forall n | n in Unused :: n in raw.columns) {
      assert Drop(raw, Unused).Failure?;
    } else {
      var dropped := Drop(raw, Unused).value;
      assert NightGame !in Unused && HomeWin !in Unused && HomeWin != NightGame by {
        ColumnsApart();
      }
      DropUnusedKeeps(raw, NightGame);
      DropUnusedKeeps(raw, HomeWin);
      if NightGame in raw.columns {
        SameNoText(dropped, raw, NightGame);
        if NoText(raw, NightGame) {
          var night := AddZero(dropped, NightGame).value;
          AddZeroKeeps(dropped, NightGame, HomeWin);
          if HomeWin in raw.columns {
            SameNoText(night, raw, HomeWin);
          }
        }
      }
    }
  }

  /** A code-mapping block over an enumeration of the two columns' values cannot miss a code. */
  lemma CodePairSucceeds(t: Table, a: string, b: string, order: seq<Cell>)
    requires a != b && a in t.columns && b in t.columns
    requires Enumerates(order, DistinctValues(t, a, b))
    ensures CodePair(t, a, b, order).Success?
  {
    var codes := CodeMap(order);
    assert Recode(t, a, codes).Success?;
    assert Column(Recode(t, a, codes).value, b) == Column(t, b);
  }

  /** The preprocessing succeeds exactly on the tables it can clean, and otherwise stops with the first error. */
  lemma CleanOutcome(raw: Table, teamOrder: seq<Cell>, pitcherOrder: seq<Cell>)
    requires ValidOrders(raw, teamOrder, pitcherOrder)
    ensures CleanWith(raw, teamOrder, pitcherOrder).Success? <==> Cleanable(raw)
    ensures !Cleanable(raw) ==> CleanWith(raw, teamOrder, pitcherOrder) == Failure(FirstError(raw))
  {
    ColumnsApart();
    FlaggedOutcome(raw);
    if Flagged(raw).Success? {
      var flags := Flagged(raw).value;
      FlaggedKeeps(raw, HomeTeam);
      FlaggedKeeps(raw, AwayTeam);
      FlaggedKeeps(raw, HomePitcher);
      FlaggedKeeps(raw, AwayPitcher);
      if HomeTeam in raw.columns && AwayTeam in raw.columns {
        SameDistinctValues(flags, raw, HomeTeam, AwayTeam);
        CodePairSucceeds(flags, HomeTeam, AwayTeam, teamOrder);
        var teams := CodePair(flags, HomeTeam, AwayTeam, teamOrder).value;
        CodePairKeeps(flags, HomeTeam, AwayTeam, teamOrder, HomePitcher);
        CodePairKeeps(flags, HomeTeam, AwayTeam, teamOrder, AwayPitcher);
        if HomePitcher in raw.columns && AwayPitcher in raw.columns {
          SameDistinctValues(teams, raw, HomePitcher, AwayPitcher);
          CodePairSucceeds(teams, HomePitcher, AwayPitcher, pitcherOrder);
        }
      }
    }
  }

  /** The number a cell gets from a code mapping; a cell without a code is left as it is. */
  function Encode(codes: map<Cell, int>, v: Cell): Cell {
    if v in codes then Some(Int(codes[v])) else v
  }

  /** What the preprocessing does to the cell `v` of column `c`, given the two code mappings. */
  function CleanCell(c: string, v: Cell, teamCodes: map<Cell, int>, pitcherCodes: map<Cell, int>): Cell {
    if c == HomeTeam || c == AwayTeam then Encode(teamCodes, v)
    else if c == HomePitcher || c == AwayPitcher then Encode(pitcherCodes, v)
    else if c == NightGame || c == HomeWin then PlusZero(v)
    else v
  }

  /** A raw row with the unused cells gone and every kept cell cleaned. */
  function CleanRow(row: Row, teamCodes: map<Cell, int>, pitcherCodes: map<Cell, int>): Row {
    Row(row.index, map c | c in row.cells && c !in Unused :: CleanCell(c, row.cells[c], teamCodes, pitcherCodes))
  }

  /** A cleaned row has a cell for exactly the columns that are not dropped. */
  lemma CleanRowKeys(row: Row, teamCodes: map<Cell, int>, pitcherCodes: map<Cell, int>, columns: seq<string>)
    requires row.cells.Keys == set c | c in columns
    ensures CleanRow(row, teamCodes, pitcherCodes).cells.Keys == set c | c in Without(columns, Unused)
  {
  }

  /** Every raw row cleaned, in order, before the incomplete ones are dropped. */
  function CleanRows(raw: Table, teamCodes: map<Cell, int>, pitcherCodes: map<Cell, int>): (r: seq<Row>)
    ensures |r| == |raw.rows|
    ensures forall i | 0 <= i < |raw.rows| :: r[i] == CleanRow(raw.rows[i], teamCodes, pitcherCodes)
  {
    seq(|raw.rows|, i requires 0 <= i < |raw.rows| => CleanRow(raw.rows[i], teamCodes, pitcherCodes))
  }

  /** Cell by cell, the first three steps clean the two flag columns and keep the rest. */
  lemma FlaggedCells(raw: Table)
    requires Flaggable(raw)
    ensures Flagged(raw).Success?
    ensures Flagged(raw).value.columns == Without(raw.columns, Unused)
    ensures |Flagged(raw).value.rows| == |raw.rows|
    ensures forall i | 0 <= i < |raw.rows| ::
              && Flagged(raw).value.rows[i].index == raw.rows[i].index
              && forall c | c in Flagged(raw).value.columns ::
                   Flagged(raw).value.rows[i].cells[c]
                   == if c == NightGame || c == HomeWin then PlusZero(raw.rows[i].cells[c]) else raw.rows[i].cells[c]
  {
    FlaggedOutcome(raw);
    forall i, c | 0 <= i < |raw.rows| && c in Flagged(raw).value.columns
      ensures Flagged(raw).value.rows[i].cells[c]
              == if c == NightGame || c == HomeWin then PlusZero(raw.rows[i].cells[c]) else raw.rows[i].cells[c]
    {
      FlaggedCell(raw, i, c);
    }
  }

  /** One cell of `FlaggedCells`. */
  lemma FlaggedCell(raw: Table, i: int, c: string)
    requires Flagged(raw).Success? && 0 <= i < |raw.rows| && c in Flagged(raw).value.columns
    ensures Flagged(raw).value.rows[i].cells[c]
            == if c == NightGame || c == HomeWin then PlusZero(raw.rows[i].cells[c]) else raw.rows[i].cells[c]
  {
    var dropped := Drop(raw, Unused).value;
    var night := AddZero(dropped, NightGame).value;
    var flags := AddZero(night, HomeWin).value;
    assert flags == Flagged(raw).value;
    var v := raw.rows[i].cells[c];
    assert dropped.rows[i].cells[c] == v;
    if c == NightGame {
      assert night.rows[i].cells[c] == PlusZero(v);
      assert flags.rows[i].cells[c] == night.rows[i].cells[c];
    } else if c == HomeWin {
      assert night.rows[i].cells[c] == v;
      assert flags.rows[i].cells[c] == PlusZero(v);
    } else {
      assert night.rows[i].cells[c] == v;
      assert flags.rows[i].cells[c] == v;
    }
  }

  /** Cell by cell, a code-mapping block encodes its two columns and keeps the rest. */
  lemma CodePairCells(t: Table, a: string, b: string, order: seq<Cell>)
    requires a != b && CodePair(t, a, b, order).Success?
    ensures CodePair(t, a, b, order).value.columns == t.columns
    ensures |CodePair(t, a, b, order).value.rows| == |t.rows|
    ensures forall i | 0 <= i < |t.rows| ::
              && CodePair(t, a, b, order).value.rows[i].index == t.rows[i].index
              && forall c | c in t.columns ::
                   CodePair(t, a, b, order).value.rows[i].cells[c]
                   == if c == a || c == b then Encode(CodeMap(order), t.rows[i].cells[c]) else t.rows[i].cells[c]
  {
    var codes := CodeMap(order);
    var first := Recode(t, a, codes).value;
    assert forall i | 0 <= i < |t.rows| :: first.rows[i].cells[b] == t.rows[i].cells[b];
  }

  /**
   * The outcome of a successful preprocessing: the raw columns without the
   * unused ones, in their order, and the raw rows cleaned one by one, of
   * which exactly the complete ones remain, in their order.
   */
  lemma CleanResult(raw: Table, teamOrder: seq<Cell>, pitcherOrder: seq<Cell>)
    requires Cleanable(raw) && ValidOrders(raw, teamOrder, pitcherOrder)
    ensures CleanWith(raw, teamOrder, pitcherOrder).Success?
    ensures CleanWith(raw, teamOrder, pitcherOrder).value.columns == Without(raw.columns, Unused)
    ensures CleanWith(raw, teamOrder, pitcherOrder).value.rows
            == KeepComplete(CleanRows(raw, CodeMap(teamOrder), CodeMap(pitcherOrder)))
  {
    CleanOutcome(raw, teamOrder, pitcherOrder);
    CodedShape(raw, teamOrder, pitcherOrder);
    var coded := Coded(raw, teamOrder, pitcherOrder).value;
    var rows := CleanRows(raw, CodeMap(teamOrder), CodeMap(pitcherOrder));
    forall i | 0 <= i < |raw.rows|
      ensures coded.rows[i] == rows[i]
    {
      CodedRow(raw, teamOrder, pitcherOrder, i);
    }
    assert coded.rows == rows;
  }

  /** The columns and the row count before the incomplete rows are dropped. */
  lemma CodedShape(raw: Table, teamOrder: seq<Cell>, pitcherOrder: seq<Cell>)
    requires Coded(raw, teamOrder, pitcherOrder).Success?
    ensures Coded(raw, teamOrder, pitcherOrder).value.columns == Without(raw.columns, Unused)
    ensures |Coded(raw, teamOrder, pitcherOrder).value.rows| == |raw.rows|
  {
    FlaggedOutcome(raw);
    FlaggedCells(raw);
    var flags := Flagged(raw).value;
    CodePairCells(flags, HomeTeam, AwayTeam, teamOrder);
    CodePairCells(CodePair(flags, HomeTeam, AwayTeam, teamOrder).value, HomePitcher, AwayPitcher, pitcherOrder);
  }

  /** One row of `CleanResult`, before the incomplete rows are dropped. */
  lemma CodedRow(raw: Table, teamOrder: seq<Cell>, pitcherOrder: seq<Cell>, i: int)
    requires Coded(raw, teamOrder, pitcherOrder).Success? && 0 <= i < |raw.rows|
    ensures |Coded(raw, teamOrder, pitcherOrder).value.rows| == |raw.rows|
    ensures Coded(raw, teamOrder, pitcherOrder).value.rows[i]
            == CleanRow(raw.rows[i], CodeMap(teamOrder), CodeMap(pitcherOrder))
  {
    CodedShape(raw, teamOrder, pitcherOrder);
    var coded := Coded(raw, teamOrder, pitcherOrder).value;
    var row := CleanRow(raw.rows[i], CodeMap(teamOrder), CodeMap(pitcherOrder));
    var kept := Without(raw.columns, Unused);
    assert coded.rows[i].cells.Keys == set c | c in kept;
    assert row.cells.Keys == set c | c in kept by {
      CleanRowKeys(raw.rows[i], CodeMap(teamOrder), CodeMap(pitcherOrder), raw.columns);
    }
    forall c | c in kept
      ensures coded.rows[i].cells[c] == row.cells[c]
    {
      CodedCell(raw, teamOrder, pitcherOrder, i, c);
    }
    CodedIndex(raw, teamOrder, pitcherOrder, i);
    SameRow(coded.rows[i], row, kept);
  }

  /** Two rows with the same index and the same cell for each of the same columns are equal. */
  lemma SameRow(x: Row, y: Row, columns: seq<string>)
    requires x.index == y.index
    requires x.cells.Keys == (set c | c in columns) && y.cells.Keys == (set c | c in columns)
    requires forall c | c in columns :: x.cells[c] == y.cells[c]
    ensures x == y
  {
    assert x.cells == y.cells;
  }

  /** The index label survives the steps. */
  lemma CodedIndex(raw: Table, teamOrder: seq<Cell>, pitcherOrder: seq<Cell>, i: int)
    requires Coded(raw, teamOrder, pitcherOrder).Success? && 0 <= i < |raw.rows|
    ensures |Coded(raw, teamOrder, pitcherOrder).value.rows| == |raw.rows|
    ensures Coded(raw, teamOrder, pitcherOrder).value.rows[i].index == raw.rows[i].index
  {
    FlaggedOutcome(raw);
    FlaggedCells(raw);
    var flags := Flagged(raw).value;
    CodePairCells(flags, HomeTeam, AwayTeam, teamOrder);
    CodePairCells(CodePair(flags, HomeTeam, AwayTeam, teamOrder).value, HomePitcher, AwayPitcher, pitcherOrder);
  }

  /** One cell of `CleanResult`, before the incomplete rows are dropped. */
  lemma CodedCell(raw: Table, teamOrder: seq<Cell>, pitcherOrder: seq<Cell>, i: int, c: string)
    requires Coded(raw, teamOrder, pitcherOrder).Success? && 0 <= i < |raw.rows|
    requires c in raw.columns && c !in Unused
    ensures |Coded(raw, teamOrder, pitcherOrder).value.rows| == |raw.rows|
    ensures c in Coded(raw, teamOrder, pitcherOrder).value.rows[i].cells
    ensures Coded(raw, teamOrder, pitcherOrder).value.rows[i].cells[c]
            == CleanCell(c, raw.rows[i].cells[c], CodeMap(teamOrder), CodeMap(pitcherOrder))
  {
    var flags := Flagged(raw).value;
    var teams := CodePair(flags, HomeTeam, AwayTeam, teamOrder).value;
    var coded := Coded(raw, teamOrder, pitcherOrder).value;
    var v := raw.rows[i].cells[c];
    assert c in flags.columns && |flags.rows| == |raw.rows|
           && flags.rows[i].cells[c] == (if c == NightGame || c == HomeWin then PlusZero(v) else v) by {
      FlaggedOutcome(raw);
      FlaggedCells(raw);
    }
    var f := flags.rows[i].cells[c];
    assert teams.columns == flags.columns && |teams.rows| == |raw.rows|
           && teams.rows[i].cells[c] == (if c == HomeTeam || c == AwayTeam then Encode(CodeMap(teamOrder), f) else f) by {
      CodePairCells(flags, HomeTeam, AwayTeam, teamOrder);
    }
    var tv := teams.rows[i].cells[c];
    assert coded.columns == teams.columns && |coded.rows| == |raw.rows|
           && coded.rows[i].cells[c] == (if c == HomePitcher || c == AwayPitcher then Encode(CodeMap(pitcherOrder), tv) else tv) by {
      CodePairCells(teams, HomePitcher, AwayPitcher, pitcherOrder);
    }
  }

  /**
   * The code of a cell of either column: always a number below the count of
   * distinct values, and two cells get the same code exactly when they are equal.
   */
  lemma EncodeColumns(t: Table, a: string, b: string, order: seq<Cell>, i: int, ca: string, j: int, cb: string)
    requires a in t.columns && b in t.columns && Enumerates(order, DistinctValues(t, a, b))
    requires 0 <= i < |t.rows| && 0 <= j < |t.rows| && (ca == a || ca == b) && (cb == a || cb == b)
    ensures Encode(CodeMap(order), t.rows[i].cells[ca]).Some?
    ensures Encode(CodeMap(order), t.rows[i].cells[ca]).value.Int?
    ensures 0 <= Encode(CodeMap(order), t.rows[i].cells[ca]).value.i < |DistinctValues(t, a, b)|
    ensures Encode(CodeMap(order), t.rows[i].cells[ca]) == Encode(CodeMap(order), t.rows[j].cells[cb])
            <==> t.rows[i].cells[ca] == t.rows[j].cells[cb]
  {
    var s := DistinctValues(t, a, b);
    var codes := CodeMap(order);
    CodeMapBijection(order, s);
    var u, v := t.rows[i].cells[ca], t.rows[j].cells[cb];
    assert u in s && v in s;
    assert Encode(codes, u) == Some(Int(codes[u])) && Encode(codes, v) == Some(Int(codes[v]));
    assert codes[u] == codes[v] ==> u == v;
  }

  /**
   * Both team columns are rewritten with one mapping: every cleaned team
   * cell is a code below the number of distinct teams, and two team cells,
   * in the same or different rows and columns, get equal codes exactly when
   * they held equal values.
   */
  lemma TeamCodes(raw: Table, teamOrder: seq<Cell>, pitcherOrder: seq<Cell>, i: int, ca: string, j: int, cb: string)
    requires Cleanable(raw) && ValidOrders(raw, teamOrder, pitcherOrder)
    requires 0 <= i < |raw.rows| && 0 <= j < |raw.rows|
    requires ca in [HomeTeam, AwayTeam] && cb in [HomeTeam, AwayTeam]
    ensures var x := CleanCell(ca, raw.rows[i].cells[ca], CodeMap(teamOrder), CodeMap(pitcherOrder));
            && x.Some? && x.value.Int? && 0 <= x.value.i < |DistinctValues(raw, HomeTeam, AwayTeam)|
            && (x == CleanCell(cb, raw.rows[j].cells[cb], CodeMap(teamOrder), CodeMap(pitcherOrder))
                <==> raw.rows[i].cells[ca] == raw.rows[j].cells[cb])
  {
    OrdersListed(raw, teamOrder, pitcherOrder);
    var tc, pc := CodeMap(teamOrder), CodeMap(pitcherOrder);
    EncodeColumns(raw, HomeTeam, AwayTeam, teamOrder, i, ca, j, cb);
    assert CleanCell(ca, raw.rows[i].cells[ca], tc, pc) == Encode(tc, raw.rows[i].cells[ca]);
    assert CleanCell(cb, raw.rows[j].cells[cb], tc, pc) == Encode(tc, raw.rows[j].cells[cb]);
  }

  /** The orders of a cleanable table list the distinct teams and the distinct pitchers. */
  lemma OrdersListed(raw: Table, teamOrder: seq<Cell>, pitcherOrder: seq<Cell>)
    requires Cleanable(raw) && ValidOrders(raw, teamOrder, pitcherOrder)
    ensures Enumerates(teamOrder, DistinctValues(raw, HomeTeam, AwayTeam))
    ensures Enumerates(pitcherOrder, DistinctValues(raw, HomePitcher, AwayPitcher))
  {
    FlaggedOutcome(raw);
  }

  /** The pitcher columns share one mapping of their own, with the same properties. */
  lemma PitcherCodes(raw: Table, teamOrder: seq<Cell>, pitcherOrder: seq<Cell>, i: int, ca: string, j: int, cb: string)
    requires Cleanable(raw) && ValidOrders(raw, teamOrder, pitcherOrder)
    requires 0 <= i < |raw.rows| && 0 <= j < |raw.rows|
    requires ca in [HomePitcher, AwayPitcher] && cb in [HomePitcher, AwayPitcher]
    ensures var x := CleanCell(ca, raw.rows[i].cells[ca], CodeMap(teamOrder), CodeMap(pitcherOrder));
            && x.Some? && x.value.Int? && 0 <= x.value.i < |DistinctValues(raw, HomePitcher, AwayPitcher)|
            && (x == CleanCell(cb, raw.rows[j].cells[cb], CodeMap(teamOrder), CodeMap(pitcherOrder))
                <==> raw.rows[i].cells[ca] == raw.rows[j].cells[cb])
  {
    OrdersListed(raw, teamOrder, pitcherOrder);
    assert ca != HomeTeam && ca != AwayTeam && cb != HomeTeam && cb != AwayTeam by {
      ColumnsApart();
    }
    EncodeColumns(raw, HomePitcher, AwayPitcher, pitcherOrder, i, ca, j, cb);
    var tc, pc := CodeMap(teamOrder), CodeMap(pitcherOrder);
    assert CleanCell(ca, raw.rows[i].cells[ca], tc, pc) == Encode(pc, raw.rows[i].cells[ca]);
    assert CleanCell(cb, raw.rows[j].cells[cb], tc, pc) == Encode(pc, raw.rows[j].cells[cb]);
  }

  /** Every row of the preprocessing's result is some raw row, cleaned. */
  lemma OutputRowOrigin(raw: Table, teamOrder: seq<Cell>, pitcherOrder: seq<Cell>, x: Row) returns (i: int)
    requires Cleanable(raw) && ValidOrders(raw, teamOrder, pitcherOrder)
    requires CleanWith(raw, teamOrder, pitcherOrder).Success? && x in CleanWith(raw, teamOrder, pitcherOrder).value.rows
    ensures 0 <= i < |raw.rows| && x == CleanRow(raw.rows[i], CodeMap(teamOrder), CodeMap(pitcherOrder))
  {
    CleanResult(raw, teamOrder, pitcherOrder);
    var rows := CleanRows(raw, CodeMap(teamOrder), CodeMap(pitcherOrder));
    assert x in rows;
    i :| 0 <= i < |rows| && rows[i] == x;
  }

  /** The cleaned cell of a kept column of a raw row. */
  lemma CleanRowCell(raw: Table, teamCodes: map<Cell, int>, pitcherCodes: map<Cell, int>, i: int, c: string)
    requires 0 <= i < |raw.rows| && c in raw.columns && c !in Unused
    ensures c in CleanRow(raw.rows[i], teamCodes, pitcherCodes).cells
    ensures CleanRow(raw.rows[i], teamCodes, pitcherCodes).cells[c] == CleanCell(c, raw.rows[i].cells[c], teamCodes, pitcherCodes)
  {
  }

  /**
   * On the rows of the result itself: each comes from a raw row, and its two
   * team cells hold codes below the number of distinct teams; two team
   * cells of result rows are equal exactly when the raw abbreviations were.
   */
  lemma TeamCodesInResult(raw: Table, teamOrder: seq<Cell>, pitcherOrder: seq<Cell>, x: Row, y: Row, ca: string, cb: string)
    requires Cleanable(raw) && ValidOrders(raw, teamOrder, pitcherOrder)
    requires CleanWith(raw, teamOrder, pitcherOrder).Success?
    requires x in CleanWith(raw, teamOrder, pitcherOrder).value.rows && y in CleanWith(raw, teamOrder, pitcherOrder).value.rows
    requires ca in [HomeTeam, AwayTeam] && cb in [HomeTeam, AwayTeam]
    ensures exists i, j | 0 <= i < |raw.rows| && 0 <= j < |raw.rows| ::
              && x.index == raw.rows[i].index && y.index == raw.rows[j].index
              && ca in x.cells && cb in y.cells
              && x.cells[ca].Some? && x.cells[ca].value.Int?
              && 0 <= x.cells[ca].value.i < |DistinctValues(raw, HomeTeam, AwayTeam)|
              && (x.cells[ca] == y.cells[cb] <==> raw.rows[i].cells[ca] == raw.rows[j].cells[cb])
  {
    var i := OutputRowOrigin(raw, teamOrder, pitcherOrder, x);
    var j := OutputRowOrigin(raw, teamOrder, pitcherOrder, y);
    assert ca !in Unused && cb !in Unused by {
      ColumnsApart();
    }
    CleanRowCell(raw, CodeMap(teamOrder), CodeMap(pitcherOrder), i, ca);
    CleanRowCell(raw, CodeMap(teamOrder), CodeMap(pitcherOrder), j, cb);
    TeamCodes(raw, teamOrder, pitcherOrder, i, ca, j, cb);
  }

  /** The same on the rows of the result for the two pitcher columns, with their own mapping. */
  lemma PitcherCodesInResult(raw: Table, teamOrder: seq<Cell>, pitcherOrder: seq<Cell>, x: Row, y: Row, ca: string, cb: string)
    requires Cleanable(raw) && ValidOrders(raw, teamOrder, pitcherOrder)
    requires CleanWith(raw, teamOrder, pitcherOrder).Success?
    requires x in CleanWith(raw, teamOrder, pitcherOrder).value.rows && y in CleanWith(raw, teamOrder, pitcherOrder).value.rows
    requires ca in [HomePitcher, AwayPitcher] && cb in [HomePitcher, AwayPitcher]
    ensures exists i, j | 0 <= i < |raw.rows| && 0 <= j < |raw.rows| ::
              && x.index == raw.rows[i].index && y.index == raw.rows[j].index
              && ca in x.cells && cb in y.cells
              && x.cells[ca].Some? && x.cells[ca].value.Int?
              && 0 <= x.cells[ca].value.i < |DistinctValues(raw, HomePitcher, AwayPitcher)|
              && (x.cells[ca] == y.cells[cb] <==> raw.rows[i].cells[ca] == raw.rows[j].cells[cb])
  {
    var i := OutputRowOrigin(raw, teamOrder, pitcherOrder, x);
    var j := OutputRowOrigin(raw, teamOrder, pitcherOrder, y);
    assert ca !in Unused && cb !in Unused by {
      ColumnsApart();
    }
    CleanRowCell(raw, CodeMap(teamOrder), CodeMap(pitcherOrder), i, ca);
    CleanRowCell(raw, CodeMap(teamOrder), CodeMap(pitcherOrder), j, cb);
    PitcherCodes(raw, teamOrder, pitcherOrder, i, ca, j, cb);
  }

  /** After a successful preprocessing no row has a missing cell, and every row has exactly the kept columns. */
  lemma CleanComplete(raw: Table, teamOrder: seq<Cell>, pitcherOrder: seq<Cell>)
    requires Cleanable(raw) && ValidOrders(raw, teamOrder, pitcherOrder)
    ensures CleanWith(raw, teamOrder, pitcherOrder).Success?
    ensures forall x | x in CleanWith(raw, teamOrder, pitcherOrder).value.rows ::
              Complete(x) && x.cells.Keys == NameSet(Without(raw.columns, Unused))
  {
    CleanResult(raw, teamOrder, pitcherOrder);
    var out := CleanWith(raw, teamOrder, pitcherOrder).value;
    forall x | x in out.rows
      ensures Complete(x) && x.cells.Keys == NameSet(Without(raw.columns, Unused))
    {
      var k :| 0 <= k < |out.rows| && out.rows[k] == x;
    }
  }

  /**
   * A flag column that held only booleans and missing cells holds only 0
   * and 1 afterwards: its missing cells are gone with their rows.
   */
  lemma FlagValues(raw: Table, teamOrder: seq<Cell>, pitcherOrder: seq<Cell>, c: string)
    requires Cleanable(raw) && ValidOrders(raw, teamOrder, pitcherOrder)
    requires c == NightGame || c == HomeWin
    requires forall i | 0 <= i < |raw.rows| :: raw.rows[i].cells[c].None? || raw.rows[i].cells[c].value.Bool?
    ensures CleanWith(raw, teamOrder, pitcherOrder).Success?
    ensures forall x | x in CleanWith(raw, teamOrder, pitcherOrder).value.rows ::
              c in x.cells && (x.cells[c] == Some(Int(0)) || x.cells[c] == Some(Int(1)))
  {
    CleanResult(raw, teamOrder, pitcherOrder);
    FlagRows(raw, CodeMap(teamOrder), CodeMap(pitcherOrder), c);
  }

  /** `FlagValues` on the cleaned rows. */
  lemma FlagRows(raw: Table, teamCodes: map<Cell, int>, pitcherCodes: map<Cell, int>, c: string)
    requires (c == NightGame || c == HomeWin) && c in raw.columns
    requires forall i | 0 <= i < |raw.rows| :: raw.rows[i].cells[c].None? || raw.rows[i].cells[c].value.Bool?
    ensures forall x | x in KeepComplete(CleanRows(raw, teamCodes, pitcherCodes)) ::
              c in x.cells && (x.cells[c] == Some(Int(0)) || x.cells[c] == Some(Int(1)))
  {
    var rows := CleanRows(raw, teamCodes, pitcherCodes);
    forall x | x in KeepComplete(rows)
      ensures c in x.cells && (x.cells[c] == Some(Int(0)) || x.cells[c] == Some(Int(1)))
    {
      assert x in rows && Complete(x);
      var i :| 0 <= i < |rows| && rows[i] == x;
      FlagCell(raw, teamCodes, pitcherCodes, c, i);
      assert x.cells[c].Some?;
      var cell := raw.rows[i].cells[c];
      assert cell.Some? && cell.value.Bool?;
      assert cell == Some(Bool(cell.value.b));
    }
  }

  /** A boolean flag becomes 0 or 1; a missing one stays missing, and any other cell stays as it is. */
  lemma FlagCell(raw: Table, teamCodes: map<Cell, int>, pitcherCodes: map<Cell, int>, c: string, i: int)
    requires (c == NightGame || c == HomeWin) && c in raw.columns && 0 <= i < |raw.rows|
    ensures c in CleanRow(raw.rows[i], teamCodes, pitcherCodes).cells
    ensures var x := CleanRow(raw.rows[i], teamCodes, pitcherCodes).cells[c];
            && (raw.rows[i].cells[c] == None ==> x == None)
            && (raw.rows[i].cells[c] == Some(Bool(false)) ==> x == Some(Int(0)))
            && (raw.rows[i].cells[c] == Some(Bool(true)) ==> x == Some(Int(1)))
            && (!(raw.rows[i].cells[c].Some? && raw.rows[i].cells[c].value.Bool?) ==> x == raw.rows[i].cells[c])
  {
    ColumnsApart();
  }
}
