/**
 * The parser object: it keeps the table read from the dataset file and its
 * cleaned form, and hands out groups of columns of the raw table, each
 * group named by templates over the hosts (`home`, `away`) and the
 * statistic kinds (`mean`, `std`, `skew`).
 */
module Parser {
  import opened Frames
  import opened ColumnNames
  import opened Preprocessing

  /** A name block built from literal names is the template block. */
  lemma BlockOf(h: string, parts: seq<string>, sta: string, block: seq<string>)
    requires |block| == |parts|
    requires forall k | 0 <= k < |parts| :: block[k] == h + parts[k] + sta
    ensures Names(h, parts, sta) == block
  {
  }

  class MLBParser {
    /** The table as read from the file. Tables are values here, so no method of the class changes it. */
    const raw: Table
    /** The cleaned table the models are trained on. */
    const dataframe: Table

    /** Stores a table and its cleaned form. */
    constructor (raw: Table, dataframe: Table)
      ensures this.raw == raw && this.dataframe == dataframe
    {
      this.raw := raw;
      this.dataframe := dataframe;
    }

    /**
     * Construction from the table read from the file: a supplied
     * `preprocessing` replaces the default one entirely; otherwise the
     * default preprocessing runs, and its failure is the construction's.
     */
    static method Load(raw: Table, preprocessing: Option<Table -> Table> := None) returns (r: Result<MLBParser, Error>)
      ensures r.Success? ==> fresh(r.value) && r.value.raw == raw
      ensures preprocessing.Some? ==> r.Success? && r.value.dataframe == preprocessing.value(raw)
      ensures preprocessing.None? ==> (r.Success? <==> Cleanable(raw))
      ensures preprocessing.None? && !Cleanable(raw) ==> r.Failure? && r.error == FirstError(raw)
      ensures preprocessing.None? && r.Success? ==>
                exists teamOrder, pitcherOrder ::
                  ValidOrders(raw, teamOrder, pitcherOrder) && CleanWith(raw, teamOrder, pitcherOrder) == Success(r.value.dataframe)
    {
      if preprocessing.Some? {
        var p := new MLBParser(raw, preprocessing.value(raw));
        return Success(p);
      }
      var cleaned, teamOrder, pitcherOrder := Preprocess(raw);
      CleanOutcome(raw, teamOrder, pitcherOrder);
      if cleaned.Failure? {
        return Failure(cleaned.error);
      }
      var p := new MLBParser(raw, cleaned.value);
      return Success(p);
    }

    /** The raw table itself. */
    function GetRawDf(): (t: Table)
      ensures t == raw
    {
      raw
    }

    /** The six game columns, in their listed order, every row kept; fails when one is absent. */
    function GetGameInfo(): (r: Result<Table, Error>)
      ensures r.Success? <==> forall n | n in GameInfoColumns :: n in raw.columns
      ensures r.Failure? ==> r.error == KeyError(Without(GameInfoColumns, raw.columns))
      ensures r.Success? ==> r.value.columns == GameInfoColumns && |r.value.rows| == |raw.rows|
      ensures r.Success? ==> forall i | 0 <= i < |raw.rows| ::
                && r.value.rows[i].index == raw.rows[i].index
                && forall n | n in GameInfoColumns :: r.value.rows[i].cells[n] == raw.rows[i].cells[n]
    {
      Select(raw, [
        "home_team_abbr",
        "away_team_abbr",
        "date",
        "is_night_game",
        "home_team_win",
        "season"
      ])
    }

    /** Rest days of team and pitcher, two columns per host. */
    method GetTeamPitcherRest(hosts: seq<string> := ["home"]) returns (r: Result<Table, Error>)
      ensures r == Select(raw, HostColumns(hosts, TeamPitcherRestSuffixes))
      ensures r.Success? ==> |r.value.columns| == 2 * |hosts|
    {
      var columns: seq<string> := [];
      for i := 0 to |hosts|
        invariant columns == HostColumns(hosts[..i], TeamPitcherRestSuffixes)
      {
        var h := hosts[i];
        var block := [
          h + "_team_rest",
          h + "_pitcher_rest"
        ];
        assert Names(h, TeamPitcherRestSuffixes, "") == block by {
          BlockOf(h, TeamPitcherRestSuffixes, "", block);
        }
        assert hosts[..i + 1][..i] == hosts[..i];
        columns := columns + block;
      }
      assert hosts[..|hosts|] == hosts;
      r := Select(raw, columns);
    }

    /** The starting pitcher, one column per host. */
    method GetPitcherInfo(hosts: seq<string> := ["home"]) returns (r: Result<Table, Error>)
      ensures r == Select(raw, HostColumns(hosts, PitcherInfoSuffixes))
      ensures r.Success? ==> |r.value.columns| == |hosts|
    {
      var columns: seq<string> := [];
      for i := 0 to |hosts|
        invariant columns == HostColumns(hosts[..i], PitcherInfoSuffixes)
      {
        var h := hosts[i];
        var block := [
          h + "_pitcher"
        ];
        assert Names(h, PitcherInfoSuffixes, "") == block by {
          BlockOf(h, PitcherInfoSuffixes, "", block);
        }
        assert hosts[..i + 1][..i] == hosts[..i];
        columns := columns + block;
      }
      assert hosts[..|hosts|] == hosts;
      r := Select(raw, columns);
    }

    /** The ten-game rolling averages, thirteen columns per host. */
    method GetRecentPerform(hosts: seq<string> := ["home"]) returns (r: Result<Table, Error>)
      ensures r == Select(raw, HostColumns(hosts, RecentPerformSuffixes))
      ensures r.Success? ==> |r.value.columns| == 13 * |hosts|
    {
      var columns: seq<string> := [];
      for i := 0 to |hosts|
        invariant columns == HostColumns(hosts[..i], RecentPerformSuffixes)
      {
        var h := hosts[i];
        var block := [
          h + "_batting_batting_avg_10RA",
          h + "_batting_onbase_perc_10RA",
          h + "_batting_onbase_plus_slugging_10RA",
          h + "_batting_leverage_index_avg_10RA",
          h + "_batting_RBI_10RA",
          h + "_pitching_earned_run_avg_10RA",
          h + "_pitching_SO_batters_faced_10RA",
          h + "_pitching_H_batters_faced_10RA",
          h + "_pitching_BB_batters_faced_10RA",
          h + "_pitcher_earned_run_avg_10RA",
          h + "_pitcher_SO_batters_faced_10RA",
          h + "_pitcher_H_batters_faced_10RA",
          h + "_pitcher_BB_batters_faced_10RA"
        ];
        assert Names(h, RecentPerformSuffixes, "") == block by {
          BlockOf(h, RecentPerformSuffixes, "", block);
        }
        assert hosts[..i + 1][..i] == hosts[..i];
        columns := columns + block;
      }
      assert hosts[..|hosts|] == hosts;
      r := Select(raw, columns);
    }

    /** Per host its season column, then errors, spread and wins for each statistic. */
    method GetTeamSeasonalStatistic(hosts: seq<string> := ["home"], statis: seq<string> := ["mean"]) returns (r: Result<Table, Error>)
      ensures r == Select(raw, TeamSeasonalColumns(hosts, statis))
      ensures r.Success? ==> |r.value.columns| == |hosts| * (1 + |statis| * 3)
    {
      var columns: seq<string> := [];
      for i := 0 to |hosts|
        invariant columns == TeamSeasonalColumns(hosts[..i], statis)
      {
        var h := hosts[i];
        var before := columns;
        columns := columns + [h + "_team_season"];
        for j := 0 to |statis|
          invariant columns == before + [h + "_team_season"] + StatColumns(h, statis[..j], TeamSeasonInfixes)
        {
          var sta := statis[j];
          var block := [
            h + "_team_errors_" + sta,
            h + "_team_spread_" + sta,
            h + "_team_wins_" + sta
          ];
          StatColumnsStep(before + [h + "_team_season"], h, statis, j, TeamSeasonInfixes, block);
          columns := columns + block;
        }
        assert statis[..|statis|] == statis;
        assert hosts[..i + 1][..i] == hosts[..i];
      }
      assert hosts[..|hosts|] == hosts;
      TeamSeasonalLength(hosts, statis);
      r := Select(raw, columns);
    }

    /** Batting statistics of the season, six columns per host and statistic. */
    method GetSeasonalBattle(hosts: seq<string> := ["home"], statis: seq<string> := ["mean"]) returns (r: Result<Table, Error>)
      ensures r == Select(raw, HostStatColumns(hosts, statis, SeasonalBattleInfixes))
      ensures r.Success? ==> |r.value.columns| == |hosts| * (|statis| * 6)
    {
      var columns: seq<string> := [];
      for i := 0 to |hosts|
        invariant columns == HostStatColumns(hosts[..i], statis, SeasonalBattleInfixes)
      {
        var h := hosts[i];
        for j := 0 to |statis|
          invariant columns == HostStatColumns(hosts[..i], statis, SeasonalBattleInfixes) + StatColumns(h, statis[..j], SeasonalBattleInfixes)
        {
          var sta := statis[j];
          var block := [
            h + "_batting_batting_avg_" + sta,
            h + "_batting_onbase_perc_" + sta,
            h + "_batting_onbase_plus_slugging_" + sta,
            h + "_batting_leverage_index_avg_" + sta,
            h + "_batting_wpa_bat_" + sta,
            h + "_batting_RBI_" + sta
          ];
          StatColumnsStep(HostStatColumns(hosts[..i], statis, SeasonalBattleInfixes), h, statis, j, SeasonalBattleInfixes, block);
          columns := columns + block;
        }
        assert statis[..|statis|] == statis;
        HostStatColumnsStep(hosts, i, statis, SeasonalBattleInfixes);
      }
      assert hosts[..|hosts|] == hosts;
      HostStatLength(hosts, statis, SeasonalBattleInfixes);
      r := Select(raw, columns);
    }

    /** Team pitching statistics of the season, six columns per host and statistic. */
    method GetTeamSeasonalPitching(hosts: seq<string> := ["home"], statis: seq<string> := ["mean"]) returns (r: Result<Table, Error>)
      ensures r == Select(raw, HostStatColumns(hosts, statis, TeamSeasonalPitchingInfixes))
      ensures r.Success? ==> |r.value.columns| == |hosts| * (|statis| * 6)
    {
      var columns: seq<string> := [];
      for i := 0 to |hosts|
        invariant columns == HostStatColumns(hosts[..i], statis, TeamSeasonalPitchingInfixes)
      {
        var h := hosts[i];
        for j := 0 to |statis|
          invariant columns == HostStatColumns(hosts[..i], statis, TeamSeasonalPitchingInfixes) + StatColumns(h, statis[..j], TeamSeasonalPitchingInfixes)
        {
          var sta := statis[j];
          var block := [
            h + "_pitching_earned_run_avg_" + sta,
            h + "_pitching_SO_batters_faced_" + sta,
            h + "_pitching_H_batters_faced_" + sta,
            h + "_pitching_BB_batters_faced_" + sta,
            h + "_pitching_leverage_index_avg_" + sta,
            h + "_pitching_wpa_def_" + sta
          ];
          StatColumnsStep(HostStatColumns(hosts[..i], statis, TeamSeasonalPitchingInfixes), h, statis, j, TeamSeasonalPitchingInfixes, block);
          columns := columns + block;
        }
        assert statis[..|statis|] == statis;
        HostStatColumnsStep(hosts, i, statis, TeamSeasonalPitchingInfixes);
      }
      assert hosts[..|hosts|] == hosts;
      HostStatLength(hosts, statis, TeamSeasonalPitchingInfixes);
      r := Select(raw, columns);
    }

    /** Starting pitcher statistics of the season, six columns per host and statistic. */
    method GetPitcherSeasonalPerform(hosts: seq<string> := ["home"], statis: seq<string> := ["mean"]) returns (r: Result<Table, Error>)
      ensures r == Select(raw, HostStatColumns(hosts, statis, PitcherSeasonalPerformInfixes))
      ensures r.Success? ==> |r.value.columns| == |hosts| * (|statis| * 6)
    {
      var columns: seq<string> := [];
      for i := 0 to |hosts|
        invariant columns == HostStatColumns(hosts[..i], statis, PitcherSeasonalPerformInfixes)
      {
        var h := hosts[i];
        for j := 0 to |statis|
          invariant columns == HostStatColumns(hosts[..i], statis, PitcherSeasonalPerformInfixes) + StatColumns(h, statis[..j], PitcherSeasonalPerformInfixes)
        {
          var sta := statis[j];
          var block := [
            h + "_pitcher_earned_run_avg_" + sta,
            h + "_pitcher_SO_batters_faced_" + sta,
            h + "_pitcher_H_batters_faced_" + sta,
            h + "_pitcher_BB_batters_faced_" + sta,
            h + "_pitcher_leverage_index_avg_" + sta,
            h + "_pitcher_wpa_def_" + sta
          ];
          StatColumnsStep(HostStatColumns(hosts[..i], statis, PitcherSeasonalPerformInfixes), h, statis, j, PitcherSeasonalPerformInfixes, block);
          columns := columns + block;
        }
        assert statis[..|statis|] == statis;
        HostStatColumnsStep(hosts, i, statis, PitcherSeasonalPerformInfixes);
      }
      assert hosts[..|hosts|] == hosts;
      HostStatLength(hosts, statis, PitcherSeasonalPerformInfixes);
      r := Select(raw, columns);
    }
  }
}
