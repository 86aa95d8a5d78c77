/**
 * The column-name templates behind the accessors. Each accessor loops over
 * the hosts (`home`, `away`) and, where a statistic applies, over the
 * statistic kinds (`mean`, `std`, `skew`), appending one block of names per
 * iteration. The functions here give the list an accessor builds, and their
 * contracts say where every name lands in it.
 */
module ColumnNames {

  const GameInfoColumns: seq<string> :=
    ["home_team_abbr", "away_team_abbr", "date", "is_night_game", "home_team_win", "season"]

  const TeamPitcherRestSuffixes: seq<string> := ["_team_rest", "_pitcher_rest"]

  const PitcherInfoSuffixes: seq<string> := ["_pitcher"]

  const RecentPerformSuffixes: seq<string> := [
    "_batting_batting_avg_10RA",
    "_batting_onbase_perc_10RA",
    "_batting_onbase_plus_slugging_10RA",
    "_batting_leverage_index_avg_10RA",
    "_batting_RBI_10RA",
    "_pitching_earned_run_avg_10RA",
    "_pitching_SO_batters_faced_10RA",
    "_pitching_H_batters_faced_10RA",
    "_pitching_BB_batters_faced_10RA",
    "_pitcher_earned_run_avg_10RA",
    "_pitcher_SO_batters_faced_10RA",
    "_pitcher_H_batters_faced_10RA",
    "_pitcher_BB_batters_faced_10RA"
  ]

  const TeamSeasonInfixes: seq<string> := ["_team_errors_", "_team_spread_", "_team_wins_"]

  const SeasonalBattleInfixes: seq<string> := [
    "_batting_batting_avg_",
    "_batting_onbase_perc_",
    "_batting_onbase_plus_slugging_",
    "_batting_leverage_index_avg_",
    "_batting_wpa_bat_",
    "_batting_RBI_"
  ]

  const TeamSeasonalPitchingInfixes: seq<string> := [
    "_pitching_earned_run_avg_",
    "_pitching_SO_batters_faced_",
    "_pitching_H_batters_faced_",
    "_pitching_BB_batters_faced_",
    "_pitching_leverage_index_avg_",
    "_pitching_wpa_def_"
  ]

  const PitcherSeasonalPerformInfixes: seq<string> := [
    "_pitcher_earned_run_avg_",
    "_pitcher_SO_batters_faced_",
    "_pitcher_H_batters_faced_",
    "_pitcher_BB_batters_faced_",
    "_pitcher_leverage_index_avg_",
    "_pitcher_wpa_def_"
  ]

  /** The block `{h}{part}{sta}` for each part, in order. */
  function Names(h: string, parts: seq<string>, sta: string): (r: seq<string>)
    ensures |r| == |parts|
    ensures forall k | 0 <= k < |parts| :: r[k] == h + parts[k] + sta
  {
    seq(|parts|, k requires 0 <= k < |parts| => h + parts[k] + sta)
  }

  /**
   * The position of name `k` of block `q` in a list made of `count` blocks of
   * `n` names each; it lies inside that list.
   */
  function Pos(q: nat, k: nat, n: nat, count: nat): (p: nat)
    requires q < count && k < n
    ensures p < count * n
  {
    var d: nat := count - (q + 1);
    assert count * n == (q + 1) * n + d * n;
    q * n + k
  }

  /** Appending block number `last` keeps the earlier blocks in place. */
  lemma AppendBlock(prev: seq<string>, block: seq<string>, last: nat, i: nat, k: nat)
    requires |prev| == last * |block| && i <= last && k < |block|
    ensures i < last ==> (prev + block)[Pos(i, k, |block|, last + 1)] == prev[Pos(i, k, |block|, last)]
    ensures i == last ==> (prev + block)[Pos(i, k, |block|, last + 1)] == block[k]
  {
  }

  /**
   * One block per host, `{h}{suffix}` for each suffix: the list the
   * accessors without a statistic parameter build.
   */
  function HostColumns(hosts: seq<string>, suffixes: seq<string>): (r: seq<string>)
    ensures |r| == |hosts| * |suffixes|
    ensures forall i, k | 0 <= i < |hosts| && 0 <= k < |suffixes| ::
              r[Pos(i, k, |suffixes|, |hosts|)] == hosts[i] + suffixes[k]
    decreases |hosts|
  {
    if hosts == [] then []
    else
      var last := |hosts| - 1;
      var prev := HostColumns(hosts[..last], suffixes);
      var block := Names(hosts[last], suffixes, "");
      var r := prev + block;
      assert |r| == |hosts| * |block| by {
        assert |hosts| * |block| == last * |block| + |block|;
      }
      assert forall i, k | 0 <= i < |hosts| && 0 <= k < |suffixes| ::
               r[Pos(i, k, |suffixes|, |hosts|)] == hosts[i] + suffixes[k] by {
        forall i, k | 0 <= i < |hosts| && 0 <= k < |suffixes|
          ensures r[Pos(i, k, |suffixes|, |hosts|)] == hosts[i] + suffixes[k]
        {
          AppendBlock(prev, block, last, i, k);
          if i < last {
            assert hosts[..last][i] == hosts[i];
          } else {
            assert hosts[i] + suffixes[k] + "" == hosts[i] + suffixes[k];
          }
        }
      }
      r
  }

  /** For one host, the block `{h}{infix}{sta}` per statistic, statistics outermost. */
  function StatColumns(h: string, statis: seq<string>, infixes: seq<string>): seq<string>
    decreases |statis|
  {
    if statis == [] then []
    else StatColumns(h, statis[..|statis| - 1], infixes) + Names(h, infixes, statis[|statis| - 1])
  }

  /** Where each name of one host's statistics block lies. */
  ghost predicate StatShape(h: string, statis: seq<string>, infixes: seq<string>, r: seq<string>) {
    && |r| == |statis| * |infixes|
    && forall j, k | 0 <= j < |statis| && 0 <= k < |infixes| ::
         r[Pos(j, k, |infixes|, |statis|)] == h + infixes[k] + statis[j]
  }

  /** One sub-block of `|infixes|` names per statistic, in statistic order, infixes in their order inside. */
  lemma {:induction false} StatLayout(h: string, statis: seq<string>, infixes: seq<string>)
    ensures StatShape(h, statis, infixes, StatColumns(h, statis, infixes))
    decreases |statis|
  {
    if statis != [] {
      var last := |statis| - 1;
      StatLayout(h, statis[..last], infixes);
      var prev := StatColumns(h, statis[..last], infixes);
      var block := Names(h, infixes, statis[last]);
      var r := prev + block;
      assert |r| == |statis| * |block| by {
        assert |statis| * |block| == last * |block| + |block|;
      }
      forall j, k | 0 <= j < |statis| && 0 <= k < |infixes|
        ensures r[Pos(j, k, |infixes|, |statis|)] == h + infixes[k] + statis[j]
      {
        AppendBlock(prev, block, last, j, k);
        if j < last {
          assert statis[..last][j] == statis[j];
        }
      }
    }
  }

  /**
   * Appending one more statistic's block, given name by name, after whatever
   * `prefix` came before, extends the statistics list by that statistic.
   */
  lemma StatColumnsStep(prefix: seq<string>, h: string, statis: seq<string>, j: int, infixes: seq<string>, block: seq<string>)
    requires 0 <= j < |statis| && |block| == |infixes|
    requires forall k | 0 <= k < |infixes| :: block[k] == h + infixes[k] + statis[j]
    ensures prefix + StatColumns(h, statis[..j], infixes) + block == prefix + StatColumns(h, statis[..j + 1], infixes)
  {
    assert statis[..j + 1][..j] == statis[..j];
    assert Names(h, infixes, statis[j]) == block;
  }

  lemma MulSucc(a: int, m: int)
    ensures (a + 1) * m == a * m + m
  {
  }

  /** One host's statistics list holds one name per statistic and infix. */
  lemma {:induction false} StatLength(h: string, statis: seq<string>, infixes: seq<string>)
    ensures |StatColumns(h, statis, infixes)| == |statis| * |infixes|
    decreases |statis|
  {
    if statis != [] {
      var last := |statis| - 1;
      StatLength(h, statis[..last], infixes);
      MulSucc(last, |infixes|);
    }
  }

  /** A hosts-then-statistics list holds one name per host, statistic and infix. */
  lemma {:induction false} HostStatLength(hosts: seq<string>, statis: seq<string>, infixes: seq<string>)
    ensures |HostStatColumns(hosts, statis, infixes)| == |hosts| * (|statis| * |infixes|)
    decreases |hosts|
  {
    if hosts != [] {
      var last := |hosts| - 1;
      var m := |statis| * |infixes|;
      HostStatLength(hosts[..last], statis, infixes);
      StatLength(hosts[last], statis, infixes);
      MulSucc(last, m);
    }
  }

  /** One more host appends its block. */
  lemma HostStatColumnsStep(hosts: seq<string>, i: int, statis: seq<string>, infixes: seq<string>)
    requires 0 <= i < |hosts|
    ensures HostStatColumns(hosts[..i + 1], statis, infixes)
            == HostStatColumns(hosts[..i], statis, infixes) + StatColumns(hosts[i], statis, infixes)
  {
    assert hosts[..i + 1][..i] == hosts[..i];
  }

  /**
   * Hosts outermost, statistics inside, `{h}{infix}{sta}` innermost: the list
   * built by the three accessors whose every block depends on the statistic.
   */
  function HostStatColumns(hosts: seq<string>, statis: seq<string>, infixes: seq<string>): seq<string>
    decreases |hosts|
  {
    if hosts == [] then []
    else HostStatColumns(hosts[..|hosts| - 1], statis, infixes) + StatColumns(hosts[|hosts| - 1], statis, infixes)
  }

  /** Where each name of a hosts-then-statistics list lies. */
  ghost predicate HostStatShape(hosts: seq<string>, statis: seq<string>, infixes: seq<string>, r: seq<string>) {
    && |r| == |hosts| * (|statis| * |infixes|)
    && forall i, j, k | 0 <= i < |hosts| && 0 <= j < |statis| && 0 <= k < |infixes| ::
         r[Pos(i, Pos(j, k, |infixes|, |statis|), |statis| * |infixes|, |hosts|)]
         == hosts[i] + infixes[k] + statis[j]
  }

  /**
   * One block of `|statis| * |infixes|` names per host, in host order; inside
   * it, name `{h}{infix}{sta}` lies at statistic `sta`'s sub-block, at the
   * infix's place.
   */
  lemma {:induction false} HostStatLayout(hosts: seq<string>, statis: seq<string>, infixes: seq<string>)
    ensures HostStatShape(hosts, statis, infixes, HostStatColumns(hosts, statis, infixes))
    decreases |hosts|
  {
    if hosts != [] {
      var last := |hosts| - 1;
      HostStatLayout(hosts[..last], statis, infixes);
      var prev := HostStatColumns(hosts[..last], statis, infixes);
      var block := StatColumns(hosts[last], statis, infixes);
      StatLayout(hosts[last], statis, infixes);
      var r := prev + block;
      assert r == HostStatColumns(hosts, statis, infixes);
      assert |r| == |hosts| * |block| by {
        assert |hosts| * |block| == last * |block| + |block|;
      }
      forall i, j, k | 0 <= i < |hosts| && 0 <= j < |statis| && 0 <= k < |infixes|
        ensures r[Pos(i, Pos(j, k, |infixes|, |statis|), |statis| * |infixes|, |hosts|)]
                == hosts[i] + infixes[k] + statis[j]
      {
        AppendBlock(prev, block, last, i, Pos(j, k, |infixes|, |statis|));
        if i < last {
          assert hosts[..last][i] == hosts[i];
        }
      }
    }
  }

  /** The team-season block of one host. */
  function TeamSeasonBlock(h: string, statis: seq<string>): (r: seq<string>) {
    [h + "_team_season"] + StatColumns(h, statis, TeamSeasonInfixes)
  }

  /**
   * Per host: `{h}_team_season`, then per statistic the three
   * `{h}_team_errors_{sta}`, `{h}_team_spread_{sta}`, `{h}_team_wins_{sta}`.
   */
  function TeamSeasonalColumns(hosts: seq<string>, statis: seq<string>): seq<string>
    decreases |hosts|
  {
    if hosts == [] then []
    else TeamSeasonalColumns(hosts[..|hosts| - 1], statis) + TeamSeasonBlock(hosts[|hosts| - 1], statis)
  }

  /** Each host contributes its season name followed by its three names per statistic. */
  lemma {:induction false} TeamSeasonalLayout(hosts: seq<string>, statis: seq<string>)
    ensures TeamSeasonalShape(hosts, statis, TeamSeasonalColumns(hosts, statis))
    decreases |hosts|
  {
    if hosts != [] {
      var last := |hosts| - 1;
      TeamSeasonalLayout(hosts[..last], statis);
      assert hosts[..last] + [hosts[last]] == hosts;
      TeamSeasonalStep(hosts[..last], hosts[last], statis, TeamSeasonalColumns(hosts[..last], statis));
    }
  }

  /** The team-seasonal list holds, per host, one season name and three names per statistic. */
  lemma {:induction false} TeamSeasonalLength(hosts: seq<string>, statis: seq<string>)
    ensures |TeamSeasonalColumns(hosts, statis)| == |hosts| * (1 + |statis| * 3)
    decreases |hosts|
  {
    if hosts != [] {
      var last := |hosts| - 1;
      TeamSeasonalLength(hosts[..last], statis);
      StatLength(hosts[last], statis, TeamSeasonInfixes);
      MulSucc(last, 1 + |statis| * 3);
    }
  }

  /** Where each name of the team-seasonal list lies. */
  ghost predicate TeamSeasonalShape(hosts: seq<string>, statis: seq<string>, r: seq<string>) {
    && |r| == |hosts| * (1 + |statis| * 3)
    && (forall i | 0 <= i < |hosts| ::
          r[Pos(i, 0, 1 + |statis| * 3, |hosts|)] == hosts[i] + "_team_season")
    && (forall i, j, k | 0 <= i < |hosts| && 0 <= j < |statis| && 0 <= k < 3 ::
          r[Pos(i, 1 + Pos(j, k, 3, |statis|), 1 + |statis| * 3, |hosts|)]
          == hosts[i] + TeamSeasonInfixes[k] + statis[j])
  }

  /** Appending one host's block to the list of the hosts before it. */
  lemma TeamSeasonalStep(init: seq<string>, h: string, statis: seq<string>, prev: seq<string>)
    requires TeamSeasonalShape(init, statis, prev)
    ensures TeamSeasonalShape(init + [h], statis, prev + TeamSeasonBlock(h, statis))
  {
    var hosts, last := init + [h], |init|;
    var block := TeamSeasonBlock(h, statis);
    var stats := StatColumns(h, statis, TeamSeasonInfixes);
    StatLayout(h, statis, TeamSeasonInfixes);
    var r := prev + block;
    assert |block| == 1 + |statis| * 3;
    MulSucc(last, |block|);
    forall i | 0 <= i < |hosts|
      ensures r[Pos(i, 0, 1 + |statis| * 3, |hosts|)] == hosts[i] + "_team_season"
    {
      AppendBlock(prev, block, last, i, 0);
    }
    forall i, j, k | 0 <= i < |hosts| && 0 <= j < |statis| && 0 <= k < 3
      ensures r[Pos(i, 1 + Pos(j, k, 3, |statis|), 1 + |statis| * 3, |hosts|)]
              == hosts[i] + TeamSeasonInfixes[k] + statis[j]
    {
      var q := Pos(j, k, 3, |statis|);
      AppendBlock(prev, block, last, i, 1 + q);
      if i == last {
        assert block[1 + q] == stats[q];
      }
    }
  }

  /** The list for some hosts then one more is the list for the first ones followed by the block of the last. */
  lemma TeamSeasonalAppend(init: seq<string>, h: string, statis: seq<string>)
    ensures TeamSeasonalColumns(init + [h], statis) == TeamSeasonalColumns(init, statis) + TeamSeasonBlock(h, statis)
  {
    assert (init + [h])[..|init|] == init;
  }

  /** One host's team-season block for `statis=['mean','std']`, as literals. */
  lemma TeamSeasonBlockMeanStd(h: string, block: seq<string>)
    requires |block| == 7 && block[0] == h + "_team_season"
    requires block[1] == h + "_team_errors_mean" && block[2] == h + "_team_spread_mean"
    requires block[3] == h + "_team_wins_mean" && block[4] == h + "_team_errors_std"
    requires block[5] == h + "_team_spread_std" && block[6] == h + "_team_wins_std"
    ensures TeamSeasonBlock(h, ["mean", "std"]) == block
  {
    var statis := ["mean", "std"];
    assert statis[..1] == ["mean"] && ["mean"][..0] == [];
    var mean, std := Names(h, TeamSeasonInfixes, "mean"), Names(h, TeamSeasonInfixes, "std");
    assert StatColumns(h, statis, TeamSeasonInfixes) == mean + std;
    forall k | 0 <= k < 3
      ensures mean[k] == block[1 + k] && std[k] == block[4 + k]
    {
      assert TeamSeasonInfixes[k] + "mean" == ["_team_errors_mean", "_team_spread_mean", "_team_wins_mean"][k];
      assert TeamSeasonInfixes[k] + "std" == ["_team_errors_std", "_team_spread_std", "_team_wins_std"][k];
    }
    assert mean == block[1..4];
    assert std == block[4..];
  }

  /** The list built for one host and `statis=['mean','std']`. */
  lemma TeamSeasonalOneHostExample(hosts: seq<string>, statis: seq<string>)
    requires |hosts| == 1 && statis == ["mean", "std"]
    ensures TeamSeasonalColumns(hosts, statis) == [
      hosts[0] + "_team_season",
      hosts[0] + "_team_errors_mean", hosts[0] + "_team_spread_mean", hosts[0] + "_team_wins_mean",
      hosts[0] + "_team_errors_std", hosts[0] + "_team_spread_std", hosts[0] + "_team_wins_std"
    ]
  {
    var h := hosts[0];
    TeamSeasonalAppend([], h, statis);
    assert [] + [h] == hosts;
    TeamSeasonBlockMeanStd(h, [
      h + "_team_season",
      h + "_team_errors_mean", h + "_team_spread_mean", h + "_team_wins_mean",
      h + "_team_errors_std", h + "_team_spread_std", h + "_team_wins_std"
    ]);
  }

  /** The list built for two hosts, such as `hosts=['home','away']`, and `statis=['mean','std']`: the first host's block, then the second's. */
  lemma TeamSeasonalExample(hosts: seq<string>, statis: seq<string>)
    requires |hosts| == 2 && statis == ["mean", "std"]
    ensures TeamSeasonalColumns(hosts, statis) == [
      hosts[0] + "_team_season",
      hosts[0] + "_team_errors_mean", hosts[0] + "_team_spread_mean", hosts[0] + "_team_wins_mean",
      hosts[0] + "_team_errors_std", hosts[0] + "_team_spread_std", hosts[0] + "_team_wins_std",
      hosts[1] + "_team_season",
      hosts[1] + "_team_errors_mean", hosts[1] + "_team_spread_mean", hosts[1] + "_team_wins_mean",
      hosts[1] + "_team_errors_std", hosts[1] + "_team_spread_std", hosts[1] + "_team_wins_std"
    ]
  {
    var first, h := hosts[..1], hosts[1];
    TeamSeasonalOneHostExample(first, statis);
    TeamSeasonalAppend(first, h, statis);
    assert first + [h] == hosts;
    TeamSeasonBlockMeanStd(h, [
      h + "_team_season",
      h + "_team_errors_mean", h + "_team_spread_mean", h + "_team_wins_mean",
      h + "_team_errors_std", h + "_team_spread_std", h + "_team_wins_std"
    ]);
  }
}
