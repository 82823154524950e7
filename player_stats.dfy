/** The player analysis (`export_player_analysis`): every deck credits its full
    record to each player it lists. */
module PlayerStats {
  import opened Common
  import opened DeckParsing
  import opened Tallies

  /** Each deck's players with the deck's record, in deck order. */
  function PlayerCredits(decks: seq<Deck>): (c: seq<Credit>)
    ensures |c| == |decks|
  {
    if decks == [] then []
    else
      var d := decks[|decks| - 1];
      PlayerCredits(decks[..|decks| - 1]) + [Credit(d.players, d.wins, d.losses)]
  }

  /** Every player token of every deck, in deck order (the `players` list the
      program extends). */
  function PlayerTokens(decks: seq<Deck>): seq<string> {
    if decks == [] then [] else PlayerTokens(decks[..|decks| - 1]) + decks[|decks| - 1].players
  }

  /** The keys the player credits list are exactly the player tokens. */
  lemma {:induction false} PlayerCreditsTokens(decks: seq<Deck>)
    ensures Flatten(PlayerCredits(decks)) == PlayerTokens(decks)
  {
    if decks != [] {
      var credits := PlayerCredits(decks);
      assert credits[..|credits| - 1] == PlayerCredits(decks[..|decks| - 1]);
      PlayerCreditsTokens(decks[..|decks| - 1]);
    }
  }

  /** A player's deck count is the number of times the player is listed, over
      all decks. */
  lemma PlayerNum(decks: seq<Deck>, player: string)
    ensures TallyOf(PlayerCredits(decks), player).num == Count(PlayerTokens(decks), player)
  {
    TallyNumCount(PlayerCredits(decks), player);
    PlayerCreditsTokens(decks);
  }

  /** `export_player_analysis` without the CSV output: one row per player in
      order of first appearance, or the first player whose record is 0-0 (the
      win-rate division raises). The `Num` column adds up to the number of
      player tokens. */
  method ExportPlayerAnalysis(decks: seq<Deck>) returns (r: Result<seq<StatRow>, string>)
    ensures var credits := PlayerCredits(decks);
      var order := Dedup(PlayerTokens(decks));
      && (r.Err? <==> exists j :: 0 <= j < |order| && WinRate(TallyOf(credits, order[j])).None?)
      && (r.Err? ==> r.error in PlayerTokens(decks) && WinRate(TallyOf(credits, r.error)).None?)
      && (r.Ok? ==> Tabulated(r.value, credits))
      && (r.Ok? ==> SumNums(r.value) == |PlayerTokens(decks)|)
  {
    PlayerCreditsTokens(decks);
    r := Tabulate(PlayerCredits(decks));
  }
}
