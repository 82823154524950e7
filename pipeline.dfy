/** The order of the first two analyses in `main`: the archetype analysis runs
    first, and the win rates it returns are the table the card analysis looks
    archetypes up in. */
module Pipeline {
  import opened Common
  import opened CardTypes
  import opened DeckParsing
  import ArchetypeStats
  import CardStats

  /** The archetype analysis, then (when it did not raise) the card analysis
      with its win rates. Given that table, the card analysis never misses an
      archetype lookup. */
  method ArchetypesThenCards(decks: seq<Deck>, cube: seq<string>, catalog: Catalog, filter: int)
    returns (archetypes: Result<ArchetypeStats.ArchetypeTable, string>,
             cards: Option<Result<CardStats.CardViews, CardStats.CardError>>)
    ensures cards.Some? <==> archetypes.Ok?
    ensures archetypes.Ok? ==>
      var analysis := CardStats.CardAnalysis(decks, cube, catalog, archetypes.value.winRates);
      && (cards.value.Err? <==> analysis.Err?)
      && (cards.value.Err? ==> cards.value.error == analysis.error)
    ensures cards.Some? && cards.value.Err? ==>
      cards.value.error.MissingArchetype? || cards.value.error.NoGames?
  {
    archetypes := ArchetypeStats.ExportArchetypeAnalysis(decks);
    if archetypes.Err? {
      return archetypes, None;
    }
    var rates := archetypes.value.winRates;
    CardStats.ArchetypeRatesCoverCards(decks, cube, catalog, rates);
    var views := CardStats.ExportCardAnalysis(decks, cube, catalog, filter, rates);
    cards := Some(views);
  }
}
