/** The card analysis (`export_card_analysis`): for every catalogued card of the
    cube, the decks that ran it, their record, the share of its copies that sat
    in the main deck rather than the sideboard, its win rate and its win rate
    relative to the archetypes it was played in; then the `Num` filter and the
    three sorted views. */
module CardStats {
  import opened Common
  import opened CardTypes
  import opened DeckParsing
  import ArchetypeStats
  import Tallies

  /** A card counts when the catalog knows it and, if a cube list is given, the
      cube list holds it. */
  predicate Qualifies(card: string, catalog: Catalog, cube: seq<string>) {
    card in catalog && (cube == [] || card in cube)
  }

  predicate AllLabelled(decks: seq<Deck>) {
    forall i :: 0 <= i < |decks| ==> decks[i].archetypes != []
  }

  /** The archetype a deck's cards are attributed to: "Pure X" for a deck with
      the single label X, otherwise its last label. */
  function DeckArchetype(labels: seq<string>): string
    requires labels != []
  {
    if |labels| == 1 then "Pure " + labels[0] else labels[|labels| - 1]
  }

  /** What the card loops see: a main-deck copy (with the deck's archetype and
      record, and whether the deck has a sideboard) or a sideboard copy. */
  datatype Event =
    | MainCopy(card: string, archetype: string, wins: nat, losses: nat, sided: bool)
    | SideCopy(card: string)

  /** The per-card record of the accumulation: deck copies, wins, losses, one
      archetype per main copy, and the 0/1 main-deck observations. */
  datatype CardAcc = CardAcc(num: nat, win: nat, loss: nat, archetypes: seq<string>, obs: seq<nat>)

  /** The effect of one copy on its card's record. */
  function Apply(a: CardAcc, e: Event): CardAcc {
    match e
    case MainCopy(_, archetype, wins, losses, sided) =>
      CardAcc(a.num + 1, a.win + wins, a.loss + losses, a.archetypes + [archetype],
              if sided then a.obs + [1] else a.obs)
    case SideCopy(_) => a.(obs := a.obs + [0])
  }

  /** A card's record after a sequence of copies, starting from the zero record
      the default dictionary inserts. */
  function AccOf(events: seq<Event>, card: string): CardAcc {
    if events == [] then CardAcc(0, 0, 0, [], [])
    else
      var before := AccOf(events[..|events| - 1], card);
      var e := events[|events| - 1];
      if e.card == card then Apply(before, e) else before
  }

  /** The cards of a sequence of copies, in order. */
  function Cards(events: seq<Event>): (cs: seq<string>)
    ensures |cs| == |events|
    ensures forall k :: 0 <= k < |events| ==> cs[k] == events[k].card
  {
    if events == [] then [] else Cards(events[..|events| - 1]) + [events[|events| - 1].card]
  }

  /** The qualifying main-deck copies of one deck, in deck order. */
  function MainEvents(main: seq<string>, archetype: string, wins: nat, losses: nat, sided: bool,
                      catalog: Catalog, cube: seq<string>): seq<Event>
  {
    if main == [] then []
    else
      var c := main[|main| - 1];
      MainEvents(main[..|main| - 1], archetype, wins, losses, sided, catalog, cube)
        + (if Qualifies(c, catalog, cube) then [MainCopy(c, archetype, wins, losses, sided)] else [])
  }

  /** The qualifying sideboard copies of one deck, in deck order. */
  function SideEvents(side: seq<string>, catalog: Catalog, cube: seq<string>): seq<Event> {
    if side == [] then []
    else
      var c := side[|side| - 1];
      SideEvents(side[..|side| - 1], catalog, cube)
        + (if Qualifies(c, catalog, cube) then [SideCopy(c)] else [])
  }

  /** One deck: its main-deck loop, then its sideboard loop. */
  function DeckEvents(d: Deck, catalog: Catalog, cube: seq<string>): seq<Event>
    requires d.archetypes != []
  {
    MainEvents(d.main, DeckArchetype(d.archetypes), d.wins, d.losses, d.side != [], catalog, cube)
      + SideEvents(d.side, catalog, cube)
  }

  /** Every copy the card loops see, deck after deck. */
  function Events(decks: seq<Deck>, catalog: Catalog, cube: seq<string>): seq<Event>
    requires AllLabelled(decks)
  {
    if decks == [] then []
    else Events(decks[..|decks| - 1], catalog, cube) + DeckEvents(decks[|decks| - 1], catalog, cube)
  }

  // ---------------------------------------------------------------------------
  // The per-card record in closed form

  /** The qualifying copies of `card` in one list of cards. */
  function CopiesIn(cards: seq<string>, card: string, catalog: Catalog, cube: seq<string>): nat {
    if Qualifies(card, catalog, cube) then Count(cards, card) else 0
  }

  /** `n` times `w`, as repeated addition (`TimesIsProduct`). */
  function Times(n: nat, w: nat): nat {
    if n == 0 then 0 else Times(n - 1, w) + w
  }

  lemma {:induction false} TimesIsProduct(n: nat, w: nat)
    ensures Times(n, w) == n * w
  {
    if n > 0 {
      TimesIsProduct(n - 1, w);
      MulSucc(n - 1, w);
    }
  }

  /** `n` main-deck copies of a deck with the given archetype and record. */
  function AddMain(a: CardAcc, n: nat, archetype: string, wins: nat, losses: nat, sided: bool): CardAcc {
    CardAcc(a.num + n, a.win + Times(n, wins), a.loss + Times(n, losses), a.archetypes + Repeat(archetype, n),
            a.obs + Repeat(1, if sided then n else 0))
  }

  /** `n` sideboard copies. */
  function AddSide(a: CardAcc, n: nat): CardAcc {
    a.(obs := a.obs + Repeat(0, n))
  }

  /** A card's record over a deck collection, deck by deck: each main-deck copy
      adds one deck, the deck's wins and losses and its archetype, and a 1
      observation when the deck has a sideboard; each sideboard copy adds only a
      0 observation. */
  ghost function ClosedAcc(decks: seq<Deck>, card: string, catalog: Catalog, cube: seq<string>): CardAcc
    requires AllLabelled(decks)
  {
    if decks == [] then CardAcc(0, 0, 0, [], [])
    else
      var d := decks[|decks| - 1];
      var a := ClosedAcc(decks[..|decks| - 1], card, catalog, cube);
      AddSide(AddMain(a, CopiesIn(d.main, card, catalog, cube), DeckArchetype(d.archetypes),
                      d.wins, d.losses, d.side != []),
              CopiesIn(d.side, card, catalog, cube))
  }

  lemma RepeatSnoc<T>(x: T, n: nat)
    ensures Repeat(x, n + 1) == Repeat(x, n) + [x]
  {
  }

  /** One more copy changes only its own card's record. */
  lemma AccSnoc(events: seq<Event>, e: Event, card: string)
    ensures AccOf(events + [e], card) == if e.card == card then Apply(AccOf(events, card), e) else AccOf(events, card)
  {
    assert (events + [e])[..|events|] == events;
  }

  /** One more main-deck copy of the card is one more in the closed form. */
  lemma AddMainSucc(a: CardAcc, n: nat, card: string, archetype: string, wins: nat, losses: nat, sided: bool)
    ensures Apply(AddMain(a, n, archetype, wins, losses, sided), MainCopy(card, archetype, wins, losses, sided))
      == AddMain(a, n + 1, archetype, wins, losses, sided)
  {
    RepeatSnoc(archetype, n);
    RepeatSnoc(1, n);
    assert a.archetypes + Repeat(archetype, n) + [archetype] == a.archetypes + Repeat(archetype, n + 1);
    assert a.obs + Repeat(1, n) + [1] == a.obs + Repeat(1, n + 1);
  }

  /** One more sideboard copy of the card is one more in the closed form. */
  lemma AddSideSucc(a: CardAcc, n: nat, card: string)
    ensures Apply(AddSide(a, n), SideCopy(card)) == AddSide(a, n + 1)
  {
    RepeatSnoc(0, n);
    assert a.obs + Repeat(0, n) + [0] == a.obs + Repeat(0, n + 1);
  }

  lemma AddMainZero(a: CardAcc, archetype: string, wins: nat, losses: nat, sided: bool)
    ensures AddMain(a, 0, archetype, wins, losses, sided) == a
  {
    assert a.archetypes + [] == a.archetypes && a.obs + [] == a.obs;
  }

  /** The copies of one main deck add their closed-form contribution. */
  lemma {:induction false} MainEventsAcc(events: seq<Event>, main: seq<string>, archetype: string,
                                         wins: nat, losses: nat, sided: bool,
                                         catalog: Catalog, cube: seq<string>, card: string)
    ensures AccOf(events + MainEvents(main, archetype, wins, losses, sided, catalog, cube), card)
      == AddMain(AccOf(events, card), CopiesIn(main, card, catalog, cube), archetype, wins, losses, sided)
  {
    var a := AccOf(events, card);
    if main == [] {
      assert events + [] == events;
      AddMainZero(a, archetype, wins, losses, sided);
    } else {
      var init := main[..|main| - 1];
      var c := main[|main| - 1];
      MainEventsAcc(events, init, archetype, wins, losses, sided, catalog, cube, card);
      var before := events + MainEvents(init, archetype, wins, losses, sided, catalog, cube);
      var n := CopiesIn(init, card, catalog, cube);
      assert CopiesIn(main, card, catalog, cube) == n + (if c == card && Qualifies(c, catalog, cube) then 1 else 0);
      if Qualifies(c, catalog, cube) {
        var e := MainCopy(c, archetype, wins, losses, sided);
        assert events + MainEvents(main, archetype, wins, losses, sided, catalog, cube) == before + [e];
        AccSnoc(before, e, card);
        if c == card {
          AddMainSucc(a, n, card, archetype, wins, losses, sided);
          assert AccOf(before + [e], card) == Apply(AddMain(a, n, archetype, wins, losses, sided), e);
        } else {
          assert AccOf(before + [e], card) == AccOf(before, card);
        }
      } else {
        assert events + MainEvents(main, archetype, wins, losses, sided, catalog, cube) == before;
      }
    }
  }

  /** The copies of one sideboard add their closed-form contribution. */
  lemma {:induction false} SideEventsAcc(events: seq<Event>, side: seq<string>,
                                         catalog: Catalog, cube: seq<string>, card: string)
    ensures AccOf(events + SideEvents(side, catalog, cube), card)
      == AddSide(AccOf(events, card), CopiesIn(side, card, catalog, cube))
  {
    var a := AccOf(events, card);
    if side == [] {
      assert events + [] == events;
      assert a.obs + [] == a.obs;
    } else {
      var init := side[..|side| - 1];
      var c := side[|side| - 1];
      SideEventsAcc(events, init, catalog, cube, card);
      var before := events + SideEvents(init, catalog, cube);
      var n := CopiesIn(init, card, catalog, cube);
      assert CopiesIn(side, card, catalog, cube) == n + (if c == card && Qualifies(c, catalog, cube) then 1 else 0);
      if Qualifies(c, catalog, cube) {
        assert events + SideEvents(side, catalog, cube) == before + [SideCopy(c)];
        AccSnoc(before, SideCopy(c), card);
        if c == card {
          AddSideSucc(a, n, card);
        }
      } else {
        assert events + SideEvents(side, catalog, cube) == before;
      }
    }
  }

  /** The card loops compute the closed-form record of every card. */
  lemma {:induction false} AccOfEvents(decks: seq<Deck>, catalog: Catalog, cube: seq<string>, card: string)
    requires AllLabelled(decks)
    ensures AccOf(Events(decks, catalog, cube), card) == ClosedAcc(decks, card, catalog, cube)
  {
    if decks != [] {
      var init := decks[..|decks| - 1];
      var d := decks[|decks| - 1];
      assert AllLabelled(init);
      AccOfEvents(init, catalog, cube, card);
      var evs := Events(init, catalog, cube);
      var arch := DeckArchetype(d.archetypes);
      var me := MainEvents(d.main, arch, d.wins, d.losses, d.side != [], catalog, cube);
      var se := SideEvents(d.side, catalog, cube);
      MainEventsAcc(evs, d.main, arch, d.wins, d.losses, d.side != [], catalog, cube, card);
      SideEventsAcc(evs + me, d.side, catalog, cube, card);
      var a1 := AddMain(ClosedAcc(init, card, catalog, cube), CopiesIn(d.main, card, catalog, cube),
                        arch, d.wins, d.losses, d.side != []);
      assert AccOf(evs + me, card) == a1;
      assert ClosedAcc(decks, card, catalog, cube) == AddSide(a1, CopiesIn(d.side, card, catalog, cube));
      assert Events(decks, catalog, cube) == evs + (me + se);
      AppendAssoc(evs, me, se);
    }
  }

  /** Every main-deck copy is attributed one archetype, and every observation
      is 0 or 1. */
  lemma {:induction false} ClosedAccShape(decks: seq<Deck>, card: string, catalog: Catalog, cube: seq<string>)
    requires AllLabelled(decks)
    ensures |ClosedAcc(decks, card, catalog, cube).archetypes| == ClosedAcc(decks, card, catalog, cube).num
    ensures forall k :: 0 <= k < |ClosedAcc(decks, card, catalog, cube).obs| ==>
      ClosedAcc(decks, card, catalog, cube).obs[k] <= 1
  {
    if decks != [] {
      ClosedAccShape(decks[..|decks| - 1], card, catalog, cube);
    }
  }

  /** A card that is not counted has the zero record. */
  lemma {:induction false} UnqualifiedCardEmpty(decks: seq<Deck>, card: string, catalog: Catalog, cube: seq<string>)
    requires AllLabelled(decks) && !Qualifies(card, catalog, cube)
    ensures ClosedAcc(decks, card, catalog, cube) == CardAcc(0, 0, 0, [], [])
  {
    if decks != [] {
      UnqualifiedCardEmpty(decks[..|decks| - 1], card, catalog, cube);
    }
  }

  // ---------------------------------------------------------------------------
  // The accumulation loops

  /** The dictionary state: its keys in insertion order and a record per key,
      each equal to the record of that card over the copies seen so far. */
  ghost predicate Tracked(order: seq<string>, table: map<string, CardAcc>, events: seq<Event>) {
    && order == Dedup(Cards(events))
    && (forall c :: c in table <==> c in order)
    && (forall c :: c in table ==> table[c] == AccOf(events, c))
  }

  /** One copy: insert the zero record if the card is new, then update it. */
  method Record(order: seq<string>, table: map<string, CardAcc>, e: Event, ghost events: seq<Event>)
    returns (order': seq<string>, table': map<string, CardAcc>)
    requires Tracked(order, table, events)
    ensures Tracked(order', table', events + [e])
  {
    RecordStep(order, table, e, events);
    order', table' := order, table;
    if e.card !in table' {
      table' := table'[e.card := CardAcc(0, 0, 0, [], [])];
    }
    if e.card !in order' {
      order' := order' + [e.card];
    }
    table' := table'[e.card := Apply(table'[e.card], e)];
  }

  lemma RecordStep(order: seq<string>, table: map<string, CardAcc>, e: Event, events: seq<Event>)
    requires Tracked(order, table, events)
    ensures var a := if e.card in table then table[e.card] else CardAcc(0, 0, 0, [], []);
      var o := if e.card in order then order else order + [e.card];
      Tracked(o, table[e.card := Apply(a, e)], events + [e])
  {
    RecordOrderStep(order, table, e, events);
    RecordTableStep(order, table, e, events);
  }

  /** The key order after one copy: the card is appended when new. */
  lemma RecordOrderStep(order: seq<string>, table: map<string, CardAcc>, e: Event, events: seq<Event>)
    requires Tracked(order, table, events)
    ensures var o := if e.card in order then order else order + [e.card];
      && o == Dedup(Cards(events + [e]))
      && forall c :: c in table[e.card := CardAcc(0, 0, 0, [], [])] <==> c in o
  {
    CardsSnoc(events, e);
    DedupSnoc(Cards(events), e.card);
  }

  /** The records after one copy: only the copied card's record changes. */
  lemma RecordTableStep(order: seq<string>, table: map<string, CardAcc>, e: Event, events: seq<Event>)
    requires Tracked(order, table, events)
    ensures var a := if e.card in table then table[e.card] else CardAcc(0, 0, 0, [], []);
      var t := table[e.card := Apply(a, e)];
      forall c :: c in t ==> t[c] == AccOf(events + [e], c)
  {
    if e.card !in table {
      DedupMembers(Cards(events));
      CardAbsentAcc(events, e.card);
    }
    var a := if e.card in table then table[e.card] else CardAcc(0, 0, 0, [], []);
    var t := table[e.card := Apply(a, e)];
    forall c | c in t
      ensures t[c] == AccOf(events + [e], c)
    {
      AccSnoc(events, e, c);
    }
  }

  lemma CardsSnoc(events: seq<Event>, e: Event)
    ensures Cards(events + [e]) == Cards(events) + [e.card]
  {
    assert (events + [e])[..|events|] == events;
  }

  /** A card with no copies so far has the zero record. */
  lemma {:induction false} CardAbsentAcc(events: seq<Event>, card: string)
    requires card !in Cards(events)
    ensures AccOf(events, card) == CardAcc(0, 0, 0, [], [])
  {
    if events != [] {
      var init := events[..|events| - 1];
      assert Cards(events)[..|init|] == Cards(init);
      CardAbsentAcc(init, card);
    }
  }

  lemma MainEventsSnoc(main: seq<string>, k: nat, archetype: string, wins: nat, losses: nat, sided: bool,
                       catalog: Catalog, cube: seq<string>)
    requires k < |main|
    ensures MainEvents(main[..k + 1], archetype, wins, losses, sided, catalog, cube)
      == MainEvents(main[..k], archetype, wins, losses, sided, catalog, cube)
         + (if Qualifies(main[k], catalog, cube) then [MainCopy(main[k], archetype, wins, losses, sided)] else [])
  {
    assert main[..k + 1][..k] == main[..k];
  }

  lemma SideEventsSnoc(side: seq<string>, k: nat, catalog: Catalog, cube: seq<string>)
    requires k < |side|
    ensures SideEvents(side[..k + 1], catalog, cube)
      == SideEvents(side[..k], catalog, cube) + (if Qualifies(side[k], catalog, cube) then [SideCopy(side[k])] else [])
  {
    assert side[..k + 1][..k] == side[..k];
  }

  /** The card dictionary: keys in insertion order and the record of each. */
  datatype CardTable = CardTable(order: seq<string>, table: map<string, CardAcc>)

  datatype CardError =
    | MissingArchetype            // a deck with no archetype label: `archetypes[-1]` raises
    | NoGames(card: string)       // a card whose decks played no games: the win-rate division raises
    | UnknownArchetype(card: string, archetype: string)  // the archetype table lacks a label: the lookup raises

  /** The deck loop of `export_card_analysis`: the archetype of each deck, then
      every qualifying main-deck copy and every qualifying sideboard copy. */
  method AccumulateCards(decks: seq<Deck>, catalog: Catalog, cube: seq<string>) returns (r: Result<CardTable, CardError>)
    ensures r.Err? <==> !AllLabelled(decks)
    ensures r.Err? ==> r.error == MissingArchetype
    ensures r.Ok? ==> AllLabelled(decks) && Tracked(r.value.order, r.value.table, Events(decks, catalog, cube))
  {
    var order: seq<string> := [];
    var table: map<string, CardAcc> := map[];
    var i := 0;
    while i < |decks|
      invariant 0 <= i <= |decks|
      invariant AllLabelled(decks[..i])
      invariant Tracked(order, table, Events(decks[..i], catalog, cube))
    {
      var d := decks[i];
      if d.archetypes == [] {
        return Err(MissingArchetype);
      }
      order, table := RecordDeck(order, table, d, catalog, cube, Events(decks[..i], catalog, cube));
      EventsStep(decks, i, catalog, cube);
      i := i + 1;
    }
    assert decks[..i] == decks;
    r := Ok(CardTable(order, table));
  }

  /** One deck: its archetype, then its main-deck and sideboard loops. */
  method RecordDeck(order: seq<string>, table: map<string, CardAcc>, d: Deck,
                    catalog: Catalog, cube: seq<string>, ghost evs: seq<Event>)
    returns (order': seq<string>, table': map<string, CardAcc>)
    requires d.archetypes != []
    requires Tracked(order, table, evs)
    ensures Tracked(order', table', evs + DeckEvents(d, catalog, cube))
  {
    var archetype := if |d.archetypes| == 1 then "Pure " + d.archetypes[0] else d.archetypes[|d.archetypes| - 1];
    order', table' := RecordMain(order, table, d.main, archetype, d.wins, d.losses, d.side != [], catalog, cube, evs);
    ghost var me := MainEvents(d.main, archetype, d.wins, d.losses, d.side != [], catalog, cube);
    order', table' := RecordSide(order', table', d.side, catalog, cube, evs + me);
    assert DeckEvents(d, catalog, cube) == me + SideEvents(d.side, catalog, cube);
    AppendAssoc(evs, me, SideEvents(d.side, catalog, cube));
  }

  lemma AppendAssoc<T>(a: seq<T>, b: seq<T>, c: seq<T>)
    ensures a + b + c == a + (b + c)
  {
  }

  /** The main-deck loop of one deck. */
  method RecordMain(order: seq<string>, table: map<string, CardAcc>, main: seq<string>, archetype: string,
                    wins: nat, losses: nat, sided: bool, catalog: Catalog, cube: seq<string>, ghost evs: seq<Event>)
    returns (order': seq<string>, table': map<string, CardAcc>)
    requires Tracked(order, table, evs)
    ensures Tracked(order', table', evs + MainEvents(main, archetype, wins, losses, sided, catalog, cube))
  {
    order', table' := order, table;
    ghost var seen := evs;
    assert main[..0] == [];
    assert evs + [] == evs;
    var k := 0;
    while k < |main|
      invariant 0 <= k <= |main|
      invariant seen == evs + MainEvents(main[..k], archetype, wins, losses, sided, catalog, cube)
      invariant Tracked(order', table', seen)
    {
      var card := main[k];
      MainEventsSnoc(main, k, archetype, wins, losses, sided, catalog, cube);
      if card in catalog && (cube == [] || card in cube) {
        var e := MainCopy(card, archetype, wins, losses, sided);
        order', table' := Record(order', table', e, seen);
        AppendAssoc(evs, MainEvents(main[..k], archetype, wins, losses, sided, catalog, cube), [e]);
        seen := seen + [e];
      }
      k := k + 1;
    }
    assert main[..k] == main;
  }

  /** The sideboard loop of one deck. */
  method RecordSide(order: seq<string>, table: map<string, CardAcc>, side: seq<string>,
                    catalog: Catalog, cube: seq<string>, ghost evs: seq<Event>)
    returns (order': seq<string>, table': map<string, CardAcc>)
    requires Tracked(order, table, evs)
    ensures Tracked(order', table', evs + SideEvents(side, catalog, cube))
  {
    order', table' := order, table;
    ghost var seen := evs;
    assert side[..0] == [];
    assert evs + [] == evs;
    var k := 0;
    while k < |side|
      invariant 0 <= k <= |side|
      invariant seen == evs + SideEvents(side[..k], catalog, cube)
      invariant Tracked(order', table', seen)
    {
      var card := side[k];
      SideEventsSnoc(side, k, catalog, cube);
      if card in catalog && (cube == [] || card in cube) {
        order', table' := Record(order', table', SideCopy(card), seen);
        AppendAssoc(evs, SideEvents(side[..k], catalog, cube), [SideCopy(card)]);
        seen := seen + [SideCopy(card)];
      }
      k := k + 1;
    }
    assert side[..k] == side;
  }

  /** One more deck appends its copies. */
  lemma EventsStep(decks: seq<Deck>, i: nat, catalog: Catalog, cube: seq<string>)
    requires i < |decks| && AllLabelled(decks[..i]) && decks[i].archetypes != []
    ensures AllLabelled(decks[..i + 1])
    ensures Events(decks[..i + 1], catalog, cube) == Events(decks[..i], catalog, cube) + DeckEvents(decks[i], catalog, cube)
  {
    assert decks[..i + 1][..i] == decks[..i];
  }

  // ---------------------------------------------------------------------------
  // Rates

  /** One exported row: name, record, deck count, catalog data, card type and
      the three rates. */
  datatype CardRow = CardRow(name: string, win: nat, loss: nat, num: nat, color: string, manaValue: real,
                             cardType: Option<CardType>, mainShare: Rate, winRate: Rate, norm: Rate)

  /** The archetype win rates of a card's attributions, in order, or the first
      archetype the table does not hold (the lookup raises). */
  function LookupRates(archetypes: seq<string>, rates: map<string, real>): (r: Result<seq<real>, string>)
    ensures r.Ok? <==> forall k :: 0 <= k < |archetypes| ==> archetypes[k] in rates
    ensures r.Ok? ==> (|r.value| == |archetypes|
      && forall k :: 0 <= k < |archetypes| ==> r.value[k] == rates[archetypes[k]])
    ensures r.Err? ==> exists k :: (0 <= k < |archetypes| && archetypes[k] == r.error && archetypes[k] !in rates
      && forall j :: 0 <= j < k ==> archetypes[j] in rates)
  {
    if archetypes == [] then Ok([])
    else if archetypes[0] !in rates then Err(archetypes[0])
    else
      var rest := LookupRates(archetypes[1..], rates);
      if rest.Err? then
        assert forall k :: 1 <= k < |archetypes| ==> archetypes[k] == archetypes[1..][k - 1];
        Err(rest.error)
      else Ok([rates[archetypes[0]]] + rest.value)
  }

  /** The mean of the 0/1 observations, undefined when there are none. */
  function MainShare(obs: seq<nat>): Rate {
    if obs == [] then Undefined else Defined((Sum(obs) as real) / (|obs| as real))
  }

  /** Win rate over the mean archetype win rate; a zero or empty mean gives no
      defined value. */
  function NormOf(win: real, archetypeRates: seq<real>): Rate {
    if archetypeRates == [] || Mean(archetypeRates) == 0.0 then Undefined
    else Defined(win / Mean(archetypeRates))
  }

  /** The per-card step of the rate loop: the main-deck share, then (unless that
      share is exactly 0) the win rate and the normalised rate. */
  function CardRowOf(card: string, a: CardAcc, info: CardInfo, rates: map<string, real>): Result<CardRow, CardError> {
    var share := MainShare(a.obs);
    var row := CardRow(card, a.win, a.loss, a.num, info.color, info.manaValue, FindCardType(info.typeLine),
                       share, Undefined, Undefined);
    if share == Defined(0.0) then Ok(row)
    else if a.win + a.loss == 0 then Err(NoGames(card))
    else
      var looked := LookupRates(a.archetypes, rates);
      if looked.Err? then Err(UnknownArchetype(card, looked.error))
      else
        var win := (a.win as real) / ((a.win + a.loss) as real);
        Ok(row.(winRate := Defined(win), norm := NormOf(win, looked.value)))
  }

  /** The rate step fails exactly when the card was seen in a main deck (its
      share is not 0) and either its decks played no game or one of its
      attributions is missing from the archetype table. */
  lemma CardRowOfErrors(card: string, a: CardAcc, info: CardInfo, rates: map<string, real>)
    ensures CardRowOf(card, a, info, rates).Err? <==> (MainShare(a.obs) != Defined(0.0)
      && (a.win + a.loss == 0 || exists k :: 0 <= k < |a.archetypes| && a.archetypes[k] !in rates))
  {
  }

  /** The share of main-deck observations: undefined exactly without
      observations, otherwise in [0, 1]. */
  lemma MainShareBounds(obs: seq<nat>)
    requires forall k :: 0 <= k < |obs| ==> obs[k] <= 1
    ensures MainShare(obs) == Undefined <==> obs == []
    ensures MainShare(obs).Defined? ==> 0.0 <= MainShare(obs).value <= 1.0
  {
    if obs != [] {
      SumOfBitsBounded(obs);
      DivBounds(Sum(obs) as real, |obs| as real, 0.0, 1.0);
    }
  }

  /** What a row of the rate step holds: its record and share are the card's;
      a card whose main share is exactly 0 (every observation a sideboard copy;
      main copies in decks without a sideboard add none) gets no win rate and no
      normalised rate; otherwise the win rate is its wins over its games,
      between 0 and 1. */
  lemma CardRowOfRates(card: string, a: CardAcc, info: CardInfo, rates: map<string, real>, row: CardRow)
    requires CardRowOf(card, a, info, rates) == Ok(row)
    ensures row.name == card && row.num == a.num && row.win == a.win && row.loss == a.loss
    ensures row.mainShare == MainShare(a.obs)
    ensures row.mainShare == Defined(0.0) ==> row.winRate == Undefined && row.norm == Undefined
    ensures row.mainShare != Defined(0.0) ==>
      a.win + a.loss > 0 && row.winRate == Defined((a.win as real) / ((a.win + a.loss) as real))
      && 0.0 <= row.winRate.value <= 1.0
  {
    if a.win + a.loss != 0 {
      DivBounds(a.win as real, (a.win + a.loss) as real, 0.0, 1.0);
    }
  }

  /** A card main-decked only in a deck without a sideboard, and sideboarded
      in another deck, has one deck to its name but a main share of exactly 0:
      the main copy adds no observation, the sideboard copy a 0. The rate step
      then gives it no win rate and no normalised rate, although it was played. */
  lemma MainDeckedShareZero(d1: Deck, d2: Deck, catalog: Catalog, rates: map<string, real>)
    requires d1 == Deck(["X"], [], ["Ann"], map[], map[], ["Aggro"], 1, 0, None)
    requires d2 == Deck(["Y"], ["X"], ["Bob"], map[], map[], ["Control"], 0, 1, None)
    requires "X" in catalog
    ensures AllLabelled([d1, d2])
    ensures var a := ClosedAcc([d1, d2], "X", catalog, []);
      && a.num == 1 && a.win == 1
      && MainShare(a.obs) == Defined(0.0)
      && CardRowOf("X", a, catalog["X"], rates).Ok?
      && CardRowOf("X", a, catalog["X"], rates).value.winRate == Undefined
      && CardRowOf("X", a, catalog["X"], rates).value.norm == Undefined
  {
    assert [d1, d2][..1] == [d1];
    assert [d1][..0] == [];
    assert Count(["X"], "X") == 1 by { assert ["X"][..0] == []; }
    assert Count(["Y"], "X") == 0 by { assert ["Y"][..0] == []; assert "Y" != "X"; }
    assert DeckArchetype(d1.archetypes) == "Pure Aggro";
    assert CopiesIn(d1.main, "X", catalog, []) == 1 && CopiesIn(d1.side, "X", catalog, []) == 0;
    assert CopiesIn(d2.main, "X", catalog, []) == 0 && CopiesIn(d2.side, "X", catalog, []) == 1;
    assert Times(1, 1) == 1 && Times(1, 0) == 0 && Times(0, 0) == 0 && Times(0, 1) == 0;
    assert Repeat("Pure Aggro", 1) == ["Pure Aggro"] && Repeat(0, 1) == [0];
    assert ClosedAcc([d1][..0], "X", catalog, []) == CardAcc(0, 0, 0, [], []);
    var a1 := ClosedAcc([d1], "X", catalog, []);
    assert a1 == CardAcc(1, 1, 0, ["Pure Aggro"], []);
    var a := ClosedAcc([d1, d2], "X", catalog, []);
    assert a == CardAcc(1, 1, 0, ["Pure Aggro"], [0]);
  }

  /** The normalised rate is the win rate over the mean win rate of every
      attribution of the card, duplicates included. */
  lemma NormSpec(card: string, a: CardAcc, info: CardInfo, rates: map<string, real>)
    requires CardRowOf(card, a, info, rates).Ok?
    requires CardRowOf(card, a, info, rates).value.norm.Defined?
    ensures forall k :: 0 <= k < |a.archetypes| ==> a.archetypes[k] in rates
    ensures var rs := seq(|a.archetypes|, k requires 0 <= k < |a.archetypes| => rates[a.archetypes[k]]);
      && |rs| > 0 && Mean(rs) != 0.0
      && CardRowOf(card, a, info, rates).value.norm
           == Defined(CardRowOf(card, a, info, rates).value.winRate.value / Mean(rs))
  {
    var looked := LookupRates(a.archetypes, rates);
    var rs := seq(|a.archetypes|, k requires 0 <= k < |a.archetypes| => rates[a.archetypes[k]]);
    assert looked.value == rs;
  }

  /** The row results of the cards in dictionary order. */
  function CardResults(order: seq<string>, events: seq<Event>, catalog: Catalog, rates: map<string, real>)
    : (rs: seq<Result<CardRow, CardError>>)
    requires forall k :: 0 <= k < |order| ==> order[k] in catalog
    ensures |rs| == |order|
  {
    seq(|order|, k requires 0 <= k < |order| => CardRowOf(order[k], AccOf(events, order[k]), catalog[order[k]], rates))
  }

  /** A loop that stops at the first error: every value when all succeed,
      otherwise the first error. */
  function Gather<T, E>(rs: seq<Result<T, E>>): (r: Result<seq<T>, E>)
    ensures r.Ok? <==> forall k :: 0 <= k < |rs| ==> rs[k].Ok?
    ensures r.Ok? ==> (|r.value| == |rs| && forall k :: 0 <= k < |rs| ==> r.value[k] == rs[k].value)
    ensures r.Err? ==> exists k :: (0 <= k < |rs| && rs[k] == Err(r.error)
      && forall j :: 0 <= j < k ==> rs[j].Ok?)
  {
    if rs == [] then Ok([])
    else if rs[0].Err? then Err(rs[0].error)
    else
      var rest := Gather(rs[1..]);
      assert forall k :: 1 <= k < |rs| ==> rs[k] == rs[1..][k - 1];
      if rest.Err? then Err(rest.error) else Ok([rs[0].value] + rest.value)
  }

  /** The gathered values of an all-successful prefix followed by an error are that error. */
  lemma GatherFirstError<T, E>(rs: seq<Result<T, E>>, i: nat)
    requires i < |rs| && rs[i].Err? && forall k :: 0 <= k < i ==> rs[k].Ok?
    ensures Gather(rs) == Err(rs[i].error)
  {
  }

  lemma GatherAllOk<T, E>(rs: seq<Result<T, E>>, values: seq<T>)
    requires |values| == |rs| && forall k :: 0 <= k < |rs| ==> rs[k] == Ok(values[k])
    ensures Gather(rs) == Ok(values)
  {
    assert Gather(rs).Ok?;
    assert Gather(rs).value == values;
  }

  /** The rate loop of `export_card_analysis`, card by card in dictionary order:
      the rows, or the error of the first card that raises. */
  method RateCards(order: seq<string>, table: map<string, CardAcc>, ghost events: seq<Event>,
                   catalog: Catalog, rates: map<string, real>) returns (r: Result<seq<CardRow>, CardError>)
    requires forall k :: 0 <= k < |order| ==> order[k] in catalog && order[k] in table
    requires forall c :: c in table ==> table[c] == AccOf(events, c)
    ensures r == Gather(CardResults(order, events, catalog, rates))
  {
    ghost var results := CardResults(order, events, catalog, rates);
    var rows: seq<CardRow> := [];
    var i := 0;
    while i < |order|
      invariant 0 <= i <= |order| && |rows| == i
      invariant forall k :: 0 <= k < i ==> results[k] == Ok(rows[k])
    {
      var card := order[i];
      var row := CardRowOf(card, table[card], catalog[card], rates);
      assert row == results[i];
      if row.Err? {
        GatherFirstError(results, i);
        return Err(row.error);
      }
      rows := rows + [row.value];
      i := i + 1;
    }
    GatherAllOk(results, rows);
    r := Ok(rows);
  }

  // ---------------------------------------------------------------------------
  // Filter and sorted views

  /** `Num > card_filter` when the filter is set; a zero filter keeps every row. */
  function KeepRows(rows: seq<CardRow>, filter: int): (kept: seq<CardRow>)
    ensures forall x :: Count(kept, x) == if filter == 0 || x.num > filter then Count(rows, x) else 0
  {
    if rows == [] then []
    else
      var last := rows[|rows| - 1];
      var init := KeepRows(rows[..|rows| - 1], filter);
      if filter == 0 || last.num > filter then
        assert forall x :: Count(init + [last], x) == Count(init, x) + (if last == x then 1 else 0) by {
          assert (init + [last])[..|init|] == init;
        }
        init + [last]
      else init
  }

  datatype SortKey = ByWin | ByNorm | ByMain

  function KeyOf(row: CardRow, key: SortKey): Rate {
    match key
    case ByWin => row.winRate
    case ByNorm => row.norm
    case ByMain => row.mainShare
  }

  /** Descending order with undefined values last. */
  predicate Precedes(p: Rate, q: Rate) {
    q.Undefined? || (p.Defined? && p.value >= q.value)
  }

  predicate SortedBy(rows: seq<CardRow>, key: SortKey) {
    forall i, j :: 0 <= i < j < |rows| ==> Precedes(KeyOf(rows[i], key), KeyOf(rows[j], key))
  }

  function Insert(x: CardRow, rows: seq<CardRow>, key: SortKey): (r: seq<CardRow>)
    ensures multiset(r) == multiset(rows) + multiset{x}
  {
    if rows == [] then [x]
    else if Precedes(KeyOf(x, key), KeyOf(rows[0], key)) then [x] + rows
    else
      assert rows == [rows[0]] + rows[1..];
      [rows[0]] + Insert(x, rows[1..], key)
  }

  /** Inserting into a sorted sequence keeps it sorted. */
  lemma {:induction false} InsertSorted(x: CardRow, rows: seq<CardRow>, key: SortKey)
    requires SortedBy(rows, key)
    ensures SortedBy(Insert(x, rows, key), key)
  {
    if rows != [] && !Precedes(KeyOf(x, key), KeyOf(rows[0], key)) {
      var rest := Insert(x, rows[1..], key);
      InsertSorted(x, rows[1..], key);
      forall k | 0 <= k < |rest|
        ensures Precedes(KeyOf(rows[0], key), KeyOf(rest[k], key))
      {
        assert rest[k] in multiset(rest);
        assert rest[k] == x || rest[k] in rows[1..];
      }
    }
  }

  /** `sort_values(..., ascending=False)`: the same rows, defined keys in
      non-increasing order, undefined keys last. */
  function SortDesc(rows: seq<CardRow>, key: SortKey): (s: seq<CardRow>)
    ensures multiset(s) == multiset(rows)
    ensures SortedBy(s, key)
  {
    if rows == [] then []
    else
      assert rows == [rows[0]] + rows[1..];
      InsertSorted(rows[0], SortDesc(rows[1..], key), key);
      Insert(rows[0], SortDesc(rows[1..], key), key)
  }

  // ---------------------------------------------------------------------------
  // Which cards are listed

  /** The cards of one deck's copies are its qualifying cards. */
  lemma {:induction false} MainEventsCards(main: seq<string>, archetype: string, wins: nat, losses: nat, sided: bool,
                                           catalog: Catalog, cube: seq<string>, card: string)
    ensures card in Cards(MainEvents(main, archetype, wins, losses, sided, catalog, cube))
      <==> card in main && Qualifies(card, catalog, cube)
  {
    if main != [] {
      var init := main[..|main| - 1];
      var c := main[|main| - 1];
      MainEventsCards(init, archetype, wins, losses, sided, catalog, cube, card);
      var es := MainEvents(init, archetype, wins, losses, sided, catalog, cube);
      var tail := if Qualifies(c, catalog, cube) then [MainCopy(c, archetype, wins, losses, sided)] else [];
      CardsAppend(es, tail);
      assert main == init + [c];
    }
  }

  lemma {:induction false} SideEventsCards(side: seq<string>, catalog: Catalog, cube: seq<string>, card: string)
    ensures card in Cards(SideEvents(side, catalog, cube)) <==> card in side && Qualifies(card, catalog, cube)
  {
    if side != [] {
      var init := side[..|side| - 1];
      var c := side[|side| - 1];
      SideEventsCards(init, catalog, cube, card);
      var tail := if Qualifies(c, catalog, cube) then [SideCopy(c)] else [];
      CardsAppend(SideEvents(init, catalog, cube), tail);
      assert side == init + [c];
    }
  }

  lemma {:induction false} CardsAppend(a: seq<Event>, b: seq<Event>)
    ensures Cards(a + b) == Cards(a) + Cards(b)
  {
    assert Cards(a + b) == Cards(a) + Cards(b) by {
      forall k | 0 <= k < |a + b|
        ensures Cards(a + b)[k] == (Cards(a) + Cards(b))[k]
      {
      }
    }
  }

  /** One deck's copies name exactly its qualifying main-deck and sideboard
      cards. */
  lemma DeckEventsCards(d: Deck, catalog: Catalog, cube: seq<string>, card: string)
    requires d.archetypes != []
    ensures card in Cards(DeckEvents(d, catalog, cube))
      <==> (card in d.main || card in d.side) && Qualifies(card, catalog, cube)
  {
    var me := MainEvents(d.main, DeckArchetype(d.archetypes), d.wins, d.losses, d.side != [], catalog, cube);
    CardsAppend(me, SideEvents(d.side, catalog, cube));
    MainEventsCards(d.main, DeckArchetype(d.archetypes), d.wins, d.losses, d.side != [], catalog, cube, card);
    SideEventsCards(d.side, catalog, cube, card);
  }

  /** The copies of all decks but the last, then the last deck's. */
  lemma EventsLast(decks: seq<Deck>, catalog: Catalog, cube: seq<string>)
    requires AllLabelled(decks) && decks != []
    ensures AllLabelled(decks[..|decks| - 1])
    ensures Events(decks, catalog, cube)
      == Events(decks[..|decks| - 1], catalog, cube) + DeckEvents(decks[|decks| - 1], catalog, cube)
  {
  }

  /** Every key of the dictionary is a qualifying card listed in the main deck
      or sideboard of some deck (the index is returned). */
  lemma {:induction false} ListedCardQualifies(decks: seq<Deck>, catalog: Catalog, cube: seq<string>, card: string)
    returns (i: nat)
    requires AllLabelled(decks)
    requires card in Cards(Events(decks, catalog, cube))
    ensures Qualifies(card, catalog, cube)
    ensures i < |decks| && (card in decks[i].main || card in decks[i].side)
  {
    var init := decks[..|decks| - 1];
    EventsLast(decks, catalog, cube);
    CardsAppend(Events(init, catalog, cube), DeckEvents(decks[|decks| - 1], catalog, cube));
    if card in Cards(Events(init, catalog, cube)) {
      i := ListedCardQualifies(init, catalog, cube, card);
      assert decks[i] == init[i];
    } else {
      DeckEventsCards(decks[|decks| - 1], catalog, cube, card);
      i := |decks| - 1;
    }
  }

  /** Every qualifying card some deck lists is a key of the dictionary. */
  lemma {:induction false} QualifyingCardListed(decks: seq<Deck>, catalog: Catalog, cube: seq<string>, card: string, i: nat)
    requires AllLabelled(decks) && Qualifies(card, catalog, cube)
    requires i < |decks| && (card in decks[i].main || card in decks[i].side)
    ensures card in Cards(Events(decks, catalog, cube))
  {
    var init := decks[..|decks| - 1];
    EventsLast(decks, catalog, cube);
    CardsAppend(Events(init, catalog, cube), DeckEvents(decks[|decks| - 1], catalog, cube));
    if i < |init| {
      assert init[i] == decks[i];
      QualifyingCardListed(init, catalog, cube, card, i);
    } else {
      DeckEventsCards(decks[|decks| - 1], catalog, cube, card);
    }
  }

  // ---------------------------------------------------------------------------
  // The whole analysis

  /** The rows of `export_card_analysis` before the filter: one per listed card
      in order of first appearance, or the first error raised. */
  ghost function CardAnalysis(decks: seq<Deck>, cube: seq<string>, catalog: Catalog, rates: map<string, real>)
    : Result<seq<CardRow>, CardError>
  {
    if !AllLabelled(decks) then Err(MissingArchetype)
    else
      var events := Events(decks, catalog, cube);
      var order := Dedup(Cards(events));
      OrderInCatalog(decks, catalog, cube);
      Gather(CardResults(order, events, catalog, rates))
  }

  /** Every listed card is in the catalog. */
  lemma OrderInCatalog(decks: seq<Deck>, catalog: Catalog, cube: seq<string>)
    requires AllLabelled(decks)
    ensures forall k :: 0 <= k < |Dedup(Cards(Events(decks, catalog, cube)))| ==>
      Dedup(Cards(Events(decks, catalog, cube)))[k] in catalog
  {
    var cards := Cards(Events(decks, catalog, cube));
    DedupMembers(cards);
    forall k | 0 <= k < |Dedup(cards)|
      ensures Dedup(cards)[k] in catalog
    {
      var _ := ListedCardQualifies(decks, catalog, cube, Dedup(cards)[k]);
    }
  }

  /** The three exported views. */
  datatype CardViews = CardViews(byWin: seq<CardRow>, byNorm: seq<CardRow>, byMain: seq<CardRow>)

  /** `export_card_analysis` without the CSV output: the accumulation, the rate
      loop, the `Num` filter and the three sorted views, or the first error. */
  method ExportCardAnalysis(decks: seq<Deck>, cube: seq<string>, catalog: Catalog, filter: int,
                            rates: map<string, real>) returns (r: Result<CardViews, CardError>)
    ensures r.Err? <==> CardAnalysis(decks, cube, catalog, rates).Err?
    ensures r.Err? ==> r.error == CardAnalysis(decks, cube, catalog, rates).error
    ensures r.Ok? ==> var kept := KeepRows(CardAnalysis(decks, cube, catalog, rates).value, filter);
      r.value == CardViews(SortDesc(kept, ByWin), SortDesc(kept, ByNorm), SortDesc(kept, ByMain))
  {
    var acc := AccumulateCards(decks, catalog, cube);
    if acc.Err? {
      return Err(acc.error);
    }
    ghost var events := Events(decks, catalog, cube);
    OrderInCatalog(decks, catalog, cube);
    var rows := RateCards(acc.value.order, acc.value.table, events, catalog, rates);
    if rows.Err? {
      return Err(rows.error);
    }
    var kept := KeepRows(rows.value, filter);
    r := Ok(CardViews(SortDesc(kept, ByWin), SortDesc(kept, ByNorm), SortDesc(kept, ByMain)));
  }

  /** Each row of the analysis is the rate step applied to the card's
      closed-form record, and the rows follow the order in which the cards were
      first seen. */
  lemma CardAnalysisRows(decks: seq<Deck>, cube: seq<string>, catalog: Catalog, rates: map<string, real>, k: nat)
    requires CardAnalysis(decks, cube, catalog, rates).Ok?
    requires k < |CardAnalysis(decks, cube, catalog, rates).value|
    ensures AllLabelled(decks)
    ensures var order := Dedup(Cards(Events(decks, catalog, cube)));
      && |CardAnalysis(decks, cube, catalog, rates).value| == |order|
      && order[k] in catalog
      && CardRowOf(order[k], ClosedAcc(decks, order[k], catalog, cube), catalog[order[k]], rates)
           == Ok(CardAnalysis(decks, cube, catalog, rates).value[k])
  {
    OrderInCatalog(decks, catalog, cube);
    AccOfEvents(decks, catalog, cube, Dedup(Cards(Events(decks, catalog, cube)))[k]);
  }

  /** The rates of every exported row: the main-deck share lies in [0, 1]; a
      card whose main share is exactly 0 (every observation a sideboard copy;
      main copies in decks without a sideboard add none) has no win rate and no
      normalised rate; otherwise the win rate is its decks' wins over their
      games, in [0, 1]. */
  lemma CardAnalysisRates(decks: seq<Deck>, cube: seq<string>, catalog: Catalog, rates: map<string, real>, k: nat)
    requires CardAnalysis(decks, cube, catalog, rates).Ok?
    requires k < |CardAnalysis(decks, cube, catalog, rates).value|
    ensures var row := CardAnalysis(decks, cube, catalog, rates).value[k];
      && (row.mainShare.Defined? ==> 0.0 <= row.mainShare.value <= 1.0)
      && (row.mainShare == Defined(0.0) ==> row.winRate == Undefined && row.norm == Undefined)
      && (row.mainShare != Defined(0.0) ==>
            row.win + row.loss > 0 && row.winRate == Defined((row.win as real) / ((row.win + row.loss) as real))
            && 0.0 <= row.winRate.value <= 1.0)
  {
    var row := CardAnalysis(decks, cube, catalog, rates).value[k];
    CardAnalysisRows(decks, cube, catalog, rates, k);
    var card := Dedup(Cards(Events(decks, catalog, cube)))[k];
    var a := ClosedAcc(decks, card, catalog, cube);
    ClosedAccShape(decks, card, catalog, cube);
    CardRowOfRates(card, a, catalog[card], rates, row);
    MainShareBounds(a.obs);
  }

  // ---------------------------------------------------------------------------
  // The archetype table the analysis is given

  /** Every archetype a card is attributed to is a bucket of the archetype
      analysis: a deck's "Pure X" or last label is among the keys it credits. */
  lemma {:induction false} ClosedAccCredited(decks: seq<Deck>, card: string, catalog: Catalog, cube: seq<string>)
    requires AllLabelled(decks)
    ensures forall x :: x in ClosedAcc(decks, card, catalog, cube).archetypes ==>
      x in Tallies.Flatten(ArchetypeStats.ArchetypeCredits(decks))
  {
    if decks != [] {
      var init := decks[..|decks| - 1];
      var d := decks[|decks| - 1];
      assert AllLabelled(init) by {
        forall i | 0 <= i < |init| ensures init[i].archetypes != [] {
          assert init[i] == decks[i];
        }
      }
      ClosedAccCredited(init, card, catalog, cube);
      var credit := Tallies.Credit(ArchetypeStats.ArchetypeKeys(d.archetypes), d.wins, d.losses);
      Tallies.FlattenSnoc(ArchetypeStats.ArchetypeCredits(init), credit);
      assert DeckArchetype(d.archetypes) in credit.keys;
    }
  }

  /** With every bucket in the rate map, a card's rate step can fail only for want of games. */
  lemma CardRowCredited(decks: seq<Deck>, catalog: Catalog, cube: seq<string>, rates: map<string, real>, card: string)
    requires AllLabelled(decks) && card in catalog
    requires forall k :: k in Tallies.Flatten(ArchetypeStats.ArchetypeCredits(decks)) ==> k in rates
    ensures var row := CardRowOf(card, AccOf(Events(decks, catalog, cube), card), catalog[card], rates);
      row.Err? ==> row.error.NoGames?
  {
    AccOfEvents(decks, catalog, cube, card);
    ClosedAccCredited(decks, card, catalog, cube);
    assert LookupRates(AccOf(Events(decks, catalog, cube), card).archetypes, rates).Ok?;
  }

  /** Given the win-rate map of the archetype analysis of the same decks (it
      holds every bucket), no lookup of the rate loop misses: the analysis
      fails only on an unlabelled deck or on a card whose decks played no game. */
  lemma ArchetypeRatesCoverCards(decks: seq<Deck>, cube: seq<string>, catalog: Catalog, rates: map<string, real>)
    requires forall k :: k in Tallies.Flatten(ArchetypeStats.ArchetypeCredits(decks)) ==> k in rates
    ensures CardAnalysis(decks, cube, catalog, rates).Err? ==>
      CardAnalysis(decks, cube, catalog, rates).error.MissingArchetype?
      || CardAnalysis(decks, cube, catalog, rates).error.NoGames?
  {
    if AllLabelled(decks) && CardAnalysis(decks, cube, catalog, rates).Err? {
      var events := Events(decks, catalog, cube);
      var order := Dedup(Cards(events));
      OrderInCatalog(decks, catalog, cube);
      var rs := CardResults(order, events, catalog, rates);
      var k :| 0 <= k < |rs| && rs[k] == Err(CardAnalysis(decks, cube, catalog, rates).error);
      CardRowCredited(decks, catalog, cube, rates, order[k]);
    }
  }
}
