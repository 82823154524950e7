/** The colour analysis (`export_color_analysis`): for each colour of the last
    deck, the share of decks playing it in the main deck, the ratio of decks
    splashing it to decks not splashing it, and the mean share of non-land
    cards it fills in the decks that play it. */
module ColorStats {
  import opened Common
  import opened CardTypes
  import opened DeckColors
  import opened DeckParsing

  /** 1 when the map holds a non-zero count for the colour, else 0. */
  function Hit(m: map<string, nat>, c: string): nat {
    if c in m && m[c] != 0 then 1 else 0
  }

  /** The number of decks whose colour map holds a non-zero count for `c`. */
  function MainDecks(decks: seq<Deck>, c: string): (k: nat)
    ensures k <= |decks|
  {
    if decks == [] then 0 else MainDecks(decks[..|decks| - 1], c) + Hit(decks[|decks| - 1].colors, c)
  }

  /** The number of decks whose splash map holds a non-zero count for `c`. */
  function SplashDecks(decks: seq<Deck>, c: string): (k: nat)
    ensures k <= |decks|
  {
    if decks == [] then 0 else SplashDecks(decks[..|decks| - 1], c) + Hit(decks[|decks| - 1].splash, c)
  }

  /** Why the colour analysis raises. */
  datatype ColorError =
    | MissingCard                    // a main-deck card missing from the catalog: the lookup raises
    | NoNonlandShare                 // a deck with a colour but no non-land card: the share division raises
    | NoDecks                        // no deck at all: the final loop reads the colours of an unbound deck
    | NeverMain(color: string)       // no deck plays the colour: the deck-count lookup raises
    | NeverSplashed(color: string)   // no deck splashes the colour: the splash-count lookup raises
    | AlwaysSplashed(color: string)  // every deck splashes the colour: the splash ratio divides by zero

  predicate HasColor(m: map<string, nat>) {
    exists c :: c in m && m[c] != 0
  }

  /** What goes wrong in the deck loop for one deck, if anything. */
  function DeckFault(d: Deck, catalog: Catalog): Option<ColorError> {
    if !AllKnown(d.main, catalog) then Some(MissingCard)
    else if NonlandCount(d.main, catalog) == 0 && HasColor(d.colors) then Some(NoNonlandShare)
    else None
  }

  /** The fault of the first deck that has one: the deck loop raises there. */
  function FirstFault(decks: seq<Deck>, catalog: Catalog): Option<ColorError> {
    if decks == [] then None
    else
      var f := FirstFault(decks[..|decks| - 1], catalog);
      if f.Some? then f else DeckFault(decks[|decks| - 1], catalog)
  }

  /** The deck loop gets through exactly when no deck has a fault. */
  lemma {:induction false} FirstFaultNone(decks: seq<Deck>, catalog: Catalog)
    ensures FirstFault(decks, catalog).None? <==> forall i :: 0 <= i < |decks| ==> DeckFault(decks[i], catalog).None?
  {
    if decks != [] {
      var init := decks[..|decks| - 1];
      FirstFaultNone(init, catalog);
      assert forall i :: 0 <= i < |init| ==> init[i] == decks[i];
    }
  }

  /** Once a prefix of the decks has a fault, the whole sequence has that same
      first fault. */
  lemma {:induction false} FirstFaultPrefix(decks: seq<Deck>, j: nat, catalog: Catalog)
    requires j <= |decks| && FirstFault(decks[..j], catalog).Some?
    ensures FirstFault(decks, catalog) == FirstFault(decks[..j], catalog)
  {
    if j == |decks| {
      assert decks[..j] == decks;
    } else {
      var init := decks[..|decks| - 1];
      assert init[..j] == decks[..j];
      FirstFaultPrefix(init, j, catalog);
    }
  }

  /** A colour's share of one deck's non-land cards, as a list of one element
      when the deck plays the colour (and the share is defined). */
  function ShareOf(d: Deck, catalog: Catalog, c: string): seq<real> {
    if Hit(d.colors, c) == 1 && AllKnown(d.main, catalog) && NonlandCount(d.main, catalog) > 0
    then [(d.colors[c] as real) / (NonlandCount(d.main, catalog) as real)]
    else []
  }

  /** The shares of `c` in the decks that play it, in deck order (the list the
      program appends to); without a fault, one per deck playing `c`. */
  function ShareList(decks: seq<Deck>, catalog: Catalog, c: string): seq<real> {
    if decks == [] then []
    else ShareList(decks[..|decks| - 1], catalog, c) + ShareOf(decks[|decks| - 1], catalog, c)
  }

  lemma {:induction false} ShareListLength(decks: seq<Deck>, catalog: Catalog, c: string)
    requires FirstFault(decks, catalog).None?
    ensures |ShareList(decks, catalog, c)| == MainDecks(decks, c)
  {
    if decks != [] {
      ShareListLength(decks[..|decks| - 1], catalog, c);
    }
  }

  /** One exported row: `Deck %`, `Splash %` and `Avg Card %`. */
  datatype ColorRow = ColorRow(deckShare: real, splashShare: real, cardShare: real)

  /** What goes wrong in the final loop for one colour, if anything. */
  function ColorFault(decks: seq<Deck>, c: string): Option<ColorError> {
    if MainDecks(decks, c) == 0 then Some(NeverMain(c))
    else if SplashDecks(decks, c) == 0 then Some(NeverSplashed(c))
    else if SplashDecks(decks, c) == |decks| then Some(AlwaysSplashed(c))
    else None
  }

  /** The row of colour `c`. */
  function RowOf(decks: seq<Deck>, catalog: Catalog, c: string): ColorRow
    requires FirstFault(decks, catalog).None? && ColorFault(decks, c).None?
  {
    var n := |decks| as real;
    var s := SplashDecks(decks, c) as real;
    ShareListLength(decks, catalog, c);
    ColorRow((MainDecks(decks, c) as real) / n, s / (n - s), Mean(ShareList(decks, catalog, c)))
  }

  // ---------------------------------------------------------------------------
  // The deck loop

  /** A counting dictionary: a key is present exactly when its count is
      positive, and then holds that count. */
  ghost predicate Tallies(m: map<string, nat>, count: string -> nat) {
    forall c :: (c in m <==> count(c) > 0) && (c in m ==> m[c] == count(c))
  }

  /** A dictionary of lists: a key is present exactly when its list is not
      empty, and then holds that list. */
  ghost predicate Lists(m: map<string, seq<real>>, list: string -> seq<real>) {
    forall c :: (c in m <==> list(c) != []) && (c in m ==> m[c] == list(c))
  }

  /** Counting key `c` once more. */
  lemma TallyStep(m: map<string, nat>, count: string -> nat, count': string -> nat, c: string)
    requires Tallies(m, count)
    requires count'(c) == count(c) + 1 && forall x :: x != c ==> count'(x) == count(x)
    ensures Tallies(m[c := if c in m then m[c] + 1 else 1], count')
  {
  }

  /** Appending to the list of key `c`. */
  lemma ListStep(m: map<string, seq<real>>, list: string -> seq<real>, list': string -> seq<real>, c: string, x: real)
    requires Lists(m, list)
    requires list'(c) == list(c) + [x] && forall y :: y != c ==> list'(y) == list(y)
    ensures Lists(m[c := if c in m then m[c] + [x] else [x]], list')
  {
  }

  /** A colour that is not counted leaves the dictionary as it is. */
  lemma TallySame(m: map<string, nat>, count: string -> nat, count': string -> nat)
    requires Tallies(m, count) && forall x :: count'(x) == count(x)
    ensures Tallies(m, count')
  {
  }

  lemma ListSame(m: map<string, seq<real>>, list: string -> seq<real>, list': string -> seq<real>)
    requires Lists(m, list) && forall x :: list'(x) == list(x)
    ensures Lists(m, list')
  {
  }

  /** The counts of the decks in `prev` plus deck `d`'s colours among `done`. */
  function MainSoFar(prev: seq<Deck>, d: Deck, done: set<string>, c: string): nat {
    MainDecks(prev, c) + (if c in done then Hit(d.colors, c) else 0)
  }

  function SplashSoFar(prev: seq<Deck>, d: Deck, done: set<string>, c: string): nat {
    SplashDecks(prev, c) + (if c in done then Hit(d.splash, c) else 0)
  }

  /** The share lists of the decks in `prev` plus deck `d`'s colours among `done`. */
  function SharesSoFar(prev: seq<Deck>, catalog: Catalog, d: Deck, n: nat, done: set<string>, c: string): seq<real> {
    ShareList(prev, catalog, c)
      + (if c in done && Hit(d.colors, c) == 1 && n > 0 then [(d.colors[c] as real) / (n as real)] else [])
  }

  /** One more deck without a fault: its hits are added. */
  lemma DeckSnoc(prev: seq<Deck>, d: Deck, catalog: Catalog, c: string)
    requires FirstFault(prev, catalog).None? && DeckFault(d, catalog).None?
    ensures FirstFault(prev + [d], catalog).None?
    ensures MainDecks(prev + [d], c) == MainSoFar(prev, d, d.colors.Keys, c)
    ensures SplashDecks(prev + [d], c) == SplashSoFar(prev, d, d.splash.Keys, c)
    ensures ShareList(prev + [d], catalog, c)
      == SharesSoFar(prev, catalog, d, NonlandCount(d.main, catalog), d.colors.Keys, c)
  {
    assert (prev + [d])[..|prev|] == prev;
  }

  /** The colour loop of one deck: every colour it plays is counted and its
      share of the deck's `n` non-land cards recorded; the division raises when
      `n` is 0. */
  method CountMain(withColor: map<string, nat>, shares: map<string, seq<real>>, d: Deck, n: nat,
                   ghost prev: seq<Deck>, ghost catalog: Catalog)
    returns (withColor': map<string, nat>, shares': map<string, seq<real>>, failed: bool)
    requires Tallies(withColor, c => MainSoFar(prev, d, {}, c))
    requires Lists(shares, c => SharesSoFar(prev, catalog, d, n, {}, c))
    ensures failed <==> n == 0 && HasColor(d.colors)
    ensures !failed ==> Tallies(withColor', c => MainSoFar(prev, d, d.colors.Keys, c))
    ensures !failed ==> Lists(shares', c => SharesSoFar(prev, catalog, d, n, d.colors.Keys, c))
  {
    withColor', shares' := withColor, shares;
    var todo := d.colors.Keys;
    ghost var done: set<string> := {};
    while todo != {}
      invariant todo <= d.colors.Keys && done == d.colors.Keys - todo
      invariant n == 0 ==> forall c :: c in done ==> d.colors[c] == 0
      invariant Tallies(withColor', c => MainSoFar(prev, d, done, c))
      invariant Lists(shares', c => SharesSoFar(prev, catalog, d, n, done, c))
      decreases |todo|
    {
      var c :| c in todo;
      withColor', shares', failed := CountColor(withColor', shares', d, n, c, prev, catalog, done);
      if failed {
        return;
      }
      todo := todo - {c};
      done := done + {c};
    }
    assert done == d.colors.Keys;
    failed := false;
  }

  /** One colour of one deck: counted, with its share, when the deck plays it. */
  method CountColor(withColor: map<string, nat>, shares: map<string, seq<real>>, d: Deck, n: nat, c: string,
                    ghost prev: seq<Deck>, ghost catalog: Catalog, ghost done: set<string>)
    returns (withColor': map<string, nat>, shares': map<string, seq<real>>, failed: bool)
    requires c in d.colors && c !in done
    requires Tallies(withColor, x => MainSoFar(prev, d, done, x))
    requires Lists(shares, x => SharesSoFar(prev, catalog, d, n, done, x))
    ensures failed <==> d.colors[c] != 0 && n == 0
    ensures !failed ==> Tallies(withColor', x => MainSoFar(prev, d, done + {c}, x))
    ensures !failed ==> Lists(shares', x => SharesSoFar(prev, catalog, d, n, done + {c}, x))
  {
    withColor', shares', failed := withColor, shares, false;
    if d.colors[c] != 0 {
      TallyStep(withColor', x => MainSoFar(prev, d, done, x), x => MainSoFar(prev, d, done + {c}, x), c);
      withColor' := withColor'[c := if c in withColor' then withColor'[c] + 1 else 1];
      if n == 0 {
        return withColor', shares', true;
      }
      var share := (d.colors[c] as real) / (n as real);
      ListStep(shares', x => SharesSoFar(prev, catalog, d, n, done, x),
               x => SharesSoFar(prev, catalog, d, n, done + {c}, x), c, share);
      shares' := shares'[c := if c in shares' then shares'[c] + [share] else [share]];
    } else {
      TallySame(withColor', x => MainSoFar(prev, d, done, x), x => MainSoFar(prev, d, done + {c}, x));
      ListSame(shares', x => SharesSoFar(prev, catalog, d, n, done, x), x => SharesSoFar(prev, catalog, d, n, done + {c}, x));
    }
  }

  /** The splash loop of one deck: every colour it splashes is counted. */
  method CountSplash(withSplash: map<string, nat>, d: Deck, ghost prev: seq<Deck>)
    returns (withSplash': map<string, nat>)
    requires Tallies(withSplash, c => SplashSoFar(prev, d, {}, c))
    ensures Tallies(withSplash', c => SplashSoFar(prev, d, d.splash.Keys, c))
  {
    withSplash' := withSplash;
    var todo := d.splash.Keys;
    ghost var done: set<string> := {};
    while todo != {}
      invariant todo <= d.splash.Keys && done == d.splash.Keys - todo
      invariant Tallies(withSplash', c => SplashSoFar(prev, d, done, c))
      decreases |todo|
    {
      var c :| c in todo;
      if d.splash[c] != 0 {
        TallyStep(withSplash', x => SplashSoFar(prev, d, done, x), x => SplashSoFar(prev, d, done + {c}, x), c);
        withSplash' := withSplash'[c := if c in withSplash' then withSplash'[c] + 1 else 1];
      } else {
        TallySame(withSplash', x => SplashSoFar(prev, d, done, x), x => SplashSoFar(prev, d, done + {c}, x));
      }
      todo := todo - {c};
      done := done + {c};
    }
    assert done == d.splash.Keys;
  }

  /** The three dictionaries after the decks in `decks`, none of which raised. */
  ghost predicate Counted(decks: seq<Deck>, catalog: Catalog, withColor: map<string, nat>,
                          shares: map<string, seq<real>>, withSplash: map<string, nat>)
  {
    && FirstFault(decks, catalog).None?
    && Tallies(withColor, c => MainDecks(decks, c))
    && Lists(shares, c => ShareList(decks, catalog, c))
    && Tallies(withSplash, c => SplashDecks(decks, c))
  }

  /** Before a deck's loops nothing of it is counted. */
  lemma StartDeck(prev: seq<Deck>, d: Deck, catalog: Catalog, n: nat, withColor: map<string, nat>,
                  shares: map<string, seq<real>>, withSplash: map<string, nat>)
    requires Counted(prev, catalog, withColor, shares, withSplash)
    ensures Tallies(withColor, c => MainSoFar(prev, d, {}, c))
    ensures Lists(shares, c => SharesSoFar(prev, catalog, d, n, {}, c))
    ensures Tallies(withSplash, c => SplashSoFar(prev, d, {}, c))
  {
    TallySame(withColor, c => MainDecks(prev, c), c => MainSoFar(prev, d, {}, c));
    ListSame(shares, c => ShareList(prev, catalog, c), c => SharesSoFar(prev, catalog, d, n, {}, c));
    TallySame(withSplash, c => SplashDecks(prev, c), c => SplashSoFar(prev, d, {}, c));
  }

  /** After a deck's loops, the dictionaries count one more deck. */
  lemma EndDeck(prev: seq<Deck>, d: Deck, catalog: Catalog, withColor: map<string, nat>,
                shares: map<string, seq<real>>, withSplash: map<string, nat>)
    requires FirstFault(prev, catalog).None? && DeckFault(d, catalog).None?
    requires Tallies(withColor, c => MainSoFar(prev, d, d.colors.Keys, c))
    requires Lists(shares, c => SharesSoFar(prev, catalog, d, NonlandCount(d.main, catalog), d.colors.Keys, c))
    requires Tallies(withSplash, c => SplashSoFar(prev, d, d.splash.Keys, c))
    ensures Counted(prev + [d], catalog, withColor, shares, withSplash)
  {
    DeckSnoc(prev, d, catalog, "");
    forall c
      ensures MainDecks(prev + [d], c) == MainSoFar(prev, d, d.colors.Keys, c)
      ensures SplashDecks(prev + [d], c) == SplashSoFar(prev, d, d.splash.Keys, c)
      ensures ShareList(prev + [d], catalog, c)
        == SharesSoFar(prev, catalog, d, NonlandCount(d.main, catalog), d.colors.Keys, c)
    {
      DeckSnoc(prev, d, catalog, c);
    }
    TallySame(withColor, c => MainSoFar(prev, d, d.colors.Keys, c), c => MainDecks(prev + [d], c));
    ListSame(shares, c => SharesSoFar(prev, catalog, d, NonlandCount(d.main, catalog), d.colors.Keys, c),
             c => ShareList(prev + [d], catalog, c));
    TallySame(withSplash, c => SplashSoFar(prev, d, d.splash.Keys, c), c => SplashDecks(prev + [d], c));
  }

  /** `export_color_analysis` without the CSV output: the deck loop raises at
      the first faulty deck; then every colour of the last deck must have been
      played and splashed, and not splashed by every deck. The rows are keyed
      by colour. */
  method ExportColorAnalysis(decks: seq<Deck>, catalog: Catalog) returns (r: Result<map<string, ColorRow>, ColorError>)
    ensures FirstFault(decks, catalog).Some? ==> r == Err(FirstFault(decks, catalog).value)
    ensures FirstFault(decks, catalog).None? && decks == [] ==> r == Err(NoDecks)
    ensures FirstFault(decks, catalog).None? && decks != [] ==>
      var last := decks[|decks| - 1].colors;
      && (r.Err? <==> exists c :: c in last && ColorFault(decks, c).Some?)
      && (r.Err? ==> exists c :: c in last && ColorFault(decks, c) == Some(r.error))
      && (FirstColorFault(decks, last, 0).Some? ==> r == Err(FirstColorFault(decks, last, 0).value))
      && (r.Ok? ==> r.value.Keys == last.Keys)
      && (r.Ok? ==> forall c :: c in last ==> r.value[c] == RowOf(decks, catalog, c))
  {
    var withColor: map<string, nat> := map[];
    var shares: map<string, seq<real>> := map[];
    var withSplash: map<string, nat> := map[];
    var i := 0;
    while i < |decks|
      invariant 0 <= i <= |decks|
      invariant Counted(decks[..i], catalog, withColor, shares, withSplash)
    {
      var d := decks[i];
      assert decks[..i + 1] == decks[..i] + [d];
      assert decks[..i + 1][..i] == decks[..i];
      if !AllKnown(d.main, catalog) {
        FirstFaultPrefix(decks, i + 1, catalog);
        return Err(MissingCard);
      }
      var n := NonlandCount(d.main, catalog);
      StartDeck(decks[..i], d, catalog, n, withColor, shares, withSplash);
      var failed;
      withColor, shares, failed := CountMain(withColor, shares, d, n, decks[..i], catalog);
      if failed {
        FirstFaultPrefix(decks, i + 1, catalog);
        return Err(NoNonlandShare);
      }
      withSplash := CountSplash(withSplash, d, decks[..i]);
      EndDeck(decks[..i], d, catalog, withColor, shares, withSplash);
      i := i + 1;
    }
    assert decks[..i] == decks;
    if decks == [] {
      return Err(NoDecks);
    }
    r := ColorRows(decks, catalog, withColor, shares, withSplash);
  }

  /** The fault of the first colour among `ColorNames[k..]` that is a key of
      `last` and faults: the key order of `get_colors`'s dicts. */
  function FirstColorFault(decks: seq<Deck>, last: map<string, nat>, k: nat): Option<ColorError>
    decreases 5 - k
  {
    if k >= 5 then None
    else if ColorNames[k] in last && ColorFault(decks, ColorNames[k]).Some? then ColorFault(decks, ColorNames[k])
    else FirstColorFault(decks, last, k + 1)
  }

  /** `FirstColorFault` finds a fault exactly when some colour name from `k` on
      is a faulting key, and then it is the fault of the first such name. */
  lemma {:induction false} FirstColorFaultSpec(decks: seq<Deck>, last: map<string, nat>, k: nat)
    requires k <= 5
    ensures FirstColorFault(decks, last, k).Some? <==>
      exists j :: k <= j < 5 && ColorNames[j] in last && ColorFault(decks, ColorNames[j]).Some?
    ensures FirstColorFault(decks, last, k).Some? ==>
      exists j :: k <= j < 5 && ColorNames[j] in last && ColorFault(decks, ColorNames[j]) == FirstColorFault(decks, last, k)
        && forall i :: k <= i < j && ColorNames[i] in last ==> ColorFault(decks, ColorNames[i]).None?
    decreases 5 - k
  {
    if k < 5 {
      FirstColorFaultSpec(decks, last, k + 1);
    }
  }

  /** The final loop: one row per colour of the last deck, in key order, so the
      first faulting colour name raises. */
  method ColorRows(decks: seq<Deck>, catalog: Catalog, withColor: map<string, nat>,
                   shares: map<string, seq<real>>, withSplash: map<string, nat>)
    returns (r: Result<map<string, ColorRow>, ColorError>)
    requires decks != [] && Counted(decks, catalog, withColor, shares, withSplash)
    ensures FirstFault(decks, catalog).None?
    ensures var last := decks[|decks| - 1].colors;
      && (r.Err? <==> exists c :: c in last && ColorFault(decks, c).Some?)
      && (r.Err? ==> exists c :: c in last && ColorFault(decks, c) == Some(r.error))
      && (FirstColorFault(decks, last, 0).Some? ==> r == Err(FirstColorFault(decks, last, 0).value))
      && (r.Ok? ==> r.value.Keys == last.Keys)
      && (r.Ok? ==> forall c :: c in last ==> r.value[c] == RowOf(decks, catalog, c))
  {
    var last := decks[|decks| - 1].colors;
    FirstColorFaultSpec(decks, last, 0);
    var named := NamedColorRows(decks, catalog, withColor, shares, withSplash, last);
    if named.Err? {
      return Err(named.error);
    }
    r := OtherColorRows(decks, catalog, withColor, shares, withSplash, last, named.value);
  }

  /** The five colour names, in order, that are keys of `last`: their rows, or
      the fault of the first one that faults. */
  method NamedColorRows(decks: seq<Deck>, catalog: Catalog, withColor: map<string, nat>,
                        shares: map<string, seq<real>>, withSplash: map<string, nat>, last: map<string, nat>)
    returns (r: Result<map<string, ColorRow>, ColorError>)
    requires decks != [] && Counted(decks, catalog, withColor, shares, withSplash)
    ensures r.Err? <==> FirstColorFault(decks, last, 0).Some?
    ensures r.Err? ==> r.error == FirstColorFault(decks, last, 0).value
    ensures r.Ok? ==> forall c :: c in r.value <==> c in last && c in ColorNames
    ensures r.Ok? ==> RowsAgree(decks, catalog, r.value)
  {
    var rows: map<string, ColorRow> := map[];
    var k := 0;
    while k < 5
      invariant k <= 5
      invariant FirstColorFault(decks, last, k) == FirstColorFault(decks, last, 0)
      invariant forall c :: c in rows <==> c in last && c in ColorNames[..k]
      invariant RowsAgree(decks, catalog, rows)
    {
      var c := ColorNames[k];
      PrefixGrows(ColorNames, k);
      if c in last {
        var extended := AddColorRow(decks, catalog, withColor, shares, withSplash, rows, c);
        if extended.Err? {
          return Err(extended.error);
        }
        rows := extended.value;
      }
      k := k + 1;
    }
    assert ColorNames[..5] == ColorNames;
    r := Ok(rows);
  }

  /** Every row held is the row of a colour without a fault. */
  ghost predicate RowsAgree(decks: seq<Deck>, catalog: Catalog, rows: map<string, ColorRow>) {
    FirstFault(decks, catalog).None? &&
    forall c :: c in rows ==> ColorFault(decks, c).None? && rows[c] == RowOf(decks, catalog, c)
  }

  /** One step of the row loops: the rows with colour `c`'s row added, or its fault. */
  method AddColorRow(decks: seq<Deck>, catalog: Catalog, withColor: map<string, nat>,
                     shares: map<string, seq<real>>, withSplash: map<string, nat>,
                     rows: map<string, ColorRow>, c: string)
    returns (r: Result<map<string, ColorRow>, ColorError>)
    requires decks != [] && Counted(decks, catalog, withColor, shares, withSplash)
    requires RowsAgree(decks, catalog, rows)
    ensures r.Err? <==> ColorFault(decks, c).Some?
    ensures r.Err? ==> ColorFault(decks, c) == Some(r.error)
    ensures r.Ok? ==> r.value == rows[c := RowOf(decks, catalog, c)] && RowsAgree(decks, catalog, r.value)
  {
    var row := ColorRowAt(decks, catalog, withColor, shares, withSplash, c);
    if row.Err? {
      return Err(row.error);
    }
    r := Ok(rows[c := row.value]);
  }

  /** The keys of a set, in no particular order. */
  method ListKeys(keys: set<string>) returns (ks: seq<string>)
    ensures forall c :: c in ks <==> c in keys
  {
    ks := [];
    var todo := keys;
    while todo != {}
      invariant todo <= keys
      invariant forall c :: c in ks <==> c in keys - todo
      decreases todo
    {
      var c :| c in todo;
      ks := ks + [c];
      todo := todo - {c};
    }
  }

  lemma PrefixGrows(ks: seq<string>, i: nat)
    requires i < |ks|
    ensures forall c :: c in ks[..i + 1] <==> c in ks[..i] || c == ks[i]
  {
    assert ks[..i + 1] == ks[..i] + [ks[i]];
  }

  /** The remaining keys of `last` (none for a deck `get_colors` produced), in
      no particular order: all their rows, or the fault of one of them. */
  method OtherColorRows(decks: seq<Deck>, catalog: Catalog, withColor: map<string, nat>,
                        shares: map<string, seq<real>>, withSplash: map<string, nat>, last: map<string, nat>,
                        rows0: map<string, ColorRow>)
    returns (r: Result<map<string, ColorRow>, ColorError>)
    requires decks != [] && Counted(decks, catalog, withColor, shares, withSplash)
    requires rows0.Keys <= last.Keys
    requires RowsAgree(decks, catalog, rows0)
    ensures r.Err? ==> exists c :: c in last && ColorFault(decks, c) == Some(r.error)
    ensures r.Ok? ==> r.value.Keys == last.Keys && RowsAgree(decks, catalog, r.value)
  {
    var ks := ListKeys(last.Keys - rows0.Keys);
    var rows := rows0;
    for i := 0 to |ks|
      invariant forall c :: c in rows <==> c in rows0 || c in ks[..i]
      invariant RowsAgree(decks, catalog, rows)
    {
      var extended := AddColorRow(decks, catalog, withColor, shares, withSplash, rows, ks[i]);
      if extended.Err? {
        assert ks[i] in ks && ks[i] in last;
        return Err(extended.error);
      }
      rows := extended.value;
      PrefixGrows(ks, i);
    }
    assert ks[..|ks|] == ks;
    r := Ok(rows);
  }

  /** The row of one colour, or the lookup or division that raises. */
  method ColorRowAt(decks: seq<Deck>, catalog: Catalog, withColor: map<string, nat>,
                    shares: map<string, seq<real>>, withSplash: map<string, nat>, c: string)
    returns (r: Result<ColorRow, ColorError>)
    requires decks != [] && Counted(decks, catalog, withColor, shares, withSplash)
    ensures r.Err? <==> ColorFault(decks, c).Some?
    ensures r.Err? ==> ColorFault(decks, c) == Some(r.error)
    ensures r.Ok? ==> r.value == RowOf(decks, catalog, c)
  {
    TallyAt(withColor, x => MainDecks(decks, x), c);
    TallyAt(withSplash, x => SplashDecks(decks, x), c);
    var fault :=
      if c !in withColor then Some(NeverMain(c))
      else if c !in withSplash then Some(NeverSplashed(c))
      else if |decks| - withSplash[c] == 0 then Some(AlwaysSplashed(c))
      else None;
    assert fault == ColorFault(decks, c);
    if fault.Some? {
      return Err(fault.value);
    }
    var splashed := withSplash[c];
    ShareListLength(decks, catalog, c);
    ListAt(shares, x => ShareList(decks, catalog, x), c);
    r := Ok(ColorRow((withColor[c] as real) / (|decks| as real),
                     (splashed as real) / ((|decks| - splashed) as real), Mean(shares[c])));
  }

  /** One key of a counting dictionary. */
  lemma TallyAt(m: map<string, nat>, count: string -> nat, c: string)
    requires Tallies(m, count)
    ensures c in m <==> count(c) > 0
    ensures c in m ==> m[c] == count(c)
  {
  }

  /** One key of a dictionary of lists. */
  lemma ListAt(m: map<string, seq<real>>, list: string -> seq<real>, c: string)
    requires Lists(m, list)
    ensures c in m <==> list(c) != []
    ensures c in m ==> m[c] == list(c)
  {
  }

  // ---------------------------------------------------------------------------
  // What the rows promise

  /** A deck whose colour counts do not exceed its non-land cards (what the
      parser's colour classifier produces). */
  predicate WithinNonlands(d: Deck, catalog: Catalog) {
    AllKnown(d.main, catalog) ==> forall c :: c in d.colors ==> d.colors[c] <= NonlandCount(d.main, catalog)
  }

  /** Each recorded share lies in (0, 1] when the counts are within the
      non-land cards. */
  lemma {:induction false} ShareListBounds(decks: seq<Deck>, catalog: Catalog, c: string)
    requires forall i :: 0 <= i < |decks| ==> WithinNonlands(decks[i], catalog)
    ensures forall k :: 0 <= k < |ShareList(decks, catalog, c)| ==>
      0.0 < ShareList(decks, catalog, c)[k] <= 1.0
  {
    if decks != [] {
      var init := decks[..|decks| - 1];
      var d := decks[|decks| - 1];
      assert forall i :: 0 <= i < |init| ==> init[i] == decks[i];
      ShareListBounds(init, catalog, c);
      var own := ShareOf(d, catalog, c);
      if own != [] {
        DivBounds(d.colors[c] as real, NonlandCount(d.main, catalog) as real, 0.0, 1.0);
      }
    }
  }

  /** A quotient of two positive reals is positive. */
  lemma DivPositive(x: real, y: real)
    requires x > 0.0 && y > 0.0
    ensures x / y > 0.0
  {
  }

  /** The deck share of an exported colour lies in (0, 1]. */
  lemma DeckShareBounds(decks: seq<Deck>, catalog: Catalog, c: string)
    requires FirstFault(decks, catalog).None? && ColorFault(decks, c).None?
    ensures 0.0 < RowOf(decks, catalog, c).deckShare <= 1.0
  {
    var k := MainDecks(decks, c);
    assert RowOf(decks, catalog, c).deckShare == (k as real) / (|decks| as real);
    RatioBounds(k, |decks|);
  }

  /** A ratio of counts `0 < a <= b` lies in (0, 1]. */
  lemma RatioBounds(a: nat, b: nat)
    requires 0 < a <= b
    ensures 0.0 < (a as real) / (b as real) <= 1.0
  {
    var x, y := a as real, b as real;
    assert 0.0 < x <= y;
    DivPositive(x, y);
    assert (x / y) * y == x;
  }

  /** The splash ratio of an exported colour is positive. */
  lemma SplashShareBounds(decks: seq<Deck>, catalog: Catalog, c: string)
    requires FirstFault(decks, catalog).None? && ColorFault(decks, c).None?
    ensures RowOf(decks, catalog, c).splashShare > 0.0
  {
    var n := |decks| as real;
    var s := SplashDecks(decks, c) as real;
    assert RowOf(decks, catalog, c).splashShare == s / (n - s);
    DivPositive(s, n - s);
  }

  /** The average card share of an exported colour lies in [0, 1] when every
      deck's colour counts are within its non-land cards. */
  lemma CardShareBounds(decks: seq<Deck>, catalog: Catalog, c: string)
    requires FirstFault(decks, catalog).None? && ColorFault(decks, c).None?
    requires forall i :: 0 <= i < |decks| ==> WithinNonlands(decks[i], catalog)
    ensures 0.0 <= RowOf(decks, catalog, c).cardShare <= 1.0
  {
    ShareListLength(decks, catalog, c);
    ShareListBounds(decks, catalog, c);
    assert RowOf(decks, catalog, c).cardShare == Mean(ShareList(decks, catalog, c));
    MeanBounds(ShareList(decks, catalog, c), 0.0, 1.0);
  }

  /** When no deck both plays and splashes a colour, the decks playing it and
      the decks splashing it together number at most all decks: a colour some
      deck plays is then never splashed by every deck. */
  lemma {:induction false} ExclusiveHits(decks: seq<Deck>, c: string)
    requires forall i :: 0 <= i < |decks| ==> Hit(decks[i].colors, c) + Hit(decks[i].splash, c) <= 1
    ensures MainDecks(decks, c) + SplashDecks(decks, c) <= |decks|
    ensures MainDecks(decks, c) > 0 ==> SplashDecks(decks, c) < |decks|
  {
    if decks != [] {
      var init := decks[..|decks| - 1];
      assert forall i :: 0 <= i < |init| ==> init[i] == decks[i];
      ExclusiveHits(init, c);
    }
  }

  /** The colour classifier never leaves a colour both in the colour map and in
      the splash map, so parsed decks satisfy `ExclusiveHits`. */
  lemma DemoteExclusive(raw: seq<nat>, n: nat, c: string)
    requires |raw| == 5
    ensures Hit(Demote(raw, n).colors, c) + Hit(Demote(raw, n).splash, c) <= 1
  {
    DemoteKeys(raw, n);
    if c == "White" {
      DemotePartition(raw, n, 0);
    } else if c == "Blue" {
      DemotePartition(raw, n, 1);
    } else if c == "Black" {
      DemotePartition(raw, n, 2);
    } else if c == "Red" {
      DemotePartition(raw, n, 3);
    } else if c == "Green" {
      DemotePartition(raw, n, 4);
    }
  }

  /** A demoted colour map holds no count above a bound of the raw counts. */
  lemma DemoteWithin(raw: seq<nat>, n: nat, bound: nat, c: string)
    requires |raw| == 5 && forall k :: 0 <= k < 5 ==> raw[k] <= bound
    requires c in Demote(raw, n).colors
    ensures Demote(raw, n).colors[c] <= bound
  {
    DemoteKeys(raw, n);
    if c == "White" {
      DemotePartition(raw, n, 0);
    } else if c == "Blue" {
      DemotePartition(raw, n, 1);
    } else if c == "Black" {
      DemotePartition(raw, n, 2);
    } else if c == "Red" {
      DemotePartition(raw, n, 3);
    } else {
      DemotePartition(raw, n, 4);
    }
  }

  /** The colour classifier keeps every colour count within the non-land
      cards, so parsed decks satisfy `WithinNonlands`. */
  lemma ParsedWithinNonlands(main: seq<string>, catalog: Catalog, s: ColorSplit)
    requires SplitColors(main, catalog) == Ok(s)
    ensures forall c :: c in s.colors ==> s.colors[c] <= NonlandCount(main, catalog)
  {
    var raw := RawCounts(main, catalog);
    var n := NonlandCount(main, catalog);
    assert s == Demote(raw, n);
    forall c | c in s.colors
      ensures s.colors[c] <= n
    {
      DemoteWithin(raw, n, n, c);
    }
  }
}
