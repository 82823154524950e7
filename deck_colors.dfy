/** The colour classifier of the deck parser (`get_colors`): colour counts of the
    non-land main-deck cards, with low-share colours demoted to a splash map. */
module DeckColors {
  import opened Common
  import opened Text
  import opened CardTypes

  /** The colour keys in the order `get_colors`'s dicts list them, and the
      colour letter each one looks for in a card's colour string. */
  const ColorNames: seq<string> := ["White", "Blue", "Black", "Red", "Green"]
  const ColorLetters: string := "WUBRG"

  /** The keys the splash map starts with: the first is a lower-case "white". */
  const SplashStartNames: seq<string> := ["white", "Blue", "Black", "Red", "Green"]

  /** A deck's colour map and splash map, both keyed by colour name. */
  datatype ColorSplit = ColorSplit(colors: map<string, nat>, splash: map<string, nat>)

  /** Why a deck file is skipped: a line that does not have the expected shape,
      a main-deck card missing from the catalog (the catalog lookup raises), or
      a main deck without non-land cards (the share computation divides by zero). */
  datatype DeckError = Malformed | UnknownMainCard | NoNonlands

  predicate AllKnown(cards: seq<string>, catalog: Catalog) {
    forall k :: 0 <= k < |cards| ==> cards[k] in catalog
  }

  predicate IsNonland(info: CardInfo) {
    FindCardType(info.typeLine) != Some(Land)
  }

  /** Number of main-deck cards whose type is not Land (an unclassified type
      line counts as non-land). */
  function NonlandCount(cards: seq<string>, catalog: Catalog): nat
    requires AllKnown(cards, catalog)
  {
    if cards == [] then 0
    else
      var last := cards[|cards| - 1];
      NonlandCount(cards[..|cards| - 1], catalog) + (if IsNonland(catalog[last]) then 1 else 0)
  }

  /** Number of non-land cards whose colour string contains `letter`; a card
      adds exactly one to every colour it carries, so no colour count exceeds
      the number of non-land cards. */
  function ColorCount(cards: seq<string>, catalog: Catalog, letter: char): (n: nat)
    requires AllKnown(cards, catalog)
    ensures n <= NonlandCount(cards, catalog)
  {
    if cards == [] then 0
    else
      var info := catalog[cards[|cards| - 1]];
      ColorCount(cards[..|cards| - 1], catalog, letter)
        + (if IsNonland(info) && letter in info.color then 1 else 0)
  }

  /** The six colour keys the two maps use are pairwise different strings. */
  lemma ColorKeysDistinct()
    ensures "White" != "Blue" && "White" != "Black" && "White" != "Red" && "White" != "Green"
    ensures "Blue" != "Black" && "Blue" != "Red" && "Blue" != "Green"
    ensures "Black" != "Red" && "Black" != "Green" && "Red" != "Green"
    ensures "white" != "White" && "white" != "Blue" && "white" != "Black"
    ensures "white" != "Red" && "white" != "Green"
  {
    assert "White"[0] != "Blue"[0] && "White"[0] != "Black"[0];
    assert |"White"| != |"Red"| && "White"[0] != "Green"[0];
    assert "Blue"[2] != "Black"[2] && |"Blue"| != |"Red"| && |"Blue"| != |"Green"|;
    assert |"Black"| != |"Red"| && "Black"[0] != "Green"[0] && |"Red"| != |"Green"|;
    assert "white"[0] != "White"[0] && "white"[0] != "Blue"[0] && "white"[0] != "Black"[0];
    assert |"white"| != |"Red"| && "white"[0] != "Green"[0];
  }

  /** Adding one card to the counted prefix adds one to each colour it carries,
      provided it is not a land. */
  lemma ColorCountStep(cards: seq<string>, card: string, catalog: Catalog, letter: char)
    requires AllKnown(cards, catalog) && card in catalog
    ensures AllKnown(cards + [card], catalog)
    ensures ColorCount(cards + [card], catalog, letter) == ColorCount(cards, catalog, letter)
      + (if IsNonland(catalog[card]) && letter in catalog[card].color then 1 else 0)
  {
    assert (cards + [card])[..|cards|] == cards;
  }

  /** The test `get_colors` applies to each colour: the colour occurs and its
      share of the non-land cards is below 0.15. */
  predicate ShareBelow(count: nat, nonlands: nat)
    requires nonlands > 0
  {
    (count as real) / (nonlands as real) < 0.15 && count != 0
  }

  /** The same test in integers (`SplashThreshold` shows they agree). */
  predicate Splashed(count: nat, nonlands: nat) {
    count != 0 && 20 * count < 3 * nonlands
  }

  /** Multiplying both sides by a positive number keeps a strict inequality. */
  lemma MulLess(a: real, b: real, n: real)
    requires n > 0.0
    ensures a < b <==> a * n < b * n
  {
    if a < b { assert (b - a) * n > 0.0; }
    if a * n < b * n { assert (b - a) * n > 0.0; }
  }

  /** The 0.15 threshold in integers: a share below 0.15 is 20 * count < 3 * nonlands. */
  lemma SplashThreshold(count: nat, nonlands: nat)
    requires nonlands > 0
    ensures ShareBelow(count, nonlands) <==> Splashed(count, nonlands)
  {
    var c, n := count as real, nonlands as real;
    var q := c / n;
    assert q * n == c;
    MulLess(q, 0.15, n);
    assert q < 0.15 <==> c < 0.15 * n;
    MulLess(c, 0.15 * n, 20.0);
    assert c < 0.15 * n <==> 20.0 * c < 3.0 * n;
    assert 20.0 * c == (20 * count) as real && 3.0 * n == (3 * nonlands) as real;
  }

  /** What stays in the colour map and what moves to the splash map. */
  function Kept(count: nat, nonlands: nat): nat {
    if Splashed(count, nonlands) then 0 else count
  }

  function Moved(count: nat, nonlands: nat): nat {
    if Splashed(count, nonlands) then count else 0
  }

  /** The raw (pre-demotion) count of each colour, in `ColorNames` order. */
  function RawCounts(cards: seq<string>, catalog: Catalog): (raw: seq<nat>)
    requires AllKnown(cards, catalog)
    ensures |raw| == 5
  {
    [ColorCount(cards, catalog, 'W'), ColorCount(cards, catalog, 'U'), ColorCount(cards, catalog, 'B'),
     ColorCount(cards, catalog, 'R'), ColorCount(cards, catalog, 'G')]
  }

  /** `get_colors`: count the colours of the non-land main-deck cards, then move
      every colour whose share is below 0.15 from the colour map to the splash
      map. The splash map starts with the key "white", so a splashed White is
      added under a new key "White" beside it. */
  function SplitColors(main: seq<string>, catalog: Catalog): Result<ColorSplit, DeckError> {
    if !AllKnown(main, catalog) then Err(UnknownMainCard)
    else
      var n := NonlandCount(main, catalog);
      if n == 0 then Err(NoNonlands)
      else Ok(Demote(RawCounts(main, catalog), n))
  }

  /** The demotion pass on raw colour counts (in `ColorNames` order) for a deck
      with `n` non-land cards. */
  function Demote(raw: seq<nat>, n: nat): ColorSplit
    requires |raw| == 5
  {
    ColorSplit(KeptMap(raw, n), MovedMap(raw, n))
  }

  /** The colour map after demotion: a splashed colour is set to 0. */
  function KeptMap(raw: seq<nat>, n: nat): map<string, nat>
    requires |raw| == 5
  {
    map["White" := Kept(raw[0], n), "Blue" := Kept(raw[1], n), "Black" := Kept(raw[2], n),
        "Red" := Kept(raw[3], n), "Green" := Kept(raw[4], n)]
  }

  /** The splash map after demotion: the starting keys with each splashed
      colour's count, and a new key "White" when White is splashed. */
  function MovedMap(raw: seq<nat>, n: nat): map<string, nat>
    requires |raw| == 5
  {
    var m := map["white" := 0, "Blue" := Moved(raw[1], n), "Black" := Moved(raw[2], n),
                 "Red" := Moved(raw[3], n), "Green" := Moved(raw[4], n)];
    if Splashed(raw[0], n) then m["White" := raw[0]] else m
  }

  /** A colour's count in a splash map, reading a missing key as 0. */
  function SplashOf(splash: map<string, nat>, name: string): nat {
    if name in splash then splash[name] else 0
  }

  /** The classifier fails exactly on an unknown main-deck card or a main deck
      without non-land cards. */
  lemma SplitColorsFails(main: seq<string>, catalog: Catalog)
    ensures SplitColors(main, catalog).Err? <==>
      !AllKnown(main, catalog) || NonlandCount(main, catalog) == 0
    ensures SplitColors(main, catalog) == Err(UnknownMainCard) <==> !AllKnown(main, catalog)
  {
  }

  /** Each colour's count sits in exactly one of the two maps, the other holding
      0; what stays has a share of at least 0.15, what moves a share below it. */
  lemma DemotePartition(raw: seq<nat>, n: nat, k: nat)
    requires |raw| == 5 && k < 5
    ensures
      var s := Demote(raw, n);
      var name := ColorNames[k];
      && name in s.colors
      && s.colors[name] + SplashOf(s.splash, name) == raw[k]
      && (s.colors[name] == 0 || SplashOf(s.splash, name) == 0)
      && (s.colors[name] != 0 ==> 20 * s.colors[name] >= 3 * n)
      && (SplashOf(s.splash, name) != 0 ==> 20 * SplashOf(s.splash, name) < 3 * n)
  {
    var s := Demote(raw, n);
    if k == 0 {
      assert ColorNames[k] == "White";
    } else if k == 1 {
      assert ColorNames[k] == "Blue";
    } else if k == 2 {
      assert ColorNames[k] == "Black";
    } else if k == 3 {
      assert ColorNames[k] == "Red";
    } else {
      assert ColorNames[k] == "Green";
    }
  }

  /** The key sets: the colour map has the five colour names; the splash map has
      "white" (always 0) and the four other names, plus "White" exactly when
      White was splashed. */
  lemma DemoteKeys(raw: seq<nat>, n: nat)
    requires |raw| == 5
    ensures Demote(raw, n).colors.Keys == {"White", "Blue", "Black", "Red", "Green"}
    ensures Demote(raw, n).splash.Keys
      == {"white", "Blue", "Black", "Red", "Green"} + (if Splashed(raw[0], n) then {"White"} else {})
    ensures Demote(raw, n).splash["white"] == 0
  {
  }

  /** The body of the counting pass for one non-land card: one more for every
      colour letter in its colour string. */
  method AddCardColors(colors: map<string, nat>, cardColor: string) returns (c: map<string, nat>)
    requires colors.Keys == {"White", "Blue", "Black", "Red", "Green"}
    ensures c.Keys == {"White", "Blue", "Black", "Red", "Green"}
    ensures c["White"] == colors["White"] + (if 'W' in cardColor then 1 else 0)
    ensures c["Blue"] == colors["Blue"] + (if 'U' in cardColor then 1 else 0)
    ensures c["Black"] == colors["Black"] + (if 'B' in cardColor then 1 else 0)
    ensures c["Red"] == colors["Red"] + (if 'R' in cardColor then 1 else 0)
    ensures c["Green"] == colors["Green"] + (if 'G' in cardColor then 1 else 0)
  {
    ColorKeysDistinct();
    c := colors;
    if 'W' in cardColor { c := c["White" := c["White"] + 1]; }
    if 'U' in cardColor { c := c["Blue" := c["Blue"] + 1]; }
    if 'B' in cardColor { c := c["Black" := c["Black"] + 1]; }
    if 'R' in cardColor { c := c["Red" := c["Red"] + 1]; }
    if 'G' in cardColor { c := c["Green" := c["Green"] + 1]; }
  }

  /** The colour counts held in a colour map, in `ColorNames` order. */
  function CountsOf(colors: map<string, nat>): (raw: seq<nat>)
    requires colors.Keys == {"White", "Blue", "Black", "Red", "Green"}
    ensures |raw| == 5
  {
    [colors["White"], colors["Blue"], colors["Black"], colors["Red"], colors["Green"]]
  }

  /** The counting pass of `get_colors`: fails on the first card missing from
      the catalog, otherwise maps each colour name to its `ColorCount`. */
  method CountColors(main: seq<string>, catalog: Catalog) returns (r: Result<map<string, nat>, DeckError>)
    ensures r.Err? <==> !AllKnown(main, catalog)
    ensures r.Err? ==> r.error == UnknownMainCard
    ensures r.Ok? ==> r.value.Keys == {"White", "Blue", "Black", "Red", "Green"}
    ensures r.Ok? ==> CountsOf(r.value) == RawCounts(main, catalog)
  {
    var colors := map["White" := 0, "Blue" := 0, "Black" := 0, "Red" := 0, "Green" := 0];
    var i := 0;
    while i < |main|
      invariant 0 <= i <= |main|
      invariant AllKnown(main[..i], catalog)
      invariant colors.Keys == {"White", "Blue", "Black", "Red", "Green"}
      invariant colors["White"] == ColorCount(main[..i], catalog, 'W')
      invariant colors["Blue"] == ColorCount(main[..i], catalog, 'U')
      invariant colors["Black"] == ColorCount(main[..i], catalog, 'B')
      invariant colors["Red"] == ColorCount(main[..i], catalog, 'R')
      invariant colors["Green"] == ColorCount(main[..i], catalog, 'G')
    {
      var card := main[i];
      if card !in catalog {
        assert !AllKnown(main, catalog) by { assert main[i] !in catalog; }
        return Err(UnknownMainCard);
      }
      assert main[..i + 1] == main[..i] + [card];
      ColorCountStep(main[..i], card, catalog, 'W');
      ColorCountStep(main[..i], card, catalog, 'U');
      ColorCountStep(main[..i], card, catalog, 'B');
      ColorCountStep(main[..i], card, catalog, 'R');
      ColorCountStep(main[..i], card, catalog, 'G');
      if FindCardType(catalog[card].typeLine) != Some(Land) {
        colors := AddCardColors(colors, catalog[card].color);
      }
      i := i + 1;
    }
    assert main[..i] == main;
    r := Ok(colors);
  }

  /** The state of the demotion pass after the first `k` colour keys: those
      are demoted, the others still hold their raw count and an empty splash entry. */
  ghost predicate DemotedUpTo(raw: seq<nat>, n: nat, k: nat, colors: map<string, nat>, splash: map<string, nat>)
    requires |raw| == 5 && k <= 5
  {
    && colors.Keys == {"White", "Blue", "Black", "Red", "Green"}
    && (forall j :: 0 <= j < 5 ==> colors[ColorNames[j]] == if j < k then Kept(raw[j], n) else raw[j])
    && splash.Keys == {"white", "Blue", "Black", "Red", "Green"}
                      + (if k > 0 && Splashed(raw[0], n) then {"White"} else {})
    && splash["white"] == 0
    && (forall j :: 1 <= j < 5 ==> splash[ColorNames[j]] == if j < k then Moved(raw[j], n) else 0)
    && (k > 0 && Splashed(raw[0], n) ==> splash["White"] == raw[0])
  }

  /** Demoting the next colour key extends the demoted prefix by one. */
  lemma DemoteStep(raw: seq<nat>, n: nat, k: nat, colors: map<string, nat>, splash: map<string, nat>)
    requires |raw| == 5 && k < 5
    requires DemotedUpTo(raw, n, k, colors, splash)
    ensures var name := ColorNames[k];
      && colors[name] == raw[k]
      && (Splashed(raw[k], n) ==> DemotedUpTo(raw, n, k + 1, colors[name := 0], splash[name := raw[k]]))
      && (!Splashed(raw[k], n) ==> DemotedUpTo(raw, n, k + 1, colors, splash))
  {
    ColorKeysDistinct();
    assert ColorNames[0] == "White" && ColorNames[1] == "Blue" && ColorNames[2] == "Black";
    assert ColorNames[3] == "Red" && ColorNames[4] == "Green";
  }

  /** Once every key is demoted, the two maps are `Demote`'s maps. */
  lemma DemotedMaps(raw: seq<nat>, n: nat, colors: map<string, nat>, splash: map<string, nat>)
    requires |raw| == 5
    requires DemotedUpTo(raw, n, 5, colors, splash)
    ensures ColorSplit(colors, splash) == Demote(raw, n)
  {
    var d := Demote(raw, n);
    DemoteKeys(raw, n);
    ColorKeysDistinct();
    assert ColorNames[0] == "White" && ColorNames[1] == "Blue" && ColorNames[2] == "Black";
    assert ColorNames[3] == "Red" && ColorNames[4] == "Green";
    assert colors == d.colors;
    assert splash == d.splash;
  }

  /** The demotion pass of `get_colors`: each colour key in turn, in place. */
  method DemoteColors(colors0: map<string, nat>, n: nat) returns (s: ColorSplit)
    requires colors0.Keys == {"White", "Blue", "Black", "Red", "Green"} && n > 0
    ensures s == Demote(CountsOf(colors0), n)
  {
    var colors := colors0;
    var splash := map["white" := 0, "Blue" := 0, "Black" := 0, "Red" := 0, "Green" := 0];
    ghost var raw := CountsOf(colors0);
    assert ColorNames[0] == "White" && ColorNames[1] == "Blue" && ColorNames[2] == "Black";
    assert ColorNames[3] == "Red" && ColorNames[4] == "Green";
    var k := 0;
    while k < 5
      invariant 0 <= k <= 5
      invariant DemotedUpTo(raw, n, k, colors, splash)
    {
      var name := ColorNames[k];
      DemoteStep(raw, n, k, colors, splash);
      SplashThreshold(colors[name], n);
      if (colors[name] as real) / (n as real) < 0.15 && colors[name] != 0 {
        splash := splash[name := colors[name]];
        colors := colors[name := 0];
      }
      k := k + 1;
    }
    DemotedMaps(raw, n, colors, splash);
    s := ColorSplit(colors, splash);
  }

  /** `get_colors` as the program runs it: the counting pass, the count of
      non-land cards (dividing by it raises when it is zero), then the demotion pass. */
  method GetColors(main: seq<string>, catalog: Catalog) returns (r: Result<ColorSplit, DeckError>)
    ensures r == SplitColors(main, catalog)
  {
    var counted := CountColors(main, catalog);
    if counted.Err? {
      return Err(counted.error);
    }
    var n := NonlandCount(main, catalog);
    if n == 0 {
      return Err(NoNonlands);
    }
    var split := DemoteColors(counted.value, n);
    r := Ok(split);
  }
}
