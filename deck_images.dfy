/** The layout of a deck image (`create_deck_image`): the main deck's cards
    sorted into a land column and mana-value columns 0 to 7, empty columns
    dropped, and the canvas and paste positions computed from the column
    sizes; plus the file name a card image is cached under
    (`sanitize_filename`). Fetching, resizing and pasting images is not
    modelled: whether a card's image can be had is a parameter. */
module DeckImages {
  import opened Common
  import opened Text
  import opened CardTypes

  // ---------------------------------------------------------------------------
  // File names

  /** `s.split('//')[0]`: the text before the first `//`, or all of `s`. */
  function BeforeSlashes(s: string): (t: string)
    ensures |t| <= |s| && t == s[..|t|]
  {
    if |s| >= 2 && s[0] == '/' && s[1] == '/' then ""
    else if s == [] then ""
    else [s[0]] + BeforeSlashes(s[1..])
  }

  /** `s.replace(a, b)` for single characters. */
  function ReplaceChar(s: string, a: char, b: char): (t: string)
    ensures |t| == |s|
  {
    if s == [] then "" else ReplaceChar(s[..|s| - 1], a, b) + [if s[|s| - 1] == a then b else s[|s| - 1]]
  }

  /** `s.replace(a, "")` for a single character. */
  function RemoveChar(s: string, a: char): (t: string)
    ensures |t| <= |s|
  {
    if s == [] then "" else RemoveChar(s[..|s| - 1], a) + (if s[|s| - 1] == a then "" else [s[|s| - 1]])
  }

  /** The four replacements of `sanitize_filename`, in the order it makes them. */
  function Replacements(s: string): string {
    RemoveChar(RemoveChar(RemoveChar(ReplaceChar(s, ' ', '_'), '\''), ','), '/')
  }

  /** `sanitize_filename`: the name before any `//`, stripped, spaces turned
      into underscores, apostrophes, commas and slashes removed, then `.png`. */
  function SanitizeFilename(name: string): string {
    Replacements(Strip(BeforeSlashes(name))) + ".png"
  }

  /** The characters a file name stem may not hold. */
  predicate Unsafe(c: char) {
    c == ' ' || c == '\'' || c == ',' || c == '/'
  }

  /** A one-pass reading of the four replacements: each character on its own. */
  function CleanChars(s: string): (t: string)
    ensures forall k :: 0 <= k < |t| ==> !Unsafe(t[k])
  {
    if s == [] then ""
    else
      var c := s[|s| - 1];
      CleanChars(s[..|s| - 1]) + (if c == ' ' then "_" else if Unsafe(c) then "" else [c])
  }

  /** The four passes of `sanitize_filename` do what one pass over the
      characters does. */
  lemma {:induction false} ReplacementsAreCleanChars(s: string)
    ensures Replacements(s) == CleanChars(s)
  {
    if s != [] {
      var init, c := s[..|s| - 1], s[|s| - 1];
      ReplacementsAreCleanChars(init);
      assert s == init + [c];
      ReplacementsAppend(init, [c]);
      ReplacementsOne(c);
    }
  }

  /** The replacements on a single character. */
  lemma ReplacementsOne(c: char)
    ensures Replacements([c]) == if c == ' ' then "_" else if Unsafe(c) then "" else [c]
  {
    var r := ReplaceChar([c], ' ', '_');
    assert r == ReplaceChar([], ' ', '_') + [if c == ' ' then '_' else c];
    var r1 := RemoveChar(r, '\'');
    assert r1 == RemoveChar(r[..0], '\'') + (if r[0] == '\'' then "" else [r[0]]);
    if r1 != [] {
      var r2 := RemoveChar(r1, ',');
      assert r2 == RemoveChar(r1[..0], ',') + (if r1[0] == ',' then "" else [r1[0]]);
      if r2 != [] {
        assert RemoveChar(r2, '/') == RemoveChar(r2[..0], '/') + (if r2[0] == '/' then "" else [r2[0]]);
      }
    }
  }

  /** The replacements distribute over concatenation. */
  lemma ReplacementsAppend(a: string, b: string)
    ensures Replacements(a + b) == Replacements(a) + Replacements(b)
  {
    ReplaceAppend(a, b, ' ', '_');
    var r := ReplaceChar(a, ' ', '_');
    var q := ReplaceChar(b, ' ', '_');
    RemoveAppend(r, q, '\'');
    RemoveAppend(RemoveChar(r, '\''), RemoveChar(q, '\''), ',');
    RemoveAppend(RemoveChar(RemoveChar(r, '\''), ','), RemoveChar(RemoveChar(q, '\''), ','), '/');
  }

  /** Replacing a character distributes over concatenation. */
  lemma {:induction false} ReplaceAppend(a: string, b: string, x: char, y: char)
    ensures ReplaceChar(a + b, x, y) == ReplaceChar(a, x, y) + ReplaceChar(b, x, y)
    decreases |b|
  {
    if b == [] {
      assert a + b == a;
    } else {
      assert (a + b)[..|a + b| - 1] == a + b[..|b| - 1];
      ReplaceAppend(a, b[..|b| - 1], x, y);
    }
  }

  /** Removing a character distributes over concatenation. */
  lemma {:induction false} RemoveAppend(a: string, b: string, x: char)
    ensures RemoveChar(a + b, x) == RemoveChar(a, x) + RemoveChar(b, x)
    decreases |b|
  {
    if b == [] {
      assert a + b == a;
    } else {
      assert (a + b)[..|a + b| - 1] == a + b[..|b| - 1];
      RemoveAppend(a, b[..|b| - 1], x);
    }
  }

  /** The cached file name always ends in `.png`; its stem comes from the text
      before the first `//`, stripped, holds no space, apostrophe, comma or
      slash, and is no longer than that text. */
  lemma SanitizeFilenameSpec(name: string)
    ensures var f := SanitizeFilename(name);
      var stem := f[..|f| - 4];
      && |f| >= 4 && f[|f| - 4..] == ".png"
      && stem == CleanChars(Strip(BeforeSlashes(name)))
      && (forall k :: 0 <= k < |stem| ==> !Unsafe(stem[k]))
      && |stem| <= |Strip(BeforeSlashes(name))|
  {
    var stripped := Strip(BeforeSlashes(name));
    ReplacementsAreCleanChars(stripped);
    CleanCharsLength(stripped);
  }

  lemma {:induction false} CleanCharsLength(s: string)
    ensures |CleanChars(s)| <= |s|
  {
    if s != [] {
      CleanCharsLength(s[..|s| - 1]);
    }
  }

  /** `BeforeSlashes` stops at the first `//` and holds none itself. */
  lemma {:induction false} BeforeSlashesSpec(s: string)
    ensures var t := BeforeSlashes(s);
      && (forall k :: 0 <= k < |t| - 1 ==> !(t[k] == '/' && t[k + 1] == '/'))
      && (t == s || (|t| + 2 <= |s| && s[|t|] == '/' && s[|t| + 1] == '/'))
  {
    if s != [] && !(|s| >= 2 && s[0] == '/' && s[1] == '/') {
      BeforeSlashesSpec(s[1..]);
      var t := BeforeSlashes(s);
      var u := BeforeSlashes(s[1..]);
      assert t == [s[0]] + u;
      if |u| > 0 {
        assert !(s[0] == '/' && u[0] == '/');
      }
    }
  }

  // ---------------------------------------------------------------------------
  // Sorting the cards into slots

  /** The slots in column order: 0 is `'land'`, `k + 1` is mana value `k`. */
  const SlotCount: nat := 9

  /** Python's `int()` on a float: truncation towards zero. */
  function Truncate(r: real): int {
    if r >= 0.0 then r.Floor else -((-r).Floor)
  }

  /** The slot of a card the catalog knows: lands go to `'land'`; any other card
      to its truncated mana value, capped at 7. A negative key is not in the
      dictionary (None: the lookup raises). */
  function SlotOf(info: CardInfo): (s: Option<nat>)
    ensures s.Some? ==> s.value < SlotCount
  {
    if FindCardType(info.typeLine) == Some(Land) then Some(0)
    else
      var mv := Truncate(info.manaValue);
      if mv < 0 then None else Some(if mv <= 6 then mv + 1 else 8)
  }

  /** The slots follow the card type and the mana value: land exactly for
      land-typed cards, else one past the mana value's integer part, capped. */
  lemma SlotSpec(info: CardInfo)
    ensures SlotOf(info) == Some(0) <==> FindCardType(info.typeLine) == Some(Land)
    ensures FindCardType(info.typeLine) != Some(Land) && info.manaValue >= 0.0 ==>
      SlotOf(info).Some? &&
      var k := SlotOf(info).value - 1;
      (k < 7 ==> k as real <= info.manaValue < k as real + 1.0) && (k == 7 ==> info.manaValue >= 7.0)
    ensures info.manaValue <= -1.0 && FindCardType(info.typeLine) != Some(Land) ==> SlotOf(info).None?
  {
    if info.manaValue <= -1.0 {
      assert (-info.manaValue).Floor >= 1;
    }
  }

  /** The slot of each card name: none for a card the catalog does not know. */
  function SlotIn(catalog: Catalog): string -> Option<nat> {
    c => if c in catalog then SlotOf(catalog[c]) else None
  }

  /** The cards of `deck` whose slot is `k`, in deck order. */
  function Placed(deck: seq<string>, slot: string -> Option<nat>, k: nat): (b: seq<string>)
    ensures |b| <= |deck|
  {
    if deck == [] then []
    else
      var c := deck[|deck| - 1];
      Placed(deck[..|deck| - 1], slot, k) + (if slot(c) == Some(k) then [c] else [])
  }

  /** The cards of `deck` the catalog knows that go to slot `k`, in deck order. */
  function Bucket(deck: seq<string>, catalog: Catalog, k: nat): seq<string> {
    Placed(deck, SlotIn(catalog), k)
  }

  /** The first known card whose mana value has no slot, if any. */
  function FirstUnplaced(deck: seq<string>, catalog: Catalog): Option<string> {
    if deck == [] then None
    else
      var e := FirstUnplaced(deck[..|deck| - 1], catalog);
      var c := deck[|deck| - 1];
      if e.Some? then e else if c in catalog && SlotOf(catalog[c]).None? then Some(c) else None
  }

  datatype ImageError =
    | NegativeManaValue(card: string)  // the mana-value key is not in the dictionary
    | NoImages                         // no column at all: the tallest column of none raises

  /** The bucketing loop: each known card appended to its slot's list. */
  method CategorizeCards(deck: seq<string>, catalog: Catalog) returns (r: Result<seq<seq<string>>, ImageError>)
    ensures r.Err? <==> FirstUnplaced(deck, catalog).Some?
    ensures r.Err? ==> r.error == NegativeManaValue(FirstUnplaced(deck, catalog).value)
    ensures r.Ok? ==> |r.value| == SlotCount && forall k :: 0 <= k < SlotCount ==> r.value[k] == Bucket(deck, catalog, k)
  {
    var buckets: seq<seq<string>> := [[], [], [], [], [], [], [], [], []];
    var i := 0;
    while i < |deck|
      invariant 0 <= i <= |deck| && FirstUnplaced(deck[..i], catalog).None?
      invariant |buckets| == SlotCount && forall k :: 0 <= k < SlotCount ==> buckets[k] == Bucket(deck[..i], catalog, k)
    {
      assert deck[..i + 1][..i] == deck[..i];
      var c := deck[i];
      assert SlotIn(catalog)(c) == if c in catalog then SlotOf(catalog[c]) else None;
      if c in catalog {
        var slot := SlotOf(catalog[c]);
        if slot.None? {
          UnplacedPrefix(deck, catalog, i + 1);
          return Err(NegativeManaValue(c));
        }
        buckets := buckets[slot.value := buckets[slot.value] + [c]];
      }
      i := i + 1;
    }
    assert deck[..i] == deck;
    r := Ok(buckets);
  }

  /** A card without a slot in a prefix is the first one of the whole deck. */
  lemma {:induction false} UnplacedPrefix(deck: seq<string>, catalog: Catalog, i: nat)
    requires i <= |deck| && FirstUnplaced(deck[..i], catalog).Some?
    ensures FirstUnplaced(deck, catalog) == FirstUnplaced(deck[..i], catalog)
    decreases |deck| - i
  {
    if i < |deck| {
      assert deck[..i + 1][..i] == deck[..i];
      UnplacedPrefix(deck, catalog, i + 1);
    } else {
      assert deck[..i] == deck;
    }
  }

  /** A card is placed in slot `k` exactly when it is a card of the deck whose slot is `k`. */
  lemma {:induction false} PlacedMembers(deck: seq<string>, slot: string -> Option<nat>, k: nat)
    ensures forall c :: c in Placed(deck, slot, k) <==> c in deck && slot(c) == Some(k)
  {
    if deck != [] {
      var init := deck[..|deck| - 1];
      PlacedMembers(init, slot, k);
      assert deck == init + [deck[|deck| - 1]];
    }
  }

  /** A card is in bucket `k` exactly when it is a card of the deck the catalog
      knows whose slot is `k`. */
  lemma BucketMembers(deck: seq<string>, catalog: Catalog, k: nat)
    ensures forall c :: c in Bucket(deck, catalog, k) <==> c in deck && c in catalog && SlotOf(catalog[c]) == Some(k)
  {
    PlacedMembers(deck, SlotIn(catalog), k);
  }

  /** The cards of the deck that have a slot. */
  function PlacedCount(deck: seq<string>, slot: string -> Option<nat>): nat {
    if deck == [] then 0 else PlacedCount(deck[..|deck| - 1], slot) + (if slot(deck[|deck| - 1]).Some? then 1 else 0)
  }

  /** The sizes of the slots below `k`. */
  function PlacedBelow(deck: seq<string>, slot: string -> Option<nat>, k: nat): nat {
    if k == 0 then 0 else PlacedBelow(deck, slot, k - 1) + |Placed(deck, slot, k - 1)|
  }

  lemma {:induction false} PlacedBelowSnoc(deck: seq<string>, slot: string -> Option<nat>, k: nat)
    requires deck != []
    ensures var c := deck[|deck| - 1];
      PlacedBelow(deck, slot, k) == PlacedBelow(deck[..|deck| - 1], slot, k)
        + (if slot(c).Some? && slot(c).value < k then 1 else 0)
  {
    if k > 0 {
      PlacedBelowSnoc(deck, slot, k - 1);
    }
  }

  lemma {:induction false} PlacedBelowEmpty(slot: string -> Option<nat>, k: nat)
    ensures PlacedBelow([], slot, k) == 0
  {
    if k > 0 {
      PlacedBelowEmpty(slot, k - 1);
    }
  }

  /** Every card with a slot lands in exactly one: the slots together hold as
      many cards as have a slot. */
  lemma {:induction false} PlacedPartition(deck: seq<string>, slot: string -> Option<nat>)
    requires forall c :: slot(c).Some? ==> slot(c).value < SlotCount
    ensures PlacedBelow(deck, slot, SlotCount) == PlacedCount(deck, slot)
  {
    if deck == [] {
      PlacedBelowEmpty(slot, SlotCount);
    } else {
      PlacedPartition(deck[..|deck| - 1], slot);
      PlacedBelowSnoc(deck, slot, SlotCount);
    }
  }

  /** The cards of the deck the catalog knows. */
  function Known(deck: seq<string>, catalog: Catalog): nat {
    if deck == [] then 0 else Known(deck[..|deck| - 1], catalog) + (if deck[|deck| - 1] in catalog then 1 else 0)
  }

  /** When no known card fails, the known cards are the ones with a slot. */
  lemma {:induction false} KnownArePlaced(deck: seq<string>, catalog: Catalog)
    requires FirstUnplaced(deck, catalog).None?
    ensures PlacedCount(deck, SlotIn(catalog)) == Known(deck, catalog)
  {
    if deck != [] {
      KnownArePlaced(deck[..|deck| - 1], catalog);
    }
  }

  /** When the bucketing succeeds, each known card lands in exactly one bucket:
      the nine buckets together hold as many cards as the deck has known cards. */
  lemma BucketsPartition(deck: seq<string>, catalog: Catalog)
    requires FirstUnplaced(deck, catalog).None?
    ensures PlacedBelow(deck, SlotIn(catalog), SlotCount) == Known(deck, catalog)
  {
    PlacedPartition(deck, SlotIn(catalog));
    KnownArePlaced(deck, catalog);
  }

  // ---------------------------------------------------------------------------
  // Columns

  /** The cards of a slot whose image can be had (`fetch` stands for
      `fetch_card_image` returning an image). */
  function Fetched(names: seq<string>, fetch: string -> bool): (f: seq<string>)
    ensures |f| <= |names|
  {
    if names == [] then []
    else Fetched(names[..|names| - 1], fetch) + (if fetch(names[|names| - 1]) then [names[|names| - 1]] else [])
  }

  /** The columns of the image: the fetched cards of each slot in slot order,
      empty ones left out. */
  function Columns(buckets: seq<seq<string>>, fetch: string -> bool): (cols: seq<seq<string>>)
    ensures |cols| <= |buckets|
  {
    if buckets == [] then []
    else
      var images := Fetched(buckets[|buckets| - 1], fetch);
      Columns(buckets[..|buckets| - 1], fetch) + (if images != [] then [images] else [])
  }

  /** The column loop of `create_deck_image`. */
  method BuildColumns(buckets: seq<seq<string>>, fetch: string -> bool) returns (columns: seq<seq<string>>)
    ensures columns == Columns(buckets, fetch)
  {
    columns := [];
    var k := 0;
    while k < |buckets|
      invariant 0 <= k <= |buckets| && columns == Columns(buckets[..k], fetch)
    {
      assert buckets[..k + 1][..k] == buckets[..k];
      var images := Fetched(buckets[k], fetch);
      if images != [] {
        columns := columns + [images];
      }
      k := k + 1;
    }
    assert buckets[..k] == buckets;
  }

  /** The lists of a sequence of lists, one after the other. */
  function Flatten(xss: seq<seq<string>>): seq<string> {
    if xss == [] then [] else Flatten(xss[..|xss| - 1]) + xss[|xss| - 1]
  }

  /** Every column holds a card; read one after the other, the columns are the
      fetched cards of the slots in slot order, none lost and none added. */
  lemma {:induction false} ColumnsSpec(buckets: seq<seq<string>>, fetch: string -> bool)
    ensures forall j :: 0 <= j < |Columns(buckets, fetch)| ==> Columns(buckets, fetch)[j] != []
    ensures Flatten(Columns(buckets, fetch)) == Flatten(seq(|buckets|, k requires 0 <= k < |buckets| => Fetched(buckets[k], fetch)))
  {
    if buckets != [] {
      var init := buckets[..|buckets| - 1];
      ColumnsSpec(init, fetch);
      var all := seq(|buckets|, k requires 0 <= k < |buckets| => Fetched(buckets[k], fetch));
      var prev := seq(|init|, k requires 0 <= k < |init| => Fetched(init[k], fetch));
      assert all[..|all| - 1] == prev;
      var images := Fetched(buckets[|buckets| - 1], fetch);
      assert Flatten(all) == Flatten(prev) + images;
      var cols := Columns(buckets, fetch);
      if images == [] {
        assert cols == Columns(init, fetch);
      } else {
        assert cols == Columns(init, fetch) + [images];
        assert cols[..|cols| - 1] == Columns(init, fetch);
      }
    }
  }

  // ---------------------------------------------------------------------------
  // Canvas

  const CardWidth: nat := 488        // the width of a resized card image
  const CardHeight: nat := 680       // the height of a resized card image
  const LayoutHeight: nat := 580     // the card height the canvas formula uses
  const VerticalPadding: nat := 90   // the visible strip of each card in a column
  const HorizontalPadding: nat := 20 // the gap between columns
  const OuterPadding: nat := 40      // the margin round the canvas

  /** `max(len(col) for col in columns)`. */
  function TallestColumn(columns: seq<seq<string>>): (m: nat)
    requires columns != []
    ensures forall j :: 0 <= j < |columns| ==> |columns[j]| <= m
    ensures exists j :: 0 <= j < |columns| && |columns[j]| == m
  {
    if |columns| == 1 then |columns[0]|
    else
      var m := TallestColumn(columns[..|columns| - 1]);
      assert forall j :: 0 <= j < |columns| - 1 ==> columns[..|columns| - 1][j] == columns[j];
      if |columns[|columns| - 1]| > m then |columns[|columns| - 1]| else m
  }

  datatype Canvas = Canvas(width: nat, height: nat)

  /** The canvas of `create_deck_image`; without a column the maximum raises. */
  function CanvasOf(columns: seq<seq<string>>): Result<Canvas, ImageError> {
    if columns == [] then Err(NoImages)
    else
      var n := |columns|;
      Ok(Canvas(n * CardWidth + (n - 1) * HorizontalPadding + 2 * OuterPadding,
                TallestColumn(columns) * VerticalPadding + 2 * OuterPadding + LayoutHeight))
  }

  /** Where the card in row `row` of column `col` is pasted. */
  function PastePosition(col: nat, row: nat): (int, int) {
    (OuterPadding + col * (CardWidth + HorizontalPadding), OuterPadding + row * VerticalPadding)
  }

  /** Every pasted card lies on the canvas: 40 pixels from the left, top and
      right edges (the last column exactly so), the columns 20 pixels apart,
      and the lowest card of the tallest column 30 pixels above the bottom. */
  lemma PastedCardsFit(columns: seq<seq<string>>, col: nat, row: nat)
    requires col < |columns| && row < |columns[col]|
    ensures CanvasOf(columns).Ok?
    ensures var c := CanvasOf(columns).value;
      var (x, y) := PastePosition(col, row);
      && x >= OuterPadding && y >= OuterPadding
      && x + CardWidth + OuterPadding <= c.width
      && (col == |columns| - 1 ==> x + CardWidth + OuterPadding == c.width)
      && PastePosition(col + 1, row).0 - (x + CardWidth) == HorizontalPadding
      && y + CardHeight + 30 <= c.height
      && (row + 1 == TallestColumn(columns) ==> y + CardHeight + 30 == c.height)
  {
    var n := |columns|;
    var m := TallestColumn(columns);
    assert row + 1 <= m;
    assert (col + 1) * (CardWidth + HorizontalPadding) <= n * (CardWidth + HorizontalPadding) by {
      MulMono(col + 1, n, CardWidth + HorizontalPadding);
    }
    assert (row + 1) * VerticalPadding <= m * VerticalPadding by {
      MulMono(row + 1, m, VerticalPadding);
    }
  }

  lemma MulMono(a: nat, b: nat, c: nat)
    requires a <= b
    ensures a * c <= b * c
  {
  }

  // ---------------------------------------------------------------------------
  // The layout of one deck

  datatype Layout = Layout(columns: seq<seq<string>>, canvas: Canvas)

  /** `create_deck_image` up to the pasting: the buckets, the columns and the
      canvas, each step with the error it can raise. */
  method DeckLayout(deck: seq<string>, catalog: Catalog, fetch: string -> bool) returns (r: Result<Layout, ImageError>)
    ensures FirstUnplaced(deck, catalog).Some? ==> r == Err(NegativeManaValue(FirstUnplaced(deck, catalog).value))
    ensures FirstUnplaced(deck, catalog).None? ==>
      var cols := Columns(seq(SlotCount, k requires 0 <= k < SlotCount => Bucket(deck, catalog, k)), fetch);
      && (cols == [] ==> r == Err(NoImages))
      && (cols != [] ==> r == Ok(Layout(cols, CanvasOf(cols).value)))
  {
    var buckets := CategorizeCards(deck, catalog);
    if buckets.Err? {
      return Err(buckets.error);
    }
    assert buckets.value == seq(SlotCount, k requires 0 <= k < SlotCount => Bucket(deck, catalog, k));
    var columns := BuildColumns(buckets.value, fetch);
    var canvas := CanvasOf(columns);
    if canvas.Err? {
      return Err(canvas.error);
    }
    r := Ok(Layout(columns, canvas.value));
  }
}
