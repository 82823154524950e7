/** The deck-list parser: one deck file's lines to a deck (`make_deck`) and a
    directory of deck files to the indexed deck collection plus the list of
    card names missing from the catalog (`extract_decklists`). */
module DeckParsing {
  import opened Common
  import opened Text
  import opened CardTypes
  import opened DeckColors

  /** One parsed deck: the record stored under an index in the deck collection.
      `date` is set only when dates are requested. */
  datatype Deck = Deck(
    main: seq<string>,
    side: seq<string>,
    players: seq<string>,
    colors: map<string, nat>,
    splash: map<string, nat>,
    archetypes: seq<string>,
    wins: nat,
    losses: nat,
    date: Option<string>)

  /** The cards one line of the card section contributes: a blank line is kept
      as the empty name (the main/side separator); otherwise the line is
      `"N name"`, the count is the text before the first space and the name the
      rest of the line; a count `int()` rejects makes the line malformed. */
  function ExpandLine(line: string): Option<seq<string>> {
    if line == "" then Some([""])
    else
      var parts := Split(line, ' ');
      var count := ParseInt(parts[0]);
      if count.None? then None else Some(Repeat(Join(parts[1..], ' '), count.value))
  }

  /** A card line gives exactly `int(N)` copies (none for a negative `N`) of
      everything after the first space; a line without a space gives copies of
      the empty name. */
  lemma ExpandLineCopies(line: string)
    requires line != ""
    ensures var count := ParseInt(line[..IndexOf(line, ' ')]);
      && (ExpandLine(line).None? <==> count.None?)
      && (count.Some? ==> ExpandLine(line) == Some(Repeat(AfterFirst(line, ' '), count.value)))
  {
    SplitTailJoin(line, ' ');
  }

  /** The flat card sequence of the card section, or None if a line is malformed. */
  function ExpandCards(lines: seq<string>): Option<seq<string>> {
    if lines == [] then Some([])
    else
      var init := ExpandCards(lines[..|lines| - 1]);
      var last := ExpandLine(lines[|lines| - 1]);
      if init.None? || last.None? then None else Some(init.value + last.value)
  }

  /** Expanding two runs of lines one after the other concatenates their cards,
      and fails when either run fails. */
  lemma {:induction false} ExpandCardsAppend(a: seq<string>, b: seq<string>)
    ensures var ea, eb := ExpandCards(a), ExpandCards(b);
      ExpandCards(a + b) == if ea.None? || eb.None? then None else Some(ea.value + eb.value)
    decreases |b|
  {
    if b == [] {
      assert a + b == a;
      assert ExpandCards(b) == Some([]);
      if ExpandCards(a).Some? {
        assert ExpandCards(a).value + [] == ExpandCards(a).value;
      }
    } else {
      var b' := b[..|b| - 1];
      assert (a + b)[..|a + b| - 1] == a + b';
      assert (a + b)[|a + b| - 1] == b[|b| - 1];
      ExpandCardsAppend(a, b');
      var ea, eb', last := ExpandCards(a), ExpandCards(b'), ExpandLine(b[|b| - 1]);
      assert ExpandCards(b) == if eb'.None? || last.None? then None else Some(eb'.value + last.value);
      assert ExpandCards(a + b) == if ExpandCards(a + b').None? || last.None? then None
        else Some(ExpandCards(a + b').value + last.value);
      if ea.Some? && eb'.Some? && last.Some? {
        assert ea.value + eb'.value + last.value == ea.value + (eb'.value + last.value);
      }
    }
  }

  /** The card section fails exactly when one of its lines is malformed. */
  lemma {:induction false} ExpandCardsFails(lines: seq<string>)
    ensures ExpandCards(lines).None? <==> exists k :: 0 <= k < |lines| && ExpandLine(lines[k]).None?
  {
    if lines != [] {
      var n := |lines| - 1;
      var init := lines[..n];
      ExpandCardsFails(init);
      if ExpandLine(lines[n]).None? {
        assert 0 <= n < |lines| && ExpandLine(lines[n]).None?;
      } else if ExpandCards(init).None? {
        var k :| 0 <= k < |init| && ExpandLine(init[k]).None?;
        assert lines[k] == init[k];
      } else {
        forall k | 0 <= k < |lines| ensures ExpandLine(lines[k]).Some? {
          if k < n {
            assert lines[k] == init[k];
          }
        }
      }
    }
  }

  /** One more line extends the cards by that line's cards. */
  lemma ExpandCardsSnoc(lines: seq<string>, i: nat)
    requires i < |lines|
    ensures var init, last := ExpandCards(lines[..i]), ExpandLine(lines[i]);
      ExpandCards(lines[..i + 1]) == if init.None? || last.None? then None else Some(init.value + last.value)
  {
    assert lines[..i + 1][..i] == lines[..i];
  }

  /** The first blank entry splits the cards into main deck and sideboard; with
      no blank entry every card is main and the sideboard is empty. Later blank
      entries stay in the sideboard. */
  function SplitMainSide(cards: seq<string>): (r: (seq<string>, seq<string>))
    ensures "" !in r.0
    ensures "" in cards ==> r.0 + [""] + r.1 == cards
    ensures "" !in cards ==> r.0 == cards && r.1 == []
  {
    var div := IndexOf(cards, "");
    if div == |cards| then (cards, [])
    else
      assert cards == cards[..div] + [""] + cards[div + 1..];
      (cards[..div], cards[div + 1..])
  }

  /** `line.split(':')[1].strip(' ')`: the text between the first and the second
      colon with spaces stripped, or None when the line has no colon (the index
      raises). */
  function Field(line: string): Option<string> {
    var parts := Split(line, ':');
    if |parts| < 2 then None else Some(StripChar(parts[1], ' '))
  }

  /** A field exists exactly when the line has a colon, and it is the stripped
      text after the first colon, up to the next colon. */
  lemma FieldSpec(line: string)
    ensures Field(line).Some? <==> ':' in line
    ensures ':' in line ==>
      var rest := AfterFirst(line, ':');
      Field(line) == Some(StripChar(rest[..IndexOf(rest, ':')], ' '))
  {
    var i := IndexOf(line, ':');
    if i < |line| {
      var rest := line[i + 1..];
      SplitTailJoin(rest, ':');
      assert Split(line, ':')[1] == Split(rest, ':')[0];
    } else {
      assert ':' !in line;
    }
  }

  /** The record `"W-L"`: the text must split on `-` into exactly two counts of
      games (the unpacking into `win, loss` raises otherwise). */
  function ParseRecord(text: string): Option<(nat, nat)> {
    var parts := Split(text, '-');
    if |parts| != 2 then None
    else
      var w, l := ParseNat(parts[0]), ParseNat(parts[1]);
      if w.None? || l.None? then None else Some((w.value, l.value))
  }

  /** A record parses exactly when it holds one `-` with a count on either side. */
  lemma ParseRecordSpec(text: string)
    ensures ParseRecord(text).Some? <==>
      var i := IndexOf(text, '-');
      && i < |text|
      && '-' !in text[i + 1..]
      && ParseNat(text[..i]).Some?
      && ParseNat(text[i + 1..]).Some?
  {
    if '-' in text {
      SplitAtFirst(text, '-');
      var i := IndexOf(text, '-');
      var rest := text[i + 1..];
      if '-' !in rest {
        SplitWithoutSep(rest, '-');
      } else {
        SplitAtFirst(rest, '-');
      }
    } else {
      SplitWithoutSep(text, '-');
    }
  }

  /** The lines of the card section: everything from line 5 on. */
  function CardLines(lines: seq<string>): seq<string> {
    if |lines| <= 5 then [] else lines[5..]
  }

  /** `make_deck` on the lines of one file (newlines removed): players on line 0,
      archetypes on line 1, the record on line 3, cards from line 5; any shape
      error gives Malformed, and the colour classifier's errors pass through. */
  function DeckOf(lines: seq<string>, catalog: Catalog): Result<Deck, DeckError> {
    if |lines| < 4 then Err(Malformed)
    else
      var player, archetype, record := Field(lines[0]), Field(lines[1]), Field(lines[3]);
      if player.None? || archetype.None? || record.None? then Err(Malformed)
      else
        var wl := ParseRecord(record.value);
        var cards := ExpandCards(CardLines(lines));
        if wl.None? || cards.None? then Err(Malformed)
        else
          var (main, side) := SplitMainSide(cards.value);
          var split := SplitColors(main, catalog);
          if split.Err? then Err(split.error)
          else
            Ok(Deck(main, side, Split(player.value, '_'), split.value.colors, split.value.splash,
                    Split(archetype.value, '_'), wl.value.0, wl.value.1, None))
  }

  /** What a parsed deck satisfies: its main deck has no blank entry, is fully
      known to the catalog and classifies to the deck's colour and splash maps;
      main, separator and sideboard rebuild the expanded card section when it
      has a separator; there is at least one player and one archetype. */
  lemma DeckOfValid(lines: seq<string>, catalog: Catalog)
    requires DeckOf(lines, catalog).Ok?
    ensures var d := DeckOf(lines, catalog).value;
      var cards := ExpandCards(CardLines(lines));
      && cards.Some?
      && "" !in d.main
      && ("" in cards.value ==> d.main + [""] + d.side == cards.value)
      && ("" !in cards.value ==> d.main == cards.value && d.side == [])
      && AllKnown(d.main, catalog)
      && SplitColors(d.main, catalog) == Ok(ColorSplit(d.colors, d.splash))
      && |d.players| >= 1 && |d.archetypes| >= 1
      && d.date.None?
  {
    var d := DeckOf(lines, catalog).value;
    SplitColorsFails(d.main, catalog);
  }

  /** A file is rejected as malformed exactly when it has fewer than four lines,
      a metadata line without a colon, a bad record or a bad card line. */
  lemma DeckOfMalformed(lines: seq<string>, catalog: Catalog)
    ensures DeckOf(lines, catalog) == Err(Malformed) <==>
      || |lines| < 4
      || ':' !in lines[0] || ':' !in lines[1] || ':' !in lines[3]
      || ParseRecord(Field(lines[3]).value).None?
      || exists k :: 0 <= k < |CardLines(lines)| && ExpandLine(CardLines(lines)[k]).None?
  {
    if |lines| >= 4 {
      FieldSpec(lines[0]);
      FieldSpec(lines[1]);
      FieldSpec(lines[3]);
      ExpandCardsFails(CardLines(lines));
      var cards := ExpandCards(CardLines(lines));
      if cards.Some? {
        var (main, side) := SplitMainSide(cards.value);
        SplitColorsFails(main, catalog);
      }
    }
  }

  /** The card loop of `make_deck`: each line's cards extend one list; the
      first malformed line raises. */
  method ExtendCards(cardLines: seq<string>) returns (r: Option<seq<string>>)
    ensures r == ExpandCards(cardLines)
  {
    var cards: seq<string> := [];
    var i := 0;
    while i < |cardLines|
      invariant 0 <= i <= |cardLines|
      invariant ExpandCards(cardLines[..i]) == Some(cards)
    {
      var line := cardLines[i];
      ExpandCardsSnoc(cardLines, i);
      if line == "" {
        assert ExpandLine(line) == Some([line]);
        cards := cards + [line];
      } else {
        var parts := Split(line, ' ');
        var count := ParseInt(parts[0]);
        if count.None? {
          ExpandCardsFails(cardLines);
          return None;
        }
        assert ExpandLine(line) == Some(Repeat(Join(parts[1..], ' '), count.value));
        cards := cards + Repeat(Join(parts[1..], ' '), count.value);
      }
      i := i + 1;
    }
    assert cardLines[..i] == cardLines;
    r := Some(cards);
  }

  /** `make_deck` as the program runs it: the metadata fields, then the card
      lines extended into one list, then the main/side split and the colour
      classifier. */
  method MakeDeck(lines: seq<string>, catalog: Catalog) returns (r: Result<Deck, DeckError>)
    ensures r == DeckOf(lines, catalog)
  {
    if |lines| < 4 {
      return Err(Malformed);
    }
    var player := Field(lines[0]);
    var archetype := Field(lines[1]);
    var record := Field(lines[3]);
    if player.None? || archetype.None? || record.None? {
      return Err(Malformed);
    }
    var wl := ParseRecord(record.value);
    if wl.None? {
      return Err(Malformed);
    }
    var cards := ExtendCards(CardLines(lines));
    if cards.None? {
      return Err(Malformed);
    }
    var (main, side) := SplitMainSide(cards.value);
    var split := GetColors(main, catalog);
    if split.Err? {
      return Err(split.error);
    }
    r := Ok(Deck(main, side, Split(player.value, '_'), split.value.colors, split.value.splash,
                 Split(archetype.value, '_'), wl.value.0, wl.value.1, None));
  }

  /** One entry of the deck directory: a file name and its lines. */
  datatype DeckFile = DeckFile(name: string, lines: seq<string>)

  /** A deck stored under its enumeration index in the directory listing. */
  datatype KeyedDeck = KeyedDeck(index: nat, deck: Deck)

  /** A card name the catalog does not know, with the file it came from. */
  datatype UnknownCard = UnknownCard(card: string, file: string)

  /** Only names whose last four characters are ".txt" are deck files. */
  predicate IsDeckFile(name: string) {
    TakeLast(name, 4) == ".txt"
  }

  /** The date of a deck file: its last `_`-separated token without the last
      four characters. */
  function DateToken(name: string): (date: string)
    ensures var token := Last(Split(name, '_'));
      '_' !in date && date == DropLast(token, 4) && |date| == if |token| < 4 then 0 else |token| - 4
  {
    DropLast(Last(Split(name, '_')), 4)
  }

  /** The deck a directory entry contributes, if any: it must be a deck file
      that parses; the date is attached when dates are requested. */
  function FileDeck(f: DeckFile, catalog: Catalog, withDates: bool): Option<Deck> {
    if !IsDeckFile(f.name) then None
    else
      var made := DeckOf(f.lines, catalog);
      if made.Err? then None
      else Some(made.value.(date := if withDates then Some(DateToken(f.name)) else None))
  }

  /** The diagnostics for one file: each card missing from the catalog, in order. */
  function Misspelled(cards: seq<string>, catalog: Catalog, file: string): (u: seq<UnknownCard>)
    ensures |u| <= |cards|
  {
    if cards == [] then []
    else
      var last := cards[|cards| - 1];
      Misspelled(cards[..|cards| - 1], catalog, file)
        + (if last !in catalog then [UnknownCard(last, file)] else [])
  }

  /** The diagnostics name exactly the unknown cards of the list, each with the file. */
  lemma {:induction false} MisspelledSpec(cards: seq<string>, catalog: Catalog, file: string)
    ensures forall u :: u in Misspelled(cards, catalog, file) <==>
      u.file == file && u.card in cards && u.card !in catalog
  {
    if cards != [] {
      var init := cards[..|cards| - 1];
      MisspelledSpec(init, catalog, file);
      assert cards == init + [cards[|cards| - 1]];
    }
  }

  /** What each directory entry yields, in listing order. */
  function Entries(files: seq<DeckFile>, catalog: Catalog, withDates: bool): (rs: seq<Option<Deck>>)
    ensures |rs| == |files|
    ensures forall i :: 0 <= i < |files| ==> rs[i] == FileDeck(files[i], catalog, withDates)
  {
    Yields(files, f => FileDeck(f, catalog, withDates))
  }

  /** `entry` applied to every entry. */
  function Yields(files: seq<DeckFile>, entry: DeckFile -> Option<Deck>): (rs: seq<Option<Deck>>)
    ensures |rs| == |files|
  {
    seq(|files|, i requires 0 <= i < |files| => entry(files[i]))
  }

  /** One more entry adds what it yields. */
  lemma YieldsSnoc(files: seq<DeckFile>, entry: DeckFile -> Option<Deck>, i: nat)
    requires i < |files|
    ensures Yields(files[..i + 1], entry) == Yields(files[..i], entry) + [entry(files[i])]
  {
  }

  /** The decks of a sequence of entry results, each stored under its entry's index. */
  function Collect(rs: seq<Option<Deck>>): seq<KeyedDeck> {
    if rs == [] then []
    else
      var n := |rs| - 1;
      Collect(rs[..n]) + (if rs[n].Some? then [KeyedDeck(n, rs[n].value)] else [])
  }

  /** The diagnostics of a sequence of entry results: for every stored deck,
      the unknown cards of its main deck and then its sideboard, with the file name. */
  function Reported(rs: seq<Option<Deck>>, files: seq<DeckFile>, catalog: Catalog): seq<UnknownCard>
    requires |rs| == |files|
  {
    if rs == [] then []
    else
      var n := |rs| - 1;
      Reported(rs[..n], files[..n], catalog)
        + (if rs[n].Some? then Misspelled(rs[n].value.main + rs[n].value.side, catalog, files[n].name) else [])
  }

  /** The deck collection `extract_decklists` builds, in insertion order. */
  function ExtractedDecks(files: seq<DeckFile>, catalog: Catalog, withDates: bool): seq<KeyedDeck> {
    Collect(Entries(files, catalog, withDates))
  }

  /** The unknown-card diagnostics `extract_decklists` writes, in order. */
  function UnknownCards(files: seq<DeckFile>, catalog: Catalog, withDates: bool): seq<UnknownCard> {
    Reported(Entries(files, catalog, withDates), files, catalog)
  }

  /** Collected keys are entry indices, strictly increasing. */
  lemma {:induction false} CollectIndices(rs: seq<Option<Deck>>)
    ensures forall j :: 0 <= j < |Collect(rs)| ==> Collect(rs)[j].index < |rs|
    ensures forall j, k :: 0 <= j < k < |Collect(rs)| ==> Collect(rs)[j].index < Collect(rs)[k].index
  {
    if rs != [] {
      var n := |rs| - 1;
      CollectIndices(rs[..n]);
      var pre := Collect(rs[..n]);
      var ds := Collect(rs);
      assert ds == pre + (if rs[n].Some? then [KeyedDeck(n, rs[n].value)] else []);
      assert forall j :: 0 <= j < |pre| ==> ds[j] == pre[j];
      assert |ds| > |pre| ==> ds[|pre|].index == n;
    }
  }

  /** Each collected deck is what its entry yielded. */
  lemma {:induction false} CollectSound(rs: seq<Option<Deck>>)
    ensures forall j :: 0 <= j < |Collect(rs)| ==>
      Collect(rs)[j].index < |rs| && rs[Collect(rs)[j].index] == Some(Collect(rs)[j].deck)
  {
    if rs != [] {
      var n := |rs| - 1;
      CollectSound(rs[..n]);
      var pre := Collect(rs[..n]);
      var ds := Collect(rs);
      assert ds == pre + (if rs[n].Some? then [KeyedDeck(n, rs[n].value)] else []);
      forall j | 0 <= j < |ds| ensures ds[j].index < |rs| && rs[ds[j].index] == Some(ds[j].deck) {
        if j < |pre| {
          assert ds[j] == pre[j];
          assert rs[pre[j].index] == rs[..n][pre[j].index];
        }
      }
    }
  }

  /** Every entry that yielded a deck is collected: the position of its deck. */
  lemma {:induction false} CollectPosition(rs: seq<Option<Deck>>, i: nat) returns (j: nat)
    requires i < |rs| && rs[i].Some?
    ensures j < |Collect(rs)| && Collect(rs)[j].index == i
  {
    var n := |rs| - 1;
    var pre := Collect(rs[..n]);
    assert Collect(rs) == pre + (if rs[n].Some? then [KeyedDeck(n, rs[n].value)] else []);
    if i == n {
      j := |pre|;
    } else {
      assert rs[..n][i] == rs[i];
      j := CollectPosition(rs[..n], i);
    }
  }

  /** Over entries whose decks have fully known main decks, every diagnostic
      names an unknown card from the sideboard of an entry's deck, with that
      entry's file name. */
  lemma {:induction false} ReportedFromSideboards(rs: seq<Option<Deck>>, files: seq<DeckFile>, catalog: Catalog)
    requires |rs| == |files|
    requires forall i :: 0 <= i < |rs| && rs[i].Some? ==> AllKnown(rs[i].value.main, catalog)
    ensures forall u :: u in Reported(rs, files, catalog) ==>
      u.card !in catalog &&
      exists i :: 0 <= i < |rs| && rs[i].Some? && files[i].name == u.file && u.card in rs[i].value.side
  {
    if rs != [] {
      var n := |rs| - 1;
      ReportedFromSideboards(rs[..n], files[..n], catalog);
      var tail := if rs[n].Some? then Misspelled(rs[n].value.main + rs[n].value.side, catalog, files[n].name) else [];
      assert Reported(rs, files, catalog) == Reported(rs[..n], files[..n], catalog) + tail;
      forall u | u in Reported(rs, files, catalog)
        ensures u.card !in catalog
        ensures exists i :: 0 <= i < |rs| && rs[i].Some? && files[i].name == u.file && u.card in rs[i].value.side
      {
        if u in Reported(rs[..n], files[..n], catalog) {
          var i :| 0 <= i < n && rs[..n][i].Some? && files[..n][i].name == u.file && u.card in rs[..n][i].value.side;
          assert rs[i] == rs[..n][i] && files[i] == files[..n][i];
        } else {
          assert u in tail;
          var d := rs[n].value;
          MisspelledSpec(d.main + d.side, catalog, files[n].name);
          assert u.card !in d.main;
        }
      }
    }
  }

  /** A deck any entry yields has a main deck the catalog fully knows. */
  lemma EntriesKnown(files: seq<DeckFile>, catalog: Catalog, withDates: bool)
    ensures forall i :: 0 <= i < |files| && Entries(files, catalog, withDates)[i].Some? ==>
      AllKnown(Entries(files, catalog, withDates)[i].value.main, catalog)
  {
    forall i | 0 <= i < |files| && Entries(files, catalog, withDates)[i].Some?
      ensures AllKnown(Entries(files, catalog, withDates)[i].value.main, catalog)
    {
      DeckOfValid(files[i].lines, catalog);
    }
  }

  /** Keys are enumeration indices over all directory entries: below the
      number of entries and strictly increasing, so gaps mark skipped entries. */
  lemma ExtractedIndices(files: seq<DeckFile>, catalog: Catalog, withDates: bool)
    ensures var ds := ExtractedDecks(files, catalog, withDates);
      && (forall j :: 0 <= j < |ds| ==> ds[j].index < |files|)
      && (forall j, k :: 0 <= j < k < |ds| ==> ds[j].index < ds[k].index)
  {
    CollectIndices(Entries(files, catalog, withDates));
  }

  /** Soundness: each stored deck is what its directory entry yields. */
  lemma ExtractedSound(files: seq<DeckFile>, catalog: Catalog, withDates: bool)
    ensures var ds := ExtractedDecks(files, catalog, withDates);
      forall j :: 0 <= j < |ds| ==>
        ds[j].index < |files| && FileDeck(files[ds[j].index], catalog, withDates) == Some(ds[j].deck)
  {
    var rs := Entries(files, catalog, withDates);
    CollectSound(rs);
  }

  /** Completeness: every directory entry that yields a deck is stored. */
  lemma ExtractedComplete(files: seq<DeckFile>, catalog: Catalog, withDates: bool)
    ensures var ds := ExtractedDecks(files, catalog, withDates);
      forall i :: 0 <= i < |files| && FileDeck(files[i], catalog, withDates).Some? ==>
        exists j :: 0 <= j < |ds| && ds[j].index == i
  {
    var rs := Entries(files, catalog, withDates);
    var ds := ExtractedDecks(files, catalog, withDates);
    assert ds == Collect(rs);
    forall i | 0 <= i < |files| && FileDeck(files[i], catalog, withDates).Some?
      ensures exists j :: 0 <= j < |ds| && ds[j].index == i
    {
      assert rs[i].Some?;
      var j := CollectPosition(rs, i);
      assert ds[j].index == i;
    }
  }

  /** Every diagnostic names a card the catalog does not know, found in the
      sideboard of the deck parsed from a directory entry with the named file:
      a parsed deck's main deck is fully known, so only sideboard cards are ever
      reported. */
  lemma UnknownCardsFromSideboards(files: seq<DeckFile>, catalog: Catalog, withDates: bool)
    ensures forall u :: u in UnknownCards(files, catalog, withDates) ==>
      u.card !in catalog &&
      exists i :: (0 <= i < |files| && files[i].name == u.file
        && FileDeck(files[i], catalog, withDates).Some? && u.card in FileDeck(files[i], catalog, withDates).value.side)
  {
    var rs := Entries(files, catalog, withDates);
    EntriesKnown(files, catalog, withDates);
    ReportedFromSideboards(rs, files, catalog);
    forall u | u in UnknownCards(files, catalog, withDates)
      ensures exists i :: (0 <= i < |files| && files[i].name == u.file
        && FileDeck(files[i], catalog, withDates).Some? && u.card in FileDeck(files[i], catalog, withDates).value.side)
    {
      assert u in Reported(rs, files, catalog);
      var i :| 0 <= i < |rs| && rs[i].Some? && files[i].name == u.file && u.card in rs[i].value.side;
      assert rs[i] == FileDeck(files[i], catalog, withDates);
    }
  }

  /** The diagnostics for one parsed deck: the unknown cards of its main deck
      followed by its sideboard, as the program loops over them. */
  method ReportUnknown(cards: seq<string>, catalog: Catalog, file: string) returns (u: seq<UnknownCard>)
    ensures u == Misspelled(cards, catalog, file)
  {
    u := [];
    var k := 0;
    while k < |cards|
      invariant 0 <= k <= |cards|
      invariant u == Misspelled(cards[..k], catalog, file)
    {
      assert cards[..k + 1][..k] == cards[..k];
      if cards[k] !in catalog {
        u := u + [UnknownCard(cards[k], file)];
      }
      k := k + 1;
    }
    assert cards[..k] == cards;
  }

  /** One directory entry of `extract_decklists`: names that are not deck files
      are passed over, a file that fails to parse is skipped, and the date is
      attached when dates are requested. */
  method ParseEntry(f: DeckFile, catalog: Catalog, withDates: bool) returns (d: Option<Deck>)
    ensures d == FileDeck(f, catalog, withDates)
  {
    if !IsDeckFile(f.name) {
      return None;
    }
    var made := MakeDeck(f.lines, catalog);
    if made.Err? {
      return None;
    }
    var deck := made.value;
    if withDates {
      deck := deck.(date := Some(DateToken(f.name)));
    }
    d := Some(deck);
  }

  /** `extract_decklists` as the program runs it: every directory entry in
      listing order, storing each parsed deck under the entry's index and
      reporting the unknown cards of its main deck and sideboard. */
  method ExtractDecklists(files: seq<DeckFile>, catalog: Catalog, withDates: bool)
    returns (decks: seq<KeyedDeck>, unknown: seq<UnknownCard>)
    ensures decks == ExtractedDecks(files, catalog, withDates)
    ensures unknown == UnknownCards(files, catalog, withDates)
  {
    decks, unknown := [], [];
    var i := 0;
    while i < |files|
      invariant 0 <= i <= |files|
      invariant decks == ExtractedDecks(files[..i], catalog, withDates)
      invariant unknown == UnknownCards(files[..i], catalog, withDates)
    {
      var f := files[i];
      ExtractStep(files, catalog, withDates, i);
      var d := ParseEntry(f, catalog, withDates);
      if d.Some? {
        var missing := ReportUnknown(d.value.main + d.value.side, catalog, f.name);
        unknown := unknown + missing;
        decks := decks + [KeyedDeck(i, d.value)];
      }
      i := i + 1;
    }
    assert files[..i] == files;
  }

  /** One more directory entry extends the decks and the diagnostics by what it yields. */
  lemma ExtractStep(files: seq<DeckFile>, catalog: Catalog, withDates: bool, i: nat)
    requires i < |files|
    ensures var d := FileDeck(files[i], catalog, withDates);
      && ExtractedDecks(files[..i + 1], catalog, withDates)
         == ExtractedDecks(files[..i], catalog, withDates) + (if d.Some? then [KeyedDeck(i, d.value)] else [])
      && UnknownCards(files[..i + 1], catalog, withDates)
         == UnknownCards(files[..i], catalog, withDates)
            + (if d.Some? then Misspelled(d.value.main + d.value.side, catalog, files[i].name) else [])
  {
    var rs := Entries(files[..i], catalog, withDates);
    var rs' := Entries(files[..i + 1], catalog, withDates);
    YieldsSnoc(files, f => FileDeck(f, catalog, withDates), i);
    assert rs' == rs + [FileDeck(files[i], catalog, withDates)];
    assert rs'[..i] == rs;
    assert files[..i + 1][..i] == files[..i] && files[..i + 1][i] == files[i];
  }
}
