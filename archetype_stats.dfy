/** The archetype analysis (`export_archetype_analysis`): every deck credits its
    record to each archetype label it lists, and a single-label deck also to the
    "Pure" bucket of its label. The win rates it returns feed the card
    analysis. */
module ArchetypeStats {
  import opened Common
  import opened DeckParsing
  import opened Tallies

  /** The buckets one deck credits: "Pure X" first when X is its only label,
      then each label. */
  function ArchetypeKeys(labels: seq<string>): seq<string> {
    if |labels| == 1 then ["Pure " + labels[0]] + labels else labels
  }

  function ArchetypeCredits(decks: seq<Deck>): (c: seq<Credit>)
    ensures |c| == |decks|
  {
    if decks == [] then []
    else
      var d := decks[|decks| - 1];
      ArchetypeCredits(decks[..|decks| - 1]) + [Credit(ArchetypeKeys(d.archetypes), d.wins, d.losses)]
  }

  /** The exported table and the archetype-to-win-rate map the function returns. */
  datatype ArchetypeTable = ArchetypeTable(rows: seq<StatRow>, winRates: map<string, real>)

  /** `export_archetype_analysis` without the CSV output: the table of the
      archetype credits and the map from every bucket to its win rate, or the
      first bucket whose record is 0-0 (the win-rate division raises). */
  method ExportArchetypeAnalysis(decks: seq<Deck>) returns (r: Result<ArchetypeTable, string>)
    ensures var credits := ArchetypeCredits(decks);
      var order := Dedup(Flatten(credits));
      && (r.Err? <==> exists j :: 0 <= j < |order| && WinRate(TallyOf(credits, order[j])).None?)
      && (r.Err? ==> r.error in Flatten(credits) && WinRate(TallyOf(credits, r.error)).None?)
      && (r.Ok? ==> Tabulated(r.value.rows, credits))
      && (r.Ok? ==> forall k :: k in r.value.winRates <==> k in Flatten(credits))
      && (r.Ok? ==> forall k :: k in r.value.winRates ==>
            WinRate(TallyOf(credits, k)) == Some(r.value.winRates[k]))
  {
    var credits := ArchetypeCredits(decks);
    var t := Tabulate(credits);
    if t.Err? {
      return Err(t.error);
    }
    var rates := RateMap(t.value, credits);
    r := Ok(ArchetypeTable(t.value, rates));
  }

  /** The archetype-to-win-rate map built from the rows of the table. */
  method RateMap(rows: seq<StatRow>, ghost credits: seq<Credit>) returns (rates: map<string, real>)
    requires Tabulated(rows, credits)
    ensures forall k :: k in rates <==> k in Flatten(credits)
    ensures forall k :: k in rates ==> WinRate(TallyOf(credits, k)) == Some(rates[k])
  {
    ghost var order := Dedup(Flatten(credits));
    DedupMembers(Flatten(credits));
    rates := map[];
    var j := 0;
    while j < |rows|
      invariant 0 <= j <= |rows|
      invariant forall k :: k in rates <==> k in order[..j]
      invariant forall k :: k in rates ==> WinRate(TallyOf(credits, k)) == Some(rates[k])
    {
      assert order[..j + 1] == order[..j] + [order[j]];
      ghost var tally := TallyOf(credits, order[j]);
      assert tally.win + tally.loss > 0 && rows[j] == RowOf(order[j], tally);
      rates := rates[rows[j].name := rows[j].winRate];
      j := j + 1;
    }
    assert order[..j] == order;
  }

  /** "Pure " followed by a label determines the label. */
  lemma PureInjective(a: string, b: string)
    requires "Pure " + a == "Pure " + b
    ensures a == b
  {
    assert a == ("Pure " + a)[5..];
    assert b == ("Pure " + b)[5..];
  }

  /** One deck lists "Pure X" no more often than X, unless "Pure X" is itself
      one of its labels. */
  lemma DeckPureAtMostPlain(labels: seq<string>, x: string)
    requires "Pure " + x !in labels
    ensures Count(ArchetypeKeys(labels), "Pure " + x) <= Count(ArchetypeKeys(labels), x)
  {
    var p := "Pure " + x;
    if |labels| == 1 {
      var head := ["Pure " + labels[0]];
      CountAppend(head, labels, p);
      CountAppend(head, labels, x);
      assert labels[..0] == [];
      if "Pure " + labels[0] == p {
        PureInjective(labels[0], x);
      }
    }
  }

  /** The "Pure X" bucket counts no more decks than the X bucket when no deck
      carries the literal label "Pure X": it is fed only by single-label X decks,
      which also feed X. */
  lemma {:induction false} PureAtMostPlain(decks: seq<Deck>, x: string)
    requires forall i :: 0 <= i < |decks| ==> "Pure " + x !in decks[i].archetypes
    ensures TallyOf(ArchetypeCredits(decks), "Pure " + x).num <= TallyOf(ArchetypeCredits(decks), x).num
  {
    TallyNumCount(ArchetypeCredits(decks), "Pure " + x);
    TallyNumCount(ArchetypeCredits(decks), x);
    PureCountAtMostPlain(decks, x);
  }

  lemma {:induction false} PureCountAtMostPlain(decks: seq<Deck>, x: string)
    requires forall i :: 0 <= i < |decks| ==> "Pure " + x !in decks[i].archetypes
    ensures Count(Flatten(ArchetypeCredits(decks)), "Pure " + x) <= Count(Flatten(ArchetypeCredits(decks)), x)
  {
    if decks != [] {
      var init := decks[..|decks| - 1];
      var d := decks[|decks| - 1];
      var credits := ArchetypeCredits(decks);
      assert credits[..|credits| - 1] == ArchetypeCredits(init);
      assert Flatten(credits) == Flatten(ArchetypeCredits(init)) + ArchetypeKeys(d.archetypes);
      PureCountAtMostPlain(init, x);
      DeckPureAtMostPlain(d.archetypes, x);
      CountAppend(Flatten(ArchetypeCredits(init)), ArchetypeKeys(d.archetypes), "Pure " + x);
      CountAppend(Flatten(ArchetypeCredits(init)), ArchetypeKeys(d.archetypes), x);
    }
  }

  /** Two decks, a 2-0 "Aggro" deck and a 1-1 "Aggro_Control" deck: the
      buckets appear in the order Pure Aggro, Aggro, Control; Aggro holds both
      decks (3-1, a 0.75 win rate), Pure Aggro only the first (2-0, 1.0) and
      Control only the second (1-1, 0.5). */
  lemma TwoDeckArchetypes(d1: Deck, d2: Deck)
    requires d1 == Deck([], [], ["Ann"], map[], map[], ["Aggro"], 2, 0, None)
    requires d2 == Deck([], [], ["Bob"], map[], map[], ["Aggro", "Control"], 1, 1, None)
    ensures var credits := ArchetypeCredits([d1, d2]);
      && Dedup(Flatten(credits)) == ["Pure Aggro", "Aggro", "Control"]
      && TallyOf(credits, "Aggro") == Tally(2, 3, 1) && WinRate(TallyOf(credits, "Aggro")) == Some(0.75)
      && TallyOf(credits, "Pure Aggro") == Tally(1, 2, 0) && WinRate(TallyOf(credits, "Pure Aggro")) == Some(1.0)
      && TallyOf(credits, "Control") == Tally(1, 1, 1) && WinRate(TallyOf(credits, "Control")) == Some(0.5)
  {
    var credits := ArchetypeCredits([d1, d2]);
    assert credits == [Credit(["Pure Aggro", "Aggro"], 2, 0), Credit(["Aggro", "Control"], 1, 1)] by {
      ExampleCredits(d1, d2);
    }
    assert Dedup(Flatten(credits)) == ["Pure Aggro", "Aggro", "Control"] by {
      ExampleOrder();
    }
    ExampleTallies(credits);
    ExampleRates();
  }

  /** The win rates of the example tallies. */
  lemma ExampleRates()
    ensures WinRate(Tally(2, 3, 1)) == Some(0.75)
    ensures WinRate(Tally(1, 2, 0)) == Some(1.0)
    ensures WinRate(Tally(1, 1, 1)) == Some(0.5)
  {
  }

  /** The credits of the two example decks. */
  lemma ExampleCredits(d1: Deck, d2: Deck)
    requires d1 == Deck([], [], ["Ann"], map[], map[], ["Aggro"], 2, 0, None)
    requires d2 == Deck([], [], ["Bob"], map[], map[], ["Aggro", "Control"], 1, 1, None)
    ensures ArchetypeCredits([d1, d2])
      == [Credit(["Pure Aggro", "Aggro"], 2, 0), Credit(["Aggro", "Control"], 1, 1)]
  {
    assert [d1, d2][..1] == [d1];
    assert [d1][..0] == [];
    assert "Pure " + "Aggro" == "Pure Aggro";
    assert ArchetypeKeys(["Aggro"]) == ["Pure Aggro", "Aggro"];
  }

  /** The bucket order of the two example credits. */
  lemma ExampleOrder()
    ensures Dedup(Flatten([Credit(["Pure Aggro", "Aggro"], 2, 0), Credit(["Aggro", "Control"], 1, 1)]))
      == ["Pure Aggro", "Aggro", "Control"]
  {
    var c1 := Credit(["Pure Aggro", "Aggro"], 2, 0);
    var c2 := Credit(["Aggro", "Control"], 1, 1);
    assert [c1, c2][..1] == [c1];
    assert [c1][..0] == [];
    var flat := ["Pure Aggro", "Aggro", "Aggro", "Control"];
    assert Flatten([c1]) == c1.keys;
    assert Flatten([c1, c2]) == flat;
    assert flat[..3] == ["Pure Aggro", "Aggro", "Aggro"];
    assert flat[..3][..2] == ["Pure Aggro", "Aggro"];
    assert flat[..3][..2][..1] == ["Pure Aggro"];
    assert "Aggro" != "Control" && "Pure Aggro" != "Aggro" && "Pure Aggro" != "Control";
  }

  /** The bucket tallies of the two example credits. */
  lemma ExampleTallies(credits: seq<Credit>)
    requires credits == [Credit(["Pure Aggro", "Aggro"], 2, 0), Credit(["Aggro", "Control"], 1, 1)]
    ensures TallyOf(credits, "Aggro") == Tally(2, 3, 1)
    ensures TallyOf(credits, "Pure Aggro") == Tally(1, 2, 0)
    ensures TallyOf(credits, "Control") == Tally(1, 1, 1)
  {
    var c1 := credits[0];
    var c2 := credits[1];
    assert "Aggro" != "Control" && "Pure Aggro" != "Aggro" && "Pure Aggro" != "Control";
    assert DeckTally(c1.keys, "Aggro", 2, 0) == Tally(1, 2, 0) by {
      TwoKeyTally(c1.keys, "Aggro", 2, 0);
    }
    assert DeckTally(c2.keys, "Aggro", 1, 1) == Tally(1, 1, 1) by {
      TwoKeyTally(c2.keys, "Aggro", 1, 1);
    }
    assert DeckTally(c1.keys, "Pure Aggro", 2, 0) == Tally(1, 2, 0) by {
      TwoKeyTally(c1.keys, "Pure Aggro", 2, 0);
    }
    assert DeckTally(c2.keys, "Pure Aggro", 1, 1) == Tally(0, 0, 0) by {
      TwoKeyTally(c2.keys, "Pure Aggro", 1, 1);
    }
    assert DeckTally(c1.keys, "Control", 2, 0) == Tally(0, 0, 0) by {
      TwoKeyTally(c1.keys, "Control", 2, 0);
    }
    assert DeckTally(c2.keys, "Control", 1, 1) == Tally(1, 1, 1) by {
      TwoKeyTally(c2.keys, "Control", 1, 1);
    }
    TwoCreditTally(credits, "Aggro");
    TwoCreditTally(credits, "Pure Aggro");
    TwoCreditTally(credits, "Control");
  }

  /** Over two decks, a key's tally adds what each deck gives it. */
  lemma TwoCreditTally(credits: seq<Credit>, key: string)
    requires |credits| == 2
    ensures TallyOf(credits, key)
      == Add(DeckTally(credits[0].keys, key, credits[0].wins, credits[0].losses),
             DeckTally(credits[1].keys, key, credits[1].wins, credits[1].losses))
  {
    var first := credits[..1];
    assert first[..0] == [] && first[0] == credits[0];
    assert TallyOf(first, key) == Add(Tally(0, 0, 0), DeckTally(credits[0].keys, key, credits[0].wins, credits[0].losses));
  }

  /** What a deck listing two buckets gives a key. */
  lemma TwoKeyTally(keys: seq<string>, key: string, wins: nat, losses: nat)
    requires |keys| == 2
    ensures DeckTally(keys, key, wins, losses)
      == Add(if keys[0] == key then Tally(1, wins, losses) else Tally(0, 0, 0),
             if keys[1] == key then Tally(1, wins, losses) else Tally(0, 0, 0))
  {
    DeckTallySnoc(keys, 0, key, wins, losses);
    DeckTallySnoc(keys, 1, key, wins, losses);
    assert keys[..0] == [] && keys[..2] == keys;
  }
}
