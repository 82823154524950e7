/** Card metadata and the card-type classifier (`find_card_type`). */
module CardTypes {
  import opened Common
  import opened Text

  /** The short card types, in the order the classifier tries them. */
  datatype CardType = Creature | Artifact | Enchantment | Planeswalker | Land | Sorcery | Instant

  /** What the catalog knows of a card: its colour letters (a subset of
      "WUBRG", possibly empty), its mana value and its full type line. */
  datatype CardInfo = CardInfo(color: string, manaValue: real, typeLine: string)

  /** The card catalog: card name to metadata; never changed by the core. */
  type Catalog = map<string, CardInfo>

  function Keyword(t: CardType): string {
    match t
    case Creature => "Creature"
    case Artifact => "Artifact"
    case Enchantment => "Enchantment"
    case Planeswalker => "Planeswalker"
    case Land => "Land"
    case Sorcery => "Sorcery"
    case Instant => "Instant"
  }

  const Priority: seq<CardType> :=
    [Creature, Artifact, Enchantment, Planeswalker, Land, Sorcery, Instant]

  /** Position of a type in `Priority`. */
  function Rank(t: CardType): (k: nat)
    ensures k < |Priority| && Priority[k] == t
  {
    match t
    case Creature => 0
    case Artifact => 1
    case Enchantment => 2
    case Planeswalker => 3
    case Land => 4
    case Sorcery => 5
    case Instant => 6
  }

  /** The first type of `Priority[k..]` whose keyword occurs in `typeLine`:
      the classifier's early-return loop over the keyword list, from position `k`. */
  function FirstMatchFrom(k: nat, typeLine: string): Option<CardType>
    requires k <= |Priority|
    decreases |Priority| - k
  {
    if k == |Priority| then None
    else if Contains(typeLine, Keyword(Priority[k])) then Some(Priority[k])
    else FirstMatchFrom(k + 1, typeLine)
  }

  /** What the scan from position `k` answers: None when no keyword at or
      after `k` occurs; otherwise a type at or after `k` whose keyword occurs,
      with no keyword occurring between `k` and it. */
  ghost predicate ScanAnswer(k: nat, typeLine: string, r: Option<CardType>)
    requires k <= |Priority|
  {
    && (r.None? <==> forall j :: k <= j < |Priority| ==> !Contains(typeLine, Keyword(Priority[j])))
    && (r.Some? ==> k <= Rank(r.value) && Contains(typeLine, Keyword(r.value)))
    && (r.Some? ==> forall j :: k <= j < Rank(r.value) ==> !Contains(typeLine, Keyword(Priority[j])))
  }

  /** The scan from position `k` answers the first keyword at or after `k`
      that occurs, and None when none of them occurs. */
  lemma {:induction false} FirstMatchFromSpec(k: nat, typeLine: string)
    requires k <= |Priority|
    ensures ScanAnswer(k, typeLine, FirstMatchFrom(k, typeLine))
    decreases |Priority| - k
  {
    if k < |Priority| {
      if Contains(typeLine, Keyword(Priority[k])) {
        ScanHit(k, typeLine);
      } else {
        FirstMatchFromSpec(k + 1, typeLine);
        ScanMiss(k, typeLine);
      }
    }
  }

  /** A keyword that occurs at position `k` is the answer from `k`. */
  lemma ScanHit(k: nat, typeLine: string)
    requires k < |Priority| && Contains(typeLine, Keyword(Priority[k]))
    ensures ScanAnswer(k, typeLine, FirstMatchFrom(k, typeLine))
  {
    RankOfPriority(k);
  }

  /** A keyword that does not occur at position `k` passes the question on to `k + 1`. */
  lemma ScanMiss(k: nat, typeLine: string)
    requires k < |Priority| && !Contains(typeLine, Keyword(Priority[k]))
    requires ScanAnswer(k + 1, typeLine, FirstMatchFrom(k + 1, typeLine))
    ensures ScanAnswer(k, typeLine, FirstMatchFrom(k, typeLine))
  {
  }

  /** `Rank` inverts `Priority`. */
  lemma RankOfPriority(k: nat)
    requires k < |Priority|
    ensures Rank(Priority[k]) == k
  {
    if k == 0 {} else if k == 1 {} else if k == 2 {} else if k == 3 {}
    else if k == 4 {} else if k == 5 {} else {}
  }

  /** `find_card_type`: the highest-priority type whose keyword is a
      (case-sensitive) substring of the type line, or None. */
  function FindCardType(typeLine: string): Option<CardType> {
    FirstMatchFrom(0, typeLine)
  }

  /** The classifier's contract: None exactly when no keyword occurs; otherwise
      a type whose keyword occurs and no keyword of higher priority occurs. */
  lemma FindCardTypeSpec(typeLine: string)
    ensures var r := FindCardType(typeLine);
      && (r.None? <==> forall t :: !Occurs(Keyword(t), typeLine))
      && (r.Some? ==> Occurs(Keyword(r.value), typeLine))
      && (r.Some? ==> forall t :: Rank(t) < Rank(r.value) ==> !Occurs(Keyword(t), typeLine))
  {
    FirstMatchFromSpec(0, typeLine);
    var r := FindCardType(typeLine);
    if r.None? {
      forall t ensures !Occurs(Keyword(t), typeLine) {
        assert Priority[Rank(t)] == t;
        assert !Contains(typeLine, Keyword(Priority[Rank(t)]));
      }
    } else {
      forall t | Rank(t) < Rank(r.value) ensures !Occurs(Keyword(t), typeLine) {
        assert Priority[Rank(t)] == t;
        assert !Contains(typeLine, Keyword(Priority[Rank(t)]));
      }
    }
  }

  /** A needle whose first character is absent from the text does not occur in it. */
  lemma FirstCharAbsent(needle: string, hay: string)
    requires |needle| > 0 && needle[0] !in hay
    ensures !Occurs(needle, hay)
  {
    forall i | 0 <= i <= |hay| - |needle| ensures !OccursAt(needle, hay, i) {
      assert hay[i..i + |needle|][0] == hay[i];
    }
  }

  /** The converse of `FindCardType`'s contract: a keyword that occurs, with no
      higher-priority keyword occurring, is the answer. */
  lemma FirstOccurringKeywordWins(typeLine: string, t: CardType)
    requires Occurs(Keyword(t), typeLine)
    requires forall u :: Rank(u) < Rank(t) ==> !Occurs(Keyword(u), typeLine)
    ensures FindCardType(typeLine) == Some(t)
  {
    FindCardTypeSpec(typeLine);
    var r := FindCardType(typeLine);
    assert r.Some?;
    if Rank(r.value) < Rank(t) {
    } else if Rank(t) < Rank(r.value) {
    } else {
      assert Priority[Rank(t)] == t;
    }
  }

  /** A type line classifies as Land only if none of Creature, Artifact,
      Enchantment or Planeswalker occurs in it. */
  lemma LandOnlyWithoutHigherKeyword(typeLine: string)
    requires FindCardType(typeLine) == Some(Land)
    ensures !Occurs("Creature", typeLine) && !Occurs("Artifact", typeLine)
    ensures !Occurs("Enchantment", typeLine) && !Occurs("Planeswalker", typeLine)
    ensures Occurs("Land", typeLine)
  {
    FindCardTypeSpec(typeLine);
    assert Rank(Creature) < Rank(Land) && Rank(Artifact) < Rank(Land);
    assert Rank(Enchantment) < Rank(Land) && Rank(Planeswalker) < Rank(Land);
  }

  /** "Artifact Creature" is a Creature: Creature is tried first. */
  lemma ArtifactCreatureIsCreature()
    ensures FindCardType("Artifact Creature") == Some(Creature)
  {
    assert OccursAt("Creature", "Artifact Creature", 9);
    FirstOccurringKeywordWins("Artifact Creature", Creature);
  }

  /** "Artifact Land" is an Artifact, not a Land. */
  lemma ArtifactLandIsArtifact()
    ensures FindCardType("Artifact Land") == Some(Artifact)
  {
    FirstCharAbsent("Creature", "Artifact Land");
    assert OccursAt("Artifact", "Artifact Land", 0);
    FirstOccurringKeywordWins("Artifact Land", Artifact);
  }

  /** Matching is case-sensitive: a lower-case "land" is not a Land. */
  lemma LowerCaseLandIsUnclassified()
    ensures FindCardType("Basic land") == None
  {
    var line := "Basic land";
    FirstCharAbsent("Creature", line);
    FirstCharAbsent("Artifact", line);
    FirstCharAbsent("Enchantment", line);
    FirstCharAbsent("Planeswalker", line);
    FirstCharAbsent("Land", line);
    FirstCharAbsent("Sorcery", line);
    FirstCharAbsent("Instant", line);
    assert forall t :: Keyword(t) in {"Creature", "Artifact", "Enchantment", "Planeswalker", "Land", "Sorcery", "Instant"};
    FindCardTypeSpec(line);
  }
}
