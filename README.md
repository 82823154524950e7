# CubeAnalyser in Dafny

CubeAnalyser reads the deck lists of a Magic: The Gathering cube draft, one text file
per deck, and reports how cards, players, archetypes and colours performed. This project
models its computational core in Dafny and proves what those computations promise:

- **Card types** (`CardTypes`): the first keyword of a fixed priority list that occurs in a
  card's type line decides its type.
- **Deck colours** (`DeckColors`): every non-land card of the main deck is counted under
  each of the five colours its colour string names. A colour that makes up less than 15%
  of the non-lands is moved from the deck's colours to its splash colours.
- **Deck files** (`DeckParsing`): a deck file holds a player line, an archetype line and a
  `wins-losses` record, then card lines `N Name`. An empty line separates the main deck
  from the sideboard. A directory is turned into a table of decks keyed by their index in
  the listing. Files that are not `.txt` files or that fail to parse are skipped, and each
  card missing from the catalogue is reported.
- **Win-rate tables** (`Tallies`, `PlayerStats`, `ArchetypeStats`): these accumulate
  number, wins and losses per player or per archetype, in order of first appearance, and
  then compute win rates. A deck with a single archetype `X` also counts for `Pure X`.
- **Card analysis** (`CardStats`): per card it computes copies, wins, losses, archetypes
  and sideboard observations. From those it derives the main-deck share, the win rate and
  the win rate normalised by the mean win rate of the card's archetypes. Rows are then
  filtered by copy count and sorted three ways. The archetype table the card analysis looks
  rates up in is the one the archetype analysis returns (`Pipeline`), so that lookup never
  fails.
- **Colour analysis and colour curve** (`ColorStats`, `ColorCurve`): per colour, the share
  of decks playing it, the splash ratio and the mean share of non-lands. The curve gives
  the distribution of decks over "One", "One + Splash", … "Five".
- **Time course** (`Timecourse`): decks are sorted by the integer date in their file name.
  A sliding window then gives the win rate of every archetype in each window.
- **Deck images** (`DeckImages`): card names become image file names. Main-deck cards are
  put in a land column and columns by mana value. The canvas size and every card's paste
  position are computed.

Shared pieces: `Common` holds the Option/Result types and sequence helpers (count, dedup,
sum, mean). `Text` holds Python string semantics (`split`, `strip`, `int()`).

Where Python would raise, the model returns an `Err`. Examples:

- a `KeyError` on a card missing from the catalogue;
- a `ZeroDivisionError` on a player or archetype with no games;
- an `IndexError` on a deck without archetypes;
- a `TypeError` when two different decks share a date.

A NumPy NaN is the `Undefined` value of `Rate`.

Behaviour of the code that the model keeps as written:

- `get_colors` divides by the number of non-lands, so a main deck without non-lands fails.
  Such a file is skipped by the extraction.
- A player or archetype whose games sum to zero makes the whole export fail. NaN is not
  written for it.
- The splash dictionary's first key is the lower-case `"white"`, which stays 0. A splashed
  white is stored under a new `"White"` key.
- The colour-curve index `2*colors + splash - 2` is negative for a deck with no main
  colour. Python's negative indexing sends a colourless deck to "Four + Splash". A deck with
  only splash colours goes to "Five".
- The colour analysis reports the colour keys of the last deck of the loop.
- The card analysis leaves the win rate and normalised rate of a card undefined when its
  main share is exactly 0. A main copy counts towards that share only when its deck has a
  sideboard. A card main-decked only in decks without a sideboard, and sideboarded
  elsewhere, therefore gets no win rate although it was played. The comment beside that
  test describes it as the case of a card that was never main-decked.
- The canvas height uses 580 where the pasted cards are 680 high. The bottom margin is
  therefore 30 px, while the other margins are 40 px.

## Model

| member | source | states |
|---|---|---|
| CardTypes.FindCardTypeSpec | example/program/card_utilities.py:64-72 | no type iff no keyword occurs; otherwise the returned keyword occurs and no keyword earlier in the priority list does |
| CardTypes.FirstMatchFromSpec | example/program/card_utilities.py:68-71 | scanning the priority list from position k returns the first keyword from k on that occurs, or nothing |
| CardTypes.FirstOccurringKeywordWins | example/program/card_utilities.py:68-70 | converse: if t occurs and no higher-priority keyword does, the type is t |
| CardTypes.LandOnlyWithoutHigherKeyword | example/program/card_utilities.py:68-70 | a card is a Land only if "Land" occurs and none of Creature, Artifact, Enchantment, Planeswalker does |
| CardTypes.ArtifactCreatureIsCreature | example/program/card_utilities.py:68-70 | "Artifact Creature" is a Creature (priority, not position, decides) |
| CardTypes.ArtifactLandIsArtifact | example/program/card_utilities.py:68-70 | "Artifact Land" is an Artifact |
| CardTypes.LowerCaseLandIsUnclassified | example/program/card_utilities.py:69 | the test is a case-sensitive substring test: "Basic land" has no type |
| DeckColors.ColorCount | program/deck_utilities.py:27-39 | a colour's count never exceeds the number of non-land cards |
| DeckColors.AddCardColors | program/deck_utilities.py:29-39 | each of the five counters grows by one exactly when its letter is in the card's colour string; the key set is kept |
| DeckColors.CountColors | program/deck_utilities.py:27-39 | fails exactly when a main-deck card is missing from the catalogue; otherwise gives the five per-colour non-land counts |
| DeckColors.SplashThreshold | program/deck_utilities.py:44 | the real test count/nonlands < 0.15 agrees with the integer test 20*count < 3*nonlands |
| DeckColors.DemotePartition | program/deck_utilities.py:43-46 | per colour, main + splash equals the raw count, at most one is non-zero, a kept colour has at least 15% and a splashed one under 15% |
| DeckColors.DemoteKeys | program/deck_utilities.py:24-25 | main keys are the five colours; splash keys are "white" (always 0), Blue, Black, Red, Green, plus "White" exactly when white is splashed |
| DeckColors.DemoteColors | program/deck_utilities.py:43-46 | the demotion loop yields the specified colour/splash split of the counts |
| DeckColors.SplitColorsFails | program/deck_utilities.py:23-48 | get_colors fails iff a main card is unknown or there is no non-land; the unknown-card error is reported exactly for an unknown card |
| DeckColors.GetColors | program/deck_utilities.py:23-48 | the counting and demotion loops together compute the specified split |
| DeckParsing.ExpandLineCopies | program/deck_utilities.py:73-74 | a card line yields `int(N)` copies of the text after its first space, and fails exactly when N is not an integer |
| DeckParsing.ExpandCardsAppend | program/deck_utilities.py:66-74 | expanding two runs of lines is expanding each and concatenating; a failure in either fails the whole |
| DeckParsing.ExpandCardsFails | program/deck_utilities.py:66-74 | the card list fails exactly when some card line fails |
| DeckParsing.SplitMainSide | program/deck_utilities.py:76-81 | the main deck never holds the separator; with a separator main + [""] + side is the card list, without one the main deck is all of it |
| DeckParsing.FieldSpec | program/deck_utilities.py:61-63 | a header field exists iff its line has ':'; it is the text between the first and second ':' with spaces stripped |
| DeckParsing.ParseRecordSpec | program/deck_utilities.py:63 | a record parses iff it has exactly one '-' with an unsigned integer on each side |
| DeckParsing.DeckOfValid | program/deck_utilities.py:51-87 | a parsed deck's main and side come from the expanded cards split at the first empty name, every main card is known, its colours are get_colors of the main deck, and it has at least one player and one archetype |
| DeckParsing.DeckOfMalformed | program/deck_utilities.py:60-82 | a deck file is malformed iff it has fewer than 4 lines, a header line lacks ':', the record does not parse or a card line fails |
| DeckParsing.ExtendCards | program/deck_utilities.py:66-74 | the card-line loop computes the specified expansion |
| DeckParsing.MakeDeck | program/deck_utilities.py:51-87 | make_deck computes the specified deck or error |
| DeckParsing.DateToken | program/deck_utilities.py:117-118 | the date is the last '_'-separated token of the file name minus its last four characters |
| DeckParsing.MisspelledSpec | program/deck_utilities.py:123-125 | the diagnostics of a file are exactly its cards missing from the catalogue, each with the file name |
| DeckParsing.ExtractedIndices | program/deck_utilities.py:109-127 | the deck table's keys are indices into the directory listing, strictly increasing |
| DeckParsing.ExtractedSound | program/deck_utilities.py:111-128 | each table entry is the deck its file parses to (with its date when dates are requested) |
| DeckParsing.ExtractedComplete | program/deck_utilities.py:111-128 | every `.txt` file that parses has an entry |
| DeckParsing.UnknownCardsFromSideboards | program/deck_utilities.py:123-125 | every reported unknown card is missing from the catalogue and lies in the sideboard of a parsed deck of that file |
| DeckParsing.ReportUnknown | program/deck_utilities.py:123-125 | the per-file loop reports the specified unknown cards |
| DeckParsing.ParseEntry | program/deck_utilities.py:111-128 | one directory entry yields the specified deck or is skipped |
| DeckParsing.ExtractDecklists | program/deck_utilities.py:90-130 | the directory loop yields the specified deck table and unknown-card report |
| Tallies.Accumulate | program/analysis_utilities.py:102-111 | keys come out in first-appearance order, and each key's tally is its number of appearances and the summed wins and losses |
| Tallies.CreditDeck | program/analysis_utilities.py:108-111 | crediting one deck keeps the order and table equal to the specification over the decks so far |
| Tallies.DeckTallyCount | program/analysis_utilities.py:108-111 | one deck credits a key with its occurrence count, and that count times the deck's wins and losses |
| Tallies.TallyNumCount | program/analysis_utilities.py:109 | a key's num is its number of occurrences over all decks |
| Tallies.WinRateBounds | program/analysis_utilities.py:115 | a win rate lies in [0, 1]; it is 0 iff there are no wins and 1 iff there are no losses |
| Tallies.SumOfNums | program/analysis_utilities.py:106-109 | the nums of the distinct keys add up to the number of tokens |
| Tallies.SumNumsCounts | program/analysis_utilities.py:109 | summing per-row nums is summing occurrence counts of the row keys |
| Tallies.WinRates | program/analysis_utilities.py:114-115 | fails (division by zero) iff some key has no games, naming such a key; otherwise one row per key with its rate |
| Tallies.Tabulate | program/analysis_utilities.py:97-115 | the table fails iff a key has no games; otherwise its rows are the keys in first-appearance order with their tallies and rates, and their nums sum to the token count |
| PlayerStats.PlayerCreditsTokens | program/analysis_utilities.py:104-111 | the players credited are exactly the concatenated player lists |
| PlayerStats.PlayerNum | program/analysis_utilities.py:108-109 | a player's num is the number of times it is listed |
| PlayerStats.ExportPlayerAnalysis | program/analysis_utilities.py:93-122 | fails iff a player has no games; otherwise one row per player in first-appearance order, rates as specified, nums summing to the number of listings |
| ArchetypeStats.ExportArchetypeAnalysis | program/analysis_utilities.py:125-163 | fails iff an archetype (including "Pure" ones) has no games; otherwise the rows as specified and the returned rates map exactly the credited archetypes to their win rates |
| ArchetypeStats.RateMap | program/analysis_utilities.py:153-163 | the returned dictionary maps exactly the credited archetypes to their win rates |
| ArchetypeStats.PureAtMostPlain | program/analysis_utilities.py:140-150 | unless a deck is literally labelled "Pure X", "Pure X" counts no more decks than X |
| ArchetypeStats.PureCountAtMostPlain | program/analysis_utilities.py:140-150 | the same bound on occurrences over the flattened credits |
| ArchetypeStats.DeckPureAtMostPlain | program/analysis_utilities.py:140-150 | within one deck "Pure X" is credited no more often than X |
| ArchetypeStats.PureInjective | program/analysis_utilities.py:142 | distinct archetypes give distinct "Pure" keys |
| ArchetypeStats.TwoDeckArchetypes | program/analysis_utilities.py:134-154 | worked example: a 2-0 Aggro deck then a 1-1 Aggro/Control deck list "Pure Aggro", "Aggro", "Control"; Aggro is 2 decks 3-1 (rate 0.75), Pure Aggro 1 deck 2-0 (1.0), Control 1 deck 1-1 (0.5) |
| ArchetypeStats.ExampleTallies | program/analysis_utilities.py:140-150 | the tallies of those two decks' credits |
| ArchetypeStats.ExampleCredits | program/analysis_utilities.py:140-150 | the credits of those two decks |
| ArchetypeStats.ExampleOrder | program/analysis_utilities.py:134-150 | the first-appearance order of those credits |
| CardStats.AccumulateCards | program/analysis_utilities.py:11-44 | fails iff a deck has no archetype; otherwise the table holds, for each card met, its specified accumulation |
| CardStats.AccOfEvents | program/analysis_utilities.py:14-44 | the step-by-step accumulation equals the closed form: copies, wins and losses times copies, one archetype per copy, main/side observations |
| CardStats.ClosedAccShape | program/analysis_utilities.py:31-44 | a card has one archetype entry per main copy and every main-share observation is 0 or 1 |
| CardStats.UnqualifiedCardEmpty | program/analysis_utilities.py:28-42 | a card missing from the catalogue or the cube list accumulates nothing |
| CardStats.ListedCardQualifies | program/analysis_utilities.py:26-44 | every card in the table qualifies and appears in some deck |
| CardStats.QualifyingCardListed | program/analysis_utilities.py:26-44 | every qualifying card that appears in some deck is in the table |
| CardStats.OrderInCatalog | program/analysis_utilities.py:50-51 | every card in the table is in the catalogue, so the lookup cannot fail |
| CardStats.LookupRates | program/analysis_utilities.py:71 | succeeds iff every archetype has a rate, giving them in order; otherwise names the first one missing |
| CardStats.CardRowOfErrors | program/analysis_utilities.py:58-72 | a card's row fails iff its main share is not exactly 0 and it has no games or an archetype without a rate |
| CardStats.MainShareBounds | program/analysis_utilities.py:58-67 | the main share is undefined iff there are no observations, else in [0, 1] |
| CardStats.CardRowOfRates | program/analysis_utilities.py:51-72 | a row keeps the card's counts; a main share of exactly 0 (every observation a sideboard copy; main copies in decks without a sideboard add none) gives undefined win and norm; otherwise the win rate is wins/(wins+losses) in [0, 1] |
| CardStats.MainDeckedShareZero | program/analysis_utilities.py:31-64 | worked example: a card main-decked once in a deck without a sideboard and sideboarded once elsewhere has 1 deck, main share 0 and undefined win and norm rates |
| CardStats.NormSpec | program/analysis_utilities.py:70-72 | a defined norm is the win rate over the non-zero mean of the card's archetype rates |
| CardStats.RateCards | program/analysis_utilities.py:50-72 | the rating loop yields the first failing card's error or all rows in table order |
| CardStats.Gather | program/analysis_utilities.py:50-72 | collecting per-card results succeeds iff each does, else yields the first error |
| CardStats.KeepRows | program/analysis_utilities.py:79-80 | each row is kept, with its multiplicity, iff the filter is 0 or its num exceeds the filter |
| CardStats.SortDesc | program/analysis_utilities.py:83-85 | the sorted rows are a permutation of the input, in descending key order with undefined keys last |
| CardStats.InsertSorted | program/analysis_utilities.py:83-85 | inserting into a sorted list keeps it sorted |
| CardStats.ExportCardAnalysis | program/analysis_utilities.py:6-90 | fails iff the specified analysis fails; otherwise the three views are the filtered rows sorted by win, norm and main share |
| CardStats.CardAnalysisRows | program/analysis_utilities.py:50-75 | row k of the analysis is the k-th distinct card's row computed from its closed-form accumulation |
| CardStats.ClosedAccCredited | program/analysis_utilities.py:20-34 | every archetype a card is attributed to is a bucket the archetype analysis credits |
| CardStats.CardRowCredited | program/analysis_utilities.py:66-72 | with every credited bucket in the rate map, a card's rate step fails only for want of games |
| CardStats.ArchetypeRatesCoverCards | program/analysis_utilities.py:71 | with every credited bucket in the rate map, the card analysis never fails on an archetype lookup |
| Pipeline.ArchetypesThenCards | main.py:66-67 | the card analysis runs iff the archetype analysis succeeds, with its win rates; it then fails exactly as specified, and never on an archetype lookup |
| CardStats.CardAnalysisRates | program/analysis_utilities.py:58-72 | every row's main share lies in [0, 1]; a main share of exactly 0 (every observation a sideboard copy; main copies in decks without a sideboard add none) gives undefined rates; otherwise the win rate is wins/(wins+losses) in [0, 1] |
| ColorStats.FirstFaultNone | program/analysis_utilities.py:173-193 | the deck loop gets through iff no deck has an unknown main card or a coloured deck without non-lands |
| ColorStats.CountMain | program/analysis_utilities.py:175-186 | counting one deck's colours fails iff it has a colour but no non-land, else extends the tallies and share lists |
| ColorStats.CountColor | program/analysis_utilities.py:178-186 | one colour of one deck fails iff it is non-zero and there is no non-land |
| ColorStats.CountSplash | program/analysis_utilities.py:188-193 | the splash tallies count the decks splashing each colour |
| ColorStats.ExportColorAnalysis | program/analysis_utilities.py:166-206 | the first faulty deck's error; no decks is an error; otherwise it fails iff a colour of the last deck is never main, never splashed or always splashed, and then with the fault of the first such colour in White, Blue, Black, Red, Green order; else gives each colour its row |
| ColorStats.ColorRows | program/analysis_utilities.py:195-200 | the row loop fails iff some colour faults, with the fault of the first faulting colour name in key order; else maps the last deck's colours to their rows |
| ColorStats.FirstColorFaultSpec | program/analysis_utilities.py:196-199 | the first faulting colour name exists iff some colour name faults, and every colour name before it has a row |
| ColorStats.NamedColorRows | program/analysis_utilities.py:196-200 | over the five colour names in order: fails exactly with the first one's fault, else holds the rows of exactly the colour names among the keys |
| ColorStats.AddColorRow | program/analysis_utilities.py:196-200 | one iteration: fails exactly with the colour's fault, else adds that colour's row and keeps every row correct |
| ColorStats.OtherColorRows | program/analysis_utilities.py:196-200 | the keys that are not colour names: fails with the fault of one of them, else completes the rows to exactly the last deck's keys |
| ColorStats.ColorRowAt | program/analysis_utilities.py:196-200 | a colour's row fails exactly with its fault, else it is the specified row |
| ColorStats.DeckShareBounds | program/analysis_utilities.py:197 | a colour's deck share lies in (0, 1] |
| ColorStats.SplashShareBounds | program/analysis_utilities.py:198 | a colour's splash ratio is positive |
| ColorStats.CardShareBounds | program/analysis_utilities.py:184-199 | the average card share lies in [0, 1] when counts are within the non-land count |
| ColorStats.ShareListBounds | program/analysis_utilities.py:184-186 | each recorded card share lies in (0, 1] |
| ColorStats.ExclusiveHits | program/analysis_utilities.py:177-193 | when no deck has a colour both kept and splashed, main and splash decks together are at most all decks, and a colour played anywhere is not splashed everywhere |
| ColorStats.DemoteExclusive | program/deck_utilities.py:43-46 | get_colors never keeps and splashes the same colour |
| ColorStats.DemoteWithin | program/deck_utilities.py:43-46 | a kept colour count is at most its raw count bound |
| ColorStats.ParsedWithinNonlands | program/deck_utilities.py:27-46 | a parsed deck's colour counts are at most its non-land count |
| ColorCurve.Bucket | program/analysis_utilities.py:226 | a deck's bucket, when the index is in range, is one of the nine labels |
| ColorCurve.CountBuckets | program/analysis_utilities.py:216-226 | fails iff some deck's index overflows the labels; otherwise nine counts, each the number of decks in that bucket |
| ColorCurve.DeckBucket | program/analysis_utilities.py:217-226 | the per-deck loops compute the specified bucket |
| ColorCurve.CountPlayed | program/analysis_utilities.py:219-221 | counts the non-zero colours |
| ColorCurve.HasSplash | program/analysis_utilities.py:222-224 | true iff some splash count is non-zero |
| ColorCurve.Divide | program/analysis_utilities.py:228-230 | each share is its count over the number of decks |
| ColorCurve.ExportColorCurve | program/analysis_utilities.py:209-232 | fails on no decks or an overflowing index; otherwise nine shares, each its bucket's count over the number of decks |
| ColorCurve.CurveSharesSum | program/analysis_utilities.py:226-232 | the nine shares sum to 1 |
| ColorCurve.BucketCountsSum | program/analysis_utilities.py:226 | every deck lands in exactly one bucket: the counts add up to the number of decks |
| ColorCurve.ColorlessBucket | program/analysis_utilities.py:226 | a deck with no colour and no splash has index -2 and is counted as "Four + Splash" |
| ColorCurve.ParsedBucket | program/analysis_utilities.py:226 | a deck whose colours come from get_colors never overflows the labels |
| Timecourse.LabelSetSpec | program/analysis_utilities.py:239-240 | the archetype set holds exactly the archetypes of some deck |
| Timecourse.LabelList | program/analysis_utilities.py:240 | the labels are without repeats and hold exactly that set |
| Timecourse.FirstBadDateNone | program/analysis_utilities.py:241 | date conversion gets through iff every deck has an integer date |
| Timecourse.ConvertDates | program/analysis_utilities.py:241 | the conversion loop fails with the first bad date, else gives each deck's integer date |
| Timecourse.SortBySpec | program/analysis_utilities.py:244 | the sorted decks are a permutation of the decks in ascending date order |
| Timecourse.SortIsUnique | program/analysis_utilities.py:244 | without two different decks on one date, every ascending permutation is that same order |
| Timecourse.SortedUnique | program/analysis_utilities.py:244 | two ascending permutations of a tie-free list are equal |
| Timecourse.CarryingSpec | program/analysis_utilities.py:252 | a window's records are exactly those of its decks carrying the archetype |
| Timecourse.WinsWithinGames | program/analysis_utilities.py:258-259 | the total wins never exceed the total games |
| Timecourse.CellSpec | program/analysis_utilities.py:252-263 | a cell is undefined iff no deck carries the archetype or there are no games, else it lies in [0, 1] |
| Timecourse.ComputeCell | program/analysis_utilities.py:252-263 | the cell loop computes the specified cell |
| Timecourse.WindowShape | program/analysis_utilities.py:250 | an in-range window is the plain slice and has the window's length |
| Timecourse.FillColumn | program/analysis_utilities.py:251-263 | fills one column with the specified cells and leaves the other columns unchanged |
| Timecourse.FillMatrix | program/analysis_utilities.py:246-263 | the matrix has one row per archetype and one column per window, each cell as specified |
| Timecourse.ExportTimecourse | program/analysis_utilities.py:234-265 | fails with the first missing or non-integer date, then on a date tie between different decks, then on a negative window count; otherwise distinct labels, a |labels| by (n - window + 1) matrix of the windows' cells over the date-sorted decks |
| DeckImages.SanitizeFilenameSpec | example/program/deck_images.py:58-61 | the file name ends in ".png"; its stem is the stripped text before the first "//" with spaces turned into '_' and quote, comma and slash removed, so it holds none of those, and it is no longer than that text |
| DeckImages.ReplacementsAreCleanChars | example/program/deck_images.py:60 | the four chained replacements equal one per-character cleaning pass |
| DeckImages.BeforeSlashesSpec | example/program/deck_images.py:59 | the kept prefix holds no "//" and is the whole name or is followed by "//" |
| DeckImages.CleanCharsLength | example/program/deck_images.py:60 | cleaning never lengthens a name |
| DeckImages.SlotOf | example/program/deck_images.py:19-26 | every slot is one of the nine columns |
| DeckImages.SlotSpec | example/program/deck_images.py:19-26 | land slot iff the type is Land; otherwise the slot after the truncated mana value, capped at 7; a mana value of -1 or less has no slot |
| DeckImages.CategorizeCards | example/program/deck_images.py:12-26 | fails with the first card whose mana value has no slot; otherwise nine buckets, each as specified |
| DeckImages.BucketMembers | example/program/deck_images.py:14-26 | a bucket holds exactly the known deck cards of that slot |
| DeckImages.PlacedMembers | example/program/deck_images.py:14-26 | a placement holds exactly the cards given that slot |
| DeckImages.BucketsPartition | example/program/deck_images.py:14-26 | the buckets' sizes add up to the number of known cards |
| DeckImages.KnownArePlaced | example/program/deck_images.py:14-26 | every known card is placed in some bucket |
| DeckImages.PlacedPartition | example/program/deck_images.py:14-26 | the per-slot placements add up to all placed cards |
| DeckImages.BuildColumns | example/program/deck_images.py:28-34 | the column loop computes the specified columns |
| DeckImages.ColumnsSpec | example/program/deck_images.py:28-34 | no column is empty, and the columns in order hold exactly the fetched cards of the buckets in order |
| DeckImages.TallestColumn | example/program/deck_images.py:42 | the maximum column length, attained by some column |
| DeckImages.PastedCardsFit | example/program/deck_images.py:36-53 | every pasted card lies inside the canvas with 40 px left, top and right margins (exact at the last column), 20 px between columns, and 30 px below (exact at the tallest column) |
| DeckImages.DeckLayout | example/program/deck_images.py:9-53 | the first card without a slot is an error; no fetched image is an error; otherwise the columns and their canvas |

## Left out

- Reading files, writing CSV files and `misspellings.txt`, printing, creating folders:
  the directory listing is a sequence of (name, lines) pairs, and the results are returned
  as values.
- Fetching, opening, resizing and saving card images, and drawing the final image: the
  fetch is a parameter `fetch: string -> bool`. It is assumed to give the same answer both
  times the code calls it for a card. Only the canvas and paste arithmetic is modelled.
- `make_cube_list`, the Scryfall download code and `visuals.py` are not part of this model.
  Of `main.py` only the hand-over from the archetype analysis to the card analysis is
  modelled.
- DeckParsing.ParseRecordSpec: a record number is whitespace, an optional `+` and a run of
  digits. Python's `float()` also accepts decimals ("3.0", "2.5"), exponents ("1e1"),
  `inf` and `nan`. The program keeps a deck with such a record. The model drops its file
  as malformed, so that deck is missing from every analysis and from the misspelling
  report. The card, player and archetype analyses truncate the record with `int()`. The
  timecourse analysis sums the raw values (program/analysis_utilities.py:252-261), so
  "2.5-1" would count 2.5 wins in 3.5 games there.
- DeckParsing.ExpandLineCopies: `int()` is modelled with an optional sign, ASCII digits
  and surrounding whitespace. Underscore separators and non-ASCII digits are not modelled.
- Timecourse.LabelList: Python's `set` has an unspecified iteration order. The labels are
  any duplicate-free enumeration of the archetype set.
- ColorStats.ExportColorAnalysis: the result is a map from colour to row. The order of the
  CSV rows is not modelled.
- ColorStats.ColorRows: keys of the last deck that are not colour names (`get_colors`
  never produces any) are visited after the five names in no particular order. If only
  such keys fault, the reported fault is that of one of them, not necessarily the first.
- CardStats.SortDesc: `sort_values` does not fix the order of equal keys, and neither
  does the model. Only "permutation in descending order, NaN last" is stated.
- Timecourse.SortBySpec: `sorted` is modelled by insertion sort on the integer date. It is
  proved to be the unique ascending permutation whenever the source's sort succeeds. On a
  tie of two different decks Python compares the deck dictionaries and raises. The model
  returns `DateTie` for any such tie, with no comparison of the dictionaries.
- Floating-point results (win rates, shares, averages) are exact reals. NaN and infinity
  are `Undefined`.
- Concurrency, the dataframe layout and column names are not modelled.
