/** The time course (`export_timecourse_analysis`): decks sorted by date, a
    window of `W` consecutive decks slid over them, and for every archetype
    label and every window position the win rate of the decks in the window
    that carry the label. */
module Timecourse {
  import opened Common
  import opened Text
  import opened DeckParsing

  datatype TimecourseError =
    | NoDate              // a deck was collected without a date: the lookup raises
    | BadDate             // a date `int()` rejects
    | DateTie             // two different decks share a date: the tuple comparison reaches the decks and raises
    | NegativeWindowCount // more decks in a window than decks: the matrix allocation raises

  /** The labels and the matrix: one row per label, one column per window. */
  datatype Timecourse = Timecourse(labels: seq<string>, matrix: array2<Rate>)

  // ---------------------------------------------------------------------------
  // Labels

  /** Every archetype label any deck carries. */
  function LabelSet(decks: seq<Deck>): set<string> {
    if decks == [] then {}
    else LabelSet(decks[..|decks| - 1]) + Members(decks[|decks| - 1].archetypes)
  }

  /** The elements of a sequence. */
  function Members(s: seq<string>): (m: set<string>)
    ensures forall a :: a in m <==> a in s
  {
    set k | 0 <= k < |s| :: s[k]
  }

  /** A label is in the set exactly when some deck carries it. */
  lemma {:induction false} LabelSetSpec(decks: seq<Deck>)
    ensures forall a :: a in LabelSet(decks) <==> exists k :: 0 <= k < |decks| && a in decks[k].archetypes
  {
    if decks != [] {
      var init := decks[..|decks| - 1];
      LabelSetSpec(init);
      assert forall k :: 0 <= k < |init| ==> init[k] == decks[k];
    }
  }

  /** The row labels: every label once, in the (unspecified) order the set is walked. */
  method LabelList(decks: seq<Deck>) returns (labels: seq<string>)
    ensures Distinct(labels)
    ensures forall a :: a in labels <==> a in LabelSet(decks)
  {
    var all: set<string> := {};
    var i := 0;
    while i < |decks|
      invariant 0 <= i <= |decks| && all == LabelSet(decks[..i])
    {
      assert decks[..i + 1][..i] == decks[..i];
      all := all + Members(decks[i].archetypes);
      i := i + 1;
    }
    assert decks[..i] == decks;
    labels := [];
    var todo := all;
    while todo != {}
      invariant todo <= all && Distinct(labels)
      invariant forall a :: a in labels <==> a in all - todo
      decreases |todo|
    {
      var a :| a in todo;
      assert a !in labels;
      labels := labels + [a];
      todo := todo - {a};
    }
  }

  // ---------------------------------------------------------------------------
  // Dates

  /** `int(deck['date'])`. */
  function DateOf(d: Deck): Result<int, TimecourseError> {
    if d.date.None? then Err(NoDate)
    else
      var v := ParseInt(d.date.value);
      if v.None? then Err(BadDate) else Ok(v.value)
  }

  /** The sort key of a deck: its date, or 0 when it has none (never used then). */
  function DateKey(d: Deck): int {
    var v := DateOf(d);
    if v.Ok? then v.value else 0
  }

  /** The error of the first deck whose conversion fails, if any. */
  function FirstFailure(decks: seq<Deck>, conv: Deck -> Result<int, TimecourseError>): Option<TimecourseError> {
    if decks == [] then None
    else
      var e := FirstFailure(decks[..|decks| - 1], conv);
      if e.Some? then e
      else if conv(decks[|decks| - 1]).Err? then Some(conv(decks[|decks| - 1]).error)
      else None
  }

  /** The error of the first deck whose date does not convert, if any. */
  function FirstBadDate(decks: seq<Deck>): Option<TimecourseError> {
    FirstFailure(decks, DateOf)
  }

  /** No failure exactly when every deck converts. */
  lemma {:induction false} FirstFailureNone(decks: seq<Deck>, conv: Deck -> Result<int, TimecourseError>)
    ensures FirstFailure(decks, conv).None? <==> forall k :: 0 <= k < |decks| ==> conv(decks[k]).Ok?
  {
    if decks != [] {
      var init := decks[..|decks| - 1];
      FirstFailureNone(init, conv);
      assert forall k :: 0 <= k < |init| ==> init[k] == decks[k];
    }
  }

  /** No error exactly when every date converts. */
  lemma FirstBadDateNone(decks: seq<Deck>)
    ensures FirstBadDate(decks).None? <==> forall k :: 0 <= k < |decks| ==> DateOf(decks[k]).Ok?
  {
    FirstFailureNone(decks, DateOf);
  }

  /** The date list: every deck's date converted, in deck order, or the
      first failure (`conv` is `int(deck['date'])`). */
  method ConvertDates(decks: seq<Deck>, conv: Deck -> Result<int, TimecourseError>) returns (r: Result<seq<int>, TimecourseError>)
    ensures r.Err? <==> FirstFailure(decks, conv).Some?
    ensures r.Err? ==> r.error == FirstFailure(decks, conv).value
    ensures r.Ok? ==> |r.value| == |decks| && forall k :: 0 <= k < |decks| ==> conv(decks[k]) == Ok(r.value[k])
  {
    var dates: seq<int> := [];
    var i := 0;
    while i < |decks|
      invariant 0 <= i <= |decks| && FirstFailure(decks[..i], conv).None?
      invariant |dates| == i && forall k :: 0 <= k < i ==> conv(decks[k]) == Ok(dates[k])
    {
      assert decks[..i + 1][..i] == decks[..i];
      var v := conv(decks[i]);
      if v.Err? {
        PrefixFailure(decks, i + 1, conv);
        return Err(v.error);
      }
      dates := dates + [v.value];
      i := i + 1;
    }
    assert decks[..i] == decks;
    r := Ok(dates);
  }

  /** A failure in a prefix is the failure of the whole sequence. */
  lemma {:induction false} PrefixFailure(decks: seq<Deck>, i: nat, conv: Deck -> Result<int, TimecourseError>)
    requires i <= |decks| && FirstFailure(decks[..i], conv).Some?
    ensures FirstFailure(decks, conv) == FirstFailure(decks[..i], conv)
    decreases |decks| - i
  {
    if i < |decks| {
      assert decks[..i + 1][..i] == decks[..i];
      PrefixFailure(decks, i + 1, conv);
    } else {
      assert decks[..i] == decks;
    }
  }

  // ---------------------------------------------------------------------------
  // Sorting by date

  /** Two different decks with the same key: sorting the (date, deck) pairs
      has to compare the decks themselves, which raises. */
  predicate Clash(decks: seq<Deck>, key: Deck -> int) {
    exists i, j :: 0 <= i < |decks| && 0 <= j < |decks| && key(decks[i]) == key(decks[j]) && decks[i] != decks[j]
  }

  /** The decks are in ascending order of their keys. */
  predicate Ascending(s: seq<Deck>, key: Deck -> int) {
    forall i, j :: 0 <= i < j < |s| ==> key(s[i]) <= key(s[j])
  }

  /** `d` placed before the first deck with a larger key. */
  function Insert(d: Deck, s: seq<Deck>, key: Deck -> int): seq<Deck> {
    if s == [] then [d]
    else if key(d) <= key(s[0]) then [d] + s
    else [s[0]] + Insert(d, s[1..], key)
  }

  /** The decks sorted by key (stably: decks with equal keys keep their order). */
  function SortBy(decks: seq<Deck>, key: Deck -> int): seq<Deck> {
    if decks == [] then [] else Insert(decks[0], SortBy(decks[1..], key), key)
  }

  /** `sorted(zip(dates, decks))`, keeping the decks: the date list holds
      `DateKey` of each deck. */
  function SortByDate(decks: seq<Deck>): seq<Deck> {
    SortBy(decks, DateKey)
  }

  /** Inserting adds the deck to the multiset of decks. */
  lemma {:induction false} InsertPerm(d: Deck, s: seq<Deck>, key: Deck -> int)
    ensures multiset(Insert(d, s, key)) == multiset(s) + multiset{d}
  {
    if s != [] && key(d) > key(s[0]) {
      InsertPerm(d, s[1..], key);
      assert s == [s[0]] + s[1..];
    }
  }

  /** The inserted deck and the decks already there, nothing else. */
  lemma {:induction false} InsertMembers(d: Deck, s: seq<Deck>, key: Deck -> int)
    ensures forall x :: x in Insert(d, s, key) <==> x == d || x in s
  {
    if s != [] && key(d) > key(s[0]) {
      InsertMembers(d, s[1..], key);
      assert s == [s[0]] + s[1..];
    }
  }

  /** Inserting into an ascending sequence keeps it ascending. */
  lemma {:induction false} InsertAscending(d: Deck, s: seq<Deck>, key: Deck -> int)
    requires Ascending(s, key)
    ensures Ascending(Insert(d, s, key), key)
  {
    if s != [] {
      if key(d) > key(s[0]) {
        InsertAscending(d, s[1..], key);
        InsertMembers(d, s[1..], key);
        var t := Insert(d, s[1..], key);
        assert forall k :: 0 <= k < |t| ==> t[k] in t;
        assert forall x :: x in s[1..] ==> key(s[0]) <= key(x);
        assert forall k :: 0 <= k < |t| ==> key(s[0]) <= key(t[k]);
        assert Insert(d, s, key) == [s[0]] + t;
      } else {
        assert forall j :: 0 <= j < |s| ==> key(s[0]) <= key(s[j]);
      }
    }
  }

  /** The sort is a permutation of the decks in ascending order. */
  lemma {:induction false} SortBySpec(decks: seq<Deck>, key: Deck -> int)
    ensures multiset(SortBy(decks, key)) == multiset(decks)
    ensures Ascending(SortBy(decks, key), key)
  {
    if decks != [] {
      SortBySpec(decks[1..], key);
      InsertPerm(decks[0], SortBy(decks[1..], key), key);
      InsertAscending(decks[0], SortBy(decks[1..], key), key);
      assert decks == [decks[0]] + decks[1..];
    }
  }

  /** Two ascending permutations of each other without a clash start with the same deck. */
  lemma HeadsEqual(a: seq<Deck>, b: seq<Deck>, key: Deck -> int)
    requires Ascending(a, key) && Ascending(b, key) && multiset(a) == multiset(b) && !Clash(a, key)
    requires a != [] && b != []
    ensures a[0] == b[0]
  {
    assert b[0] in multiset(a) && a[0] in multiset(b);
    var m :| 0 <= m < |a| && a[m] == b[0];
    var k :| 0 <= k < |b| && b[k] == a[0];
    assert key(a[0]) <= key(a[m]) && key(b[0]) <= key(b[k]);
  }

  /** Dropping the first deck keeps a sequence free of clashes. */
  lemma TailNoClash(a: seq<Deck>, key: Deck -> int)
    requires a != [] && !Clash(a, key)
    ensures !Clash(a[1..], key)
  {
    forall i, j | 0 <= i < |a| - 1 && 0 <= j < |a| - 1 && key(a[1..][i]) == key(a[1..][j])
      ensures a[1..][i] == a[1..][j]
    {
      assert a[1..][i] == a[i + 1] && a[1..][j] == a[j + 1];
    }
  }

  /** Permutations of each other with the same first deck have permuted tails. */
  lemma TailPerm(a: seq<Deck>, b: seq<Deck>)
    requires a != [] && b != [] && a[0] == b[0] && multiset(a) == multiset(b)
    ensures multiset(a[1..]) == multiset(b[1..])
  {
    assert a == [a[0]] + a[1..] && b == [b[0]] + b[1..];
    assert multiset(a[1..]) == multiset(a) - multiset{a[0]};
    assert multiset(b[1..]) == multiset(b) - multiset{b[0]};
  }

  /** Without a clash there is only one ascending order: any two ascending
      permutations of each other are equal. */
  lemma {:induction false} SortedUnique(a: seq<Deck>, b: seq<Deck>, key: Deck -> int)
    requires Ascending(a, key) && Ascending(b, key) && multiset(a) == multiset(b) && !Clash(a, key)
    ensures a == b
  {
    assert |a| == |multiset(a)| == |multiset(b)| == |b|;
    if a != [] {
      HeadsEqual(a, b, key);
      TailNoClash(a, key);
      TailPerm(a, b);
      assert Ascending(a[1..], key) && Ascending(b[1..], key);
      SortedUnique(a[1..], b[1..], key);
    }
  }

  /** When sorting does not raise, any date-ordered permutation of the decks
      is the sort: the order of the decks is fully determined. */
  lemma SortIsUnique(decks: seq<Deck>, s: seq<Deck>)
    requires !Clash(decks, DateKey) && Ascending(s, DateKey) && multiset(s) == multiset(decks)
    ensures s == SortByDate(decks)
  {
    SortBySpec(decks, DateKey);
    var t := SortByDate(decks);
    assert !Clash(t, DateKey) by {
      forall i, j | 0 <= i < |t| && 0 <= j < |t| && DateKey(t[i]) == DateKey(t[j])
        ensures t[i] == t[j]
      {
        assert t[i] in multiset(decks) && t[j] in multiset(decks);
        var p :| 0 <= p < |decks| && decks[p] == t[i];
        var q :| 0 <= q < |decks| && decks[q] == t[j];
      }
    }
    SortedUnique(t, s, DateKey);
  }

  // ---------------------------------------------------------------------------
  // Windows and cells

  /** A Python slice bound: negative counts from the end, then clamped to the sequence. */
  function SliceBound(x: int, n: nat): (b: nat)
    ensures b <= n
  {
    if x < 0 then (if x + n < 0 then 0 else x + n) else if x > n then n else x
  }

  /** `s[a:b]` in Python. */
  function PySlice<T>(s: seq<T>, a: int, b: int): seq<T> {
    var lo, hi := SliceBound(a, |s|), SliceBound(b, |s|);
    if lo < hi then s[lo..hi] else []
  }

  /** The decks of the window that carry `tag`. */
  function Carrying(window: seq<Deck>, tag: string): (c: seq<Deck>)
    ensures |c| <= |window|
  {
    if window == [] then []
    else
      var init := Carrying(window[..|window| - 1], tag);
      if tag in window[|window| - 1].archetypes then init + [window[|window| - 1]] else init
  }

  function TotalWins(ds: seq<Deck>): nat {
    if ds == [] then 0 else TotalWins(ds[..|ds| - 1]) + ds[|ds| - 1].wins
  }

  function TotalGames(ds: seq<Deck>): nat {
    if ds == [] then 0 else TotalGames(ds[..|ds| - 1]) + ds[|ds| - 1].wins + ds[|ds| - 1].losses
  }

  /** One cell: the games the carrying decks won over the games they played;
      undefined when no deck carries the label or they played no game. */
  function Cell(window: seq<Deck>, tag: string): Rate {
    var c := Carrying(window, tag);
    if c == [] || TotalGames(c) == 0 then Undefined
    else Defined((TotalWins(c) as real) / (TotalGames(c) as real))
  }

  /** The cell of the window starting at `i`. */
  function WindowCell(sorted: seq<Deck>, window: int, i: int, tag: string): Rate {
    Cell(PySlice(sorted, i, i + window), tag)
  }

  /** One cell of the matrix, computed by walking the window once. */
  method ComputeCell(window: seq<Deck>, tag: string) returns (cell: Rate)
    ensures cell == Cell(window, tag)
  {
    var found := false;
    var wins, games := 0, 0;
    var k := 0;
    while k < |window|
      invariant 0 <= k <= |window|
      invariant found <==> Carrying(window[..k], tag) != []
      invariant wins == TotalWins(Carrying(window[..k], tag))
      invariant games == TotalGames(Carrying(window[..k], tag))
    {
      assert window[..k + 1][..k] == window[..k];
      if tag in window[k].archetypes {
        found := true;
        wins := wins + window[k].wins;
        games := games + window[k].wins + window[k].losses;
      }
      k := k + 1;
    }
    assert window[..k] == window;
    if !found || games == 0 {
      return Undefined;
    }
    cell := Defined((wins as real) / (games as real));
  }

  /** The sliding-window loop: column `i` holds the window starting at deck `i`,
      row `j` the label `labels[j]`. */
  method FillMatrix(sorted: seq<Deck>, labels: seq<string>, window: int, count: nat) returns (m: array2<Rate>)
    ensures m.Length0 == |labels| && m.Length1 == count
    ensures forall j, i :: 0 <= j < |labels| && 0 <= i < count ==> m[j, i] == WindowCell(sorted, window, i, labels[j])
  {
    m := new Rate[|labels|, count]((_, _) => Defined(0.0));
    var i := 0;
    while i < count
      invariant 0 <= i <= count
      invariant forall j, i' :: 0 <= j < |labels| && 0 <= i' < i ==> m[j, i'] == WindowCell(sorted, window, i', labels[j])
    {
      FillColumn(m, sorted, labels, window, i);
      i := i + 1;
    }
  }

  /** One window position: the cell of every label in column `i`; the other
      columns are left as they were. */
  method FillColumn(m: array2<Rate>, sorted: seq<Deck>, labels: seq<string>, window: int, i: nat)
    requires m.Length0 == |labels| && i < m.Length1
    modifies m
    ensures forall j :: 0 <= j < |labels| ==> m[j, i] == WindowCell(sorted, window, i, labels[j])
    ensures forall j, i' :: 0 <= j < |labels| && 0 <= i' < m.Length1 && i' != i ==> m[j, i'] == old(m[j, i'])
  {
    var decks := PySlice(sorted, i, i + window);
    var j := 0;
    while j < |labels|
      invariant 0 <= j <= |labels|
      invariant forall j' :: 0 <= j' < j ==> m[j', i] == WindowCell(sorted, window, i, labels[j'])
      invariant forall j', i' :: 0 <= j' < |labels| && 0 <= i' < m.Length1 && i' != i ==> m[j', i'] == old(m[j', i'])
    {
      var cell := ComputeCell(decks, labels[j]);
      m[j, i] := cell;
      j := j + 1;
    }
  }

  // ---------------------------------------------------------------------------
  // The whole analysis

  /** `export_timecourse_analysis`: the labels, then the dates, the sort, the
      number of windows and the matrix, each step with the error it can raise. */
  method ExportTimecourse(decks: seq<Deck>, window: int) returns (r: Result<Timecourse, TimecourseError>)
    ensures FirstBadDate(decks).Some? ==> r == Err(FirstBadDate(decks).value)
    ensures FirstBadDate(decks).None? && Clash(decks, DateKey) ==> r == Err(DateTie)
    ensures FirstBadDate(decks).None? && !Clash(decks, DateKey) && |decks| - window + 1 < 0 ==> r == Err(NegativeWindowCount)
    ensures r.Ok? <==> FirstBadDate(decks).None? && !Clash(decks, DateKey) && |decks| - window + 1 >= 0
    ensures r.Ok? ==>
      var t := r.value;
      && Distinct(t.labels)
      && (forall a :: a in t.labels <==> a in LabelSet(decks))
      && t.matrix.Length0 == |t.labels|
      && t.matrix.Length1 == |decks| - window + 1
      && forall j, i :: 0 <= j < |t.labels| && 0 <= i < t.matrix.Length1 ==>
           t.matrix[j, i] == WindowCell(SortByDate(decks), window, i, t.labels[j])
  {
    var labels := LabelList(decks);
    var dates := ConvertDates(decks, DateOf);
    if dates.Err? {
      return Err(dates.error);
    }
    // The pairs sorted are (dates[k], decks[k]) with dates[k] == DateKey(decks[k]).
    if Clash(decks, DateKey) {
      return Err(DateTie);
    }
    var sorted := SortByDate(decks);
    var count := |sorted| - window + 1;
    SortBySpec(decks, DateKey);
    assert |sorted| == |multiset(sorted)| == |decks|;
    if count < 0 {
      return Err(NegativeWindowCount);
    }
    var m := FillMatrix(sorted, labels, window, count);
    r := Ok(Timecourse(labels, m));
  }

  // ---------------------------------------------------------------------------
  // What the time course promises

  /** With `1 <= W`, each of the `n - W + 1` windows is `W` consecutive decks,
      and the last one ends with the last deck. */
  lemma WindowShape<T>(s: seq<T>, window: int, i: int)
    requires 1 <= window && 0 <= i && i + window <= |s|
    ensures PySlice(s, i, i + window) == s[i..i + window]
    ensures |PySlice(s, i, i + window)| == window
  {
  }

  /** The total wins of some decks never exceed their total games. */
  lemma {:induction false} WinsWithinGames(ds: seq<Deck>)
    ensures TotalWins(ds) <= TotalGames(ds)
  {
    if ds != [] {
      WinsWithinGames(ds[..|ds| - 1]);
    }
  }

  /** A defined cell is a rate in [0, 1]; a cell is undefined exactly when no
      deck of the window carries the label or those decks played no game. */
  lemma CellSpec(window: seq<Deck>, tag: string)
    ensures Cell(window, tag).Defined? ==> 0.0 <= Cell(window, tag).value <= 1.0
    ensures Cell(window, tag).Undefined? <==>
      Carrying(window, tag) == [] || TotalGames(Carrying(window, tag)) == 0
  {
    var c := Carrying(window, tag);
    WinsWithinGames(c);
    if c != [] && TotalGames(c) != 0 {
      DivBounds(TotalWins(c) as real, TotalGames(c) as real, 0.0, 1.0);
    }
  }

  /** The carrying decks are exactly the decks of the window with the label, in order. */
  lemma {:induction false} CarryingSpec(window: seq<Deck>, tag: string)
    ensures forall d :: d in Carrying(window, tag) <==> d in window && tag in d.archetypes
  {
    if window != [] {
      var init := window[..|window| - 1];
      CarryingSpec(init, tag);
      assert window == init + [window[|window| - 1]];
    }
  }
}
