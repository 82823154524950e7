/** The auto-initialising per-key accumulation the player and archetype
    analyses share: every deck credits its record to each key it lists (a key
    listed twice is credited twice); a key is inserted with a zero tally on
    first use, so the table's key order is the order of first appearance. */
module Tallies {
  import opened Common

  /** Number of credited decks, total wins and total losses of one key. */
  datatype Tally = Tally(num: nat, win: nat, loss: nat)

  /** One deck's contribution: the keys it credits and its record. */
  datatype Credit = Credit(keys: seq<string>, wins: nat, losses: nat)

  /** One row of an exported win-rate table. */
  datatype StatRow = StatRow(name: string, num: nat, win: nat, loss: nat, winRate: real)

  function Add(a: Tally, b: Tally): Tally {
    Tally(a.num + b.num, a.win + b.win, a.loss + b.loss)
  }


  /** Every key credited, deck after deck, in crediting order. */
  function Flatten(credits: seq<Credit>): seq<string> {
    if credits == [] then [] else Flatten(credits[..|credits| - 1]) + credits[|credits| - 1].keys
  }

  /** What one deck adds to `key`: its record once per listing of `key`. */
  function DeckTally(keys: seq<string>, key: string, wins: nat, losses: nat): Tally {
    if keys == [] then Tally(0, 0, 0)
    else
      var before := DeckTally(keys[..|keys| - 1], key, wins, losses);
      if keys[|keys| - 1] == key then Add(before, Tally(1, wins, losses)) else before
  }

  /** The tally of `key` over all decks. */
  function TallyOf(credits: seq<Credit>, key: string): Tally {
    if credits == [] then Tally(0, 0, 0)
    else
      var c := credits[|credits| - 1];
      Add(TallyOf(credits[..|credits| - 1], key), DeckTally(c.keys, key, c.wins, c.losses))
  }

  /** A deck adds its record to a key as many times as it lists the key. */
  lemma {:induction false} DeckTallyCount(keys: seq<string>, key: string, wins: nat, losses: nat)
    ensures DeckTally(keys, key, wins, losses)
      == Tally(Count(keys, key), Count(keys, key) * wins, Count(keys, key) * losses)
  {
    if keys != [] {
      DeckTallyCount(keys[..|keys| - 1], key, wins, losses);
      var n := Count(keys[..|keys| - 1], key);
      MulSucc(n, wins);
      MulSucc(n, losses);
    }
  }

  /** A key's deck count is the number of times it is credited. */
  lemma {:induction false} TallyNumCount(credits: seq<Credit>, key: string)
    ensures TallyOf(credits, key).num == Count(Flatten(credits), key)
  {
    if credits != [] {
      var init := credits[..|credits| - 1];
      var c := credits[|credits| - 1];
      TallyNumCount(init, key);
      DeckTallyCount(c.keys, key, c.wins, c.losses);
      CountAppend(Flatten(init), c.keys, key);
    }
  }

  /** A deck adds nothing to a key it does not list. */
  lemma {:induction false} DeckTallyAbsent(keys: seq<string>, key: string, wins: nat, losses: nat)
    requires key !in keys
    ensures DeckTally(keys, key, wins, losses) == Tally(0, 0, 0)
  {
    if keys != [] {
      DeckTallyAbsent(keys[..|keys| - 1], key, wins, losses);
    }
  }

  /** Extending the listed keys by one adds that key's credit. */
  lemma DeckTallySnoc(keys: seq<string>, k: nat, key: string, wins: nat, losses: nat)
    requires k < |keys|
    ensures DeckTally(keys[..k + 1], key, wins, losses)
      == if keys[k] == key then Add(DeckTally(keys[..k], key, wins, losses), Tally(1, wins, losses))
         else DeckTally(keys[..k], key, wins, losses)
  {
    assert keys[..k + 1][..k] == keys[..k];
  }

  /** Keys never credited have a zero tally. */
  lemma {:induction false} TallyOfAbsent(credits: seq<Credit>, key: string)
    requires key !in Flatten(credits)
    ensures TallyOf(credits, key) == Tally(0, 0, 0)
  {
    if credits != [] {
      var init := credits[..|credits| - 1];
      var c := credits[|credits| - 1];
      assert key !in Flatten(init) && key !in c.keys by {
        assert Flatten(credits) == Flatten(init) + c.keys;
      }
      TallyOfAbsent(init, key);
      DeckTallyAbsent(c.keys, key, c.wins, c.losses);
      assert TallyOf(credits, key) == Add(TallyOf(init, key), DeckTally(c.keys, key, c.wins, c.losses));
    }
  }

  /** The deck counts of all keys add up to the number of credits given. */
  lemma SumOfNums(credits: seq<Credit>)
    ensures SumOver(Dedup(Flatten(credits)), Flatten(credits)) == |Flatten(credits)|
  {
    DedupDistinct(Flatten(credits));
    DedupMembers(Flatten(credits));
    SumCountsDistinct(Dedup(Flatten(credits)), Flatten(credits));
  }

  /** `defaultdict` accumulation as the program runs it: for each deck, for
      each key it lists, insert a zero tally if the key is new, then add the
      deck's record. Returns the keys in insertion order and the table. */
  method Accumulate(credits: seq<Credit>) returns (order: seq<string>, table: map<string, Tally>)
    ensures order == Dedup(Flatten(credits))
    ensures forall key :: key in table <==> key in order
    ensures forall key :: key in table ==> table[key] == TallyOf(credits, key)
  {
    order, table := [], map[];
    var i := 0;
    while i < |credits|
      invariant 0 <= i <= |credits|
      invariant order == Dedup(Flatten(credits[..i]))
      invariant forall key :: key in table <==> key in order
      invariant forall key :: key in table ==> table[key] == TallyOf(credits[..i], key)
    {
      var c := credits[i];
      assert credits[..i + 1][..i] == credits[..i] && credits[..i + 1][i] == c;
      order, table := CreditDeck(order, table, c, credits[..i]);
      i := i + 1;
    }
    assert credits[..i] == credits;
  }

  /** The inner loop of the accumulation: one deck credited to each key it
      lists, on top of the decks `done` already credited. */
  method CreditDeck(order: seq<string>, table: map<string, Tally>, c: Credit, ghost done: seq<Credit>)
    returns (order': seq<string>, table': map<string, Tally>)
    requires order == Dedup(Flatten(done))
    requires forall key :: key in table <==> key in order
    requires forall key :: key in table ==> table[key] == TallyOf(done, key)
    ensures order' == Dedup(Flatten(done + [c]))
    ensures forall key :: key in table' <==> key in order'
    ensures forall key :: key in table' ==> table'[key] == TallyOf(done + [c], key)
  {
    order', table' := order, table;
    assert c.keys[..0] == [];
    assert Flatten(done) + c.keys[..0] == Flatten(done);
    PartlyCreditedStart(table, done, c);
    var k := 0;
    while k < |c.keys|
      invariant 0 <= k <= |c.keys|
      invariant Credited(order', table', done, c, k)
    {
      var key := c.keys[k];
      CreditStep(order', table', done, c, k);
      if key !in table' {
        table' := table'[key := Tally(0, 0, 0)];
      }
      if key !in order' {
        order' := order' + [key];
      }
      table' := table'[key := Add(table'[key], Tally(1, c.wins, c.losses))];
      k := k + 1;
    }
    assert c.keys[..k] == c.keys;
    FlattenSnoc(done, c);
    PartlyCreditedAll(table', done, c);
  }

  /** The state of the inner loop after the first `k` keys of `c`: the key order
      of everything credited so far, and a table over exactly those keys. */
  ghost predicate Credited(order: seq<string>, table: map<string, Tally>, done: seq<Credit>, c: Credit, k: nat)
    requires k <= |c.keys|
  {
    && order == Dedup(Flatten(done) + c.keys[..k])
    && (forall key :: key in table <==> key in order)
    && PartlyCredited(table, done, c, k)
  }

  /** One key of the inner loop: insert it with a zero tally when new, then add
      the deck's record. */
  lemma CreditStep(order: seq<string>, table: map<string, Tally>, done: seq<Credit>, c: Credit, k: nat)
    requires k < |c.keys|
    requires Credited(order, table, done, c, k)
    ensures var key := c.keys[k];
      var t := if key in table then table else table[key := Tally(0, 0, 0)];
      var o := if key in order then order else order + [key];
      Credited(o, t[key := Add(t[key], Tally(1, c.wins, c.losses))], done, c, k + 1)
  {
    var key := c.keys[k];
    var seen := Flatten(done) + c.keys[..k];
    assert c.keys[..k + 1] == c.keys[..k] + [key];
    assert Flatten(done) + c.keys[..k + 1] == seen + [key];
    var t := table;
    if key !in table {
      NewKeyUncredited(table, done, c, k, seen);
      t := table[key := Tally(0, 0, 0)];
    }
    DedupSnoc(seen, key);
    PartlyCreditedStep(t, done, c, k);
  }

  lemma FlattenSnoc(done: seq<Credit>, c: Credit)
    ensures Flatten(done + [c]) == Flatten(done) + c.keys
  {
    assert (done + [c])[..|done|] == done;
  }

  /** A table with every key of the deck credited holds the tallies over `done + [c]`. */
  lemma PartlyCreditedAll(table: map<string, Tally>, done: seq<Credit>, c: Credit)
    requires PartlyCredited(table, done, c, |c.keys|)
    ensures forall key :: key in table ==> table[key] == TallyOf(done + [c], key)
  {
    assert c.keys[..|c.keys|] == c.keys;
    assert (done + [c])[..|done|] == done;
  }

  /** Mid-deck state of the table: the decks `done` plus the first `k` keys of `c`. */
  ghost predicate PartlyCredited(table: map<string, Tally>, done: seq<Credit>, c: Credit, k: nat)
    requires k <= |c.keys|
  {
    forall key :: key in table ==>
      table[key] == Add(TallyOf(done, key), DeckTally(c.keys[..k], key, c.wins, c.losses))
  }

  /** A key not yet in the table has had nothing credited, so it may enter with
      a zero tally. */
  lemma NewKeyUncredited(table: map<string, Tally>, done: seq<Credit>, c: Credit, k: nat, seen: seq<string>)
    requires k < |c.keys| && c.keys[k] !in Dedup(seen)
    requires seen == Flatten(done) + c.keys[..k]
    requires PartlyCredited(table, done, c, k)
    ensures PartlyCredited(table[c.keys[k] := Tally(0, 0, 0)], done, c, k)
  {
    var key := c.keys[k];
    NotInDedup(seen, key);
    NotInConcat(Flatten(done), c.keys[..k], key);
    TallyOfAbsent(done, key);
    DeckTallyAbsent(c.keys[..k], key, c.wins, c.losses);
  }

  lemma PartlyCreditedStart(table: map<string, Tally>, done: seq<Credit>, c: Credit)
    requires forall key :: key in table ==> table[key] == TallyOf(done, key)
    ensures PartlyCredited(table, done, c, 0)
  {
    assert c.keys[..0] == [];
  }

  /** Crediting the next key keeps the mid-deck state; a key absent so far
      enters with a zero tally. */
  lemma PartlyCreditedStep(table: map<string, Tally>, done: seq<Credit>, c: Credit, k: nat)
    requires k < |c.keys| && c.keys[k] in table
    requires PartlyCredited(table, done, c, k)
    ensures PartlyCredited(table[c.keys[k] := Add(table[c.keys[k]], Tally(1, c.wins, c.losses))], done, c, k + 1)
  {
    var t := table[c.keys[k] := Add(table[c.keys[k]], Tally(1, c.wins, c.losses))];
    forall x | x in t
      ensures t[x] == Add(TallyOf(done, x), DeckTally(c.keys[..k + 1], x, c.wins, c.losses))
    {
      DeckTallySnoc(c.keys, k, x, c.wins, c.losses);
    }
  }

  lemma NotInConcat(a: seq<string>, b: seq<string>, x: string)
    requires x !in a + b
    ensures x !in a && x !in b
  {
    assert forall j :: 0 <= j < |a| ==> (a + b)[j] == a[j];
    assert forall j :: 0 <= j < |b| ==> (a + b)[|a| + j] == b[j];
  }

  /** `win / (win + loss)` as a Python division of integers: raises on 0/0. */
  function WinRate(t: Tally): Option<real> {
    if t.win + t.loss == 0 then None else Some((t.win as real) / ((t.win + t.loss) as real))
  }

  /** A defined win rate is a fraction between 0 and 1. */
  lemma WinRateBounds(t: Tally)
    requires WinRate(t).Some?
    ensures 0.0 <= WinRate(t).value <= 1.0
    ensures WinRate(t).value == 0.0 <==> t.win == 0
    ensures WinRate(t).value == 1.0 <==> t.loss == 0
  {
    var g := (t.win + t.loss) as real;
    DivBounds(t.win as real, g, 0.0, 1.0);
    if WinRate(t).value == 1.0 {
      assert (t.win as real) == g;
    }
  }

  /** The exported row of a key whose tally has games. */
  function RowOf(name: string, t: Tally): StatRow
    requires t.win + t.loss > 0
  {
    StatRow(name, t.num, t.win, t.loss, WinRate(t).value)
  }

  /** `rows` is the exported table of `credits`: one row per credited key, in
      order of first appearance, with the key's tally and win rate. */
  ghost predicate Tabulated(rows: seq<StatRow>, credits: seq<Credit>) {
    var order := Dedup(Flatten(credits));
    && |rows| == |order|
    && forall j :: 0 <= j < |order| ==>
         var t := TallyOf(credits, order[j]);
         t.win + t.loss > 0 && rows[j] == RowOf(order[j], t)
  }

  /** The `Num` column summed over the rows. */
  function SumNums(rows: seq<StatRow>): nat {
    if rows == [] then 0 else SumNums(rows[..|rows| - 1]) + rows[|rows| - 1].num
  }

  /** Rows whose counts are the occurrence counts of their keys add up to the
      sum of those counts. */
  lemma {:induction false} SumNumsCounts(rows: seq<StatRow>, order: seq<string>, flat: seq<string>)
    requires |rows| == |order|
    requires forall j :: 0 <= j < |rows| ==> rows[j].num == Count(flat, order[j])
    ensures SumNums(rows) == SumOver(order, flat)
  {
    if rows != [] {
      SumNumsCounts(rows[..|rows| - 1], order[..|order| - 1], flat);
    }
  }

  /** The win-rate pass over the table, in key order: fails on the first key
      without games. */
  method WinRates(order: seq<string>, table: map<string, Tally>) returns (r: Result<seq<StatRow>, string>)
    requires forall key :: key in order ==> key in table
    ensures r.Err? <==> exists j :: 0 <= j < |order| && WinRate(table[order[j]]).None?
    ensures r.Err? ==> r.error in order && WinRate(table[r.error]).None?
    ensures r.Ok? ==> |r.value| == |order| && forall j :: 0 <= j < |order| ==>
      var t := table[order[j]];
      t.win + t.loss > 0 && r.value[j] == RowOf(order[j], t)
  {
    var rows: seq<StatRow> := [];
    var j := 0;
    while j < |order|
      invariant 0 <= j <= |order|
      invariant |rows| == j
      invariant forall m :: 0 <= m < j ==>
        var t := table[order[m]];
        t.win + t.loss > 0 && rows[m] == RowOf(order[m], t)
    {
      var t := table[order[j]];
      if t.win + t.loss == 0 {
        return Err(order[j]);
      }
      rows := rows + [StatRow(order[j], t.num, t.win, t.loss, (t.win as real) / ((t.win + t.loss) as real))];
      j := j + 1;
    }
    r := Ok(rows);
  }

  /** Accumulation followed by the win-rate pass: the exported table of the
      credits, or the first key (in table order) whose record is 0-0, where the
      program's division raises. The deck counts of the rows add up to the
      number of credits given. */
  method Tabulate(credits: seq<Credit>) returns (r: Result<seq<StatRow>, string>)
    ensures var order := Dedup(Flatten(credits));
      r.Err? <==> exists j :: 0 <= j < |order| && WinRate(TallyOf(credits, order[j])).None?
    ensures r.Err? ==> r.error in Flatten(credits) && WinRate(TallyOf(credits, r.error)).None?
    ensures r.Ok? ==> Tabulated(r.value, credits)
    ensures r.Ok? ==> SumNums(r.value) == |Flatten(credits)|
  {
    var order, table := Accumulate(credits);
    DedupMembers(Flatten(credits));
    r := WinRates(order, table);
    if r.Ok? {
      forall j | 0 <= j < |order| ensures r.value[j].num == Count(Flatten(credits), order[j]) {
        TallyNumCount(credits, order[j]);
      }
      SumNumsCounts(r.value, order, Flatten(credits));
      SumOfNums(credits);
    }
  }
}
