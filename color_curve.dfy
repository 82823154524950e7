/** The colour curve (`export_color_curve`): the share of decks in each of nine
    buckets, one to five main colours, each with or without a splash. */
module ColorCurve {
  import opened Common
  import opened DeckColors
  import opened DeckParsing

  /** The bucket labels in the order of `export_color_curve`'s dictionary. */
  const CurveLabels: seq<string> := ["One", "One + Splash", "Two", "Two + Splash", "Three", "Three + Splash",
                                     "Four", "Four + Splash", "Five"]

  /** The colours a map holds with a non-zero count. */
  function Played(m: map<string, nat>): set<string> {
    set c | c in m && m[c] != 0
  }

  /** Whether a splash map holds any non-zero count. */
  predicate AnySplash(m: map<string, nat>) {
    exists c :: c in m && m[c] != 0
  }

  /** The list index `export_color_curve` computes: two per colour, one more for a
      splash, minus two. */
  function BucketIndex(d: Deck): int {
    2 * |Played(d.colors)| + (if AnySplash(d.splash) then 1 else 0) - 2
  }

  /** The bucket a deck is counted in: a negative index counts from the end of
      the nine labels, an index of nine or more raises. */
  function Bucket(d: Deck): (b: Option<nat>)
    ensures b.Some? ==> b.value < 9
  {
    var i := BucketIndex(d);
    if i >= 9 then None else if i < 0 then Some(i + 9) else Some(i)
  }

  /** The number of decks counted in bucket `b`. */
  function BucketCount(decks: seq<Deck>, b: nat): nat {
    if decks == [] then 0
    else BucketCount(decks[..|decks| - 1], b) + (if Bucket(decks[|decks| - 1]) == Some(b) then 1 else 0)
  }

  datatype CurveError =
    | BucketOverflow  // a deck with five colours and a splash (or more colour keys): the label index raises
    | EmptyCurve      // no deck at all: the shares divide by zero

  /** `export_color_curve`: the share of decks per bucket, in label order. */
  method ExportColorCurve(decks: seq<Deck>) returns (r: Result<seq<real>, CurveError>)
    ensures r.Err? <==> decks == [] || exists i :: 0 <= i < |decks| && Bucket(decks[i]).None?
    ensures (exists i :: 0 <= i < |decks| && Bucket(decks[i]).None?) ==> r == Err(BucketOverflow)
    ensures decks == [] ==> r == Err(EmptyCurve)
    ensures r.Ok? ==> |r.value| == |CurveLabels|
    ensures r.Ok? ==> forall b :: 0 <= b < |r.value| ==> r.value[b] == (BucketCount(decks, b) as real) / (|decks| as real)
  {
    var counts := CountBuckets(decks);
    if counts.None? {
      return Err(BucketOverflow);
    }
    if |decks| == 0 {
      return Err(EmptyCurve);
    }
    var shares := Divide(counts.value, |decks|);
    r := Ok(shares);
  }

  /** The deck loop: the number of decks in each bucket, or None at the first
      deck whose index raises. */
  method CountBuckets(decks: seq<Deck>) returns (counts: Option<seq<nat>>)
    ensures counts.None? <==> exists i :: 0 <= i < |decks| && Bucket(decks[i]).None?
    ensures counts.Some? ==> |counts.value| == 9 && forall b :: 0 <= b < 9 ==> counts.value[b] == BucketCount(decks, b)
  {
    var tally: seq<nat> := [0, 0, 0, 0, 0, 0, 0, 0, 0];
    var i := 0;
    while i < |decks|
      invariant 0 <= i <= |decks|
      invariant |tally| == 9 && forall b :: 0 <= b < 9 ==> tally[b] == BucketCount(decks[..i], b)
      invariant forall j :: 0 <= j < i ==> Bucket(decks[j]).Some?
    {
      var bucket := DeckBucket(decks[i]);
      if bucket.None? {
        return None;
      }
      BucketCountSnoc(decks, i);
      tally := tally[bucket.value := tally[bucket.value] + 1];
      i := i + 1;
    }
    assert decks[..i] == decks;
    counts := Some(tally);
  }

  /** The bucket of one deck: its colour loop, its splash loop, then the index. */
  method DeckBucket(d: Deck) returns (bucket: Option<nat>)
    ensures bucket == Bucket(d)
  {
    var colors := CountPlayed(d.colors);
    var splash := HasSplash(d.splash);
    var index := 2 * (colors as int) + (if splash then 1 else 0) - 2;
    if index >= 9 {
      return None;
    }
    bucket := Some(if index < 0 then index + 9 else index);
  }

  /** The division loop: every count over the number of decks. */
  method Divide(counts: seq<nat>, n: nat) returns (shares: seq<real>)
    requires n > 0
    ensures |shares| == |counts|
    ensures forall k :: 0 <= k < |counts| ==> shares[k] == (counts[k] as real) / (n as real)
  {
    shares := [];
    var b := 0;
    while b < |counts|
      invariant 0 <= b <= |counts| && |shares| == b
      invariant forall k :: 0 <= k < b ==> shares[k] == (counts[k] as real) / (n as real)
    {
      shares := shares + [(counts[b] as real) / (n as real)];
      b := b + 1;
    }
  }

  /** One more deck adds one to its own bucket. */
  lemma BucketCountSnoc(decks: seq<Deck>, i: nat)
    requires i < |decks|
    ensures forall b: nat :: (BucketCount(decks[..i + 1], b)
      == BucketCount(decks[..i], b) + (if Bucket(decks[i]) == Some(b) then 1 else 0))
  {
    assert decks[..i + 1][..i] == decks[..i];
  }

  /** The colour loop of one deck: the number of colours with a non-zero count. */
  method CountPlayed(m: map<string, nat>) returns (k: nat)
    ensures k == |Played(m)|
  {
    k := 0;
    var todo := m.Keys;
    ghost var seen: set<string> := {};
    while todo != {}
      invariant todo <= m.Keys && seen == Played(m) - todo
      invariant k == |seen|
      decreases |todo|
    {
      var c :| c in todo;
      if m[c] != 0 {
        assert c !in seen;
        seen := seen + {c};
        k := k + 1;
      }
      todo := todo - {c};
      assert seen == Played(m) - todo;
    }
    assert seen == Played(m);
  }

  /** The splash loop of one deck: whether any colour is splashed. */
  method HasSplash(m: map<string, nat>) returns (splash: bool)
    ensures splash == AnySplash(m)
  {
    splash := false;
    var todo := m.Keys;
    while todo != {}
      invariant todo <= m.Keys
      invariant splash <==> exists c :: c in m && c !in todo && m[c] != 0
      decreases |todo|
    {
      var c :| c in todo;
      if m[c] != 0 {
        splash := true;
      }
      todo := todo - {c};
    }
  }

  // ---------------------------------------------------------------------------
  // What the curve promises

  /** The decks counted in the buckets below `k`. */
  function CountsBelow(decks: seq<Deck>, k: nat): nat {
    if k == 0 then 0 else CountsBelow(decks, k - 1) + BucketCount(decks, k - 1)
  }

  /** The last deck adds one to the buckets below `k` when its bucket is one of them. */
  lemma {:induction false} CountsBelowSnoc(decks: seq<Deck>, k: nat)
    requires decks != []
    ensures CountsBelow(decks, k) == CountsBelow(decks[..|decks| - 1], k)
      + (if Bucket(decks[|decks| - 1]).Some? && Bucket(decks[|decks| - 1]).value < k then 1 else 0)
  {
    if k > 0 {
      CountsBelowSnoc(decks, k - 1);
    }
  }

  /** No deck, no count. */
  lemma {:induction false} CountsBelowEmpty(k: nat)
    ensures CountsBelow([], k) == 0
  {
    if k > 0 {
      CountsBelowEmpty(k - 1);
    }
  }

  /** Every deck is counted in exactly one bucket, so the nine counts add up to
      the number of decks. */
  lemma {:induction false} BucketCountsSum(decks: seq<Deck>)
    requires forall i :: 0 <= i < |decks| ==> Bucket(decks[i]).Some?
    ensures CountsBelow(decks, 9) == |decks|
  {
    if decks == [] {
      CountsBelowEmpty(9);
    } else {
      var init := decks[..|decks| - 1];
      assert forall i :: 0 <= i < |init| ==> init[i] == decks[i];
      BucketCountsSum(init);
      CountsBelowSnoc(decks, 9);
    }
  }

  /** The first `k` shares add up to the decks in the first `k` buckets over
      all decks. */
  lemma {:induction false} SharesPrefixSum(decks: seq<Deck>, shares: seq<real>, k: nat)
    requires decks != [] && |shares| == 9 && k <= 9
    requires forall b :: 0 <= b < 9 ==> shares[b] == (BucketCount(decks, b) as real) / (|decks| as real)
    ensures SumReal(shares[..k]) == (CountsBelow(decks, k) as real) / (|decks| as real)
  {
    if k == 0 {
      assert shares[..0] == [];
    } else {
      SharesPrefixSum(decks, shares, k - 1);
      assert shares[..k][..k - 1] == shares[..k - 1];
      DivAdd(CountsBelow(decks, k - 1) as real, BucketCount(decks, k - 1) as real, |decks| as real);
    }
  }

  /** Two quotients over the same divisor add up to the quotient of the sum. */
  lemma DivAdd(a: real, b: real, n: real)
    requires n != 0.0
    ensures a / n + b / n == (a + b) / n
  {
    assert (a / n) * n == a && (b / n) * n == b;
    assert (a / n + b / n) * n == a + b;
  }

  /** The nine shares of a curve add up to 1. */
  lemma CurveSharesSum(decks: seq<Deck>, shares: seq<real>)
    requires decks != [] && forall i :: 0 <= i < |decks| ==> Bucket(decks[i]).Some?
    requires |shares| == 9
    requires forall b :: 0 <= b < 9 ==> shares[b] == (BucketCount(decks, b) as real) / (|decks| as real)
    ensures SumReal(shares) == 1.0
  {
    SharesPrefixSum(decks, shares, 9);
    assert shares[..9] == shares;
    BucketCountsSum(decks);
    DivSelf(|decks| as real);
  }

  lemma DivSelf(n: real)
    requires n != 0.0
    ensures n / n == 1.0
  {
  }

  /** A deck whose non-land cards are all colourless and that splashes nothing
      has index -2 and is counted under "Four + Splash". */
  lemma ColorlessBucket(d: Deck)
    requires forall c :: c in d.colors ==> d.colors[c] == 0
    requires forall c :: c in d.splash ==> d.splash[c] == 0
    ensures BucketIndex(d) == -2 && Bucket(d) == Some(7) && CurveLabels[7] == "Four + Splash"
  {
    assert Played(d.colors) == {};
  }

  /** A subset of a finite set is no larger, and strictly smaller when some
      element is missing. */
  lemma {:induction false} SubsetSize(a: set<string>, b: set<string>, x: string)
    requires a <= b
    ensures |a| <= |b|
    ensures x in b && x !in a ==> |a| < |b|
    decreases |b|
  {
    if b != {} {
      var y :| y in b;
      SubsetSize(a - {y}, b - {y}, x);
      if y in a {
        assert |a| == |a - {y}| + 1;
      } else {
        assert a - {y} == a;
      }
    }
  }

  /** The five colour names are five different keys. */
  lemma FiveNames()
    ensures |{"White", "Blue", "Black", "Red", "Green"}| == 5
  {
    ColorKeysDistinct();
    var s4 := {"White", "Blue", "Black", "Red"};
    assert |{"White", "Blue", "Black"}| == 3;
    assert |s4| == 4;
    assert {"White", "Blue", "Black", "Red", "Green"} == s4 + {"Green"};
  }

  /** A deck whose maps come from the colour classifier always has a bucket:
      five main colours leave nothing to splash. */
  lemma ParsedBucket(raw: seq<nat>, n: nat, d: Deck)
    requires |raw| == 5 && d.colors == Demote(raw, n).colors && d.splash == Demote(raw, n).splash
    ensures Bucket(d).Some?
  {
    var names := {"White", "Blue", "Black", "Red", "Green"};
    DemoteKeys(raw, n);
    FiveNames();
    assert Played(d.colors) <= names;
    if Played(d.colors) == names {
      forall k | 0 <= k < 5
        ensures !Splashed(raw[k], n)
      {
        DemotePartition(raw, n, k);
        assert ColorNames[k] in names;
      }
      assert !AnySplash(d.splash);
      SubsetSize(Played(d.colors), names, "");
    } else {
      var x :| x in names && x !in Played(d.colors);
      SubsetSize(Played(d.colors), names, x);
    }
  }
}
