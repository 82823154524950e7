/** Small datatypes and sequence functions shared by every part of the model. */
module Common {

  datatype Option<+T> = None | Some(value: T)

  datatype Result<+T, +E> = Ok(value: T) | Err(error: E)

  /** A ratio that may be undefined: the NaN of the program is `Undefined`. */
  datatype Rate = Undefined | Defined(value: real)

  /** Index of the first `x` in `s`, or `|s|` when there is none. */
  function IndexOf<T(==)>(s: seq<T>, x: T): (i: nat)
    ensures i <= |s|
    ensures i < |s| ==> s[i] == x
    ensures forall j :: 0 <= j < i ==> s[j] != x
  {
    if s == [] then 0
    else if s[0] == x then 0
    else 1 + IndexOf(s[1..], x)
  }

  /** `[x] * n`: `n` copies of `x`, none when `n` is zero or negative. */
  function Repeat<T>(x: T, n: int): (r: seq<T>)
    ensures |r| == if n <= 0 then 0 else n
    ensures forall k :: 0 <= k < |r| ==> r[k] == x
    decreases n
  {
    if n <= 0 then [] else Repeat(x, n - 1) + [x]
  }

  /** Number of occurrences of `x` in `s`, counted from the back so that
      extending a prefix by one element unfolds the definition once. */
  function Count<T(==)>(s: seq<T>, x: T): (n: nat)
    ensures n <= |s|
    ensures n == 0 <==> x !in s
  {
    if s == [] then 0
    else Count(s[..|s| - 1], x) + (if s[|s| - 1] == x then 1 else 0)
  }

  /** The elements of `s` in order of first appearance, each once: the key
      order of a Python dict filled by inserting the elements of `s`. */
  function Dedup<T(==)>(s: seq<T>): (d: seq<T>)
    ensures |d| <= |s|
  {
    if s == [] then []
    else
      var init := Dedup(s[..|s| - 1]);
      if s[|s| - 1] in s[..|s| - 1] then init else init + [s[|s| - 1]]
  }

  /** Deduplication keeps exactly the elements of the sequence. */
  lemma {:induction false} DedupMembers<T>(s: seq<T>)
    ensures forall x :: x in Dedup(s) <==> x in s
  {
    if s != [] {
      var init := s[..|s| - 1];
      DedupMembers(init);
      assert s == init + [s[|s| - 1]];
    }
  }

  /** An element missing from the deduplicated sequence is missing from the sequence. */
  lemma NotInDedup<T>(s: seq<T>, x: T)
    requires x !in Dedup(s)
    ensures x !in s
  {
    DedupMembers(s);
  }

  /** Appending an element appends it to the deduplicated sequence exactly when it is new. */
  lemma DedupSnoc<T>(s: seq<T>, x: T)
    ensures Dedup(s + [x]) == if x in Dedup(s) then Dedup(s) else Dedup(s) + [x]
  {
    assert (s + [x])[..|s|] == s;
    DedupMembers(s);
  }

  predicate Distinct<T(==)>(s: seq<T>) {
    forall i, j :: 0 <= i < j < |s| ==> s[i] != s[j]
  }

  lemma {:induction false} DedupDistinct<T>(s: seq<T>)
    ensures Distinct(Dedup(s))
  {
    if s != [] {
      DedupDistinct(s[..|s| - 1]);
      DedupMembers(s[..|s| - 1]);
    }
  }

  /** In a duplicate-free sequence an element occurs at most once. */
  lemma {:induction false} DistinctCount<T>(s: seq<T>, x: T)
    requires Distinct(s)
    ensures Count(s, x) == if x in s then 1 else 0
  {
    if s != [] {
      var init := s[..|s| - 1];
      assert Distinct(init);
      DistinctCount(init, x);
      if s[|s| - 1] == x {
        assert x !in init;
      }
    }
  }

  /** Counting distributes over concatenation. */
  lemma {:induction false} CountAppend<T>(a: seq<T>, b: seq<T>, x: T)
    ensures Count(a + b, x) == Count(a, x) + Count(b, x)
    decreases |b|
  {
    if b == [] {
      assert a + b == a;
    } else {
      assert (a + b)[..|a + b| - 1] == a + b[..|b| - 1];
      CountAppend(a, b[..|b| - 1], x);
    }
  }

  /** The total number of occurrences in `s` of the elements of `keys`. */
  function SumOver<T(==)>(keys: seq<T>, s: seq<T>): nat {
    if keys == [] then 0 else SumOver(keys[..|keys| - 1], s) + Count(s, keys[|keys| - 1])
  }

  /** Adding one element to `s` adds, over `keys`, the number of times it is listed in `keys`. */
  lemma {:induction false} SumOverSnoc<T>(keys: seq<T>, s: seq<T>, x: T)
    ensures SumOver(keys, s + [x]) == SumOver(keys, s) + Count(keys, x)
  {
    if keys != [] {
      SumOverSnoc(keys[..|keys| - 1], s, x);
      CountAppend(s, [x], keys[|keys| - 1]);
    }
  }

  /** Over a duplicate-free list of keys covering `s`, the occurrence counts
      add up to the length of `s`. */
  lemma {:induction false} SumCountsDistinct<T>(keys: seq<T>, s: seq<T>)
    requires Distinct(keys)
    requires forall i :: 0 <= i < |s| ==> s[i] in keys
    ensures SumOver(keys, s) == |s|
  {
    if s == [] {
      SumOverEmpty(keys, s);
    } else {
      var init := s[..|s| - 1];
      SumCountsDistinct(keys, init);
      SumOverSnoc(keys, init, s[|s| - 1]);
      DistinctCount(keys, s[|s| - 1]);
      assert s == init + [s[|s| - 1]];
    }
  }

  lemma {:induction false} SumOverEmpty<T>(keys: seq<T>, s: seq<T>)
    requires s == []
    ensures SumOver(keys, s) == 0
  {
    if keys != [] {
      SumOverEmpty(keys[..|keys| - 1], s);
    }
  }

  /** One more copy adds one more `w`. */
  lemma MulSucc(n: nat, w: nat)
    ensures (n + 1) * w == n * w + w
  {
  }

  function Sum(s: seq<nat>): nat {
    if s == [] then 0 else Sum(s[..|s| - 1]) + s[|s| - 1]
  }

  function SumReal(s: seq<real>): real {
    if s == [] then 0.0 else SumReal(s[..|s| - 1]) + s[|s| - 1]
  }

  /** `Sum` distributes over concatenation. */
  lemma {:induction false} SumAppend(a: seq<nat>, b: seq<nat>)
    ensures Sum(a + b) == Sum(a) + Sum(b)
  {
    if b != [] {
      assert (a + b)[..|a + b| - 1] == a + b[..|b| - 1];
      SumAppend(a, b[..|b| - 1]);
    } else {
      assert a + b == a;
    }
  }

  /** A 0/1 observation list sums to at most its length. */
  lemma {:induction false} SumOfBitsBounded(s: seq<nat>)
    requires forall i :: 0 <= i < |s| ==> s[i] <= 1
    ensures Sum(s) <= |s|
  {
    if s != [] {
      SumOfBitsBounded(s[..|s| - 1]);
    }
  }

  /** Every element between `lo` and `hi` puts the sum between |s|*lo and |s|*hi. */
  lemma {:induction false} SumRealBounds(s: seq<real>, lo: real, hi: real)
    requires forall i :: 0 <= i < |s| ==> lo <= s[i] <= hi
    ensures (|s| as real) * lo <= SumReal(s) <= (|s| as real) * hi
  {
    if s != [] {
      SumRealBounds(s[..|s| - 1], lo, hi);
    }
  }

  /** Arithmetic mean; the caller rules out the empty sequence. */
  function Mean(s: seq<real>): real
    requires |s| > 0
  {
    SumReal(s) / (|s| as real)
  }

  lemma MeanBounds(s: seq<real>, lo: real, hi: real)
    requires |s| > 0
    requires forall i :: 0 <= i < |s| ==> lo <= s[i] <= hi
    ensures lo <= Mean(s) <= hi
  {
    SumRealBounds(s, lo, hi);
    var n := |s| as real;
    assert n > 0.0;
    assert lo * n <= SumReal(s) <= hi * n;
    DivBounds(SumReal(s), n, lo, hi);
  }

  lemma DivBounds(x: real, n: real, lo: real, hi: real)
    requires n > 0.0
    requires lo * n <= x <= hi * n
    ensures lo <= x / n <= hi
  {
  }
}
