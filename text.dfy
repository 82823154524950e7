/** The Python string operations the deck parser and the image helpers rely on,
    with Python's semantics: `str.split(sep)`, `sep.join`, `str.strip`, slicing
    with negative bounds, `in` on strings, and the parts of `int()` the parser
    depends on. */
module Text {
  import opened Common

  /** `s.split(sep)` for a one-character separator: the pieces between the
      separators, so `k` separators give `k + 1` pieces (possibly empty). */
  function Split(s: string, sep: char): (parts: seq<string>)
    ensures |parts| >= 1
    ensures forall k :: 0 <= k < |parts| ==> sep !in parts[k]
    decreases |s|
  {
    var i := IndexOf(s, sep);
    if i == |s| then [s] else [s[..i]] + Split(s[i + 1..], sep)
  }

  /** Text without the separator splits into itself alone. */
  lemma SplitWithoutSep(s: string, sep: char)
    requires sep !in s
    ensures Split(s, sep) == [s]
  {
    assert IndexOf(s, sep) == |s|;
  }

  /** Text with the separator splits into the part before its first occurrence
      followed by the pieces of the rest. */
  lemma SplitAtFirst(s: string, sep: char)
    requires sep in s
    ensures IndexOf(s, sep) < |s|
    ensures Split(s, sep) == [s[..IndexOf(s, sep)]] + Split(s[IndexOf(s, sep) + 1..], sep)
  {
  }

  /** `sep.join(parts)`. */
  function Join(parts: seq<string>, sep: char): string {
    if parts == [] then ""
    else if |parts| == 1 then parts[0]
    else parts[0] + [sep] + Join(parts[1..], sep)
  }

  /** Joining the pieces of a split with the same separator gives back the text. */
  lemma {:induction false} JoinSplit(s: string, sep: char)
    ensures Join(Split(s, sep), sep) == s
    decreases |s|
  {
    var i := IndexOf(s, sep);
    if i < |s| {
      var rest := s[i + 1..];
      var parts := Split(s, sep);
      assert parts == [s[..i]] + Split(rest, sep);
      assert |parts| >= 2 && parts[0] == s[..i] && parts[1..] == Split(rest, sep);
      assert Join(parts, sep) == parts[0] + [sep] + Join(parts[1..], sep);
      JoinSplit(rest, sep);
      assert s == s[..i] + [sep] + rest;
    }
  }

  /** The text after the first `sep` (empty when `sep` does not occur). */
  function AfterFirst(s: string, sep: char): string {
    var i := IndexOf(s, sep);
    if i == |s| then "" else s[i + 1..]
  }

  /** `sep.join(s.split(sep)[1:])` is everything after the first separator. */
  lemma SplitTailJoin(s: string, sep: char)
    ensures Join(Split(s, sep)[1..], sep) == AfterFirst(s, sep)
    ensures Split(s, sep)[0] == s[..IndexOf(s, sep)]
  {
    var i := IndexOf(s, sep);
    if i < |s| {
      JoinSplit(s[i + 1..], sep);
      assert Split(s, sep)[1..] == Split(s[i + 1..], sep);
    }
  }

  /** The last element of a non-empty list: Python's `xs[-1]`. */
  function Last<T>(xs: seq<T>): T
    requires |xs| > 0
  {
    xs[|xs| - 1]
  }

  /** `s.strip(c)`: `c` removed from both ends. */
  function StripChar(s: string, c: char): (t: string)
    ensures |t| <= |s|
    ensures t == [] || (t[0] != c && t[|t| - 1] != c)
    decreases |s|
  {
    if s == [] then s
    else if s[0] == c then StripChar(s[1..], c)
    else if s[|s| - 1] == c then StripChar(s[..|s| - 1], c)
    else s
  }

  /** The characters for which Python's `str.isspace()` holds. */
  predicate IsSpace(c: char) {
    c == ' ' || ('\t' <= c <= '\r') || ('\U{1C}' <= c <= '\U{1F}')
    || c == '\U{85}' || c == '\U{A0}' || c == '\U{1680}'
    || ('\U{2000}' <= c <= '\U{200A}') || c == '\U{2028}' || c == '\U{2029}'
    || c == '\U{202F}' || c == '\U{205F}' || c == '\U{3000}'
  }

  /** `s.strip()`: whitespace removed from both ends. */
  function Strip(s: string): (t: string)
    ensures |t| <= |s|
    ensures t == [] || (!IsSpace(t[0]) && !IsSpace(t[|t| - 1]))
    decreases |s|
  {
    if s == [] then s
    else if IsSpace(s[0]) then Strip(s[1..])
    else if IsSpace(s[|s| - 1]) then Strip(s[..|s| - 1])
    else s
  }

  /** `s[-k:]`: the last `k` characters, or all of `s` when it is shorter. */
  function TakeLast(s: string, k: nat): (t: string)
    ensures |t| == if |s| < k then |s| else k
  {
    if |s| < k then s else s[|s| - k..]
  }

  /** `s[:-k]` for `k > 0`: all but the last `k` characters, empty when `s` is shorter. */
  function DropLast(s: string, k: nat): (t: string)
    ensures |t| == if |s| < k then 0 else |s| - k
  {
    if |s| < k then "" else s[..|s| - k]
  }

  predicate IsDigit(c: char) {
    '0' <= c <= '9'
  }

  predicate AllDigits(s: string) {
    forall k :: 0 <= k < |s| ==> IsDigit(s[k])
  }

  /** Decimal value of a string of digits. */
  function DigitsValue(s: string): nat
    requires AllDigits(s)
  {
    if s == [] then 0
    else DigitsValue(s[..|s| - 1]) * 10 + (s[|s| - 1] - '0') as nat
  }

  /** What Python's `int()` accepts of a string, for the ASCII digits: surrounding
      whitespace, an optional sign, then one or more digits. */
  function ParseInt(s: string): (r: Option<int>)
    ensures r.Some? <==>
      var t := Strip(s);
      var body := if t != [] && (t[0] == '+' || t[0] == '-') then t[1..] else t;
      body != [] && AllDigits(body)
  {
    var t := Strip(s);
    var negative := t != [] && t[0] == '-';
    var body := if t != [] && (t[0] == '+' || t[0] == '-') then t[1..] else t;
    if body == [] || !AllDigits(body) then None
    else if negative then Some(-(DigitsValue(body) as int))
    else Some(DigitsValue(body))
  }

  /** A count of games: surrounding whitespace, an optional `+`, then digits. */
  function ParseNat(s: string): (r: Option<nat>)
    ensures r.Some? <==>
      var t := Strip(s);
      var body := if t != [] && t[0] == '+' then t[1..] else t;
      body != [] && AllDigits(body)
  {
    var t := Strip(s);
    var body := if t != [] && t[0] == '+' then t[1..] else t;
    if body == [] || !AllDigits(body) then None else Some(DigitsValue(body))
  }

  /** `needle` sits in `hay` starting at position `i`. */
  predicate OccursAt(needle: string, hay: string, i: int) {
    0 <= i <= |hay| - |needle| && hay[i..i + |needle|] == needle
  }

  /** Python's `needle in hay` on strings. */
  ghost predicate Occurs(needle: string, hay: string) {
    exists i :: OccursAt(needle, hay, i)
  }

  /** Substring search, scanning the start positions of `hay` from the left. */
  function Contains(hay: string, needle: string): (b: bool)
    ensures b <==> Occurs(needle, hay)
    decreases |hay|
  {
    if |hay| < |needle| then false
    else if hay[..|needle|] == needle then assert OccursAt(needle, hay, 0); true
    else
      var b := Contains(hay[1..], needle);
      assert b ==> Occurs(needle, hay) by {
        if b {
          var i :| OccursAt(needle, hay[1..], i);
          assert hay[1..][i..i + |needle|] == hay[i + 1..i + 1 + |needle|];
          assert OccursAt(needle, hay, i + 1);
        }
      }
      assert Occurs(needle, hay) ==> b by {
        if Occurs(needle, hay) {
          var i :| OccursAt(needle, hay, i);
          assert i != 0;
          assert hay[1..][i - 1..i - 1 + |needle|] == hay[i..i + |needle|];
          assert OccursAt(needle, hay[1..], i - 1);
        }
      }
      b
  }
}
