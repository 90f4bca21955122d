/** The normalisation every variant runs before its dynamic program: NULL handling,
    trimming of the common prefix and suffix, ordering the two strings so the
    shorter comes first, and the length-difference bail-out. */
module Prealgorithm {
  import opened EditDistance
  import opened Common

  /** Length of the longest common prefix of `s` and `q`, extending a known
      common prefix of length `k` one character at a time. */
  function CommonPrefixFrom<T(==)>(s: seq<T>, q: seq<T>, k: nat): (r: nat)
    requires k <= |s| && k <= |q|
    requires forall t :: 0 <= t < k ==> s[t] == q[t]
    ensures k <= r <= |s| && r <= |q|
    ensures forall t :: 0 <= t < r ==> s[t] == q[t]
    ensures r < |s| && r < |q| ==> s[r] != q[r]
    decreases |s| - k
  {
    if k == |s| || k == |q| || s[k] != q[k] then k
    else CommonPrefixFrom(s, q, k + 1)
  }

  /** Length of the longest common prefix of `s` and `q`. */
  function CommonPrefix<T(==)>(s: seq<T>, q: seq<T>): (k: nat)
    ensures k <= |s| && k <= |q|
    ensures forall t :: 0 <= t < k ==> s[t] == q[t]
    ensures k < |s| && k < |q| ==> s[k] != q[k]
  {
    CommonPrefixFrom(s, q, 0)
  }

  /** Length of the longest common suffix of `s` and `q`, extending a known
      common suffix of length `e` one character at a time. */
  function CommonSuffixFrom<T(==)>(s: seq<T>, q: seq<T>, e: nat): (r: nat)
    requires e <= |s| && e <= |q|
    requires forall t :: |s| - e <= t < |s| ==> s[t] == q[t + |q| - |s|]
    ensures e <= r <= |s| && r <= |q|
    ensures forall t :: |s| - r <= t < |s| ==> s[t] == q[t + |q| - |s|]
    ensures r < |s| && r < |q| ==> s[|s| - r - 1] != q[|q| - r - 1]
    decreases |s| - e
  {
    if e == |s| || e == |q| || s[|s| - e - 1] != q[|q| - e - 1] then e
    else CommonSuffixFrom(s, q, e + 1)
  }

  /** Length of the longest common suffix of `s` and `q`. */
  function CommonSuffix<T(==)>(s: seq<T>, q: seq<T>): (e: nat)
    ensures e <= |s| && e <= |q|
    ensures forall t :: |s| - e <= t < |s| ==> s[t] == q[t + |q| - |s|]
    ensures e < |s| && e < |q| ==> s[|s| - e - 1] != q[|q| - e - 1]
  {
    CommonSuffixFrom(s, q, 0)
  }

  /** Either the call is already answered, or the dynamic program must run on
      `subject` (the shorter trimmed string, n characters) against `query` (m). */
  datatype Outcome<T> = Exit(value: int) | Run(subject: seq<T>, query: seq<T>)

  /** The two strings with their common prefix removed and then, within what is
      left, their common suffix: the two trims never overlap. */
  function Trim<T(==)>(s: seq<T>, q: seq<T>): (t: (seq<T>, seq<T>))
    ensures var k := CommonPrefix(s, q);
            k < |s| && k < |q| ==>
              |t.0| + |t.1| > 0 &&
              (|t.0| > 0 && |t.1| > 0 ==> t.0[0] != t.1[0] && t.0[|t.0| - 1] != t.1[|t.1| - 1])
  {
    var k := CommonPrefix(s, q);
    var e := CommonSuffix(s[k..], q[k..]);
    (s[k..|s| - e], q[k..|q| - e])
  }

  /** The shared pre-algorithm.  `checkMax` is false for the unbounded variants,
      which compile it with the length-difference check suppressed. */
  function Prepare<T(==)>(s0: Arg<T>, s1: Arg<T>, max: int, checkMax: bool): (r: Outcome<T>)
    ensures s0.Null? || s1.Null? ==> r == Exit(Max(Length(s0), Length(s1)))
    ensures r.Run? ==> 1 <= |r.subject| <= |r.query|
    ensures r.Run? ==> r.subject[0] != r.query[0]
    ensures r.Run? ==> r.subject[|r.subject| - 1] != r.query[|r.query| - 1]
    ensures r.Run? && checkMax ==> |r.query| - |r.subject| <= max
  {
    if s0.Null? || s1.Null? then Exit(Max(Length(s0), Length(s1)))
    else
      var s, q := s0.chars, s1.chars;
      var k := CommonPrefix(s, q);
      if |s| == k then Exit(|q| - k)
      else if |q| == k then Exit(|s| - k)
      else Finish(Trim(s, q).0, Trim(s, q).1, max, checkMax)
  }

  /** The tail of the pre-algorithm on the trimmed strings: put the shorter first,
      answer when it is empty or when the length difference alone exceeds `max`. */
  function Finish<T>(s: seq<T>, q: seq<T>, max: int, checkMax: bool): (r: Outcome<T>)
    ensures r.Run? ==> (r.subject, r.query) == (if |q| < |s| then (q, s) else (s, q))
    ensures r.Run? ==> 1 <= |r.subject| <= |r.query|
    ensures r.Run? && checkMax ==> |r.query| - |r.subject| <= max
    ensures r.Exit? ==> (Min(|s|, |q|) == 0 && r.value == Max(|s|, |q|)) ||
                        (Min(|s|, |q|) > 0 && checkMax && Max(|s|, |q|) - Min(|s|, |q|) > max && r.value == max + 1)
  {
    var subject := if |q| < |s| then q else s;
    var query := if |q| < |s| then s else q;
    if |subject| == 0 then Exit(|query|)
    else if checkMax && |query| - |subject| > max then Exit(max + 1)
    else Run(subject, query)
  }

  /** The bound the banded variants work with: at most the longer trimmed length. */
  function EffectiveMax(max: int, m: nat): (k: int)
    ensures k <= max && k <= m
    ensures k == max || k == m
  {
    Min(max, m)
  }

  /** Removing a common prefix of length k and a common suffix of length e keeps the distance. */
  lemma TrimKeepsDistance<T>(metric: Metric, s: seq<T>, q: seq<T>, k: nat, e: nat)
    requires k + e <= |s| && k + e <= |q|
    requires s[..k] == q[..k]
    requires forall t :: |s| - e <= t < |s| ==> s[t] == q[t + |q| - |s|]
    ensures Distance(metric, s[k..|s| - e], q[k..|q| - e]) == Distance(metric, s, q)
  {
    var p, x, y, z := s[..k], s[k..|s| - e], q[k..|q| - e], s[|s| - e..];
    assert z == q[|q| - e..];
    assert s == p + (x + z);
    assert q == p + (y + z);
    DropCommonPrefix(metric, p, x + z, y + z);
    DropCommonSuffix(metric, x, y, z);
  }

  /** A common suffix of the two tails after position k is a common suffix of the strings. */
  lemma TailSuffix<T>(s: seq<T>, q: seq<T>, k: nat, e: nat)
    requires k <= |s| && k <= |q|
    requires e <= |s| - k && e <= |q| - k
    requires forall t :: |s[k..]| - e <= t < |s[k..]| ==> s[k..][t] == q[k..][t + |q[k..]| - |s[k..]|]
    ensures forall t :: |s| - e <= t < |s| ==> s[t] == q[t + |q| - |s|]
  {
    forall t | |s| - e <= t < |s|
      ensures s[t] == q[t + |q| - |s|]
    {
      assert s[t] == s[k..][t - k];
      assert q[t + |q| - |s|] == q[k..][t - k + |q[k..]| - |s[k..]|];
    }
  }

  /** Trimming keeps the distance, in either order of the trimmed pair. */
  lemma TrimSound<T>(metric: Metric, s: seq<T>, q: seq<T>)
    ensures Distance(metric, Trim(s, q).0, Trim(s, q).1) == Distance(metric, s, q)
    ensures Distance(metric, Trim(s, q).1, Trim(s, q).0) == Distance(metric, s, q)
  {
    var k := CommonPrefix(s, q);
    var e := CommonSuffix(s[k..], q[k..]);
    var s', q' := s[k..|s| - e], q[k..|q| - e];
    assert Trim(s, q) == (s', q');
    assert s[..k] == q[..k];
    TailSuffix(s, q, k, e);
    TrimKeepsDistance(metric, s, q, k, e);
    Symmetric(metric, s', q', |s'|, |q'|);
    assert Distance(metric, q', s') == Distance(metric, s', q');
  }

  /** One string is a prefix of the other: the distance is the length difference. */
  lemma PrefixExit<T>(metric: Metric, s: seq<T>, q: seq<T>, k: nat)
    requires k == |s| <= |q| && s == q[..k]
    ensures Distance(metric, s, q) == |q| - k
    ensures Distance(metric, q, s) == |q| - k
  {
    assert q == s + q[k..];
    PrefixDistance(metric, s, q[k..]);
  }

  /** The tail of the pre-algorithm answers the distance d of its two strings, or
      `max + 1` when the length difference alone exceeds `max`; what it hands on
      is at distance d. */
  lemma FinishSound<T>(metric: Metric, s: seq<T>, q: seq<T>, max: int, checkMax: bool)
    ensures var r, d := Finish(s, q, max, checkMax), Distance(metric, s, q);
            (r.Exit? ==> r.value == d || (checkMax && r.value == max + 1 && max < d)) &&
            (r.Run? ==> Distance(metric, r.subject, r.query) == d)
  {
    Symmetric(metric, s, q, |s|, |q|);
    FromEmpty(metric, s);
    FromEmpty(metric, q);
    Bounds(metric, s, q, |s|, |q|);
  }

  /** Whatever the pre-algorithm answers is the distance, or `max + 1` when the
      length difference already exceeds `max`; whatever it hands on has the same
      distance as the two arguments. */
  lemma PrepareSound<T>(metric: Metric, s0: Arg<T>, s1: Arg<T>, max: int, checkMax: bool)
    requires s0.Value? && s1.Value?
    ensures var r, d := Prepare(s0, s1, max, checkMax), Distance(metric, s0.chars, s1.chars);
            r.Exit? ==> r.value == d || (checkMax && r.value == max + 1 && max < d)
    ensures var r, d := Prepare(s0, s1, max, checkMax), Distance(metric, s0.chars, s1.chars);
            r.Run? ==> Distance(metric, r.subject, r.query) == d
  {
    var s, q := s0.chars, s1.chars;
    var k := CommonPrefix(s, q);
    assert s[..k] == q[..k];
    if |s| == k {
      PrefixExit(metric, s, q, k);
    } else if |q| == k {
      PrefixExit(metric, q, s, k);
    } else {
      var t := Trim(s, q);
      TrimSound(metric, s, q);
      FinishSound(metric, t.0, t.1, max, checkMax);
    }
  }
}
