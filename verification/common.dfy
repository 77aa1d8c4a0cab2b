/**
 Small shared vocabulary: an optional value, and selecting the elements of a
 sequence by a parallel sequence of boolean flags (used to say that an
 algorithm splits its input into two order-preserving parts).
 */
module Common {

  datatype Option<+T> = None | Some(value: T)

  /** The elements of `xs` whose flag equals `b`, in their original order. */
  function Select<T>(xs: seq<T>, flags: seq<bool>, b: bool): (r: seq<T>)
    requires |flags| == |xs|
    ensures |r| <= |xs|
    decreases |xs|
  {
    if |xs| == 0 then []
    else
      var rest := Select(xs[..|xs| - 1], flags[..|flags| - 1], b);
      if flags[|flags| - 1] == b then rest + [xs[|xs| - 1]] else rest
  }

  predicate NoDuplicates<T(==)>(xs: seq<T>) {
    forall i, j :: 0 <= i < j < |xs| ==> xs[i] != xs[j]
  }

  /**
   The two selections by `true` and by `false` partition `xs`: every element
   lands in exactly one of them, so together they hold the same multiset and
   their lengths add up.
   */
  lemma {:induction false} SelectPartitions<T>(xs: seq<T>, flags: seq<bool>)
    requires |flags| == |xs|
    ensures multiset(Select(xs, flags, true)) + multiset(Select(xs, flags, false)) == multiset(xs)
    ensures |Select(xs, flags, true)| + |Select(xs, flags, false)| == |xs|
    decreases |xs|
  {
    if |xs| > 0 {
      var n := |xs| - 1;
      var prefix := xs[..n];
      SelectPartitions(prefix, flags[..n]);
      var t := Select(prefix, flags[..n], true);
      var f := Select(prefix, flags[..n], false);
      assert xs == prefix + [xs[n]];
      assert multiset(xs) == multiset(prefix) + multiset{xs[n]};
      if flags[n] {
        assert Select(xs, flags, true) == t + [xs[n]];
        assert multiset(t + [xs[n]]) == multiset(t) + multiset{xs[n]};
      } else {
        assert Select(xs, flags, false) == f + [xs[n]];
        assert multiset(f + [xs[n]]) == multiset(f) + multiset{xs[n]};
      }
    }
  }

  /** Selecting from a one-step-longer prefix extends the selection from the shorter one. */
  lemma SelectSnoc<T>(xs: seq<T>, flags: seq<bool>, b: bool, i: nat)
    requires |flags| == |xs|
    requires i < |xs|
    ensures Select(xs[..i + 1], flags[..i + 1], b)
         == Select(xs[..i], flags[..i], b) + (if flags[i] == b then [xs[i]] else [])
  {
    assert xs[..i + 1][..i] == xs[..i];
    assert flags[..i + 1][..i] == flags[..i];
  }

  /** A prefix of a prefix is a prefix. */
  lemma PrefixTransitive<T>(a: seq<T>, b: seq<T>, c: seq<T>)
    requires a <= b && b <= c
    ensures a <= c
  {
    assert c[..|a|] == b[..|a|];
  }
}
