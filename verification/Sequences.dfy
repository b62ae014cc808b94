/** Filtering and mapping a list in one pass, what rearranging the list does to the result, and the
    size of subsets. */
module Sequences {
  import opened Options

  /** The values `f` yields, in order, skipping nulls. */
  function Gather<T, V>(s: seq<T>, f: T -> Option<V>): seq<V> {
    if s == [] then [] else (if f(s[0]).Some? then [f(s[0]).value] else []) + Gather(s[1..], f)
  }

  lemma {:induction false} GatherAppend<T, V>(a: seq<T>, b: seq<T>, f: T -> Option<V>)
    ensures Gather(a + b, f) == Gather(a, f) + Gather(b, f)
  {
    if a == [] {
      assert a + b == b;
    } else {
      var head, tail := Gather([a[0]], f), Gather(a[1..], f);
      GatherUnfold(a, f);
      GatherUnfold(a + b, f);
      assert (a + b)[1..] == a[1..] + b;
      GatherAppend(a[1..], b, f);
      hide Gather;
      assert head + (tail + Gather(b, f)) == (head + tail) + Gather(b, f);
    }
  }

  lemma GatherUnfold<T, V>(s: seq<T>, f: T -> Option<V>)
    requires s != []
    ensures Gather(s, f) == Gather([s[0]], f) + Gather(s[1..], f)
  {
  }

  lemma GatherOne<T, V>(x: T, f: T -> Option<V>)
    ensures Gather([x], f) == if f(x).Some? then [f(x).value] else []
  {
  }

  /** Gathering from one more element. */
  lemma GatherStep<T, V>(s: seq<T>, k: nat, f: T -> Option<V>)
    requires k < |s|
    ensures Gather(s[..k + 1], f) == if f(s[k]).Some? then Gather(s[..k], f) + [f(s[k]).value] else Gather(s[..k], f)
  {
    assert s[..k + 1] == s[..k] + [s[k]];
    GatherAppend(s[..k], [s[k]], f);
    GatherOne(s[k], f);
  }

  lemma PullFront<T>(s: seq<T>, j: nat)
    requires j < |s|
    ensures s == s[..j] + [s[j]] + s[j + 1..]
    ensures multiset(s[..j] + s[j + 1..]) == multiset(s) - multiset{s[j]}
  {
    assert s == s[..j] + [s[j]] + s[j + 1..];
  }

  lemma GatherPulled<T, V>(s: seq<T>, j: nat, f: T -> Option<V>)
    requires j < |s|
    ensures multiset(Gather(s, f)) == multiset(Gather([s[j]], f)) + multiset(Gather(s[..j] + s[j + 1..], f))
  {
    hide Gather;
    PullFront(s, j);
    GatherAppend(s[..j] + [s[j]], s[j + 1..], f);
    GatherAppend(s[..j], [s[j]], f);
    GatherAppend(s[..j], s[j + 1..], f);
  }

  /** Gathering from a rearranged list gathers the same values, rearranged. */
  lemma {:induction false} GatherPermutation<T, V>(a: seq<T>, b: seq<T>, f: T -> Option<V>)
    requires multiset(a) == multiset(b)
    ensures multiset(Gather(a, f)) == multiset(Gather(b, f))
    decreases |a|
  {
    hide Gather;
    SameSize(a, b);
    if a == [] {
      assert b == [];
    } else {
      assert a[0] in multiset(b);
      var j :| 0 <= j < |b| && b[j] == a[0];
      PullFront(a, 0);
      PullFront(b, j);
      var rest := a[..0] + a[1..];
      assert |rest| < |a|;
      GatherPermutation(rest, b[..j] + b[j + 1..], f);
      GatherPulled(a, 0, f);
      GatherPulled(b, j, f);
    }
  }

  lemma SameSize<T>(a: seq<T>, b: seq<T>)
    requires multiset(a) == multiset(b)
    ensures |a| == |b|
  {
    assert |multiset(a)| == |a| && |multiset(b)| == |b|;
  }

  lemma {:induction false} GatherEqual<T, V>(a: seq<T>, b: seq<T>, f: T -> Option<V>, g: T -> Option<V>)
    requires |a| == |b| && forall k | 0 <= k < |a| :: f(a[k]) == g(b[k])
    ensures Gather(a, f) == Gather(b, g)
  {
    if a == [] {
    } else {
      GatherEqual(a[1..], b[1..], f, g);
    }
  }

  /** A subset is no larger, and all of it when it is as large. */
  lemma SubsetCard<T>(a: set<T>, b: set<T>)
    requires a <= b
    ensures |a| <= |b| && (|a| == |b| ==> a == b)
  {
    assert b == a + (b - a);
    assert |b| == |a| + |b - a|;
    if |a| == |b| { assert b - a == {}; }
  }
}
