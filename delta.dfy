/**
  Delta coding of id lists, as the OpenStreetMap PBF format uses it for way
  node refs, relation member ids and dense nodes: each entry is stored as its
  difference from the previous one, and readers recover the values as running sums.
 */
module Delta {

  /** The running sums of `ds`, starting from `start`: entry `i` is `start + ds[0] + ... + ds[i]`. */
  function RunningSums(ds: seq<int>, start: int): (r: seq<int>)
    ensures |r| == |ds|
  {
    if ds == [] then [] else [start + ds[0]] + RunningSums(ds[1..], start + ds[0])
  }

  /** The differences of `xs`, the first taken against `prev`. */
  function Deltas(xs: seq<int>, prev: int): (r: seq<int>)
    ensures |r| == |xs|
  {
    if xs == [] then [] else [xs[0] - prev] + Deltas(xs[1..], xs[0])
  }

  /** Appending a value to a coded list appends its difference from the previous last value. */
  lemma {:induction false} DeltasSnoc(xs: seq<int>, x: int, prev: int)
    ensures Deltas(xs + [x], prev) == Deltas(xs, prev) + [x - (if xs == [] then prev else xs[|xs| - 1])]
    decreases |xs|
  {
    if xs != [] {
      assert (xs + [x])[1..] == xs[1..] + [x];
      DeltasSnoc(xs[1..], x, xs[0]);
    }
  }

  function Sum(ds: seq<int>): int
  {
    if ds == [] then 0 else Sum(ds[..|ds| - 1]) + ds[|ds| - 1]
  }

  /** Every element scaled by `g`. */
  function Scaled(ds: seq<int>, g: int): (r: seq<int>)
    ensures |r| == |ds|
  {
    if ds == [] then [] else [g * ds[0]] + Scaled(ds[1..], g)
  }

  /** Decoding undoes encoding. */
  lemma {:induction false} RunningSumsOfDeltas(xs: seq<int>, prev: int)
    ensures RunningSums(Deltas(xs, prev), prev) == xs
  {
    if xs != [] {
      RunningSumsOfDeltas(xs[1..], xs[0]);
      assert Deltas(xs, prev)[1..] == Deltas(xs[1..], xs[0]);
    }
  }

  /** Encoding undoes decoding. */
  lemma {:induction false} DeltasOfRunningSums(ds: seq<int>, start: int)
    ensures Deltas(RunningSums(ds, start), start) == ds
  {
    if ds != [] {
      DeltasOfRunningSums(ds[1..], start + ds[0]);
      assert RunningSums(ds, start)[1..] == RunningSums(ds[1..], start + ds[0]);
    }
  }

  lemma SumSnoc(ds: seq<int>, d: int)
    ensures Sum(ds + [d]) == Sum(ds) + d
  {
    assert (ds + [d])[..|ds|] == ds;
  }

  /** Entry `i` of the running sums is the start plus the sum of the first `i + 1` deltas. */
  lemma {:induction false} RunningSumsAt(ds: seq<int>, start: int, i: nat)
    requires i < |ds|
    ensures RunningSums(ds, start)[i] == start + Sum(ds[..i + 1])
    decreases i
  {
    if i == 0 {
      assert ds[..1] == [] + [ds[0]];
      SumSnoc([], ds[0]);
    } else {
      RunningSumsAt(ds[1..], start + ds[0], i - 1);
      assert ds[1..][..i] == ds[1..i + 1];
      SumPrepend(ds[0], ds[1..i + 1]);
      assert [ds[0]] + ds[1..i + 1] == ds[..i + 1];
    }
  }

  lemma {:induction false} SumPrepend(d: int, ds: seq<int>)
    ensures Sum([d] + ds) == d + Sum(ds)
    decreases |ds|
  {
    if ds != [] {
      var last := ds[|ds| - 1];
      var init := ds[..|ds| - 1];
      assert [d] + ds == ([d] + init) + [last];
      SumSnoc([d] + init, last);
      SumPrepend(d, init);
    }
  }

  /** Summing scaled deltas is scaling the sum, which is how dense coordinates are recovered. */
  lemma {:induction false} SumScaled(ds: seq<int>, g: int)
    ensures Sum(Scaled(ds, g)) == g * Sum(ds)
    decreases |ds|
  {
    if ds != [] {
      var a, rest := ds[0], ds[1..];
      SumPrepend(g * a, Scaled(rest, g));
      SumScaled(rest, g);
      assert ds == [a] + rest;
      SumPrepend(a, rest);
      Distribute(g, a, Sum(rest));
    }
  }

  /** Scaling commutes with taking a prefix. */
  lemma {:induction false} ScaledPrefix(ds: seq<int>, g: int, k: nat)
    requires k <= |ds|
    ensures Scaled(ds, g)[..k] == Scaled(ds[..k], g)
    decreases k
  {
    if k > 0 {
      ScaledPrefix(ds[1..], g, k - 1);
      assert ds[..k][1..] == ds[1..][..k - 1];
    }
  }

  lemma Distribute(g: int, a: int, b: int)
    ensures g * a + g * b == g * (a + b)
  {
  }
}
