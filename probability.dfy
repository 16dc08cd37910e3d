/**
 * Finite vectors of masses (probabilities or Dirichlet pseudo-counts)
 * over a dense range of outcomes 0 .. n-1, with exact `real` arithmetic.
 */
module Probability {
  import opened DiscreteSpace

  /**
   * The product of two masses, as a named function so that the solver can
   * match products of function results; it is `a * b`.
   */
  function Mul(a: real, b: real): real
  {
    a * b
  }

  /** The total mass of a vector. */
  function Sum(s: seq<real>): real
  {
    if s == [] then 0.0 else s[0] + Sum(s[1..])
  }

  predicate NonNegative(s: seq<real>)
  {
    forall i :: 0 <= i < |s| ==> s[i] >= 0.0
  }

  /** A vector of length `n` that holds all of mass `m` on outcome `c`. */
  function PointMass(n: nat, c: int, m: real): (r: seq<real>)
    ensures |r| == n
  {
    seq(n, i => if i == c then m else 0.0)
  }

  /** Every entry of `s` multiplied by `k`. */
  function Scale(k: real, s: seq<real>): (r: seq<real>)
    ensures |r| == |s|
  {
    seq(|s|, i requires 0 <= i < |s| => Mul(k, s[i]))
  }

  /** Entry-wise sum of two vectors of the same length. */
  function Add(a: seq<real>, b: seq<real>): (r: seq<real>)
    requires |a| == |b|
    ensures |r| == |a|
  {
    seq(|a|, i requires 0 <= i < |a| => a[i] + b[i])
  }

  /**
   * The joint vector of two independent factors: block `q` (of length |g|)
   * is `g` scaled by `f[q]`, so entry `d + |g| * q` is `g[d] * f[q]`.
   */
  function Outer(g: seq<real>, f: seq<real>): (r: seq<real>)
    ensures |r| == |g| * |f|
  {
    if f == [] then []
    else
      var front := Outer(g, f[..|f| - 1]);
      assert |front| == |g| * (|f| - 1);
      front + Scale(f[|f| - 1], g)
  }

  lemma {:induction false} SumConcat(a: seq<real>, b: seq<real>)
    ensures Sum(a + b) == Sum(a) + Sum(b)
  {
    if a == [] {
      assert a + b == b;
    } else {
      assert (a + b)[1..] == a[1..] + b;
      SumConcat(a[1..], b);
    }
  }

  /** The sum can be taken from the back as well as from the front. */
  lemma SumSnoc(s: seq<real>)
    requires s != []
    ensures Sum(s) == Sum(s[..|s| - 1]) + s[|s| - 1]
  {
    assert s == s[..|s| - 1] + [s[|s| - 1]];
    SumConcat(s[..|s| - 1], [s[|s| - 1]]);
  }

  lemma {:induction false} SumOfZeros(s: seq<real>)
    requires forall i :: 0 <= i < |s| ==> s[i] == 0.0
    ensures Sum(s) == 0.0
  {
    if s != [] {
      SumOfZeros(s[1..]);
    }
  }

  lemma {:induction false} SumNonNegative(s: seq<real>)
    requires NonNegative(s)
    ensures Sum(s) >= 0.0
  {
    if s != [] {
      SumNonNegative(s[1..]);
    }
  }

  lemma {:induction false} SumScale(k: real, s: seq<real>)
    ensures Sum(Scale(k, s)) == k * Sum(s)
  {
    if s != [] {
      assert forall i :: 0 <= i < |s| - 1 ==> Scale(k, s)[1..][i] == Scale(k, s[1..])[i];
      assert Scale(k, s)[1..] == Scale(k, s[1..]);
      SumScale(k, s[1..]);
    }
  }

  lemma {:induction false} SumAdd(a: seq<real>, b: seq<real>)
    requires |a| == |b|
    ensures Sum(Add(a, b)) == Sum(a) + Sum(b)
  {
    if a != [] {
      assert forall i :: 0 <= i < |a| - 1 ==> Add(a, b)[1..][i] == Add(a[1..], b[1..])[i];
      assert Add(a, b)[1..] == Add(a[1..], b[1..]);
      SumAdd(a[1..], b[1..]);
    }
  }

  /** A point mass inside the range carries its whole mass; outside it carries none. */
  lemma PointMassSum(n: nat, c: int, m: real)
    ensures Sum(PointMass(n, c, m)) == if 0 <= c < n then m else 0.0
  {
    var s := PointMass(n, c, m);
    if 0 <= c < n {
      assert s == s[..c] + [m] + s[c + 1..];
      SumOfZeros(s[..c]);
      SumOfZeros(s[c + 1..]);
      SumConcat(s[..c] + [m], s[c + 1..]);
      SumConcat(s[..c], [m]);
    } else {
      SumOfZeros(s);
    }
  }

  /** The mass of a point mass sits on exactly one outcome. */
  lemma PointMassSupport(n: nat, c: int, m: real, v: int)
    requires 0 <= v < n && m != 0.0
    ensures PointMass(n, c, m)[v] != 0.0 <==> v == c
  {
  }

  /** Mass outside the slice [lo, hi) is zero, so the whole sum is the slice's. */
  lemma SumOfSlice(s: seq<real>, lo: nat, hi: nat)
    requires lo <= hi <= |s|
    requires forall i :: 0 <= i < lo ==> s[i] == 0.0
    requires forall i :: hi <= i < |s| ==> s[i] == 0.0
    ensures Sum(s) == Sum(s[lo..hi])
  {
    assert s == s[..lo] + s[lo..hi] + s[hi..];
    SumOfZeros(s[..lo]);
    SumOfZeros(s[hi..]);
    SumConcat(s[..lo] + s[lo..hi], s[hi..]);
    SumConcat(s[..lo], s[lo..hi]);
  }

  lemma OuterStep(g: seq<real>, f: seq<real>)
    requires f != []
    ensures Sum(Outer(g, f)) == Sum(Outer(g, f[..|f| - 1])) + Sum(Scale(f[|f| - 1], g))
  {
    SumConcat(Outer(g, f[..|f| - 1]), Scale(f[|f| - 1], g));
  }

  /** Joining a normalised factor `g` to `f` keeps the total mass of `f`. */
  lemma {:induction false} SumOuter(g: seq<real>, f: seq<real>)
    requires Sum(g) == 1.0
    ensures Sum(Outer(g, f)) == Sum(f)
  {
    if f != [] {
      SumOuter(g, f[..|f| - 1]);
      OuterStep(g, f);
      SumScale(f[|f| - 1], g);
      SumSnoc(f);
    }
  }

  /** Entry `d + |g| * q` of the joint is the product of the two factors' entries. */
  lemma {:induction false} OuterAt(g: seq<real>, f: seq<real>, d: int, q: int)
    requires 0 <= d < |g| && 0 <= q < |f|
    ensures 0 <= d + |g| * q < |g| * |f|
    ensures Outer(g, f)[d + |g| * q] == g[d] * f[q]
  {
    var n := |f| - 1;
    var front := Outer(g, f[..n]);
    assert |front| == |g| * n;
    if q < n {
      OuterAt(g, f[..n], d, q);
      assert Outer(g, f)[d + |g| * q] == front[d + |g| * q];
    } else {
      assert d + |g| * q == |front| + d;
    }
  }

  /** `OuterAt` at an index given by value. */
  lemma OuterEntry(g: seq<real>, f: seq<real>, d: int, q: int, i: int)
    requires 0 <= d < |g| && 0 <= q < |f| && i == d + |g| * q
    ensures 0 <= i < |Outer(g, f)|
    ensures Outer(g, f)[i] == Mul(g[d], f[q])
  {
    OuterAt(g, f, d, q);
  }

  /** A vector of length `n` holding `s` from position `start` on and zero elsewhere. */
  function Embed(n: nat, start: int, s: seq<real>): (r: seq<real>)
    requires 0 <= start && start + |s| <= n
    ensures |r| == n
    ensures forall j :: 0 <= j < n && !(start <= j < start + |s|) ==> r[j] == 0.0
    ensures forall k :: 0 <= k < |s| ==> r[start + k] == s[k]
  {
    seq(n, j requires 0 <= j < n => if start <= j < start + |s| then s[j - start] else 0.0)
  }

  /** Embedding keeps the total mass and the sign of every entry. */
  lemma EmbedMass(n: nat, start: int, s: seq<real>)
    requires 0 <= start && start + |s| <= n
    ensures Sum(Embed(n, start, s)) == Sum(s)
    ensures NonNegative(s) ==> NonNegative(Embed(n, start, s))
  {
    var r := Embed(n, start, s);
    assert r[start..start + |s|] == s;
    SumOfSlice(r, start, start + |s|);
  }

  /** A distribution scaled by a non-negative mass is a count vector of that mass. */
  lemma ScaledDistribution(k: real, s: seq<real>)
    requires k >= 0.0 && NonNegative(s) && Sum(s) == 1.0
    ensures NonNegative(Scale(k, s)) && Sum(Scale(k, s)) == k
  {
    SumScale(k, s);
    NonNegativeScale(k, s);
  }

  lemma NonNegativeScale(k: real, s: seq<real>)
    requires k >= 0.0 && NonNegative(s)
    ensures NonNegative(Scale(k, s))
  {
  }

  lemma {:induction false} NonNegativeOuter(g: seq<real>, f: seq<real>)
    requires NonNegative(g) && NonNegative(f)
    ensures NonNegative(Outer(g, f))
  {
    if f != [] {
      NonNegativeOuter(g, f[..|f| - 1]);
      NonNegativeScale(f[|f| - 1], g);
    }
  }

  // ---------------------------------------------------------------------
  // Independent factors
  // ---------------------------------------------------------------------

  /**
   * The joint law of a tuple whose k-th value follows `laws[k]` independently,
   * laid out with the first value varying fastest.
   */
  function ProductLaw(laws: seq<seq<real>>): seq<real>
  {
    if laws == [] then [1.0] else Outer(laws[0], ProductLaw(laws[1..]))
  }

  /** Every factor ranges over `r` outcomes. */
  predicate Uniform(laws: seq<seq<real>>, r: nat)
  {
    forall k :: 0 <= k < |laws| ==> |laws[k]| == r
  }

  /** Every factor is a distribution. */
  predicate Distributions(laws: seq<seq<real>>)
  {
    forall k :: 0 <= k < |laws| ==> NonNegative(laws[k]) && Sum(laws[k]) == 1.0
  }

  /** The probability of one tuple: the product of its values' probabilities. */
  function ProductProb(laws: seq<seq<real>>, values: seq<int>): real
    requires |values| == |laws|
    requires forall k :: 0 <= k < |laws| ==> 0 <= values[k] < |laws[k]|
  {
    if laws == [] then 1.0 else Mul(laws[0][values[0]], ProductProb(laws[1..], values[1..]))
  }

  lemma ProductProbCons(laws: seq<seq<real>>, values: seq<int>)
    requires |values| == |laws| && laws != []
    requires forall k :: 0 <= k < |laws| ==> 0 <= values[k] < |laws[k]|
    ensures ProductProb(laws, values) == Mul(laws[0][values[0]], ProductProb(laws[1..], values[1..]))
  {
  }

  lemma {:induction false} ProductLawLength(laws: seq<seq<real>>, r: nat)
    requires Uniform(laws, r)
    ensures |ProductLaw(laws)| == Pow(r, |laws|)
  {
    if laws != [] {
      assert Uniform(laws[1..], r);
      ProductLawLength(laws[1..], r);
    }
  }

  /** A product of distributions is a distribution. */
  lemma {:induction false} ProductLawDistribution(laws: seq<seq<real>>)
    requires Distributions(laws)
    ensures NonNegative(ProductLaw(laws)) && Sum(ProductLaw(laws)) == 1.0
  {
    if laws == [] {
      assert Sum([1.0]) == 1.0 + Sum([]);
    } else {
      assert Distributions(laws[1..]);
      ProductLawDistribution(laws[1..]);
      SumOuter(laws[0], ProductLaw(laws[1..]));
      NonNegativeOuter(laws[0], ProductLaw(laws[1..]));
    }
  }

  /**
   * The entry of the product law at the mixed-radix index of a tuple is the
   * probability of that tuple.
   */
  lemma {:induction false} ProductLawAt(laws: seq<seq<real>>, r: nat, values: seq<int>)
    requires Uniform(laws, r) && |values| == |laws| && InSpace(Repeat(r, |values|), values)
    ensures 0 <= Encode(Repeat(r, |values|), values) < |ProductLaw(laws)|
    ensures forall k :: 0 <= k < |laws| ==> 0 <= values[k] < |laws[k]|
    ensures ProductLaw(laws)[Encode(Repeat(r, |values|), values)] == ProductProb(laws, values)
  {
    ProductLawLength(laws, r);
    EncodeInRange(Repeat(r, |values|), values);
    ProductRepeat(r, |values|);
    if laws != [] {
      assert Uniform(laws[1..], r);
      EncodeRepeatCons(r, values);
      ProductLawAt(laws[1..], r, values[1..]);
      OuterEntry(laws[0], ProductLaw(laws[1..]), values[0], Encode(Repeat(r, |values[1..]|), values[1..]),
                 Encode(Repeat(r, |values|), values));
    } else {
      assert Repeat(r, |values|) == [];
    }
  }
}
