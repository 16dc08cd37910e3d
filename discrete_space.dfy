/**
 * Mixed-radix indexing of feature tuples: a tuple v over per-feature
 * cardinalities c_0 .. c_{k-1} gets the dense index
 *   v_0 + c_0 * (v_1 + c_1 * (v_2 + ...)),
 * that is, the sum of v_i times the product of the cardinalities before i.
 * States, observations and factored feature tuples are all indexed this way.
 */
module DiscreteSpace {

  /** The number of tuples in the space, i.e. the product of the cardinalities. */
  function Product(radices: seq<nat>): nat
  {
    if radices == [] then 1 else radices[0] * Product(radices[1..])
  }

  function Pow(b: nat, e: nat): nat
  {
    if e == 0 then 1 else b * Pow(b, e - 1)
  }

  /** `n` features that each range over `r` values. */
  function Repeat(r: nat, n: nat): (s: seq<nat>)
    ensures |s| == n
    ensures forall i :: 0 <= i < n ==> s[i] == r
  {
    seq(n, _ => r)
  }

  predicate Positive(radices: seq<nat>)
  {
    forall i :: 0 <= i < |radices| ==> radices[i] > 0
  }

  /** `values` is a tuple of the space: one in-range value per feature. */
  predicate InSpace(radices: seq<nat>, values: seq<int>)
  {
    && |values| == |radices|
    && forall i :: 0 <= i < |values| ==> 0 <= values[i] < radices[i]
  }

  function Encode(radices: seq<nat>, values: seq<int>): int
    requires |values| == |radices|
  {
    if radices == [] then 0
    else values[0] + radices[0] * Encode(radices[1..], values[1..])
  }

  function Decode(radices: seq<nat>, index: int): (values: seq<int>)
    requires Positive(radices)
    ensures |values| == |radices|
  {
    if radices == [] then []
    else [index % radices[0]] + Decode(radices[1..], index / radices[0])
  }

  /** Euclidean division undoes `r + n * q` for a remainder in [0, n). */
  lemma DivModOf(n: int, q: int, r: int)
    requires n > 0 && 0 <= r < n
    ensures (r + n * q) / n == q && (r + n * q) % n == r
  {
    var a := r + n * q;
    var q', r' := a / n, a % n;
    assert a == r' + n * q';
    assert n * (q - q') == r' - r;
    MulBounded(n, q - q');
  }

  lemma MulBounded(n: int, d: int)
    requires n > 0 && -n < n * d < n
    ensures d == 0
  {
    if d > 0 {
      MulLeft(n, 1, d);
    } else if d < 0 {
      MulLeft(n, d, -1);
    }
  }

  lemma MulLeft(n: int, a: int, b: int)
    requires n >= 0 && a <= b
    ensures n * a <= n * b
  {
  }

  /** A product of three factors does not depend on their grouping or order. */
  lemma MulRegroup(a: int, b: int, c: int)
    ensures a * (b * c) == a * b * c && a * (b * c) == c * b * a
  {
  }

  /** Every tuple of the space has an index in [0, Product(radices)). */
  lemma {:induction false} EncodeInRange(radices: seq<nat>, values: seq<int>)
    requires InSpace(radices, values)
    ensures 0 <= Encode(radices, values) < Product(radices)
  {
    if radices != [] {
      var rest := Encode(radices[1..], values[1..]);
      assert InSpace(radices[1..], values[1..]);
      EncodeInRange(radices[1..], values[1..]);
      MulLeft(radices[0], rest, Product(radices[1..]) - 1);
    }
  }

  /** Decoding the index of a tuple gives back the tuple. */
  lemma {:induction false} DecodeEncode(radices: seq<nat>, values: seq<int>)
    requires Positive(radices) && InSpace(radices, values)
    ensures Decode(radices, Encode(radices, values)) == values
  {
    if radices != [] {
      var rest := Encode(radices[1..], values[1..]);
      DivModOf(radices[0], rest, values[0]);
      assert InSpace(radices[1..], values[1..]);
      DecodeEncode(radices[1..], values[1..]);
      assert values == [values[0]] + values[1..];
    }
  }

  /** Every index of the space decodes to a tuple of the space with that index. */
  lemma {:induction false} EncodeDecode(radices: seq<nat>, index: int)
    requires Positive(radices) && 0 <= index < Product(radices)
    ensures InSpace(radices, Decode(radices, index))
    ensures Encode(radices, Decode(radices, index)) == index
  {
    if radices != [] {
      var n, r, q, p := radices[0], index % radices[0], index / radices[0], Product(radices[1..]);
      assert index == r + n * q && 0 <= r < n;
      QuotientBound(n, r, q, p);
      EncodeDecode(radices[1..], q);
      var v := Decode(radices, index);
      assert v[0] == r && v[1..] == Decode(radices[1..], q);
      assert Encode(radices, v) == r + n * q;
      forall i | 1 <= i < |v|
        ensures 0 <= v[i] < radices[i]
      {
        assert v[i] == v[1..][i - 1] && radices[i] == radices[1..][i - 1];
      }
    }
  }

  /** The quotient of an index below n * p by n lies below p. */
  lemma QuotientBound(n: int, r: int, q: int, p: int)
    requires n > 0 && 0 <= r < n && 0 <= r + n * q < n * p
    ensures 0 <= q < p
  {
    if q >= p {
      MulLeft(n, p, q);
    } else if q < 0 {
      MulLeft(n, q, -1);
    }
  }

  /** Distinct tuples of the space have distinct indices. */
  lemma EncodeInjective(radices: seq<nat>, v: seq<int>, w: seq<int>)
    requires Positive(radices) && InSpace(radices, v) && InSpace(radices, w)
    requires Encode(radices, v) == Encode(radices, w)
    ensures v == w
  {
    DecodeEncode(radices, v);
    DecodeEncode(radices, w);
  }

  /** `n` features of cardinality `r` span r^n tuples. */
  lemma {:induction false} ProductRepeat(r: nat, n: nat)
    ensures Product(Repeat(r, n)) == Pow(r, n)
  {
    if n > 0 {
      assert Repeat(r, n)[1..] == Repeat(r, n - 1);
      ProductRepeat(r, n - 1);
    }
  }

  lemma {:induction false} PowPositive(b: nat, e: nat)
    requires b > 0
    ensures Pow(b, e) > 0
  {
    if e > 0 {
      PowPositive(b, e - 1);
    }
  }

  /** Over `n` features of cardinality `r`, the first value is the least significant digit. */
  lemma EncodeRepeatCons(r: nat, values: seq<int>)
    requires |values| > 0 && InSpace(Repeat(r, |values|), values)
    ensures InSpace(Repeat(r, |values[1..]|), values[1..])
    ensures Encode(Repeat(r, |values|), values) == values[0] + r * Encode(Repeat(r, |values[1..]|), values[1..])
  {
    var space := Repeat(r, |values|);
    assert space[1..] == Repeat(r, |values[1..]|);
    assert InSpace(space[1..], values[1..]);
  }

  /** A tuple over two spaces side by side is in range exactly when both halves are. */
  lemma InSpaceConcat(a: seq<nat>, b: seq<nat>, v: seq<int>, w: seq<int>)
    requires |v| == |a|
    ensures InSpace(a + b, v + w) <==> InSpace(a, v) && InSpace(b, w)
  {
    if InSpace(a + b, v + w) {
      assert forall i :: 0 <= i < |v| ==> (v + w)[i] == v[i] && (a + b)[i] == a[i];
      assert forall i :: 0 <= i < |w| ==> (v + w)[|v| + i] == w[i] && (a + b)[|a| + i] == b[i];
    }
    if InSpace(a, v) && InSpace(b, w) {
      forall i | 0 <= i < |v + w|
        ensures 0 <= (v + w)[i] < (a + b)[i]
      {
        if i >= |v| {
          assert (v + w)[i] == w[i - |v|] && (a + b)[i] == b[i - |a|];
        }
      }
    }
  }
}
