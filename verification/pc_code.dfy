/** Element codes of polycyclic groups (`decode_as_pcgs`): an element is
    stored as one integer, the mixed-radix number whose digits are the
    element's exponents on the polycyclic generators, the first generator
    carrying the most significant digit. */
module PcCode {
  import opened Wrappers
  import opened Seqs

  datatype DecodeError =
    | CodeOutOfRange      // the ValueError raised for a code outside [0, order)
    | ZeroRelativeOrder   // Python's ZeroDivisionError on a relative order of 0

  predicate PositiveOrders(rs: seq<nat>) {
    forall i :: 0 <= i < |rs| ==> rs[i] > 0
  }

  /** The number of exponent vectors, the product of the relative orders. */
  function Product(rs: seq<nat>): (p: nat)
    ensures PositiveOrders(rs) ==> p > 0
  {
    if rs == [] then 1 else Product(rs[..|rs| - 1]) * rs[|rs| - 1]
  }

  /** An exponent vector: one digit per generator, below its relative order. */
  predicate ValidDigits(ds: seq<nat>, rs: seq<nat>) {
    |ds| == |rs| && forall i :: 0 <= i < |ds| ==> ds[i] < rs[i]
  }

  /** The digits peeled off `code` with the relative orders read from the
      last generator to the first; what is left after the first digit is
      dropped. */
  function Digits(code: nat, rs: seq<nat>): (ds: seq<nat>)
    requires PositiveOrders(rs)
    ensures ValidDigits(ds, rs)
    decreases |rs|
  {
    if rs == [] then []
    else
      var m := rs[|rs| - 1];
      var p := rs[..|rs| - 1];
      assert PositiveOrders(p);
      var high := Digits(code / m, p);
      var low := code % m;
      assert low < m;
      assert forall i :: 0 <= i < |high| ==> (high + [low])[i] == high[i] && rs[i] == p[i];
      high + [low]
  }

  /** Horner evaluation, first digit most significant: the code an exponent
      vector stands for. */
  function Encode(ds: seq<nat>, rs: seq<nat>): nat
    requires |ds| == |rs|
    decreases |rs|
  {
    if ds == [] then 0
    else Encode(ds[..|ds| - 1], rs[..|rs| - 1]) * rs[|rs| - 1] + ds[|ds| - 1]
  }

  /** `decode_as_pcgs` up to the GAP call: the exponent vector of `code`. */
  function Decode(code: int, order: int, rs: seq<nat>): (r: Result<seq<nat>, DecodeError>)
    ensures r == Err(CodeOutOfRange) <==> code < 0 || code >= order
    ensures r == Err(ZeroRelativeOrder) <==> 0 <= code < order && !PositiveOrders(rs)
    ensures r.Ok? ==> ValidDigits(r.value, rs)
  {
    if code < 0 || code >= order then Err(CodeOutOfRange)
    else if !PositiveOrders(rs) then Err(ZeroRelativeOrder)
    else Ok(Digits(code, rs))
  }

  /** The loop of `decode_as_pcgs` as written: walk the relative orders
      backwards, taking the remainder as the next digit at the front. */
  method DecodeLoop(code: int, order: int, rs: seq<nat>) returns (r: Result<seq<nat>, DecodeError>)
    ensures r == Decode(code, order, rs)
  {
    if code < 0 || code >= order {
      return Err(CodeOutOfRange);
    }
    var vec: seq<nat> := [];
    var c: nat := code;
    var k := |rs|;
    assert rs[..k] == rs;
    while k > 0
      invariant 0 <= k <= |rs|
      invariant forall i :: k <= i < |rs| ==> rs[i] > 0
      invariant PositiveOrders(rs) ==> Digits(code, rs) == Digits(c, rs[..k]) + vec
      decreases k
    {
      var m := rs[k - 1];
      if m == 0 {
        return Err(ZeroRelativeOrder);
      }
      if PositiveOrders(rs) {
        DigitsOfPrefix(c, rs, k);
      }
      vec := [c % m] + vec;
      c := c / m;
      k := k - 1;
    }
    assert PositiveOrders(rs);
    assert rs[..0] == [];
    assert Digits(c, rs[..0]) == [];
    assert vec == Digits(code, rs);
    return Ok(vec);
  }

  /** Peeling the last relative order of a prefix gives its last digit. */
  lemma DigitsOfPrefix(c: nat, rs: seq<nat>, k: nat)
    requires PositiveOrders(rs) && 0 < k <= |rs|
    ensures PositiveOrders(rs[..k]) && PositiveOrders(rs[..k - 1])
    ensures Digits(c, rs[..k]) == Digits(c / rs[k - 1], rs[..k - 1]) + [c % rs[k - 1]]
  {
    assert rs[..k][..k - 1] == rs[..k - 1];
  }

  /** Decoding then re-encoding gives the code back, reduced modulo the
      number of exponent vectors. */
  lemma {:induction false} EncodeDigits(code: nat, rs: seq<nat>)
    requires PositiveOrders(rs)
    ensures Encode(Digits(code, rs), rs) == code % Product(rs)
    decreases |rs|
  {
    if rs != [] {
      var p := rs[..|rs| - 1];
      var m := rs[|rs| - 1];
      var ds := Digits(code, rs);
      assert ds[..|ds| - 1] == Digits(code / m, p);
      EncodeDigits(code / m, p);
      MixedRadixStep(code, m, Product(p));
    }
  }

  /** One radix step: the low digit and the reduced high part recombine into
      the code reduced modulo the combined radix. */
  lemma MixedRadixStep(c: nat, m: nat, big: nat)
    requires m > 0 && big > 0
    ensures ((c / m) % big) * m + c % m == c % (big * m)
  {
    var q := c / m;
    var low := (q % big) * m + c % m;
    assert c == q * m + c % m;
    assert q == (q / big) * big + q % big;
    assert c == (q / big) * (big * m) + low by {
      calc {
        c;
        q * m + c % m;
        ((q / big) * big + q % big) * m + c % m;
        (q / big) * big * m + (q % big) * m + c % m;
      }
    }
    assert 0 <= low < big * m by {
      assert q % big <= big - 1;
      assert (q % big) * m <= (big - 1) * m;
    }
    ModUnique(c, big * m, q / big, low);
  }

  /** Euclidean division has one quotient and one remainder. */
  lemma ModUnique(c: int, d: int, a: int, b: int)
    requires d > 0 && 0 <= b < d && c == a * d + b
    ensures c / d == a && c % d == b
  {
    var a' := c / d;
    var b' := c % d;
    assert c == a' * d + b';
    if a' < a {
      assert (a - a') * d == b' - b;
      MulAtLeast(a - a', d);
    } else if a' > a {
      assert (a' - a) * d == b - b';
      MulAtLeast(a' - a, d);
    }
  }

  lemma MulAtLeast(k: int, d: int)
    requires k >= 1 && d > 0
    ensures k * d >= d
  {
    assert k * d == (k - 1) * d + d;
  }

  lemma MulMonotone(x: nat, y: nat, m: nat)
    requires x <= y
    ensures x * m <= y * m
  {
    assert y * m - x * m == (y - x) * m;
  }

  /** A valid exponent vector encodes to a code below the product of the
      relative orders, and decoding that code gives the vector back. */
  lemma {:induction false} DigitsEncode(ds: seq<nat>, rs: seq<nat>)
    requires PositiveOrders(rs)
    requires ValidDigits(ds, rs)
    ensures Encode(ds, rs) < Product(rs)
    ensures Digits(Encode(ds, rs), rs) == ds
    decreases |rs|
  {
    if rs != [] {
      var p := rs[..|rs| - 1];
      var m := rs[|rs| - 1];
      var dp := ds[..|ds| - 1];
      var d := ds[|ds| - 1];
      assert ValidDigits(dp, p) by {
        assert forall i :: 0 <= i < |dp| ==> dp[i] == ds[i] && p[i] == rs[i];
      }
      DigitsEncode(dp, p);
      var e := Encode(dp, p);
      var c := e * m + d;
      assert Encode(ds, rs) == c;
      ModUnique(c, m, e, d);
      StepBound(e, d, m, Product(p));
      assert Digits(c, rs) == Digits(c / m, p) + [c % m];
      Snoc(ds);
    }
  }

  /** A code below `big` followed by a digit below `m` stays below `big * m`. */
  lemma StepBound(e: nat, d: nat, m: nat, big: nat)
    requires e < big && d < m
    ensures e * m + d < big * m
  {
    MulMonotone(e + 1, big, m);
  }

  /** `decode_as_pcgs` is a bijection between [0, order) and the exponent
      vectors when the order is the product of the relative orders. */
  lemma {:induction false} DecodeRoundTrip(code: int, rs: seq<nat>)
    requires PositiveOrders(rs)
    requires 0 <= code < Product(rs)
    ensures Decode(code, Product(rs), rs).Ok?
    ensures Encode(Decode(code, Product(rs), rs).value, rs) == code
  {
    EncodeDigits(code, rs);
    ModUnique(code, Product(rs), 0, code);
  }

  lemma {:induction false} EncodeRoundTrip(ds: seq<nat>, rs: seq<nat>)
    requires PositiveOrders(rs)
    requires ValidDigits(ds, rs)
    ensures Decode(Encode(ds, rs), Product(rs), rs) == Ok(ds)
  {
    DigitsEncode(ds, rs);
  }

  /** With relative orders [2, 3] (order 6): 0 decodes to [0, 0] and 5 to [1, 2]. */
  lemma DecodeExamples()
    ensures Decode(0, 6, [2, 3]) == Ok([0, 0])
    ensures Decode(5, 6, [2, 3]) == Ok([1, 2])
  {
    var rs: seq<nat> := [2, 3];
    assert PositiveOrders(rs);
    assert rs[..1] == [2];
    assert [2][..0] == [];
    assert Digits(0, [2]) == [0];
    assert Digits(0, rs) == Digits(0, [2]) + [0];
    assert Digits(1, [2]) == [1];
    assert Digits(5, rs) == Digits(1, [2]) + [2];
    assert Decode(0, 6, rs) == Ok(Digits(0, rs));
    assert Decode(5, 6, rs) == Ok(Digits(5, rs));
    assert Digits(0, rs) == [0, 0];
    assert Digits(5, rs) == [1, 2];
  }
}
