/** Sums over tables of named reals, and the order of names. */
module HotwireSums {

  type Weights = map<string, real>

  /** The sum of a table's values; the choice of name does not matter (SumRemove). */
  ghost function SumOf(m: Weights): real
    decreases |m|
  {
    if m == map[] then 0.0
    else
      var k :| k in m;
      Smaller(m, k);
      m[k] + SumOf(m - {k})
  }

  lemma Smaller(m: Weights, k: string)
    requires k in m
    ensures |m - {k}| < |m|
  {
    assert (m - {k}).Keys == m.Keys - {k};
    assert |m| == |m.Keys| && |m - {k}| == |(m - {k}).Keys|;
  }

  lemma {:induction false} SumRemove(m: Weights, k: string)
    requires k in m
    ensures SumOf(m) == m[k] + SumOf(m - {k})
    decreases |m|
  {
    var k0 :| k0 in m && SumOf(m) == m[k0] + SumOf(m - {k0});
    if k0 != k {
      Smaller(m, k);
      Smaller(m, k0);
      SumRemove(m - {k0}, k);
      SumRemove(m - {k}, k0);
      assert m - {k0} - {k} == m - {k} - {k0};
    }
  }

  lemma SumAdd(m: Weights, k: string, v: real)
    requires k !in m
    ensures SumOf(m[k := v]) == SumOf(m) + v
  {
    SumRemove(m[k := v], k);
    assert m[k := v] - {k} == m;
  }

  ghost predicate NonNegative(m: Weights) {
    forall k :: k in m ==> m[k] >= 0.0
  }

  ghost predicate SomePositive(m: Weights) {
    exists k :: k in m && m[k] > 0.0
  }

  lemma {:induction false} SumSign(m: Weights)
    requires NonNegative(m)
    ensures SumOf(m) >= 0.0
    ensures SumOf(m) > 0.0 <==> SomePositive(m)
    decreases |m|
  {
    if m != map[] {
      var k :| k in m;
      Smaller(m, k);
      SumRemove(m, k);
      var rest := m - {k};
      SumSign(rest);
      if m[k] == 0.0 && SomePositive(m) {
        var k' :| k' in m && m[k'] > 0.0;
        assert k' in rest;
      }
    }
  }

  function Times(a: real, t: real): real { a * t }

  /** Each value of share, multiplied by t, is m's value. */
  ghost predicate Scaled(m: Weights, share: Weights, t: real) {
    share.Keys == m.Keys && forall k :: k in m ==> Times(share[k], t) == m[k]
  }

  lemma ScaledRest(m: Weights, share: Weights, t: real, k: string)
    requires Scaled(m, share, t) && k in m
    ensures k in share && Times(share[k], t) == m[k]
    ensures Scaled(m - {k}, share - {k}, t)
  {
    hide Times;
  }

  lemma TimesSum(a: real, b: real, t: real)
    ensures Times(a + b, t) == Times(a, t) + Times(b, t)
    ensures Times(0.0, t) == 0.0
  {}

  lemma {:induction false} SumScale(m: Weights, share: Weights, t: real)
    requires Scaled(m, share, t)
    ensures Times(SumOf(share), t) == SumOf(m)
    decreases |m|
  {
    hide Times;
    if m == map[] {
      assert share == map[];
      TimesSum(0.0, 0.0, t);
    } else {
      hide SumOf, Scaled;
      var k :| k in m;
      Smaller(m, k);
      ScaledRest(m, share, t, k);
      SumRemove(m, k);
      SumRemove(share, k);
      SumScale(m - {k}, share - {k}, t);
      TimesSum(share[k], SumOf(share - {k}), t);
    }
  }

  /** The value a name has for a reader to whom a missing name is worth nothing. */
  function Look(m: Weights, k: string): real {
    if k in m then m[k] else 0.0
  }

  ghost predicate AgreesOn(f: Weights, o: Weights) {
    forall k :: k in f ==> Look(o, k) == f[k]
  }

  /** A table that agrees with f on all of f's names sums to f's sum and its own remainder. */
  lemma {:induction false} SumAgree(f: Weights, o: Weights)
    requires AgreesOn(f, o)
    ensures SumOf(o) == SumOf(f) + SumOf(o - f.Keys)
    decreases |f|
  {
    if f == map[] {
      assert o - f.Keys == o;
    } else {
      var k :| k in f;
      Smaller(f, k);
      SumRemove(f, k);
      var f', o' := f - {k}, o - {k};
      assert forall j :: j in f' ==> Look(o', j) == f'[j];
      SumAgree(f', o');
      assert o' - f'.Keys == o - f.Keys;
      if k in o {
        SumRemove(o, k);
      } else {
        assert o' == o;
      }
    }
  }

  // ---------- names in order ----------

  /** Go's order of strings: byte by byte, a prefix first. */
  predicate Before(a: string, b: string) {
    if b == "" then false
    else if a == "" then true
    else a[0] < b[0] || (a[0] == b[0] && Before(a[1..], b[1..]))
  }

  lemma {:induction false} BeforeTotal(a: string, b: string)
    ensures a == b || Before(a, b) || Before(b, a)
    ensures !(Before(a, b) && Before(b, a))
    ensures a == b ==> !Before(a, b)
  {
    if a != "" && b != "" {
      BeforeTotal(a[1..], b[1..]);
      assert a == [a[0]] + a[1..] && b == [b[0]] + b[1..];
    }
  }

  lemma {:induction false} BeforeChain(a: string, b: string, c: string)
    requires Before(a, b) && Before(b, c)
    ensures Before(a, c)
  {
    if a != "" && a[0] == b[0] == c[0] {
      BeforeChain(a[1..], b[1..], c[1..]);
    }
  }

  /** The first byte in which two names differ decides, and a longer name comes later. */
  lemma {:induction false} BeforeAt(common: string, x: string, y: string)
    requires (x == "" && y != "") || (x != "" && y != "" && x[0] < y[0])
    ensures Before(common + x, common + y)
  {
    if common == "" {
      assert common + x == x && common + y == y;
    } else {
      BeforeAt(common[1..], x, y);
      assert (common + x)[1..] == common[1..] + x && (common + y)[1..] == common[1..] + y;
    }
  }
}
