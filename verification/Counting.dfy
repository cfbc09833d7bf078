/** Closed forms for how often the generator's periods come due. */
module Counting {
  import opened Basics
  import opened Synth
  import opened Ledger

  /** Multiples of k in 1..m; none when the period k is switched off. */
  function Multiples(m: nat, k: int): nat
  {
    if k == 0 then 0 else m / Abs(k)
  }

  lemma MulOrder(k: int, x: int, y: int)
    requires k > 0
    ensures x >= y ==> k * x >= k * y
  {
  }

  lemma MultipleIsZero(k: nat, q: nat)
    requires k > 0
    ensures k * q % k == 0 && k * q / k == q
  {
    QuotientUnique(k * q, k, q, 0);
  }

  /** Going from m - 1 to m meets one more multiple exactly when m is one. */
  lemma MultiplesStep(m: nat, k: nat)
    requires m > 0 && k > 0
    ensures m / k == (m - 1) / k + if m % k == 0 then 1 else 0
  {
    var q, r := (m - 1) / k, (m - 1) % k;
    assert m - 1 == k * q + r;
    if r == k - 1 {
      assert m == k * (q + 1);
      MultipleIsZero(k, q + 1);
    } else {
      QuotientUnique(m, k, q, r + 1);
    }
  }

  /** The sign of a period does not matter. */
  lemma DueByMagnitude(every: int, i: nat)
    requires every != 0
    ensures Due(every, i) <==> i > 0 && i % Abs(every) == 0
  {
    if every < 0 {
      var q := i / every;
      assert i == every * q + i % every;
      var p := i / -every;
      assert i == -every * p + i % -every;
      if i % every == 0 {
        assert i == -every * -q;
        MulOrder(-every, q, 1);
        MultipleIsZero(-every, -q);
      }
      if i % -every == 0 {
        assert i == every * -p;
        assert every * (q + p) == -(i % every);
        assert -every * (q + p) == -(every * (q + p));
        NoSmallMultiple(-every, q + p);
      }
    }
  }

  // ---------- the least common multiple ----------

  /** The least multiple a * j, with j at least the given one, that b divides too. */
  function LcmFrom(a: nat, b: nat, j: nat): (r: nat)
    requires a > 0 && b > 0 && 1 <= j <= b
    ensures r > 0
    decreases b - j
  {
    assert a * j >= a * 1;
    if a * j % b == 0 || j == b then a * j else LcmFrom(a, b, j + 1)
  }

  function Lcm(a: nat, b: nat): (r: nat)
    requires a > 0 && b > 0
    ensures r > 0
  {
    LcmFrom(a, b, 1)
  }

  lemma {:induction false} LcmFromIsLeast(a: nat, b: nat, j: nat) returns (k: nat)
    requires a > 0 && b > 0 && 1 <= j <= b
    ensures j <= k && LcmFrom(a, b, j) == a * k && a * k % b == 0
    ensures forall x | j <= x < k :: a * x % b != 0
    decreases b - j
  {
    if j == b {
      MultipleIsZero(b, a);
      assert a * j == b * a;
      k := j;
    } else if a * j % b == 0 {
      k := j;
    } else {
      k := LcmFromIsLeast(a, b, j + 1);
    }
  }

  /** No positive number below the least common multiple is a multiple of both. */
  lemma NoneBelow(a: nat, b: nat, k: nat, r: nat)
    requires a > 0 && b > 0
    requires forall x | 1 <= x < k :: a * x % b != 0
    requires 0 < r < a * k && r % a == 0
    ensures r % b != 0
  {
    var x := r / a;
    assert r == a * x;
    assert x >= 1;
    MulOrder(a, x, k);
  }

  lemma ExactQuotient(m: nat, k: nat) returns (q: nat)
    requires k > 0 && m % k == 0
    ensures m == k * q
  {
    q := m / k;
  }

  lemma LcmIsCommon(a: nat, b: nat) returns (ka: nat, kb: nat)
    requires a > 0 && b > 0
    ensures Lcm(a, b) == a * ka == b * kb
    ensures forall x | 1 <= x < ka :: a * x % b != 0
  {
    ka := LcmFromIsLeast(a, b, 1);
    kb := ExactQuotient(a * ka, b);
  }

  lemma Remainder(a: nat, b: nat, k: nat, r: nat)
    requires a > 0 && b > 0 && r < a * k
    requires forall x | 1 <= x < k :: a * x % b != 0
    ensures r == 0 <==> r % a == 0 && r % b == 0
  {
    if 0 < r && r % a == 0 {
      NoneBelow(a, b, k, r);
    }
  }

  /** The common multiples of a and b are the multiples of the least one. */
  lemma CommonMultiples(a: nat, b: nat, i: nat)
    requires a > 0 && b > 0
    ensures i % Lcm(a, b) == 0 <==> i % a == 0 && i % b == 0
  {
    var l := Lcm(a, b);
    var ka, kb := LcmIsCommon(a, b);
    var q, r := DivMod(i, l);
    SharedRemainder(a, ka, l, q, r, i);
    SharedRemainder(b, kb, l, q, r, i);
    Remainder(a, b, ka, r);
  }

  lemma DivMod(i: nat, l: nat) returns (q: nat, r: nat)
    requires l > 0
    ensures i == l * q + r && r < l && r == i % l
  {
    q, r := i / l, i % l;
  }

  lemma SharedRemainder(a: nat, k: nat, l: nat, q: nat, r: nat, i: nat)
    requires a > 0 && l == a * k && i == l * q + r
    ensures i % a == 0 <==> r % a == 0
  {
    assert l * q == a * (k * q);
    RemainderShift(a, k * q, r, i);
  }

  lemma RemainderShift(a: nat, q: nat, r: nat, i: nat)
    requires a > 0 && i == a * q + r
    ensures i % a == 0 <==> r % a == 0
  {
    var x, y := r / a, r % a;
    assert r == a * x + y;
    assert i == a * (q + x) + y;
    QuotientUnique(i, a, q + x, y);
  }

  // ---------- closed forms ----------

  /** Multiples in 1..m of both periods; none when either is switched off. */
  function Common(m: nat, a: int, b: int): nat
  {
    if a == 0 || b == 0 then 0 else m / Lcm(Abs(a), Abs(b))
  }

  lemma {:induction false} HitsClosedForm(every: int, except: int, n: nat)
    requires n > 0
    ensures Hits(every, except, n) == Multiples(n - 1, every) - Common(n - 1, every, except)
  {
    if n > 1 {
      HitsClosedForm(every, except, n - 1);
      var i := n - 1;
      if every != 0 {
        DueByMagnitude(every, i);
        MultiplesStep(i, Abs(every));
        if except != 0 {
          DueByMagnitude(except, i);
          CommonMultiples(Abs(every), Abs(except), i);
          MultiplesStep(i, Lcm(Abs(every), Abs(except)));
        }
      }
    } else {
      assert Hits(every, except, 0) == 0;
      if every != 0 && except != 0 {
        CommonMultiples(Abs(every), Abs(except), 0);
      }
    }
  }
}
