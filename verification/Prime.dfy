/**
 `decompose`: Brent's form of Pollard's rho, as the client uses it to factor the
 server's `pq`. The random draws are parameters.

 The run compares terms of one sequence `Term(0), Term(1), ...`. Its comparisons, taken in the
 order in which the nested loops make them, are numbered 1, 2, 3, ...; comparison `n` belongs to
 phase `Phase(n)`, the largest power of two that is at most `n`, and sets term `2r - 2` against
 term `n + 2r - 1`.
 */
module Prime {
  import opened Arithmetic
  import opened Bytes

  // ----- the sequence and its comparisons

  /** One step of the sequence, `(pow(y, 2, pq) + c) % pq`. */
  function Step(pq: nat, c: nat, y: nat): (r: nat)
    requires pq > 0
  {
    (y * y % pq + c) % pq
  }

  /** The map the sequence iterates, for one modulus and one draw of `c`. */
  function Map(pq: nat, c: nat): (f: nat -> nat)
    requires pq > 0
    ensures Below(pq, f)
  {
    y => Step(pq, c, y)
  }

  ghost function Term(f: nat -> nat, y0: nat, i: nat): (r: nat) {
    if i == 0 then y0 else f(Term(f, y0, i - 1))
  }

  /** The largest power of two that is at most `n`. */
  ghost function Phase(n: nat): (r: nat)
    requires n >= 1
    ensures 1 <= r <= n
  {
    if n == 1 then 1 else 2 * Phase(n / 2)
  }

  ghost predicate IsPowerOfTwo(r: nat) {
    r >= 1 && (r == 1 || (r % 2 == 0 && IsPowerOfTwo(r / 2)))
  }

  lemma {:induction false} PhaseOfRange(r: nat, n: nat)
    requires IsPowerOfTwo(r) && r <= n < 2 * r
    ensures Phase(n) == r
  {
    if r > 1 {
      PhaseOfRange(r / 2, n / 2);
    }
  }

  function AbsDiff(x: nat, y: nat): (r: nat) {
    if x >= y then x - y else y - x
  }

  /** The difference that comparison `n` multiplies into the running product. */
  ghost function Diff(f: nat -> nat, y0: nat, n: nat): (r: nat)
    requires n >= 1
  {
    var r := Phase(n);
    AbsDiff(Term(f, y0, 2 * r - 2), Term(f, y0, n + 2 * r - 1))
  }

  /** No comparison up to `n` shares a factor with `pq`. */
  ghost predicate Clean(pq: nat, f: nat -> nat, y0: nat, n: nat) {
    forall i :: 1 <= i <= n ==> Coprime(Diff(f, y0, i), pq)
  }

  /** Comparison `n` is the first one that shares a factor with `pq`. */
  ghost predicate FirstHit(pq: nat, f: nat -> nat, y0: nat, n: nat) {
    n >= 1 && !Coprime(Diff(f, y0, n), pq) && Clean(pq, f, y0, n - 1)
  }

  // ----- the sequence runs into a cycle

  ghost predicate Below(pq: nat, f: nat -> nat) {
    forall y :: f(y) < pq
  }

  lemma {:induction false} TermBound(pq: nat, f: nat -> nat, y0: nat, i: nat)
    requires y0 < pq && Below(pq, f)
    ensures Term(f, y0, i) < pq
  {
    if i > 0 {
      TermBound(pq, f, y0, i - 1);
    }
  }

  lemma {:induction false} EqualTermsStayEqual(f: nat -> nat, y0: nat, a: nat, b: nat, i: nat)
    requires Term(f, y0, a) == Term(f, y0, b)
    ensures Term(f, y0, a + i) == Term(f, y0, b + i)
  {
    if i > 0 {
      EqualTermsStayEqual(f, y0, a, b, i - 1);
    }
  }

  lemma {:induction false} Periodic(f: nat -> nat, y0: nat, a: nat, d: nat, n: nat, t: nat)
    requires Term(f, y0, a) == Term(f, y0, a + d) && a <= n
    ensures Term(f, y0, n) == Term(f, y0, n + t * d)
  {
    if t > 0 {
      Periodic(f, y0, a, d, n, t - 1);
      var m := n + (t - 1) * d;
      EqualTermsStayEqual(f, y0, a, a + d, m - a);
      assert m + d == n + t * d;
    }
  }

  /** More than `n` values below `n`: two of them are equal. */
  lemma {:induction false} Pigeonhole(s: seq<nat>, n: nat) returns (i: nat, j: nat)
    requires |s| > n && forall k :: 0 <= k < |s| ==> s[k] < n
    ensures i < j < |s| && s[i] == s[j]
    decreases n
  {
    var last := |s| - 1;
    assert s[last] < n;
    if k :| 0 <= k < last && s[k] == s[last] {
      return k, last;
    }
    // no other value equals the last one: renumber the values above it and drop it
    var t := seq(last, k requires 0 <= k < last => if s[k] > s[last] then s[k] - 1 else s[k]);
    i, j := Pigeonhole(t, n - 1);
  }

  /** A multiple of `d` lies in the upper half of `[0, 2r]` when `1 <= d <= r`. */
  lemma MultipleInUpperHalf(d: nat, r: nat) returns (t: nat)
    requires 1 <= d <= r
    ensures r < t * d <= 2 * r
  {
    t := 2 * r / d;
    assert 2 * r == d * t + (2 * r) % d;
    assert d * t == t * d;
  }

  /** Every phase with `r >= pq` meets a full collision: two equal terms. */
  lemma PhaseCollides(pq: nat, f: nat -> nat, y0: nat, r: nat) returns (n: nat)
    requires y0 < pq && Below(pq, f) && IsPowerOfTwo(r) && r >= pq
    ensures r <= n < 2 * r && Diff(f, y0, n) == 0
  {
    var s := seq(pq + 1, (i: nat) => Term(f, y0, i));
    forall k | 0 <= k < |s|
      ensures s[k] < pq
    {
      TermBound(pq, f, y0, k);
    }
    var a, b := Pigeonhole(s, pq);
    var d := b - a;
    assert a + d == b;
    var t := MultipleInUpperHalf(d, r);
    Periodic(f, y0, a, d, 2 * r - 2, t);
    n := t * d - 1;
    PhaseOfRange(r, n);
    assert n + 2 * r - 1 == 2 * r - 2 + t * d;
  }

  // ----- the running product

  lemma DividesReducedProduct(e: int, q: nat, d: nat, n: nat)
    requires n > 0 && Divides(e, n) && (Divides(e, q) || Divides(e, d))
    ensures Divides(e, q * d % n)
  {
    var z := q * d;
    assert z % n == 1 * z + -(z / n) * n;
    if Divides(e, q) {
      DividesCombination(e, q, n, d, 0);
      assert d * q + 0 * n == z;
    } else {
      DividesCombination(e, d, n, q, 0);
      assert q * d + 0 * n == z;
    }
    DividesCombination(e, z, n, 1, -(z / n));
  }

  /**
   What the running product `q` remembers after the comparisons up to `n`: with no hit so far it
   is coprime to `pq`; otherwise the factor of the first hit divides it, and a full collision
   has made it zero.
   */
  ghost predicate Remembers(pq: nat, f: nat -> nat, y0: nat, n: nat, q: nat, hit: nat) {
    if hit == 0 then
      Clean(pq, f, y0, n) && Coprime(q, pq)
    else
      && hit <= n
      && FirstHit(pq, f, y0, hit)
      && Divides(Gcd(Diff(f, y0, hit), pq), q)
      && (Diff(f, y0, hit) == 0 ==> q == 0)
  }

  /** What multiplying `d` into `q` modulo `pq` does to the factors shared with `pq`. */
  ghost predicate Absorbs(pq: nat, q: nat, d: nat, q': nat) {
    && (Coprime(q, pq) && Coprime(d, pq) ==> Coprime(q', pq))
    && (forall e: int :: Divides(e, pq) && (Divides(e, q) || Divides(e, d)) ==> Divides(e, q'))
    && (q == 0 || d == 0 ==> q' == 0)
  }

  /** `q * d % pq`. */
  method Multiply(pq: nat, q: nat, d: nat) returns (q': nat)
    requires pq > 0
    ensures Absorbs(pq, q, d, q')
  {
    q' := q * d % pq;
    ProductAbsorbs(pq, q, d, q');
  }

  lemma CoprimeReduced(pq: nat, q: nat, d: nat)
    requires pq > 0 && Coprime(q, pq) && Coprime(d, pq)
    ensures Coprime(q * d % pq, pq)
  {
    CoprimeProduct(q, d, pq);
    GcdMod(q * d, pq);
  }

  lemma ZeroReduced(pq: nat, q: nat, d: nat)
    requires pq > 0 && (q == 0 || d == 0)
    ensures q * d % pq == 0
  {
    assert q * d == 0;
  }

  lemma ProductAbsorbs(pq: nat, q: nat, d: nat, q': nat)
    requires pq > 0 && q' == q * d % pq
    ensures Absorbs(pq, q, d, q')
  {
    if Coprime(q, pq) && Coprime(d, pq) {
      CoprimeReduced(pq, q, d);
    }
    forall e: int | Divides(e, pq) && (Divides(e, q) || Divides(e, d))
      ensures Divides(e, q')
    {
      DividesReducedProduct(e, q, d, pq);
    }
    if q == 0 || d == 0 {
      ZeroReduced(pq, q, d);
    }
  }

  lemma RememberNext(pq: nat, f: nat -> nat, y0: nat, n: nat, q: nat, q': nat, hit: nat) returns (hit': nat)
    requires pq > 0 && Remembers(pq, f, y0, n, q, hit) && Absorbs(pq, q, Diff(f, y0, n + 1), q')
    ensures Remembers(pq, f, y0, n + 1, q', hit')
    ensures hit' == hit || (hit == 0 && hit' == n + 1)
  {
    if hit == 0 && Coprime(Diff(f, y0, n + 1), pq) {
      hit' := 0;
    } else {
      hit' := if hit == 0 then n + 1 else hit;
      var _, _ := GcdBezout(Diff(f, y0, hit'), pq);
    }
  }

  /** The batch's gcd tells whether any comparison so far was a hit. */
  lemma GcdDetects(pq: nat, f: nat -> nat, y0: nat, n: nat, q: nat, hit: nat)
    requires pq > 1 && Remembers(pq, f, y0, n, q, hit)
    ensures 1 <= Gcd(q, pq) <= pq && Divides(Gcd(q, pq), pq)
    ensures Gcd(q, pq) == 1 <==> hit == 0
    ensures hit > 0 ==> Divides(Gcd(Diff(f, y0, hit), pq), Gcd(q, pq))
    ensures hit > 0 && Diff(f, y0, hit) == 0 ==> Gcd(q, pq) == pq
  {
    var _, _ := GcdBezout(q, pq);
    GcdPositive(q, pq);
    if hit > 0 {
      var d := Diff(f, y0, hit);
      var _, _ := GcdBezout(d, pq);
      GcdPositive(d, pq);
      GcdUniversal(Gcd(d, pq), q, pq);
      DivisorBound(Gcd(d, pq), Gcd(q, pq));
      if d == 0 {
        FullCollisionIff(pq, q);
      }
    }
  }

  lemma FullCollisionIff(pq: nat, d: nat)
    requires d < pq
    ensures Gcd(d, pq) == pq <==> d == 0
  {
    GcdIsWhole(d, pq);
    if d == 0 {
      DividesBy(0, pq, 0);
    } else if Divides(pq, d) {
      DivisorBound(pq, d);
    }
  }

  lemma DiffBound(pq: nat, f: nat -> nat, y0: nat, n: nat)
    requires y0 < pq && Below(pq, f) && n >= 1
    ensures Diff(f, y0, n) < pq
  {
    var r := Phase(n);
    TermBound(pq, f, y0, 2 * r - 2);
    TermBound(pq, f, y0, n + 2 * r - 1);
  }

  // ----- the algorithm

  lemma NextDiff(f: nat -> nat, y0: nat, r: nat, n: nat)
    requires IsPowerOfTwo(r) && r <= n < 2 * r
    ensures Diff(f, y0, n) == AbsDiff(Term(f, y0, 2 * r - 2), f(Term(f, y0, n + 2 * r - 2)))
    ensures Term(f, y0, n + 2 * r - 1) == f(Term(f, y0, n + 2 * r - 2))
  {
    PhaseOfRange(r, n);
  }

  /** One comparison: step to the next term and multiply its distance from `x` into `q`. */
  method Compare(pq: nat, f: nat -> nat, ghost y0: nat, ghost r: nat, ghost n: nat, x: nat, y: nat, q: nat, ghost hit: nat)
    returns (y': nat, q': nat, ghost hit': nat)
    requires pq > 1 && IsPowerOfTwo(r) && r <= n + 1 < 2 * r
    requires x == Term(f, y0, 2 * r - 2)
    requires y == Term(f, y0, n + 2 * r - 1)
    requires Remembers(pq, f, y0, n, q, hit)
    ensures y' == Term(f, y0, n + 1 + 2 * r - 1)
    ensures Remembers(pq, f, y0, n + 1, q', hit')
    ensures hit' == hit || (hit == 0 && hit' == n + 1)
  {
    y' := f(y);
    NextDiff(f, y0, r, n + 1);
    q' := Multiply(pq, q, AbsDiff(x, y'));
    hit' := RememberNext(pq, f, y0, n, q, q', hit);
  }

  /**
   One batch of comparisons (the innermost loop): `len` further terms against `x`, after `made`
   comparisons in all.
   */
  method Batch(pq: nat, f: nat -> nat, ghost y0: nat, ghost r: nat, ghost made: nat, len: nat, x: nat, y: nat, q: nat)
    returns (y': nat, q': nat, ghost hit: nat)
    requires pq > 1 && IsPowerOfTwo(r) && r - 1 <= made && made + len < 2 * r
    requires x == Term(f, y0, 2 * r - 2)
    requires y == Term(f, y0, made + 2 * r - 1)
    requires Remembers(pq, f, y0, made, q, 0)
    ensures y' == Term(f, y0, made + len + 2 * r - 1)
    ensures Remembers(pq, f, y0, made + len, q', hit)
    ensures hit > 0 ==> made < hit
  {
    y', q', hit := y, q, 0;
    for i := 0 to len
      invariant y' == Term(f, y0, made + i + 2 * r - 1)
      invariant Remembers(pq, f, y0, made + i, q', hit)
      invariant hit > 0 ==> made < hit
    {
      y', q', hit := Compare(pq, f, y0, r, made + i, x, y', q', hit);
    }
  }

  /** The fallback loop: step again from the start of the batch up to its first hit. */
  method Fallback(pq: nat, f: nat -> nat, ghost y0: nat, ghost r: nat, ghost made: nat, ghost hit: nat, x: nat, ys: nat)
    returns (g: nat, ghost steps: nat)
    requires pq > 1 && IsPowerOfTwo(r) && r - 1 <= made
    requires FirstHit(pq, f, y0, hit) && made < hit < 2 * r
    requires x == Term(f, y0, 2 * r - 2)
    requires ys == Term(f, y0, made + 2 * r - 1)
    ensures g == Gcd(Diff(f, y0, hit), pq) && g > 1
    ensures steps == hit - made
  {
    var y := ys;
    g, steps := 1, 0;
    while g <= 1
      invariant y == Term(f, y0, made + steps + 2 * r - 1)
      invariant if g == 1 then made + steps < hit
                else g > 1 && made + steps == hit && g == Gcd(Diff(f, y0, hit), pq)
      decreases hit - (made + steps)
    {
      y := f(y);
      steps := steps + 1;
      NextDiff(f, y0, r, made + steps);
      g := MathGcd(AbsDiff(x, y), pq);
      GcdPositive(AbsDiff(x, y), pq);
    }
  }

  /** What the loops leave behind for the fallback: the first hit lies inside the last batch. */
  ghost predicate AfterHit(pq: nat, f: nat -> nat, y0: nat, r: nat, made: nat, hit: nat, x: nat, ys: nat, g: nat, m: nat)
  {
    && r > 0
    && FirstHit(pq, f, y0, hit)
    && r - 1 <= made < hit < 2 * r
    && hit <= made + m
    && x == Term(f, y0, 2 * r - 2)
    && ys == Term(f, y0, made + 2 * r - 1)
    && 1 < g <= pq && Divides(g, pq)
    && Divides(Gcd(Diff(f, y0, hit), pq), g)
    && (Diff(f, y0, hit) == 0 ==> g == pq)
  }

  /** The comparisons of phase `r`, batch by batch, until one batch has a factor in common with `pq`. */
  method RunPhase(pq: nat, f: nat -> nat, ghost y0: nat, m: nat, r: nat, y: nat, q: nat)
    returns (x: nat, y': nat, ys: nat, q': nat, g: nat, ghost made: nat, ghost hit: nat)
    requires pq > 1 && m >= 1 && IsPowerOfTwo(r)
    requires y == Term(f, y0, 2 * r - 2)
    requires Remembers(pq, f, y0, r - 1, q, 0)
    ensures g == 1 ==> y' == Term(f, y0, 4 * r - 2) && Remembers(pq, f, y0, 2 * r - 1, q', 0)
    ensures g != 1 ==> AfterHit(pq, f, y0, r, made, hit, x, ys, g, m)
  {
    x, y', ys, q', g, made, hit := y, y, 0, q, 1, 0, 0;
    for i := 0 to r
      invariant y' == Term(f, y0, 2 * r - 2 + i)
    {
      y' := f(y');
    }

    var k := 0;
    while k < r && g == 1
      invariant g == 1 ==> y' == Term(f, y0, 3 * r - 2 + Min(k, r))
      invariant g == 1 ==> Remembers(pq, f, y0, r - 1 + Min(k, r), q', 0)
      invariant g != 1 ==> AfterHit(pq, f, y0, r, made, hit, x, ys, g, m)
      decreases r - k
    {
      ys := y';
      made := r - 1 + k;
      var len := Min(m, r - k);
      y', q', hit := Batch(pq, f, y0, r, made, len, x, y', q');
      g := MathGcd(q', pq);
      GcdDetects(pq, f, y0, made + len, q', hit);
      k := k + m;
    }
  }

  /** A phase with `r >= pq` cannot end without a hit. */
  lemma LongPhaseHits(pq: nat, f: nat -> nat, y0: nat, r: nat)
    requires 1 < pq && y0 < pq && Below(pq, f) && IsPowerOfTwo(r) && Clean(pq, f, y0, 2 * r - 1)
    ensures r < pq
  {
    if r >= pq {
      FullCollisionIff(pq, 0);
      var n := PhaseCollides(pq, f, y0, r);
    }
  }

  /** The search loop and its fallback, for any map that stays below `pq`. */
  method Search(pq: nat, f: nat -> nat, y0: nat, m: nat)
    returns (d: nat, ghost lastPhase: nat, ghost fallbackSteps: nat, ghost hit: nat)
    requires 1 < pq && y0 < pq && 1 <= m && Below(pq, f)
    ensures 1 < d <= pq && Divides(d, pq)
    ensures IsPowerOfTwo(lastPhase) && lastPhase < 2 * pq
    ensures fallbackSteps <= m && fallbackSteps <= lastPhase
    ensures FirstHit(pq, f, y0, hit) && hit < 2 * lastPhase
    ensures Divides(Gcd(Diff(f, y0, hit), pq), d)
    ensures d == pq <==> Diff(f, y0, hit) == 0
  {
    var y, g, r: nat, q := y0, 1, 1, 1;
    var x, ys := 0, 0;
    ghost var made: nat := 0;
    lastPhase, fallbackSteps, hit := 1, 0, 0;
    CoprimeFromCombination(1, pq, 1, 0);

    while g == 1
      invariant IsPowerOfTwo(r) && IsPowerOfTwo(lastPhase) && lastPhase < 2 * pq
      invariant g == 1 ==> r < 2 * pq && y == Term(f, y0, 2 * r - 2)
      invariant g == 1 ==> Remembers(pq, f, y0, r - 1, q, 0)
      invariant g != 1 ==> AfterHit(pq, f, y0, lastPhase, made, hit, x, ys, g, m)
      decreases if g == 1 then 2 * pq - r else 0
    {
      lastPhase := r;
      x, y, ys, q, g, made, hit := RunPhase(pq, f, y0, m, r, y, q);
      if g == 1 {
        LongPhaseHits(pq, f, y0, r);
      }
      r := r * 2;
    }

    DiffBound(pq, f, y0, hit);
    FullCollisionIff(pq, Diff(f, y0, hit));
    d := g;
    if g == pq {
      d, fallbackSteps := Fallback(pq, f, y0, lastPhase, made, hit, x, ys);
      DividesBy(1, d, d);
      var _, _ := GcdBezout(Diff(f, y0, hit), pq);
      DivisorBound(d, pq);
    }
  }

  /**
   `decompose(pq)` for the draws `y0`, `c`, `m`. An even `pq` answers 2; an odd `pq` below 3
   leaves `randint` an empty range, which raises.

   The run ends for every draw. It never leaves the first phase with `r >= pq`, the fallback loop
   never exceeds the batch that needed it, and the result is a divisor above 1. The divisor is
   `pq` itself exactly when the very first comparison that shares a factor with `pq` is a full
   collision, whatever batch size was drawn.
   */
  method Decompose(pq: int, y0: nat, c: nat, m: nat)
    returns (d: Option<nat>, ghost lastPhase: nat, ghost fallbackSteps: nat, ghost hit: nat)
    requires pq % 2 == 1 && pq >= 3 ==> 1 <= y0 < pq && 1 <= c < pq && 1 <= m < pq
    ensures d.None? <==> pq % 2 == 1 && pq < 3
    ensures pq % 2 == 0 ==> d == Some(2)
    ensures d.Some? ==> d.value > 1 && Divides(d.value, pq)
    ensures d.Some? && pq % 2 == 1 ==>
              && d.value <= pq
              && IsPowerOfTwo(lastPhase) && lastPhase < 2 * pq
              && fallbackSteps <= m && fallbackSteps <= lastPhase
              && FirstHit(pq, Map(pq, c), y0, hit) && hit < 2 * lastPhase
              && Divides(Gcd(Diff(Map(pq, c), y0, hit), pq), d.value)
              && (d.value == pq <==> Diff(Map(pq, c), y0, hit) == 0)
  {
    lastPhase, fallbackSteps, hit := 1, 0, 0;
    if pq % 2 == 0 {
      DividesBy(pq / 2, 2, pq);
      return Some(2), lastPhase, fallbackSteps, hit;
    }
    if pq < 3 {
      return None, lastPhase, fallbackSteps, hit;
    }
    var g;
    g, lastPhase, fallbackSteps, hit := Search(pq, Map(pq, c), y0, m);
    d := Some(g);
  }

  lemma {:induction false} TwoCycle(f: nat -> nat, i: nat)
    requires f(1) == 0 && f(0) == 8 && f(8) == 0 && i >= 1
    ensures Term(f, 1, i) == if i % 2 == 1 then 0 else 8
  {
    if i > 1 {
      TwoCycle(f, i - 1);
    }
  }

  lemma TwoCycleHit(f: nat -> nat)
    requires f(1) == 0 && f(0) == 8 && f(8) == 0
    ensures FirstHit(9, f, 1, 3) && Diff(f, 1, 3) == 0
  {
    TwoCycle(f, 2);
    TwoCycle(f, 5);
    TwoCycle(f, 6);
    PhaseOfRange(1, 1);
    PhaseOfRange(2, 2);
    PhaseOfRange(2, 3);
    assert Diff(f, 1, 1) == 7 && Diff(f, 1, 2) == 8 && Diff(f, 1, 3) == 0;
    CoprimeFromCombination(7, 9, 4, -3);
    CoprimeFromCombination(8, 9, -1, 1);
    FullCollisionIff(9, 0);
  }

  lemma StepBy(pq: nat, c: nat, y: nat, k: nat, rest: nat)
    requires pq > 0 && y * y == k * pq + rest && rest < pq
    ensures Map(pq, c)(y) == (rest + c) % pq
  {
    DivModUnique(y * y, pq, k, rest);
  }

  /** A composite `pq` for which the answer is `pq` itself: the first hit is a full collision. */
  lemma CompositeCanReturnItself()
    ensures FirstHit(9, Map(9, 8), 1, 3) && Diff(Map(9, 8), 1, 3) == 0
  {
    StepBy(9, 8, 1, 0, 1);
    StepBy(9, 8, 0, 0, 0);
    StepBy(9, 8, 8, 7, 1);
    TwoCycleHit(Map(9, 8));
  }
}
