/**
 The modular powers of the password check (SRP) and of the auth key exchange (Diffie-Hellman).
 */
module Srp {
  import opened Arithmetic

  function Pow(b: nat, e: nat): (r: nat) {
    if e == 0 then 1 else b * Pow(b, e - 1)
  }

  /** With `PowAdd` below, this fixes every power. */
  lemma PowOne(b: nat)
    ensures Pow(b, 0) == 1 && Pow(b, 1) == b
  {
    assert b * Pow(b, 0) == b * 1;
  }

  /** `pow(b, e, m)`. */
  function PowMod(b: nat, e: nat, m: nat): (r: nat)
    requires m > 0
  {
    Pow(b, e) % m
  }

  // ----- congruences

  predicate DifferBy(a: int, b: int, m: int, k: int) {
    a - b == k * m
  }

  ghost predicate Congruent(a: int, b: int, m: int) {
    exists k :: DifferBy(a, b, m, k)
  }

  lemma CongruentBy(a: int, b: int, m: int, k: int)
    requires a - b == k * m
    ensures Congruent(a, b, m)
  {
    assert DifferBy(a, b, m, k);
  }

  lemma ReducedCongruent(a: int, m: int)
    requires m > 0
    ensures Congruent(a % m, a, m)
  {
    assert a == m * (a / m) + a % m;
    assert -(a / m) * m == -(m * (a / m));
    CongruentBy(a % m, a, m, -(a / m));
  }

  lemma CongruentMod(a: int, b: int, m: int)
    requires m > 0 && Congruent(a, b, m)
    ensures a % m == b % m
  {
    var k :| DifferBy(a, b, m, k);
    assert b == m * (b / m) + b % m;
    assert (b / m + k) * m == m * (b / m) + k * m;
    DivModUnique(a, m, b / m + k, b % m);
  }

  lemma CongruentAdd(a: int, b: int, c: int, d: int, m: int)
    requires Congruent(a, b, m) && Congruent(c, d, m)
    ensures Congruent(a + c, b + d, m) && Congruent(a - c, b - d, m)
  {
    var k :| DifferBy(a, b, m, k);
    var l :| DifferBy(c, d, m, l);
    assert (k + l) * m == k * m + l * m;
    assert (k - l) * m == k * m - l * m;
    CongruentBy(a + c, b + d, m, k + l);
    CongruentBy(a - c, b - d, m, k - l);
  }

  lemma CongruentMul(a: int, b: int, c: int, d: int, m: int)
    requires Congruent(a, b, m) && Congruent(c, d, m)
    ensures Congruent(a * c, b * d, m)
  {
    var k :| DifferBy(a, b, m, k);
    var l :| DifferBy(c, d, m, l);
    calc {
      a * c - b * d;
      (a - b) * c + b * (c - d);
      { assert (k * m) * c == (k * c) * m; assert b * (l * m) == (b * l) * m; }
      (k * c) * m + (b * l) * m;
      (k * c + b * l) * m;
    }
    CongruentBy(a * c, b * d, m, k * c + b * l);
  }

  lemma CongruentSame(a: int, m: int)
    ensures Congruent(a, a, m)
  {
    CongruentBy(a, a, m, 0);
  }

  lemma {:induction false} CongruentPow(a: nat, b: nat, e: nat, m: int)
    requires Congruent(a, b, m)
    ensures Congruent(Pow(a, e), Pow(b, e), m)
  {
    if e == 0 {
      CongruentSame(1, m);
    } else {
      CongruentPow(a, b, e - 1, m);
      CongruentMul(a, b, Pow(a, e - 1), Pow(b, e - 1), m);
    }
  }

  // ----- powers

  lemma MulAssociates(a: nat, b: nat, c: nat)
    ensures a * (b * c) == (a * b) * c
  {
  }

  lemma {:induction false} PowAdd(b: nat, e: nat, f: nat)
    ensures Pow(b, e + f) == Pow(b, e) * Pow(b, f)
    decreases e
  {
    if e > 0 {
      PowAdd(b, e - 1, f);
      assert Pow(b, e + f) == b * Pow(b, e - 1 + f);
      MulAssociates(b, Pow(b, e - 1), Pow(b, f));
    }
  }

  lemma {:induction false} PowMul(b: nat, e: nat, f: nat)
    ensures Pow(Pow(b, e), f) == Pow(b, e * f)
    decreases f
  {
    if f == 0 {
      assert e * f == 0;
    } else {
      PowMul(b, e, f - 1);
      assert e * f == e + e * (f - 1);
      PowAdd(b, e, e * (f - 1));
    }
  }

  /** Reducing the base first changes nothing. */
  lemma PowModReduced(b: nat, e: nat, m: nat)
    requires m > 0
    ensures PowMod(b % m, e, m) == PowMod(b, e, m)
  {
    ReducedCongruent(b, m);
    CongruentPow(b % m, b, e, m);
    CongruentMod(Pow(b % m, e), Pow(b, e), m);
  }

  // ----- Diffie-Hellman

  /** The auth key is the same from both sides: `g_a ^ b` is `g_b ^ a`. */
  lemma SharedKey(g: nat, a: nat, b: nat, p: nat)
    requires p > 0
    ensures PowMod(PowMod(g, a, p), b, p) == PowMod(PowMod(g, b, p), a, p)
  {
    PowModReduced(Pow(g, a), b, p);
    PowModReduced(Pow(g, b), a, p);
    PowMul(g, a, b);
    PowMul(g, b, a);
    assert a * b == b * a;
  }

  // ----- SRP

  /** The server's public value for its secret `b` and the verifier `v`. */
  function ServerPublic(g: nat, p: nat, k: nat, v: nat, b: nat): (r: nat)
    requires p > 0
  {
    (k * v + Pow(g, b)) % p
  }

  /** The server's session secret: section 2.6 of RFC 5054. */
  function ServerSecret(p: nat, A: nat, v: nat, u: nat, b: nat): (r: nat)
    requires p > 0
  {
    PowMod(A * Pow(v, u), b, p)
  }

  /** The client's session secret, in the order of the source's assignments. */
  function ClientSecret(g: nat, p: nat, k: nat, x: nat, B: nat, a: nat, u: nat): (r: nat)
    requires p > 0
  {
    var gX := PowMod(g, x, p);
    var kgX := (k * gX) % p;
    var gB := (B - kgX) % p;
    PowMod(gB, a + u * x, p)
  }

  /** What the client recovers from the server's public value is `g ^ b`. */
  lemma RecoversPower(g: nat, p: nat, k: nat, v: nat, b: nat)
    requires p > 0
    ensures (ServerPublic(g, p, k, v, b) - (k * v) % p) % p == Pow(g, b) % p
  {
    var s := k * v + Pow(g, b);
    ReducedCongruent(s, p);
    ReducedCongruent(k * v, p);
    CongruentAdd(s % p, s, (k * v) % p, k * v, p);
    CongruentMod(s % p - (k * v) % p, s - k * v, p);
  }

  lemma ServerPower(g: nat, p: nat, x: nat, u: nat, a: nat, b: nat)
    requires p > 0
    ensures ServerSecret(p, PowMod(g, a, p), PowMod(g, x, p), u, b) == PowMod(g, (a + u * x) * b, p)
  {
    var A, v := PowMod(g, a, p), PowMod(g, x, p);
    ReducedCongruent(Pow(g, a), p);
    ReducedCongruent(Pow(g, x), p);
    CongruentPow(v, Pow(g, x), u, p);
    CongruentMul(A, Pow(g, a), Pow(v, u), Pow(Pow(g, x), u), p);
    PowMul(g, x, u);
    assert x * u == u * x;
    PowAdd(g, a, u * x);
    CongruentPow(A * Pow(v, u), Pow(g, a + u * x), b, p);
    CongruentMod(Pow(A * Pow(v, u), b), Pow(Pow(g, a + u * x), b), p);
    PowMul(g, a + u * x, b);
  }

  /** Client and server compute the same secret, for every a, b, x, u and k. */
  lemma SecretsAgree(g: nat, p: nat, k: nat, x: nat, a: nat, b: nat, u: nat)
    requires p > 0
    ensures var v, A := PowMod(g, x, p), PowMod(g, a, p);
            ClientSecret(g, p, k, x, ServerPublic(g, p, k, v, b), a, u) == ServerSecret(p, A, v, u, b)
  {
    var v := PowMod(g, x, p);
    RecoversPower(g, p, k, v, b);
    PowModReduced(Pow(g, b), a + u * x, p);
    PowMul(g, b, a + u * x);
    assert b * (a + u * x) == (a + u * x) * b;
    ServerPower(g, p, x, u, a, b);
  }

  /**
   The redraw loop and the arithmetic of `compute_password_check`. `draws` are the random
   numbers in order and `challenge` is the hash of `A` and the server's value.
   */
  method ComputePasswordCheck(g: nat, p: nat, k: nat, x: nat, B: nat, draws: seq<nat>, challenge: nat -> nat)
    returns (A: nat, S: nat, ghost a: nat)
    requires p > 0 && exists i :: 0 <= i < |draws| && challenge(PowMod(g, draws[i], p)) > 0
    ensures a in draws && A == PowMod(g, a, p) && challenge(A) > 0
    ensures S == ClientSecret(g, p, k, x, B, a, challenge(A))
    ensures forall b :: B == ServerPublic(g, p, k, PowMod(g, x, p), b) ==>
              S == ServerSecret(p, A, PowMod(g, x, p), challenge(A), b)
  {
    var gX := PowMod(g, x, p);
    var kgX := (k * gX) % p;
    var i := 0;
    A := PowMod(g, draws[0], p);
    var u := challenge(A);
    while u == 0
      invariant 0 <= i < |draws|
      invariant A == PowMod(g, draws[i], p) && u == challenge(A)
      invariant forall j :: 0 <= j < i ==> challenge(PowMod(g, draws[j], p)) == 0
      decreases |draws| - i
    {
      i := i + 1;
      A := PowMod(g, draws[i], p);
      u := challenge(A);
    }
    a := draws[i];
    var gB := (B - kgX) % p;
    S := PowMod(gB, draws[i] + u * x, p);
    forall b | B == ServerPublic(g, p, k, PowMod(g, x, p), b)
      ensures S == ServerSecret(p, A, PowMod(g, x, p), u, b)
    {
      SecretsAgree(g, p, k, x, a, b, u);
    }
  }
}
