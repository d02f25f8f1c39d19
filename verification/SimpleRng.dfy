/** The 64-bit linear congruential generator that drives the mask shuffle and the CID noise. */
module SimpleRng {
  import opened Bytes
  import opened FisherYates

  const MULTIPLIER: nat := 6364136223846793005
  const INCREMENT: nat := 1442695040888963407

  /** One step, in wrapping 64-bit arithmetic. */
  function Step(state: nat): (r: nat)
    ensures r < WORD
  {
    (state * MULTIPLIER + INCREMENT) % WORD
  }

  function Steps(n: nat, state: nat): nat
  {
    if n == 0 then state else Steps(n - 1, Step(state))
  }

  /** The draws a shuffle of n positions makes, last position first: rng.Intn(i + 1) for i = n-1 .. 1. */
  function ShuffleDraws(state: nat, n: nat): (js: seq<nat>)
    ensures Draws(js, n)
    decreases n
  {
    if n <= 1 then seq(n, i => 0)
    else
      var next := Step(state);
      ShuffleDraws(next, n - 1) + [next % n]
  }

  /** The generator's own numbers. */
  lemma StepsInNumbers(state: nat)
    ensures Steps(0, state) == state
    ensures Steps(1, state) == (state * 6364136223846793005 + 1442695040888963407) % 0x1_0000_0000_0000_0000
  {
    assert Steps(1, state) == Steps(0, Step(state));
  }

  /** The draw for position i of n is the (n - i)-th state modulo i + 1; none is made for position 0. */
  lemma {:induction false} DrawIsState(state: nat, n: nat, i: nat)
    requires i < n
    ensures ShuffleDraws(state, n)[i] == if i == 0 then 0 else Steps(n - i, state) % (i + 1)
    decreases n
  {
    if n > 1 {
      if i < n - 1 {
        DrawIsState(Step(state), n - 1, i);
      } else {
        assert Steps(1, state) == Steps(0, Step(state));
      }
    }
  }

  class SimpleRNG {
    var state: nat

    constructor (seed: int)
      ensures state == seed % WORD
    {
      state := seed % WORD;
    }

    method Next() returns (r: nat)
      modifies this
      ensures state == Step(old(state)) && r == state
      ensures r == (old(state) * 6364136223846793005 + 1442695040888963407) % 0x1_0000_0000_0000_0000
    {
      state := (state * MULTIPLIER + INCREMENT) % WORD;
      r := state;
    }

    method Intn(n: nat) returns (r: nat)
      requires n > 0
      modifies this
      ensures state == Step(old(state)) && r == state % n && r < n
    {
      var x := Next();
      r := x % n;
    }
  }

  // ----- the generator without wrap-around -----

  /** n steps of x := a*x + c over the unbounded integers. */
  function Iter(a: nat, c: nat, n: nat, x: nat): nat
    decreases n
  {
    if n == 0 then x else Iter(a, c, n - 1, a * x + c)
  }

  lemma {:induction false} IterParity(a: nat, c: nat, n: nat, x: nat)
    requires a % 2 == 1 && c % 2 == 1
    ensures (Iter(a, c, n, x) - x) % 2 == n % 2
    decreases n
  {
    if n > 0 {
      var y := a * x + c;
      IterParity(a, c, n - 1, y);
      OddTimes(a, x);
      ParityShift(Iter(a, c, n - 1, y), y, x, n);
    }
  }

  lemma ParityShift(t: int, y: int, x: int, n: nat)
    requires n > 0 && (t - y) % 2 == (n - 1) % 2 && y % 2 != x % 2
    ensures (t - x) % 2 == n % 2
  {
  }

  lemma OddTimes(a: nat, x: nat)
    requires a % 2 == 1
    ensures a * x % 2 == x % 2
  {
    var h := a / 2;
    assert a * x == 2 * (h * x) + x;
  }

  /** Two steps on 2*y + p act on y like one step of another generator of the same kind. */
  ghost function HalfIncrement(a: nat, c: nat, p: nat): nat
    requires a >= 1
  {
    ((a * a - 1) * p + c * (a + 1)) / 2
  }

  lemma HalfGenerator(a: nat, c: nat, p: nat)
    requires a % 4 == 1 && c % 2 == 1 && p < 2
    ensures a * a % 4 == 1
    ensures HalfIncrement(a, c, p) % 2 == 1
    ensures 2 * HalfIncrement(a, c, p) == (a * a - 1) * p + c * (a + 1)
  {
    var q, h := a / 4, c / 2;
    var r := 2 * (q * (2 * q + 1));
    SquareOfOdd(q);
    assert a == 4 * q + 1 && c == 2 * h + 1;
    assert a * a == 4 * r + 1;
    var g := (2 * h + 1) * (2 * q + 1);
    OddTimes(2 * h + 1, 2 * q + 1);
    assert c * (a + 1) == 2 * g by {
      assert a + 1 == 2 * (2 * q + 1);
      DoubleOut(c, 2 * q + 1);
    }
    HalfSum(a * a, c * (a + 1), p, r, g);
  }

  lemma DoubleOut(c: nat, e: nat)
    ensures c * (2 * e) == 2 * (c * e)
  {
  }

  lemma SquareOfOdd(q: nat)
    ensures (4 * q + 1) * (4 * q + 1) == 8 * (q * (2 * q + 1)) + 1
  {
  }

  lemma HalfSum(s: int, t: int, p: nat, r: int, g: int)
    requires g % 2 == 1 && p < 2 && s == 4 * r + 1 && t == 2 * g
    ensures var u := (s - 1) * p + t; u / 2 % 2 == 1 && 2 * (u / 2) == u
  {
    if p == 0 {
      assert (s - 1) * p == 0;
    } else {
      assert (s - 1) * p == 4 * r;
      assert (4 * r + 2 * g) / 2 == 2 * r + g;
    }
  }

  lemma {:induction false} IterHalves(a: nat, c: nat, m: nat, y: nat, p: nat)
    requires a % 4 == 1 && c % 2 == 1 && p < 2
    ensures Iter(a, c, 2 * m, 2 * y + p) == 2 * Iter(a * a, HalfIncrement(a, c, p), m, y) + p
    decreases m
  {
    if m > 0 {
      HalfGenerator(a, c, p);
      var x, d := 2 * y + p, HalfIncrement(a, c, p);
      var y' := a * a * y + d;
      TwoSteps(a, c, y, p, d);
      assert Iter(a, c, 2 * m, x) == Iter(a, c, 2 * m - 1, a * x + c) == Iter(a, c, 2 * (m - 1), a * (a * x + c) + c);
      IterHalves(a, c, m - 1, y', p);
    }
  }

  lemma TwoSteps(a: nat, c: nat, y: nat, p: nat, d: nat)
    requires 2 * d == (a * a - 1) * p + c * (a + 1)
    ensures a * (a * (2 * y + p) + c) + c == 2 * (a * a * y + d) + p
  {
    var s := a * a;
    assert a * (a * (2 * y + p) + c) == a * (a * (2 * y + p)) + a * c;
    assert a * (a * (2 * y + p)) == s * (2 * y + p) == 2 * (s * y) + s * p;
    assert (s - 1) * p == s * p - p;
    assert c * (a + 1) == a * c + c;
  }

  lemma DoubleMultiple(z: int, q: nat)
    requires q > 0
    ensures 2 * z % (2 * q) == 0 <==> z % q == 0
  {
    if z % q == 0 {
      var k := z / q;
      assert 2 * z == k * (2 * q);
      DivUnique(2 * z, 2 * q, k, 0);
    }
    if 2 * z % (2 * q) == 0 {
      var k := 2 * z / (2 * q);
      assert 2 * z == k * (2 * q) == 2 * (k * q);
      DivUnique(z, q, k, 0);
    }
  }

  lemma MultipleOfFactor(u: int, f: nat, m: nat)
    requires f > 0 && m > 0 && u % (f * m) == 0
    ensures u % m == 0
  {
    var k := u / (f * m);
    assert u == k * (f * m) == (k * f) * m;
    DivUnique(u, m, k * f, 0);
  }

  lemma OddNotMultiple(z: int, q: nat)
    requires q > 0 && z % 2 == 1
    ensures z % (2 * q) != 0
  {
    assert q * 2 == 2 * q;
    if z % (2 * q) == 0 {
      MultipleOfFactor(z, q, 2);
    }
  }

  /** n steps return the low k bits exactly when 2^k divides n, for every generator of this kind. */
  lemma {:induction false} IterPeriod(a: nat, c: nat, k: nat, n: nat, x: nat)
    requires a % 4 == 1 && c % 2 == 1
    ensures (Iter(a, c, n, x) - x) % Pow2(k) == 0 <==> n % Pow2(k) == 0
    decreases k
  {
    if k > 0 {
      var q := Pow2(k - 1);
      IterParity(a, c, n, x);
      if n % 2 == 1 {
        OddNotMultiple(n, q);
        OddNotMultiple(Iter(a, c, n, x) - x, q);
      } else {
        var m, y, p := n / 2, x / 2, x % 2;
        var d := HalfIncrement(a, c, p);
        HalfGenerator(a, c, p);
        IterHalves(a, c, m, y, p);
        IterPeriod(a * a, d, k - 1, m, y);
        DoubleMultiple(m, q);
        DoubleMultiple(Iter(a * a, d, m, y) - y, q);
        assert Iter(a, c, n, x) - x == 2 * (Iter(a * a, d, m, y) - y);
      }
    }
  }

  /** Every value of the low k bits is met within 2^k steps. */
  lemma {:induction false} IterReaches(a: nat, c: nat, k: nat, x: nat, z: nat) returns (n: nat)
    requires a % 4 == 1 && c % 2 == 1
    ensures n < Pow2(k) && (Iter(a, c, n, x) - z) % Pow2(k) == 0
    decreases k, 1
  {
    if k == 0 {
      return 0;
    }
    hide Iter, Pow2;
    if x % 2 == z % 2 {
      n := EvenReach(a, c, k, x, z);
    } else {
      var y := a * x + c;
      OddTimes(a, x);
      n := EvenReach(a, c, k, y, z);
      IterFirst(a, c, n, x);
      n := n + 1;
    }
  }

  /** From a value of the right parity an even number of steps is enough. */
  lemma {:induction false} EvenReach(a: nat, c: nat, k: nat, x: nat, z: nat) returns (n: nat)
    requires a % 4 == 1 && c % 2 == 1 && k > 0 && x % 2 == z % 2
    ensures n + 1 < Pow2(k) && (Iter(a, c, n, x) - z) % Pow2(k) == 0
    decreases k, 0
  {
    hide Iter, HalfIncrement;
    HalfGenerator(a, c, x % 2);
    var m := IterReaches(a * a, HalfIncrement(a, c, x % 2), k - 1, x / 2, z / 2);
    HalfReach(a, c, k, x, z, m);
    n := 2 * m;
  }

  lemma IterFirst(a: nat, c: nat, n: nat, x: nat)
    ensures Iter(a, c, n + 1, x) == Iter(a, c, n, a * x + c)
  {
  }

  lemma HalfReach(a: nat, c: nat, k: nat, x: nat, z: nat, m: nat)
    requires a % 4 == 1 && c % 2 == 1 && k > 0 && x % 2 == z % 2
    requires (Iter(a * a, HalfIncrement(a, c, x % 2), m, x / 2) - z / 2) % Pow2(k - 1) == 0
    ensures (Iter(a, c, 2 * m, x) - z) % Pow2(k) == 0
  {
    var y := Iter(a * a, HalfIncrement(a, c, x % 2), m, x / 2);
    IterHalves(a, c, m, x / 2, x % 2);
    assert x == 2 * (x / 2) + x % 2;
    DoubleMultiple(y - z / 2, Pow2(k - 1));
    assert Iter(a, c, 2 * m, x) - z == 2 * (y - z / 2);
  }

  // ----- back to 64-bit words -----

  lemma CongruentStep(a: nat, c: nat, x: nat, y: nat, m: nat)
    requires m > 0 && (x - y) % m == 0
    ensures (a * x + c - (a * y + c)) % m == 0
  {
    var k := (x - y) / m;
    assert x - y == k * m;
    assert a * x + c - (a * y + c) == a * (x - y) == (a * k) * m by {
      assert a * (k * m) == (a * k) * m;
    }
    DivUnique(a * x + c - (a * y + c), m, a * k, 0);
  }

  lemma {:induction false} IterCongruent(a: nat, c: nat, n: nat, x: nat, y: nat, m: nat)
    requires m > 0 && (x - y) % m == 0
    ensures (Iter(a, c, n, x) - Iter(a, c, n, y)) % m == 0
    decreases n
  {
    if n > 0 {
      CongruentStep(a, c, x, y, m);
      IterCongruent(a, c, n - 1, a * x + c, a * y + c, m);
    }
  }

  lemma SumOfMultiples(u: int, v: int, m: nat)
    requires m > 0 && u % m == 0 && v % m == 0
    ensures (u + v) % m == 0 && (-u) % m == 0
  {
    assert u == (u / m) * m && v == (v / m) * m;
    assert u + v == (u / m + v / m) * m;
    DivUnique(u + v, m, u / m + v / m, 0);
    assert -u == (-(u / m)) * m;
    DivUnique(-u, m, -(u / m), 0);
  }

  /** The wrapping generator is the unbounded one, reduced once at the end. */
  lemma {:induction false} StepsAreIter(n: nat, s: nat)
    ensures (Steps(n, s) - Iter(MULTIPLIER, INCREMENT, n, s)) % WORD == 0
    decreases n
  {
    if n > 0 {
      var x, y := s * MULTIPLIER + INCREMENT, Step(s);
      StepsAreIter(n - 1, y);
      assert y - x == (-(x / WORD)) * WORD;
      DivUnique(y - x, WORD, -(x / WORD), 0);
      IterCongruent(MULTIPLIER, INCREMENT, n - 1, y, x, WORD);
      assert Iter(MULTIPLIER, INCREMENT, n, s) == Iter(MULTIPLIER, INCREMENT, n - 1, x);
      SumOfMultiples(Steps(n, s) - Iter(MULTIPLIER, INCREMENT, n - 1, y),
                     Iter(MULTIPLIER, INCREMENT, n - 1, y) - Iter(MULTIPLIER, INCREMENT, n - 1, x), WORD);
    }
  }

  lemma {:induction false} Pow2Sum(j: nat, k: nat)
    ensures Pow2(j + k) == Pow2(j) * Pow2(k)
  {
    if j > 0 {
      Pow2Sum(j - 1, k);
      assert Pow2(j + k) == 2 * Pow2(j - 1 + k) == 2 * (Pow2(j - 1) * Pow2(k)) == Pow2(j) * Pow2(k);
    }
  }

  lemma WordIsPow2()
    ensures Pow2(64) == WORD
  {
    Pow2Of8();
    Pow2Sum(8, 8);
    assert Pow2(16) == 0x1_0000;
    Pow2Sum(16, 16);
    assert Pow2(32) == 0x1_0000_0000;
    Pow2Sum(32, 32);
  }

  lemma Congruent(u: nat, v: nat, m: nat)
    requires m > 0
    ensures (u - v) % m == 0 <==> u % m == v % m
  {
    var d := u / m - v / m;
    assert u - v == d * m + (u % m - v % m);
    if u % m == v % m {
      DivUnique(u - v, m, d, 0);
    } else if u % m > v % m {
      DivUnique(u - v, m, d, u % m - v % m);
    } else {
      assert u - v == (d - 1) * m + (m + u % m - v % m);
      DivUnique(u - v, m, d - 1, m + u % m - v % m);
    }
  }

  /** The low k bits of the state repeat after n steps exactly when 2^k divides n. */
  lemma LowBitPeriod(k: nat, n: nat, s: nat)
    requires k <= 64
    ensures Steps(n, s) % Pow2(k) == s % Pow2(k) <==> n % Pow2(k) == 0
  {
    var t := Iter(MULTIPLIER, INCREMENT, n, s);
    StepsAreIter(n, s);
    WordIsPow2();
    Pow2Sum(64 - k, k);
    MultipleOfFactor(Steps(n, s) - t, Pow2(64 - k), Pow2(k));
    Congruent(Steps(n, s), t, Pow2(k));
    IterPeriod(MULTIPLIER, INCREMENT, k, n, s);
    Congruent(t, s, Pow2(k));
  }

  lemma {:induction false} StepsSplit(m: nat, n: nat, s: nat)
    ensures Steps(m + n, s) == Steps(n, Steps(m, s))
    ensures s < WORD ==> Steps(n, s) < WORD
    decreases m + n
  {
    if m > 0 {
      StepsSplit(m - 1, n, Step(s));
    }
    if n > 0 {
      StepsSplit(0, n - 1, Step(s));
    }
  }

  /** Full period: two moments share a state exactly when they are a multiple of 2^64 steps apart. */
  lemma StatesRepeat(i: nat, j: nat, s: nat)
    requires i <= j && s < WORD
    ensures Steps(i, s) == Steps(j, s) <==> (j - i) % WORD == 0
  {
    hide Steps, Pow2;
    StepsSplit(i, j - i, s);
    StepsSplit(0, i, s);
    StepsSplit(0, j, s);
    var u, v := Steps(i, s), Steps(j, s);
    assert u % WORD == u && v % WORD == v;
    WordIsPow2();
    LowBitPeriod(64, j - i, u);
  }

  /** ... and every 64-bit state is visited within one period, from any seed. */
  lemma StatesAllVisited(s: nat, z: nat)
    requires s < WORD && z < WORD
    ensures exists n: nat :: n < WORD && Steps(n, s) == z
  {
    hide Iter, Steps, Pow2;
    var n := IterReaches(MULTIPLIER, INCREMENT, 64, s, z);
    WordIsPow2();
    StepsAreIter(n, s);
    StepsSplit(0, n, s);
    var t := Iter(MULTIPLIER, INCREMENT, n, s);
    SumOfMultiples(Steps(n, s) - t, t - z, WORD);
    Congruent(Steps(n, s), z, WORD);
    assert n < WORD && Steps(n, s) == z;
  }
}
