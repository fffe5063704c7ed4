/** The 32-bit generator of the import and recovery gates, and the pool of workers that draws from it. */
module RandomReads {
  import opened Powers

  const WORDS: nat := 0x1_0000_0000
  const MULTIPLIER: nat := 1664525
  const INCREMENT: nat := 1013904223

  // ---------------------------------------------------------------- the 32-bit form

  function ToUint32(x: int): nat { x % WORDS }

  function ToInt32(x: int): int { if x % WORDS >= 0x8000_0000 then x % WORDS - WORDS else x % WORDS }

  function Imul(x: int, y: int): int { ToInt32(ToInt32(x) * ToInt32(y)) }

  /** `(Math.imul(state, 1_664_525) + 1_013_904_223) >>> 0` */
  function Next(s: nat): (r: nat)
    ensures r < WORDS
  {
    ToUint32(Imul(s, MULTIPLIER) + INCREMENT)
  }

  lemma Shifted(x: int, k: int)
    ensures (x + WORDS * k) % WORDS == x % WORDS
  {}

  lemma {:induction false} SignedResidue(x: int) returns (k: int)
    ensures ToInt32(x) == x + WORDS * k
  {
    k := -(x / WORDS) - if x % WORDS >= 0x8000_0000 then 1 else 0;
  }

  /** Signed multiplication and the unsigned shift together are arithmetic modulo 2^32. */
  lemma {:induction false} NextIsAffine(s: nat)
    ensures Next(s) == (MULTIPLIER * s + INCREMENT) % WORDS
  {
    assert ToInt32(MULTIPLIER) == MULTIPLIER;
    var i := SignedResidue(s);
    var p := ToInt32(s) * MULTIPLIER;
    assert p == MULTIPLIER * s + WORDS * (MULTIPLIER * i);
    var j := SignedResidue(p);
    hide ToInt32;
    Shifted(MULTIPLIER * s + INCREMENT, MULTIPLIER * i + j);
    assert Imul(s, MULTIPLIER) + INCREMENT == MULTIPLIER * s + INCREMENT + WORDS * (MULTIPLIER * i + j);
  }

  // ---------------------------------------------------------------- divisibility by powers of two

  /** 2^k divides x. */
  predicate Divides(k: nat, x: int) { k == 0 || (x % 2 == 0 && Divides(k - 1, x / 2)) }

  lemma {:induction false} ModDouble(x: int, p: nat)
    requires p > 0
    ensures x % (2 * p) == 0 <==> x % 2 == 0 && (x / 2) % p == 0
  {
    if x % (2 * p) == 0 {
      var q := x / (2 * p);
      assert x == 2 * p * q;
      assert x == 2 * (p * q);
      assert x / 2 == p * q;
      MultipleMod(p, q);
    }
    if x % 2 == 0 && (x / 2) % p == 0 {
      var q := (x / 2) / p;
      assert x / 2 == p * q;
      assert x == (2 * p) * q;
      MultipleMod(2 * p, q);
    }
  }

  lemma {:induction false} MultipleMod(p: nat, q: int)
    requires p > 0
    ensures (p * q) % p == 0
  {
    var x := p * q;
    var t := q - x / p;
    assert x == p * (x / p) + x % p;
    assert p * t == p * q - p * (x / p);
    SmallMultiple(p, t, x % p);
  }

  lemma {:induction false} SmallMultiple(p: nat, t: int, r: nat)
    requires r < p && p * t == r
    ensures r == 0
  {
    AtLeastOnce(p, t);
  }

  lemma {:induction false} AtLeastOnce(p: nat, t: int)
    ensures t >= 1 ==> p * t >= p
    ensures t <= -1 ==> p * t + p <= 0
  {
    if t >= 1 {
      assert p * t == p * (t - 1) + p;
    } else if t <= -1 {
      assert p * t == p * (t + 1) - p;
    }
  }

  lemma {:induction false} DividesIsMod(k: nat, x: int)
    ensures Divides(k, x) <==> x % Power(k) == 0
  {
    if k > 0 {
      DividesIsMod(k - 1, x / 2);
      ModDouble(x, Power(k - 1));
    }
  }

  /** An odd factor does not matter. */
  lemma {:induction false} OddFactor(k: nat, o: int, x: int)
    requires o % 2 == 1
    ensures Divides(k, o * x) <==> Divides(k, x)
  {
    if k > 0 {
      var y := x / 2;
      var h := o / 2;
      OddTimes(h, x);
      if x % 2 == 0 {
        OddFactor(k - 1, o, y);
        assert o * x == 2 * (o * y);
        assert (o * x) / 2 == o * y;
      }
    }
  }

  lemma {:induction false} OddTimes(h: int, x: int)
    ensures ((2 * h + 1) * x) % 2 == x % 2
  {
    assert (2 * h + 1) * x == 2 * (h * x) + x;
  }

  // ---------------------------------------------------------------- the unreduced iteration

  function Step(x: int): int { MULTIPLIER * x + INCREMENT }

  function Steps(n: nat, x: int): int { if n == 0 then x else Step(Steps(n - 1, x)) }

  function Factor(n: nat): int { if n == 0 then 1 else MULTIPLIER * Factor(n - 1) }

  lemma {:induction false} FactorMod4(n: nat)
    ensures Factor(n) % 4 == 1
  {
    if n > 0 {
      FactorMod4(n - 1);
      var f := Factor(n - 1);
      TimesMultiplier(f, f / 4);
    }
  }

  lemma TimesMultiplier(f: int, g: int)
    requires f == 4 * g + 1
    ensures (MULTIPLIER * f) % 4 == 1
  {
    var h := MULTIPLIER * g + MULTIPLIER / 4;
    assert MULTIPLIER * f == 4 * h + 1;
  }

  lemma {:induction false} StepsCompose(m: nat, n: nat, x: int)
    ensures Steps(m + n, x) == Steps(m, Steps(n, x))
  {
    hide Step;
    if m > 0 { StepsCompose(m - 1, n, x); }
  }

  lemma {:induction false} StepsAffine(n: nat, x: int, y: int)
    ensures Steps(n, x) - Steps(n, y) == Factor(n) * (x - y)
  {
    if n > 0 {
      StepsAffine(n - 1, x, y);
      var f := Factor(n - 1);
      assert MULTIPLIER * (f * (x - y)) == (MULTIPLIER * f) * (x - y);
    }
  }

  lemma {:induction false} StepsParity(n: nat, x: int)
    ensures (Steps(n, x) - x) % 2 == n % 2
  {
    if n > 0 { StepsParity(n - 1, x); }
  }

  /** Twice as many steps move twice as far, up to an odd factor. */
  lemma {:induction false} Doubling(m: nat, x: int)
    ensures Steps(2 * m, x) - x == 2 * (((Factor(m) + 1) / 2) * (Steps(m, x) - x))
    ensures ((Factor(m) + 1) / 2) % 2 == 1
  {
    hide Steps, Factor;
    StepsCompose(m, m, x);
    assert m + m == 2 * m;
    StepsAffine(m, Steps(m, x), x);
    FactorMod4(m);
    TwiceOdd(Factor(m), Steps(m, x) - x);
  }

  lemma {:induction false} TwiceOdd(f: int, d: int)
    requires f % 4 == 1
    ensures f * d + d == 2 * (((f + 1) / 2) * d)
    ensures ((f + 1) / 2) % 2 == 1
  {
    var g := f / 4;
    assert f == 4 * g + 1 && (f + 1) / 2 == 2 * g + 1;
    Multiples(g, d);
  }

  lemma Multiples(g: int, d: int)
    ensures (4 * g + 1) * d == 4 * (g * d) + d && (2 * g + 1) * d == 2 * (g * d) + d
  {}

  /** The generator is back after n steps, modulo 2^k, exactly when 2^k divides n. */
  lemma {:induction false} PeriodModulo(k: nat, n: nat, x: int)
    ensures Divides(k, Steps(n, x) - x) <==> Divides(k, n)
  {
    hide Steps, Factor;
    if k > 0 {
      StepsParity(n, x);
      if n % 2 == 0 {
        var m := n / 2;
        Doubling(m, x);
        var o, d := (Factor(m) + 1) / 2, Steps(m, x) - x;
        OddFactor(k - 1, o, d);
        PeriodModulo(k - 1, m, x);
        assert (2 * (o * d)) / 2 == o * d;
      }
    }
  }

  // ---------------------------------------------------------------- the generator itself

  function Iterate(n: nat, s: nat): nat { if n == 0 then s else Next(Iterate(n - 1, s)) }

  lemma {:induction false} StepMod(x: nat)
    ensures (MULTIPLIER * (x % WORDS) + INCREMENT) % WORDS == (MULTIPLIER * x + INCREMENT) % WORDS
  {
    var q, r := x / WORDS, x % WORDS;
    assert MULTIPLIER * x + INCREMENT == MULTIPLIER * r + INCREMENT + WORDS * (MULTIPLIER * q);
    Shifted(MULTIPLIER * r + INCREMENT, MULTIPLIER * q);
  }

  lemma {:induction false} StepsPositive(n: nat, s: nat)
    ensures Steps(n, s) >= s
  {
    if n > 0 { StepsPositive(n - 1, s); }
  }

  lemma {:induction false} IterateIsSteps(n: nat, s: nat)
    requires s < WORDS
    ensures Iterate(n, s) == Steps(n, s) % WORDS
  {
    hide Next;
    if n > 0 {
      IterateIsSteps(n - 1, s);
      NextIsAffine(Iterate(n - 1, s));
      StepsPositive(n - 1, s);
      StepMod(Steps(n - 1, s));
    }
  }

  lemma {:induction false} PowerIsWords()
    ensures Power(32) == WORDS
  {
    assert Power(8) == 256;
    PowerDoubles(8, 8);
    PowerDoubles(16, 16);
  }

  lemma SameResidue(x: int, s: nat)
    requires s < WORDS
    ensures x % WORDS == s <==> (x - s) % WORDS == 0
  {}

  /** Full period: a state comes back after exactly the multiples of 2^32 steps. */
  lemma {:induction false} FullPeriod(n: nat, s: nat)
    requires s < WORDS
    ensures Iterate(n, s) == s <==> n % WORDS == 0
  {
    hide Iterate, Steps, Divides, Power;
    IterateIsSteps(n, s);
    PowerIsWords();
    PeriodModulo(32, n, s);
    DividesIsMod(32, n);
    DividesIsMod(32, Steps(n, s) - s);
    SameResidue(Steps(n, s), s);
  }

  lemma {:induction false} IterateCompose(m: nat, n: nat, s: nat)
    ensures Iterate(m + n, s) == Iterate(m, Iterate(n, s))
  {
    hide Next;
    if m > 0 { IterateCompose(m - 1, n, s); }
  }

  lemma IterateBelow(n: nat, s: nat)
    requires s < WORDS
    ensures Iterate(n, s) < WORDS
  {}

  /** So no state repeats within 2^32 draws. */
  lemma {:induction false} NoRepetition(i: nat, j: nat, s: nat)
    requires s < WORDS && i < j < i + WORDS
    ensures Iterate(i, s) != Iterate(j, s)
  {
    hide Iterate;
    IterateBelow(i, s);
    IterateCompose(j - i, i, s);
    FullPeriod(j - i, Iterate(i, s));
  }

  /** And the generator is a bijection: every state has exactly one predecessor. */
  lemma {:induction false} Predecessor(s: nat, t: nat)
    requires s < WORDS && t < WORDS
    ensures Next(t) == s <==> t == Iterate(WORDS - 1, s)
  {
    hide Next;
    FullPeriod(WORDS, s);
    FullPeriod(WORDS, t);
    IterateCompose(1, WORDS - 1, s);
    IterateCompose(WORDS - 1, 1, t);
    assert Iterate(1, t) == Next(Iterate(0, t));
    assert Iterate(1, Iterate(WORDS - 1, s)) == Next(Iterate(0, Iterate(WORDS - 1, s)));
  }

  // ---------------------------------------------------------------- the pool of workers

  const SEED: nat := 0x6d2b79f5

  datatype Worker = Ready | Reading(ordinal: nat) | Returned

  /** `claimed` lists the documents asked for, `outcomes` whether each finished read was good. */
  datatype Pool = Pool(
    nextRead: nat, state: nat, workers: seq<Worker>, failures: nat, claimed: seq<nat>, outcomes: seq<bool>)

  function Start(workers: nat): Pool { Pool(0, SEED, seq(workers, i => Ready), 0, [], []) }

  /** A worker runs up to its next request or its return, or the answer to its request arrives. */
  datatype Action = Claim(worker: nat) | Answer(worker: nat, good: bool)

  predicate Enabled(p: Pool, a: Action) {
    a.worker < |p.workers| && (if a.Claim? then p.workers[a.worker].Ready? else p.workers[a.worker].Reading?)
  }

  function Act(wanted: nat, documents: nat, p: Pool, a: Action): Pool
    requires documents > 0 && Enabled(p, a)
  {
    match a
    case Claim(w) =>
      var read := p.nextRead;
      if read >= wanted then p.(nextRead := read + 1, workers := p.workers[w := Returned])
      else
        var state := Next(p.state);
        p.(nextRead := read + 1, state := state, workers := p.workers[w := Reading(state % documents)],
           claimed := p.claimed + [state % documents])
    case Answer(w, good) =>
      p.(workers := p.workers[w := Ready], outcomes := p.outcomes + [good],
         failures := p.failures + if good then 0 else 1)
  }

  function Sum(ws: seq<Worker>, f: Worker -> nat): nat { if ws == [] then 0 else f(ws[0]) + Sum(ws[1..], f) }

  function IsReading(w: Worker): nat { if w.Reading? then 1 else 0 }

  function IsReturned(w: Worker): nat { if w.Returned? then 1 else 0 }

  lemma {:induction false} SumUpdate(ws: seq<Worker>, i: nat, w: Worker, f: Worker -> nat)
    requires i < |ws|
    ensures Sum(ws[i := w], f) == Sum(ws, f) - f(ws[i]) + f(w)
  {
    if i > 0 {
      SumUpdate(ws[1..], i - 1, w, f);
      assert ws[i := w][1..] == ws[1..][i - 1 := w];
    } else {
      assert ws[i := w][1..] == ws[1..];
    }
  }

  lemma {:induction false} SumAll(ws: seq<Worker>, f: Worker -> nat, n: nat)
    requires forall i :: 0 <= i < |ws| ==> f(ws[i]) == n
    ensures n == 0 ==> Sum(ws, f) == 0
    ensures n == 1 ==> Sum(ws, f) == |ws|
  {
    if ws != [] { SumAll(ws[1..], f, n); }
  }

  function Bad(outcomes: seq<bool>): nat {
    if outcomes == [] then 0 else Bad(outcomes[..|outcomes| - 1]) + if outcomes[|outcomes| - 1] then 0 else 1
  }

  ghost predicate Valid(wanted: nat, documents: nat, p: Pool)
    requires documents > 0
  {
    && |p.claimed| == (if p.nextRead < wanted then p.nextRead else wanted)
    && p.nextRead == |p.claimed| + Sum(p.workers, IsReturned)
    && |p.claimed| == |p.outcomes| + Sum(p.workers, IsReading)
    && p.failures == Bad(p.outcomes)
    && p.state == Iterate(|p.claimed|, SEED)
    && (forall k :: 0 <= k < |p.claimed| ==> p.claimed[k] == Iterate(k + 1, SEED) % documents)
  }

  lemma {:induction false} ActValid(wanted: nat, documents: nat, p: Pool, a: Action)
    requires documents > 0 && Valid(wanted, documents, p) && Enabled(p, a)
    ensures Valid(wanted, documents, Act(wanted, documents, p, a))
  {
    hide Next, Sum;
    var q := Act(wanted, documents, p, a);
    SumUpdate(p.workers, a.worker, q.workers[a.worker], IsReading);
    SumUpdate(p.workers, a.worker, q.workers[a.worker], IsReturned);
    assert q.workers == p.workers[a.worker := q.workers[a.worker]];
    if a.Answer? { assert q.outcomes[..|q.outcomes| - 1] == p.outcomes; }
  }

  predicate Possible(wanted: nat, documents: nat, p: Pool, actions: seq<Action>)
    requires documents > 0
    decreases |actions|
  {
    actions != [] ==>
      Enabled(p, actions[0]) && Possible(wanted, documents, Act(wanted, documents, p, actions[0]), actions[1..])
  }

  function Run(wanted: nat, documents: nat, p: Pool, actions: seq<Action>): Pool
    requires documents > 0 && Possible(wanted, documents, p, actions)
    decreases |actions|
  {
    if actions == [] then p else Run(wanted, documents, Act(wanted, documents, p, actions[0]), actions[1..])
  }

  lemma {:induction false} RunValid(wanted: nat, documents: nat, p: Pool, actions: seq<Action>)
    requires documents > 0 && Valid(wanted, documents, p) && Possible(wanted, documents, p, actions)
    ensures Valid(wanted, documents, Run(wanted, documents, p, actions))
    ensures |Run(wanted, documents, p, actions).workers| == |p.workers|
    decreases |actions|
  {
    hide Valid;
    if actions != [] {
      ActValid(wanted, documents, p, actions[0]);
      RunValid(wanted, documents, Act(wanted, documents, p, actions[0]), actions[1..]);
    }
  }

  lemma {:induction false} StartValid(wanted: nat, documents: nat, workers: nat)
    requires documents > 0
    ensures Valid(wanted, documents, Start(workers))
  {
    SumAll(Start(workers).workers, IsReading, 0);
    SumAll(Start(workers).workers, IsReturned, 0);
  }

  predicate AllReturned(p: Pool) { forall w :: 0 <= w < |p.workers| ==> p.workers[w].Returned? }

  /**
   * However the workers interleave: once all have returned, exactly the wanted number of reads was made and
   * answered, the n-th of them for the n-th output of the generator, and each bad one was counted. Without
   * workers nothing is read and nothing fails.
   */
  lemma {:induction false} PoolReads(wanted: nat, documents: nat, workers: nat, actions: seq<Action>)
    requires documents > 0 && Possible(wanted, documents, Start(workers), actions)
    requires AllReturned(Run(wanted, documents, Start(workers), actions))
    ensures var p := Run(wanted, documents, Start(workers), actions);
      && |p.claimed| == |p.outcomes| == (if workers > 0 then wanted else 0)
      && (forall n :: 0 <= n < |p.claimed| ==> p.claimed[n] == Iterate(n + 1, SEED) % documents)
      && p.failures == Bad(p.outcomes)
  {
    hide Run, Possible, Start, Iterate;
    StartValid(wanted, documents, workers);
    RunValid(wanted, documents, Start(workers), actions);
    var p := Run(wanted, documents, Start(workers), actions);
    assert |p.workers| == workers by { StartSize(workers); }
    SumAll(p.workers, IsReading, 0);
    SumAll(p.workers, IsReturned, 1);
    if workers == 0 { NoWorkers(wanted, documents, actions); }
  }

  lemma {:induction false} NoWorkers(wanted: nat, documents: nat, actions: seq<Action>)
    requires documents > 0 && Possible(wanted, documents, Start(0), actions)
    ensures Run(wanted, documents, Start(0), actions) == Start(0) && Start(0).claimed == [] && Start(0).outcomes == []
  {
    StartSize(0);
  }

  lemma StartSize(workers: nat)
    ensures |Start(workers).workers| == workers
  {}
}
