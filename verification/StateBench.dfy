/** core_init_state and core_bench_state: the block, its corruption, and the scans over it. */
module StateBench {
  import opened ScanGrammar
  import opened Scanner
  import opened Modulus
  import Crc16

  type Block = seq<bv8>

  // ----- stepping through the block

  /** Between two stops of the stepping loop there is no multiple of the step. */
  lemma NextStop(p: nat, step: nat, i: nat)
    requires step > 0 && p % step == 0 && p <= i <= p + step
    ensures i % step == if i < p + step then i - p else 0
  {
    ModAdd(p, i - p, step);
  }

  // ----- corruption

  function Smudge(b: bv8, seed: bv8): bv8 { if b != 0x2C then b ^ seed else b }

  function Corrupted(b: Block, seed: bv8, step: nat): (r: Block)
    requires step > 0
    ensures |r| == |b|
    ensures forall i :: 0 <= i < |b| ==> r[i] == if i % step == 0 then Smudge(b[i], seed) else b[i]
  {
    seq(|b|, i requires 0 <= i < |b| => if i % step == 0 then Smudge(b[i], seed) else b[i])
  }

  /** The walk of the corrupting loop from p on. */
  function SmudgedFrom(b: Block, seed: bv8, step: nat, p: nat): (r: Block)
    requires step > 0
    ensures |r| == |b|
    decreases |b| - p
  {
    if p < |b| then SmudgedFrom(b[p := Smudge(b[p], seed)], seed, step, p + step) else b
  }

  /** The walk changes the bytes at its stops and no others. */
  lemma {:induction false} SmudgedAt(b: Block, seed: bv8, step: nat, p: nat, i: nat)
    requires step > 0 && p % step == 0 && i < |b|
    ensures SmudgedFrom(b, seed, step, p)[i] == if i >= p && i % step == 0 then Smudge(b[i], seed) else b[i]
    decreases |b| - p
  {
    if p < |b| {
      NextStop(p, step, p + step);
      if p <= i < p + step {
        NextStop(p, step, i);
      }
      SmudgedAt(b[p := Smudge(b[p], seed)], seed, step, p + step, i);
    }
  }

  lemma WalkCorrupts(b: Block, seed: bv8, step: nat)
    requires step > 0
    ensures SmudgedFrom(b, seed, step, 0) == Corrupted(b, seed, step)
  {
    forall i | 0 <= i < |b| ensures SmudgedFrom(b, seed, step, 0)[i] == Corrupted(b, seed, step)[i] {
      SmudgedAt(b, seed, step, 0, i);
    }
  }

  method CorruptByte(mem: array<bv8>, p: nat, seed: bv8)
    requires p < mem.Length
    modifies mem
    ensures mem[..] == old(mem[..])[p := Smudge(old(mem[p]), seed)]
  {
    if mem[p] != 0x2C {
      mem[p] := mem[p] ^ seed;
    }
  }

  /** The corrupting loop; the undoing loop is the same with the other seed. */
  method Corrupt(mem: array<bv8>, seed: bv8, step: nat)
    requires step > 0
    modifies mem
    ensures mem[..] == Corrupted(old(mem[..]), seed, step)
  {
    var p := 0;
    WalkCorrupts(mem[..], seed, step);
    while p < mem.Length
      invariant 0 <= p
      invariant SmudgedFrom(mem[..], seed, step, p) == SmudgedFrom(old(mem[..]), seed, step, 0)
    {
      CorruptByte(mem, p, seed);
      p := p + step;
    }
  }

  lemma XorTwice(b: bv8, s1: bv8, s2: bv8)
    ensures (b ^ s1) ^ s2 == b <==> s1 == s2
  {
  }

  lemma SmudgeTwice(b: bv8, s1: bv8, s2: bv8)
    ensures Smudge(Smudge(b, s1), s2) == b <==> b == 0x2C || (s1 == s2 && b ^ s1 != 0x2C)
  {
    var c := b ^ s1;
    if b != 0x2C && c != 0x2C {
      XorTwice(b, s1, s2);
      assert Smudge(b, s1) == c && Smudge(c, s2) == c ^ s2;
    }
  }

  /** When the second pass undoes the first, for any two seeds: only comma bytes are stepped on, or the
      seeds agree and no stepped byte was turned into a comma. */
  lemma UndoneIff(b: Block, s1: bv8, s2: bv8, step: nat)
    requires step > 0
    ensures Corrupted(Corrupted(b, s1, step), s2, step) == b <==>
      forall i :: 0 <= i < |b| && i % step == 0 ==> b[i] == 0x2C || (s1 == s2 && b[i] ^ s1 != 0x2C)
  {
    var c := Corrupted(Corrupted(b, s1, step), s2, step);
    forall i | 0 <= i < |b| && i % step == 0
      ensures c[i] == b[i] <==> b[i] == 0x2C || (s1 == s2 && b[i] ^ s1 != 0x2C)
    {
      SmudgeTwice(b[i], s1, s2);
    }
    if forall i :: 0 <= i < |b| && i % step == 0 ==> b[i] == 0x2C || (s1 == s2 && b[i] ^ s1 != 0x2C) {
      assert c == b;
    }
  }

  /** A byte the seed turns into a comma is not restored: '9' under seed 0x15. */
  lemma NineIsLost()
    ensures var b: Block := [0x39, 0]; Corrupted(Corrupted(b, 0x15, 2), 0x15, 2) == [0x2C, 0]
  {
    var b: Block := [0x39, 0];
    assert 0 % 2 == 0 && 1 % 2 == 1;
    assert Smudge(0x39, 0x15) == 0x2C && Smudge(0x2C, 0x15) == 0x2C;
    assert Corrupted(b, 0x15, 2) == [0x2C, 0];
  }

  // ----- the initial block

  /** No comma, no NUL, no '9' and no '$'. */
  predicate Ordinary(b: Block) {
    forall i :: 0 <= i < |b| ==> b[i] != 0x2C && b[i] != 0 && b[i] != 0x39 && b[i] != 0x24
  }

  const INTPAT: seq<Block> := [
    [0x35, 0x30, 0x31, 0x32] /* 5012 */,
    [0x31, 0x32, 0x33, 0x34] /* 1234 */,
    [0x2D, 0x38, 0x37, 0x34] /* -874 */,
    [0x2B, 0x31, 0x32, 0x32] /* +122 */
  ]
  const FLOATPAT: seq<Block> := [
    [0x33, 0x35, 0x2E, 0x35, 0x34, 0x34, 0x30, 0x30] /* 35.54400 */,
    [0x2E, 0x31, 0x32, 0x33, 0x34, 0x35, 0x30, 0x30] /* .1234500 */,
    [0x2D, 0x31, 0x31, 0x30, 0x2E, 0x37, 0x30, 0x30] /* -110.700 */,
    [0x2B, 0x30, 0x2E, 0x36, 0x34, 0x34, 0x30, 0x30] /* +0.64400 */
  ]
  const SCIPAT: seq<Block> := [
    [0x35, 0x2E, 0x35, 0x30, 0x30, 0x65, 0x2B, 0x33] /* 5.500e+3 */,
    [0x2D, 0x2E, 0x31, 0x32, 0x33, 0x65, 0x2D, 0x32] /* -.123e-2 */,
    [0x2D, 0x38, 0x37, 0x65, 0x2B, 0x38, 0x33, 0x32] /* -87e+832 */,
    [0x2B, 0x30, 0x2E, 0x36, 0x65, 0x2D, 0x31, 0x32] /* +0.6e-12 */
  ]
  const ERRPAT: seq<Block> := [
    [0x54, 0x30, 0x2E, 0x33, 0x65, 0x2D, 0x31, 0x46] /* T0.3e-1F */,
    [0x2D, 0x54, 0x2E, 0x54, 0x2B, 0x2B, 0x54, 0x71] /* -T.T++Tq */,
    [0x31, 0x54, 0x33, 0x2E, 0x34, 0x65, 0x34, 0x7A] /* 1T3.4e4z */,
    [0x33, 0x34, 0x2E, 0x30, 0x65, 0x2D, 0x54, 0x5E] /* 34.0e-T^ */
  ]

  /** The text core_init_state picks for a seed, by its low five bits. */
  function Pattern(seed: nat): (r: Block)
    ensures Ordinary(r) && |r| == if seed % 8 < 3 then 4 else 8
  {
    var k := seed / 8 % 4;
    if seed % 8 < 3 then INTPAT[k]
    else if seed % 8 < 5 then FLOATPAT[k]
    else if seed % 8 < 7 then SCIPAT[k]
    else ERRPAT[k]
  }

  /** The seed after k increments, in 16 bits. */
  function Advance(seed: nat, k: nat): nat { (seed + k) % 0x10000 }

  /** The first n texts of a table after a seed, a comma behind each. */
  function Joined(table: nat -> Block, seed: nat, n: nat): Block {
    if n == 0 then [] else Joined(table, seed, n - 1) + table(Advance(seed, n)) + [0x2C]
  }

  function Zeros(n: nat): (r: Block)
    ensures |r| == n && forall i :: 0 <= i < n ==> r[i] == 0
  {
    seq(n, i => 0)
  }

  /** As many texts as leave two zero bytes, and zeros behind them. */
  ghost predicate Filled(b: Block, table: nat -> Block, seed: nat, n: nat) {
    var front := Joined(table, seed, n);
    && |front| <= |b| && b == front + Zeros(|b| - |front|)
    && (n > 0 || |b| >= 2 ==> |front| + 2 <= |b|)
    && |b| < |Joined(table, seed, n + 1)| + 2
  }

  ghost predicate Initial(b: Block, seed: nat, n: nat) { Filled(b, Pattern, seed, n) }

  /** One turn of the filling loop: the text of the next seed and its comma. */
  method WritePattern(mem: array<bv8>, total: nat, buf: Block, ghost table: nat -> Block, ghost seed0: nat, ghost n: nat)
    requires total + |buf| < mem.Length && mem[..total] == Joined(table, seed0, n)
    requires buf == table(Advance(seed0, n + 1))
    modifies mem
    ensures mem[..total + |buf| + 1] == Joined(table, seed0, n + 1)
  {
    ghost var front := mem[..total];
    for i := 0 to |buf|
      invariant mem[..total + i] == front + buf[..i]
    {
      mem[total + i] := buf[i];
      assert mem[..total + i + 1] == mem[..total + i] + [buf[i]];
    }
    mem[total + |buf|] := 0x2C;
    assert mem[..total + |buf| + 1] == mem[..total + |buf|] + [0x2C];
    assert buf[..|buf|] == buf;
  }

  method FillZeros(mem: array<bv8>, total0: nat)
    requires total0 <= mem.Length
    modifies mem
    ensures mem[..] == old(mem[..total0]) + Zeros(mem.Length - total0)
  {
    var total := total0;
    while total < mem.Length
      invariant total0 <= total <= mem.Length
      invariant mem[..total0] == old(mem[..total0])
      invariant forall i :: total0 <= i < total ==> mem[i] == 0
    {
      mem[total] := 0;
      total := total + 1;
    }
  }

  lemma NextSeed(seed: nat, k: nat)
    ensures (Advance(seed, k) + 1) % 0x10000 == Advance(seed, k + 1)
  {
  }

  lemma FilledUp(b: Block, front: Block, table: nat -> Block, seed: nat, n: nat)
    requires front == Joined(table, seed, n) && |front| <= |b| && b == front + Zeros(|b| - |front|)
    requires n > 0 || |b| >= 2 ==> |front| + 2 <= |b|
    requires |b| <= |front| + |table(Advance(seed, n + 1))| + 2
    ensures Filled(b, table, seed, n)
  {
  }

  /** The loops of core_init_state, for any table of nonempty texts. */
  method Fill(mem: array<bv8>, seed0: nat, table: nat -> Block) returns (ghost n: nat)
    requires mem.Length >= 1 && forall s :: |table(s)| > 0
    modifies mem
    ensures Filled(mem[..], table, seed0, n)
  {
    var size, total, next, buf, seed := mem.Length - 1, 0, 0, [], Advance(seed0, 0);
    n := 0;
    ghost var ahead: nat := 0;
    while total + next + 1 < size
      invariant total <= mem.Length && mem[..total] == Joined(table, seed0, n)
      invariant n > 0 ==> total + 2 <= mem.Length
      invariant next == |buf| && seed == Advance(seed0, ahead)
      invariant next == 0 ==> n == 0 && ahead == 0
      invariant next > 0 ==> ahead == n + 1 && buf == table(seed)
      decreases size - total, if next == 0 then 1 else 0
    {
      if next > 0 {
        WritePattern(mem, total, buf, table, seed0, n);
        total := total + next + 1;
        n := n + 1;
      }
      NextSeed(seed0, ahead);
      ahead := ahead + 1;
      seed := (seed + 1) % 0x10000;
      buf := table(seed);
      next := |buf|;
    }
    ghost var front := mem[..total];
    FillZeros(mem, total);
    FilledUp(mem[..], front, table, seed0, n);
  }

  /** core_init_state. */
  method InitState(mem: array<bv8>, seed: nat) returns (ghost n: nat)
    requires mem.Length >= 1
    modifies mem
    ensures Initial(mem[..], seed, n)
  {
    n := Fill(mem, seed, Pattern);
  }

  // ----- what corruption leaves of the initial block

  lemma {:induction false} JoinedBytes(table: nat -> Block, seed: nat, n: nat, i: nat)
    requires i < |Joined(table, seed, n)| && forall s :: Ordinary(table(s))
    ensures var b := Joined(table, seed, n)[i]; b == 0x2C || (b != 0 && b != 0x39 && b != 0x24)
  {
    var s := table(Advance(seed, n));
    var m := |Joined(table, seed, n - 1)|;
    if i < m {
      JoinedBytes(table, seed, n - 1, i);
    } else if i < m + |s| {
      assert Joined(table, seed, n)[i] == s[i - m];
    }
  }

  /** Every seed shipped with the benchmark (low bytes 0, 0x15 and 8) undoes its corruption, for every
      block core_init_state makes and every step. */
  lemma ShippedSeedsUndo(b: Block, seed0: nat, n: nat, s: bv8, step: nat)
    requires Initial(b, seed0, n) && step > 0
    requires s == 0 || s == 0x15 || s == 8
    ensures Corrupted(Corrupted(b, s, step), s, step) == b
  {
    forall i | 0 <= i < |b| && i % step == 0 ensures b[i] == 0x2C || b[i] ^ s != 0x2C {
      if i < |Joined(Pattern, seed0, n)| {
        JoinedBytes(Pattern, seed0, n, i);
      }
      CommaMakers(b[i]);
    }
    UndoneIff(b, s, s, step);
  }

  lemma CommaMakers(b: bv8)
    ensures b ^ 0 == 0x2C <==> b == 0x2C
    ensures b ^ 0x15 == 0x2C <==> b == 0x39
    ensures b ^ 8 == 0x2C <==> b == 0x24
  {
  }

  ghost predicate HasNul(b: Block) { exists z: nat :: EndsAt(Text(b), z) }

  lemma {:induction false} FirstNul(t: seq<Symbol>, i: nat)
    requires i < |t| && t[i] == Nul
    ensures exists z: nat :: z <= i && EndsAt(t, z)
    decreases i
  {
    if j: nat :| j < i && t[j] == Nul {
      FirstNul(t, j);
    } else {
      assert EndsAt(t, i);
    }
  }

  lemma NulAt(b: Block, i: nat)
    requires i < |b| && b[i] == 0
    ensures HasNul(b)
  {
    FirstNul(Text(b), i);
  }

  lemma FilledEnds(b: Block, table: nat -> Block, seed: nat, n: nat)
    requires Filled(b, table, seed, n) && |b| >= 2
    ensures b[|b| - 1] == 0 && b[|b| - 2] == 0
  {
  }

  /** Corruption with a step of at least two misses one of two neighbouring zero bytes. */
  lemma OneSurvives(b: Block, s: bv8, step: nat)
    requires |b| >= 2 && b[|b| - 1] == 0 && b[|b| - 2] == 0 && step >= 2
    ensures HasNul(Corrupted(b, s, step))
  {
    var c := Corrupted(b, s, step);
    if (|b| - 2) % step == 0 {
      NextStop(|b| - 2, step, |b| - 1);
      NulAt(c, |b| - 1);
    } else {
      NulAt(c, |b| - 2);
    }
  }

  /** Both scans of an initial block end inside it: corruption with a step of at least two misses one of
      the two zero bytes at the end, whatever the seeds. */
  lemma ScansStayInside(b: Block, seed0: nat, n: nat, s: bv8, step: nat)
    requires Initial(b, seed0, n) && |b| >= 2 && step >= 2
    ensures HasNul(b) && HasNul(Corrupted(b, s, step))
  {
    FilledEnds(b, Pattern, seed0, n);
    NulAt(b, |b| - 1);
    OneSurvives(b, s, step);
  }

  /** With a step of one, the seed can leave no NUL: the second scan runs out of the block. */
  lemma StepOneRunsOut()
    ensures Initial([0, 0], 0, 0) && !HasNul(Corrupted([0, 0], 1, 1))
  {
    var c := Corrupted([0, 0], 1, 1);
    assert Joined(Pattern, 0, 0) == [];
    assert |Joined(Pattern, 0, 1)| == 5;
    assert 0 % 1 == 0 && 1 % 1 == 0;
    assert c[0] == 1 && c[1] == 1;
  }

  // ----- call after call on the same block

  /** The block after one call of core_bench_state. */
  function After(b: Block, s1: bv8, s2: bv8, step: nat): (r: Block)
    requires step > 0
    ensures |r| == |b|
  {
    Corrupted(Corrupted(b, s1, step), s2, step)
  }

  predicate Positive(steps: seq<nat>) { forall i :: 0 <= i < |steps| ==> steps[i] > 0 }

  /** The block after a call for every step. */
  function AfterAll(b: Block, s1: bv8, s2: bv8, steps: seq<nat>): (r: Block)
    requires Positive(steps)
    ensures |r| == |b|
  {
    if steps == [] then b else After(AfterAll(b, s1, s2, steps[..|steps| - 1]), s1, s2, steps[|steps| - 1])
  }

  /** Both scans of a call end inside the block. */
  ghost predicate CallInside(b: Block, s1: bv8, step: nat)
    requires step > 0
  {
    HasNul(b) && HasNul(Corrupted(b, s1, step))
  }

  /** So do those of every call of a sequence. */
  ghost predicate AllInside(b: Block, s1: bv8, s2: bv8, steps: seq<nat>)
    requires Positive(steps)
  {
    forall i :: 0 <= i < |steps| ==> CallInside(AfterAll(b, s1, s2, steps[..i]), s1, steps[i])
  }

  /** A byte that no step divides is never touched. */
  lemma {:induction false} NeverTouched(b: Block, s1: bv8, s2: bv8, steps: seq<nat>, e: nat)
    requires Positive(steps) && e < |b| && forall i :: 0 <= i < |steps| ==> e % steps[i] != 0
    ensures AfterAll(b, s1, s2, steps)[e] == b[e]
    decreases |steps|
  {
    if steps != [] {
      NeverTouched(b, s1, s2, steps[..|steps| - 1], e);
    }
  }

  lemma CommonDivisor(e: nat, step: nat, g: nat)
    requires step > 0 && g > 0 && step % g == 0 && e % g != 0
    ensures e % step != 0
  {
    ModOfMultiple(e, step, g);
  }

  /** One of two neighbouring positions is not divisible by g. */
  lemma OffGrid(n: nat, g: nat) returns (e: nat)
    requires n >= 2 && g >= 2
    ensures n - 2 <= e < n && e % g != 0
  {
    e := n - 2;
    if e % g == 0 {
      NextStop(n - 2, g, n - 1);
      e := n - 1;
    }
  }

  /** Steps that share a divisor of at least two: any number of calls with any seeds, equal or not, stays
      inside any initial block. */
  lemma GridStaysInside(b: Block, seed0: nat, n: nat, s1: bv8, s2: bv8, steps: seq<nat>, g: nat)
    requires Initial(b, seed0, n) && |b| >= 2 && g >= 2 && Positive(steps)
    requires forall i :: 0 <= i < |steps| ==> steps[i] % g == 0
    ensures AllInside(b, s1, s2, steps)
  {
    FilledEnds(b, Pattern, seed0, n);
    var e := OffGrid(|b|, g);
    forall i | 0 <= i < |steps| ensures e % steps[i] != 0 {
      CommonDivisor(e, steps[i], g);
    }
    forall i | 0 <= i < |steps| ensures CallInside(AfterAll(b, s1, s2, steps[..i]), s1, steps[i]) {
      NeverTouched(b, s1, s2, steps[..i], e);
      NulAt(AfterAll(b, s1, s2, steps[..i]), e);
      NulAt(Corrupted(AfterAll(b, s1, s2, steps[..i]), s1, steps[i]), e);
    }
  }

  /** The step calc_func makes of the four type bits k of a word: k in both nibbles, and at least 0x22. */
  function CalcStep(k: nat): (step: nat)
    requires k < 16
    ensures step % 17 == 0 && step >= 0x22
    ensures if k < 2 then step == 0x22 else step / 16 == k && step % 16 == k
  {
    if 16 * k + k < 0x22 then 0x22 else 16 * k + k
  }

  /** So as calc_func calls it, core_bench_state never leaves its block, for any seeds and any history. */
  lemma CalcStaysInside(b: Block, seed0: nat, n: nat, s1: bv8, s2: bv8, types: seq<nat>, steps: seq<nat>)
    requires Initial(b, seed0, n) && |b| >= 2 && |steps| == |types|
    requires forall i :: 0 <= i < |types| ==> types[i] < 16 && steps[i] == CalcStep(types[i])
    ensures Positive(steps) && AllInside(b, s1, s2, steps)
  {
    GridStaysInside(b, seed0, n, s1, s2, steps, 17);
  }

  predicate ZeroEnds(b: Block) { |b| >= 2 && b[|b| - 1] == 0 && b[|b| - 2] == 0 }

  lemma ZeroSmudged(s: bv8)
    requires s != 0x2C
    ensures Smudge(Smudge(0, s), s) == 0
  {
    SmudgeTwice(0, s, s);
  }

  /** Equal seeds whose low byte is not a comma bring both zero bytes back after every call. */
  lemma {:induction false} EndsReturn(b: Block, s: bv8, steps: seq<nat>)
    requires ZeroEnds(b) && s != 0x2C && Positive(steps)
    ensures ZeroEnds(AfterAll(b, s, s, steps))
    decreases |steps|
  {
    if steps != [] {
      EndsReturn(b, s, steps[..|steps| - 1]);
      ReturnOnce(AfterAll(b, s, s, steps[..|steps| - 1]), s, steps[|steps| - 1]);
    }
  }

  lemma ZeroReturns(b: Block, s: bv8, step: nat, i: nat)
    requires step > 0 && s != 0x2C && i < |b| && b[i] == 0
    ensures After(b, s, s, step)[i] == 0
  {
    ZeroSmudged(s);
  }

  lemma ReturnOnce(b: Block, s: bv8, step: nat)
    requires step > 0 && s != 0x2C && ZeroEnds(b)
    ensures ZeroEnds(After(b, s, s, step))
  {
    ZeroReturns(b, s, step, |b| - 1);
    ZeroReturns(b, s, step, |b| - 2);
  }

  lemma EndsInside(b: Block, s: bv8, step: nat)
    requires ZeroEnds(b) && step >= 2
    ensures CallInside(b, s, step)
  {
    NulAt(b, |b| - 1);
    OneSurvives(b, s, step);
  }

  /** Equal seeds, any steps of at least two, any number of calls, any initial block. */
  ghost predicate AlwaysInside(s: bv8) {
    forall b: Block, seed0: nat, n: nat, steps: seq<nat> ::
      Initial(b, seed0, n) && |b| >= 2 && (forall i :: 0 <= i < |steps| ==> steps[i] >= 2) && Positive(steps)
      ==> AllInside(b, s, s, steps)
  }

  lemma EqualSeedsInside(b: Block, seed0: nat, n: nat, s: bv8, steps: seq<nat>)
    requires Initial(b, seed0, n) && |b| >= 2 && s != 0x2C && Positive(steps)
    requires forall i :: 0 <= i < |steps| ==> steps[i] >= 2
    ensures AllInside(b, s, s, steps)
  {
    FilledEnds(b, Pattern, seed0, n);
    forall i | 0 <= i < |steps| ensures CallInside(AfterAll(b, s, s, steps[..i]), s, steps[i]) {
      EndsReturn(b, s, steps[..i]);
      EndsInside(AfterAll(b, s, s, steps[..i]), s, steps[i]);
    }
  }

  /** A block of seven bytes: one pattern, its comma and two zeros. */
  const SEVEN: Block := [0x35, 0x30, 0x31, 0x32, 0x2C, 0, 0]

  lemma SevenIsInitial()
    ensures Initial(SEVEN, 0x20, 1)
  {
    assert Advance(0x20, 1) == 0x21 && Pattern(0x21) == INTPAT[0];
    assert Joined(Pattern, 0x20, 0) == [];
    assert Joined(Pattern, 0x20, 1) == [0x35, 0x30, 0x31, 0x32, 0x2C];
    assert |Joined(Pattern, 0x20, 2)| >= 10;
  }

  lemma SevenOnce()
    ensures After(SEVEN, 0x2C, 0x2C, 5) == [0x35, 0x30, 0x31, 0x32, 0x2C, 0x2C, 0]
  {
    assert Smudge(Smudge(0x35, 0x2C), 0x2C) == 0x35 && Smudge(Smudge(0, 0x2C), 0x2C) == 0x2C;
    assert 0 % 5 == 0 && 1 % 5 == 1 && 2 % 5 == 2 && 3 % 5 == 3 && 4 % 5 == 4 && 5 % 5 == 0 && 6 % 5 == 1;
  }

  lemma SevenTwice()
    ensures Corrupted([0x35, 0x30, 0x31, 0x32, 0x2C, 0x2C, 0], 0x2C, 6) == [0x19, 0x30, 0x31, 0x32, 0x2C, 0x2C, 0x2C]
  {
    assert Smudge(0x35, 0x2C) == 0x19 && Smudge(0, 0x2C) == 0x2C;
    assert 0 % 6 == 0 && 1 % 6 == 1 && 2 % 6 == 2 && 3 % 6 == 3 && 4 % 6 == 4 && 5 % 6 == 5 && 6 % 6 == 0;
  }

  /** With the comma as low byte a stepped zero becomes a comma for good, and two calls use up both. */
  lemma CommaSeedRunsOut()
    ensures Initial(SEVEN, 0x20, 1) && !AllInside(SEVEN, 0x2C, 0x2C, [5, 6])
  {
    SevenIsInitial();
    var steps: seq<nat> := [5, 6];
    assert steps[..1] == [5];
    OneCall(SEVEN, 0x2C, 0x2C, 5);
    SevenRunsOut(AfterAll(SEVEN, 0x2C, 0x2C, steps[..1]));
    assert !CallInside(AfterAll(SEVEN, 0x2C, 0x2C, steps[..1]), 0x2C, steps[1]);
  }

  lemma OneCall(b: Block, s1: bv8, s2: bv8, step: nat)
    requires step > 0
    ensures AfterAll(b, s1, s2, [step]) == After(b, s1, s2, step)
  {
    var steps := [step];
    assert steps[..|steps| - 1] == [];
    assert AfterAll(b, s1, s2, []) == b;
  }

  lemma NoNul(b: Block)
    requires forall i :: 0 <= i < |b| ==> b[i] != 0
    ensures !HasNul(b)
  {
    assert forall z: nat :: z < |b| ==> Text(b)[z] != Nul;
  }

  lemma SevenRunsOut(b: Block)
    requires b == After(SEVEN, 0x2C, 0x2C, 5)
    ensures !HasNul(Corrupted(b, 0x2C, 6))
  {
    SevenOnce();
    SevenTwice();
    NoNul(Corrupted(b, 0x2C, 6));
  }

  /** Which equal seeds are safe whatever the steps: all but those with a comma for their low byte. */
  lemma AlwaysInsideIff(s: bv8)
    ensures AlwaysInside(s) <==> s != 0x2C
  {
    if s != 0x2C {
      forall b: Block, seed0: nat, n: nat, steps: seq<nat>
        | Initial(b, seed0, n) && |b| >= 2 && (forall i :: 0 <= i < |steps| ==> steps[i] >= 2) && Positive(steps)
        ensures AllInside(b, s, s, steps)
      {
        EqualSeedsInside(b, seed0, n, s, steps);
      }
    } else {
      CommaSeedRunsOut();
      var steps: seq<nat> := [5, 6];
      assert Positive(steps) && forall i :: 0 <= i < |steps| ==> steps[i] >= 2;
    }
  }

  // ----- core_bench_state

  const ORDER: seq<Mode> := [START, INVALID, S1, S2, INT, FLOAT, EXPONENT, SCIENTIFIC]

  /** The message the checksum covers: the counters of the first n modes, 32 bits each. */
  function Counters(final: Counts, track: Counts, n: nat): seq<bool>
    requires Total(final) && Total(track) && n <= 8
  {
    if n == 0 then []
    else Counters(final, track, n - 1) + Crc16.BitsOf(final[ORDER[n - 1]], 32) + Crc16.BitsOf(track[ORDER[n - 1]], 32)
  }

  /** The two counters of one mode. */
  function Pair(final: Counts, track: Counts, m: Mode): seq<bool>
    requires Total(final) && Total(track)
  {
    Crc16.BitsOf(final[m], 32) + Crc16.BitsOf(track[m], 32)
  }

  /** The place of a mode in the enumeration of coremark.h. */
  function Number(m: Mode): nat {
    match m
    case START => 0
    case INVALID => 1
    case S1 => 2
    case S2 => 3
    case INT => 4
    case FLOAT => 5
    case EXPONENT => 6
    case SCIENTIFIC => 7
  }

  lemma {:induction false} CountersAt(final: Counts, track: Counts, n: nat, p: nat)
    requires Total(final) && Total(track) && p < n <= 8
    ensures |Counters(final, track, n)| == 64 * n && Counters(final, track, n)[64 * p..64 * p + 64] == Pair(final, track, ORDER[p])
    decreases n
  {
    var c, front := Counters(final, track, n), Counters(final, track, n - 1);
    assert c == front + Pair(final, track, ORDER[n - 1]);
    if p < n - 1 {
      CountersAt(final, track, n - 1, p);
      assert c[64 * p..64 * p + 64] == front[64 * p..64 * p + 64];
    } else {
      if n > 1 {
        CountersAt(final, track, n - 1, 0);
      }
      assert c[64 * p..64 * p + 64] == Pair(final, track, ORDER[p]);
    }
  }

  /** The modes are covered in the order of the enumeration, 64 bits each: first how many tokens ended in the mode, then
      how many transitions were booked on it. */
  lemma CountersInOrder(final: Counts, track: Counts, m: Mode)
    requires Total(final) && Total(track)
    ensures |Counters(final, track, 8)| == 512
    ensures Counters(final, track, 8)[64 * Number(m)..64 * Number(m) + 64] == Crc16.BitsOf(final[m], 32) + Crc16.BitsOf(track[m], 32)
  {
    CountersAt(final, track, 8, Number(m));
  }

  method Checksum(final: Counts, track: Counts, crc0: Crc16.Word) returns (crc: Crc16.Word)
    requires Total(final) && Total(track)
    ensures crc == Crc16.Register(Counters(final, track, 8), crc0)
  {
    crc := crc0;
    for i := 0 to 8
      invariant crc == Crc16.Register(Counters(final, track, i), crc0)
    {
      var f, t := Crc16.BitsOf(final[ORDER[i]], 32), Crc16.BitsOf(track[ORDER[i]], 32);
      Crc16.RegisterAppend(Counters(final, track, i), f, crc0);
      Crc16.RegisterAppend(Counters(final, track, i) + f, t, crc0);
      crc := Crc16.Crcu32(f, crc);
      crc := Crc16.Crcu32(t, crc);
    }
  }

  /** A scan of a block, its tokens and what it adds to the counters. */
  ghost predicate Scanned(b: Block, ks: seq<Token>, final0: Counts, track0: Counts, final: Counts, track: Counts) {
    && (exists z: nat :: EndsAt(Text(b), z) && Tiles(Text(b), ks, z))
    && Tracked(Text(b), track0, track, ks) && Tallied(final0, final, ks)
  }

  method BenchState(mem: array<bv8>, seed1: bv8, seed2: bv8, step: nat, crc0: Crc16.Word)
    returns (crc: Crc16.Word, ghost ks: seq<Token>, ghost ls: seq<Token>,
             ghost f1: Counts, ghost t1: Counts, final: Counts, track: Counts)
    requires step > 0 && HasNul(mem[..]) && HasNul(Corrupted(mem[..], seed1, step))
    modifies mem
    ensures Scanned(old(mem[..]), ks, Zero(), Zero(), f1, t1)
    ensures Scanned(Corrupted(old(mem[..]), seed1, step), ls, f1, t1, final, track)
    ensures mem[..] == Corrupted(Corrupted(old(mem[..]), seed1, step), seed2, step)
    ensures crc == Crc16.Register(Counters(final, track, 8), crc0)
  {
    ghost var z: nat :| EndsAt(Text(mem[..]), z);
    final, track, ks := Scan(Text(mem[..]), Zero(), Zero(), z);
    f1, t1 := final, track;
    Corrupt(mem, seed1, step);
    ghost var y: nat :| EndsAt(Text(mem[..]), y);
    final, track, ls := Scan(Text(mem[..]), final, track, y);
    Corrupt(mem, seed2, step);
    crc := Checksum(final, track, crc0);
  }
}
