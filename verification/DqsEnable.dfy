/** The search for a DQS-enable setting: VFIFO position, phase tap and delay tap. */
module DqsEnable {
  import opened Arith
  import opened Hardware
  import opened Sweep
  import opened Deskew

  /** A setting relative to a home VFIFO position. */
  datatype Pos = Pos(steps: int, phase: int, dtap: int)

  /** Phase taps from phase 0 at the home VFIFO position. */
  function Ticks(c: Config, p: Pos): int {
    Times(p.steps, c.dqsEnPhaseMax + 1) + p.phase
  }

  /** The delay in picoseconds that a setting stands for. */
  function Ps(c: Config, p: Pos): int {
    Times(Ticks(c, p), c.delayPerOpaTap) + Times(p.dtap, c.delayPerDqsEnTap)
  }

  /** One VFIFO position is as many phase taps as there are phases. */
  lemma PsIsProduct(c: Config, p: Pos)
    ensures Ps(c, p) ==
      ((c.dqsEnPhaseMax + 1) * p.steps + p.phase) * c.delayPerOpaTap + p.dtap * c.delayPerDqsEnTap
  {
    TimesIsProduct(p.steps, c.dqsEnPhaseMax + 1);
    TimesIsProduct(Ticks(c, p), c.delayPerOpaTap);
    TimesIsProduct(p.dtap, c.delayPerDqsEnTap);
  }

  lemma NextPhase(c: Config, p: Pos)
    ensures Ps(c, p.(phase := p.phase + 1)) == Ps(c, p) + c.delayPerOpaTap
  {
  }

  lemma NextStep(c: Config, p: Pos)
    ensures Ps(c, p.(steps := p.steps + 1)) == Ps(c, p.(phase := p.phase + c.dqsEnPhaseMax + 1))
  {
    assert Times(p.steps + 1, c.dqsEnPhaseMax + 1) == Times(p.steps, c.dqsEnPhaseMax + 1) + c.dqsEnPhaseMax + 1;
  }

  lemma NextTap(c: Config, p: Pos)
    ensures Ps(c, p.(dtap := p.dtap + 1)) == Ps(c, p) + c.delayPerDqsEnTap
  {
  }

  predicate AnyBit(c: Config, mem: Memory, t: nat, s: Settings) {
    exists i: nat | i < c.dqPerDqs :: Bit(mem, Read, t, s, i)
  }

  /** The e-th test from test number t on passes on some bit. */
  predicate Try(c: Config, mem: Memory, t: nat, e: nat, s: Settings) {
    AnyBit(c, mem, t + e, s)
  }

  datatype Search = Search(c: Config, mem: Memory, base: Settings, home: int) {
    function At(p: Pos): Settings
      requires c.vfifoSize > 0
    {
      base.(vfifo := Wrap(home + p.steps, c.vfifoSize), enPhase := p.phase, enDelay := p.dtap)
    }

    predicate Accepts(p: Pos)
      requires c.vfifoSize > 0
    {
      AnyBit(c, mem, 0, At(p))
    }

    /** The memory answers every enable setting always the same way. */
    ghost predicate Deterministic()
      requires c.vfifoSize > 0
    {
      forall t: nat, p: Pos :: AnyBit(c, mem, t, At(p)) == Accepts(p)
    }

  }

  /** The pointer that x increments (or, if x < 0, decrements) away from 0 lead to. */
  function Wrap(x: int, m: int): (r: int)
    requires m > 0
    ensures 0 <= r < m
    decreases if x < 0 then m - x else x
  {
    if x < 0 then Wrap(x + m, m) else if x < m then x else Wrap(x - m, m)
  }

  lemma {:induction false} WrapIsMod(x: int, m: int)
    requires m > 0
    ensures Wrap(x, m) == x % m
    decreases if x < 0 then m - x else x
  {
    if x < 0 {
      WrapIsMod(x + m, m);
      ModUnique(x, m, (x + m) / m - 1, (x + m) % m);
    } else if x < m {
      ModUnique(x, m, 0, x);
    } else {
      WrapIsMod(x - m, m);
      ModUnique(x, m, (x - m) / m + 1, (x - m) % m);
    }
  }

  lemma {:induction false} ModUnique(x: int, m: int, q: int, r: int)
    requires m > 0 && 0 <= r < m && x == q * m + r
    ensures x / m == q && x % m == r
  {
    var d := x / m - q;
    assert d * m == r - x % m;
    Cancel(d, 1, m);
    Cancel(-1, d, m);
  }

  /** A full turn changes nothing, and one more increment moves the pointer by one. */
  lemma {:induction false} WrapShift(x: int, m: int)
    requires m > 0
    ensures Wrap(x + m, m) == Wrap(x, m)
    ensures Wrap(x + 1, m) == NextPointer(Wrap(x, m), m)
    decreases if x < 0 then m - x else x
  {
    if x < 0 {
      WrapShift(x + m, m);
    } else if x >= m {
      WrapShift(x - m, m);
    }
  }

  /** The VFIFO pointer after v increments from `entry`. */
  predicate Tracks(c: Config, entry: int, v: nat, s: Settings)
    requires c.vfifoSize > 0
  {
    s.vfifo == Wrap(entry + v, c.vfifoSize)
  }

  /** Increments the VFIFO and the count of increments. */
  method IncrVfifo(g: DqsGroup, v: nat, ghost s: Search, ghost p: Pos, ghost entry: int) returns (v': nat)
    requires g.Valid() && s.c == g.c && Tracks(g.c, entry, v, g.regs) && g.regs == s.At(p)
    modifies g
    ensures g.Stepped() && g.tests == old(g.tests) && g.phaseZeroStores == old(g.phaseZeroStores)
    ensures v' == v + 1 && Tracks(g.c, entry, v', g.regs)
    ensures g.regs == s.At(p.(steps := p.steps + 1))
  {
    WrapShift(entry + v, g.c.vfifoSize);
    WrapShift(s.home + p.steps, g.c.vfifoSize);
    g.PulseVfifo();
    v' := v + 1;
  }

  /** The VFIFO has no decrement: going once around, less one, has the same effect. */
  method DecrVfifo(g: DqsGroup, v: nat, ghost s: Search, ghost p: Pos, ghost entry: int) returns (v': nat)
    requires g.Valid() && s.c == g.c && Tracks(g.c, entry, v, g.regs) && g.regs == s.At(p)
    modifies g
    ensures g.Stepped() && g.tests == old(g.tests) && g.phaseZeroStores == old(g.phaseZeroStores)
    ensures v' == v + g.c.vfifoSize - 1 && Tracks(g.c, entry, v', g.regs)
    ensures g.regs == s.At(p.(steps := p.steps - 1))
  {
    v' := v;
    for i := 0 to g.c.vfifoSize - 1
      invariant g.Stepped() && g.tests == old(g.tests) && g.phaseZeroStores == old(g.phaseZeroStores)
      invariant v' == v + i && Tracks(g.c, entry, v', g.regs) && g.regs == s.At(p.(steps := p.steps + i))
    {
      v' := IncrVfifo(g, v', s, p.(steps := p.steps + i), entry);
    }
    WrapShift(s.home + p.steps - 1, g.c.vfifoSize);
  }

  /** Less one than a full turn of increments undoes an increment, wherever the pointer is,
      and is undone by one. */
  lemma DecrementUndoesIncrement(x: int, m: int)
    requires m > 0
    ensures Wrap(x + 1 + (m - 1), m) == Wrap(x, m)
    ensures NextPointer(Wrap(x + (m - 1), m), m) == Wrap(x, m)
  {
    WrapShift(x, m);
    WrapShift(x + (m - 1), m);
  }

  /** A read test repeated until it fails or has passed the given number of times. */
  method ReadTest(g: DqsGroup, tries: nat) returns (pass: bool)
    requires g.Valid()
    modifies g
    ensures g.Stepped() && g.regs == old(g.regs) && g.phaseZeroStores == old(g.phaseZeroStores)
    ensures g.tests > old(g.tests)
    ensures pass == forall e: nat | e < tries || e == 0 :: Try(g.c, g.mem, old(g.tests), e, g.regs)
  {
    var n := if tries <= 0 then 1 else tries;
    var i := 0;
    pass := true;
    while i < n
      invariant i <= n && pass
      invariant g.Stepped() && g.regs == old(g.regs) && g.tests == old(g.tests) + i
      invariant g.phaseZeroStores == old(g.phaseZeroStores)
      invariant forall e: nat | e < i :: Try(g.c, g.mem, old(g.tests), e, g.regs)
    {
      var bits := TestBits(g, Read);
      if NoBit(bits) {
        assert !Try(g.c, g.mem, old(g.tests), i, g.regs);
        return false;
      }
      ghost var b :| 0 <= b < |bits| && bits[b];
      assert Bit(g.mem, Read, old(g.tests) + i, g.regs, b);
      i := i + 1;
    }
  }

  /** How often the search for the window repeats a read test. */
  const SEARCH_TRIES: nat := 5

  /** n successive read tests have passed at p. */
  ghost predicate PassedTries(s: Search, p: Pos, n: nat)
    requires s.c.vfifoSize > 0
  {
    exists t: nat :: AllTriesPass(s, p, n, t)
  }

  ghost predicate AllTriesPass(s: Search, p: Pos, n: nat, t: nat)
    requires s.c.vfifoSize > 0
  {
    forall e: nat | e < n :: Try(s.c, s.mem, t, e, s.At(p))
  }

  /** A read test at a known position. */
  method TestAt(g: DqsGroup, tries: nat, ghost s: Search, ghost p: Pos) returns (pass: bool)
    requires g.Valid() && s.c == g.c && s.mem == g.mem && g.regs == s.At(p)
    modifies g
    ensures g.Stepped() && g.regs == old(g.regs) && g.phaseZeroStores == old(g.phaseZeroStores)
    ensures s.Deterministic() ==> pass == s.Accepts(p)
    ensures pass ==> AnyBit(g.c, g.mem, old(g.tests), g.regs) && PassedTries(s, p, tries)
    ensures g.tests > old(g.tests)
  {
    ghost var t := g.tests;
    pass := ReadTest(g, tries);
    if s.Deterministic() {
      assert forall e: nat :: Try(g.c, g.mem, t, e, g.regs) == s.Accepts(p);
      assert Try(g.c, g.mem, t, 0, g.regs) == s.Accepts(p);
    }
    assert pass ==> Try(g.c, g.mem, t, 0, g.regs) && AllTriesPass(s, p, tries, t);
  }

  /** The number of delay taps in a phase tap, by the nominal tap sizes. */
  method StaticDtaps(c: Config) returns (k: nat)
    requires c.Valid()
    ensures k * c.delayPerDqsEnTap < c.delayPerOpaTap <= (k + 1) * c.delayPerDqsEnTap
    ensures 1 <= k <= c.dqsEnDelayMax && k <= c.ioOut1DelayMax
  {
    k := 0;
    var delay := 0;
    while delay < c.delayPerOpaTap
      invariant delay == k * c.delayPerDqsEnTap
      invariant k > 0 ==> (k - 1) * c.delayPerDqsEnTap < c.delayPerOpaTap
      decreases c.delayPerOpaTap - delay
    {
      k := k + 1;
      delay := delay + c.delayPerDqsEnTap;
    }
    k := k - 1;
    Cancel(k, c.dqsEnDelayMax, c.delayPerDqsEnTap);
    Cancel(k, c.ioOut1DelayMax + 1, c.delayPerDqsEnTap);
    Cancel(1, k + 1, c.delayPerDqsEnTap);
  }

  lemma {:induction false} Cancel(x: int, y: int, m: int)
    requires m > 0 && x * m < y * m
    ensures x < y
  {
    ProductOrder(x, y, m);
  }

  lemma {:induction false} ProductOrder(x: int, y: int, m: nat)
    ensures x >= y ==> x * m >= y * m
  {
    if x >= y {
      assert (x - y) * m >= 0;
    }
  }
}
