/** The DQS-enable search on the memory it is made for: one whose working settings are those
    with a delay in one interval per turn of the VFIFO. */
module IntervalWindow {
  import opened Arith
  import opened Hardware
  import opened DqsEnable
  import opened WindowSpec
  import opened DqsWindow
  import opened DqsCentre
  import opened EnableSpec
  import Sweep

  /** The delay of one VFIFO position, and of all of them. */
  function Position(c: Config): int {
    Times(c.dqsEnPhaseMax + 1, c.delayPerOpaTap)
  }

  function Turn(c: Config): int {
    Ps(c, Pos(c.vfifoSize, 0, 0))
  }

  predicate InChains(c: Config, p: Pos) {
    1 <= p.phase <= c.dqsEnPhaseMax && 0 <= p.dtap <= c.dqsEnDelayMax
  }

  /** From the home position on, where phase 1 fails, the settings of one turn work exactly if
      their delay is in [a, b]. */
  ghost predicate OneInterval(s: Search, a: int, b: int)
    requires s.c.vfifoSize > 0
  {
    && s.c.delayPerOpaTap < a <= b < s.c.delayPerOpaTap + Turn(s.c)
    && forall p: Pos | InChains(s.c, p) && 0 <= p.steps <= s.c.vfifoSize && Ps(s.c, p) < a + Turn(s.c) ::
         s.Accepts(p) <==> a <= Ps(s.c, p) <= b
  }

  /** The interval is at least four phase taps wide, and leaves a gap of more than two VFIFO
      positions. */
  predicate Wide(c: Config, a: int, b: int) {
    4 * c.delayPerOpaTap <= b - a < Turn(c) - 2 * Position(c)
  }

  lemma PositionIsFourPhases(c: Config)
    requires c.Valid()
    ensures Position(c) >= 4 * c.delayPerOpaTap
  {
    TimesMonotone(4, c.dqsEnPhaseMax + 1, c.delayPerOpaTap);
    assert Times(4, c.delayPerOpaTap) == Times(3, c.delayPerOpaTap) + c.delayPerOpaTap;
    assert Times(3, c.delayPerOpaTap) == Times(2, c.delayPerOpaTap) + c.delayPerOpaTap;
  }

  /** A phase tried at tap 0. */
  predicate AtPhase(c: Config, p: Pos) {
    p.dtap == 0 && 0 <= p.steps && 1 <= p.phase <= c.dqsEnPhaseMax
  }

  /** The next phase tried is one phase tap later, or two across phase 0. */
  lemma PsAfter(c: Config, p: Pos)
    requires c.Valid() && AtPhase(c, p)
    ensures AtPhase(c, After(c, p))
    ensures Ps(c, p) + c.delayPerOpaTap <= Ps(c, After(c, p)) <= Ps(c, p) + 2 * c.delayPerOpaTap
  {
    NextPhase(c, p);
    NextStep(c, p.(phase := 0));
    NextPhase(c, Pos(p.steps + 1, 0, 0));
  }

  /** Earlier phases have smaller delays. */
  lemma PsOrder(c: Config, p: Pos, q: Pos)
    requires c.Valid() && AtPhase(c, p) && AtPhase(c, q)
    ensures Earlier(p, q.steps, q.phase) <==> Ps(c, p) < Ps(c, q)
  {
    TicksOrder(c, p, q);
    TicksOrder(c, q, p);
  }

  lemma TicksOrder(c: Config, p: Pos, q: Pos)
    requires c.Valid() && AtPhase(c, p) && AtPhase(c, q)
    ensures Earlier(p, q.steps, q.phase) ==> Ps(c, p) < Ps(c, q)
  {
    if Earlier(p, q.steps, q.phase) {
      if p.steps < q.steps {
        TimesMonotone(p.steps + 1, q.steps, c.dqsEnPhaseMax + 1);
      }
      TimesGrows(p.steps, c.dqsEnPhaseMax + 1);
      assert Ticks(c, p) < Ticks(c, q);
      TimesMonotone(Ticks(c, p) + 1, Ticks(c, q), c.delayPerOpaTap);
    }
  }

  /** Delays of a turn belong to positions of a turn. */
  lemma StepsInTurn(c: Config, p: Pos)
    requires c.Valid() && 0 <= p.steps && 1 <= p.phase && 0 <= p.dtap
    ensures p.steps >= c.vfifoSize ==> Ps(c, p) >= Turn(c) + c.delayPerOpaTap
    ensures p.steps > c.vfifoSize ==> Ps(c, p) >= Turn(c) + Position(c) + c.delayPerOpaTap
  {
    var P := c.dqsEnPhaseMax + 1;
    TimesGrows(p.dtap, c.delayPerDqsEnTap);
    TimesGrows(c.vfifoSize, P);
    if p.steps >= c.vfifoSize {
      TimesMonotone(c.vfifoSize, p.steps, P);
      TimesMonotone(Times(c.vfifoSize, P) + 1, Ticks(c, p), c.delayPerOpaTap);
    }
    if p.steps > c.vfifoSize {
      TimesMonotone(c.vfifoSize + 1, p.steps, P);
      TimesMonotone(Times(c.vfifoSize, P) + P + 1, Ticks(c, p), c.delayPerOpaTap);
      TimesAdd(Times(c.vfifoSize, P), P, c.delayPerOpaTap);
    }
  }

  lemma {:induction false} TimesAdd(m: int, n: nat, y: int)
    ensures Times(m + n, y) == Times(m, y) + Times(n, y)
  {
    if n > 0 {
      TimesAdd(m, n - 1, y);
    }
  }

  /** From p upward, the first phase tried whose delay is at least `bound`. */
  lemma Climb(c: Config, p: Pos, bound: int) returns (q: Pos)
    requires c.Valid() && AtPhase(c, p) && Ps(c, p) < bound
    ensures AtPhase(c, q) && bound <= Ps(c, q) < bound + 2 * c.delayPerOpaTap
    ensures Earlier(p, q.steps, q.phase)
  {
    q := p;
    var before := p;
    while Ps(c, q) < bound
      invariant AtPhase(c, q) && AtPhase(c, before)
      invariant q == before == p
        || (Ps(c, before) < bound && q == After(c, before) && !Earlier(before, p.steps, p.phase))
      decreases bound - Ps(c, q)
    {
      before := q;
      PsAfter(c, q);
      q := After(c, q);
    }
    PsAfter(c, before);
  }

  /** What a search of such a memory sees: a setting whose delay is not too far beyond the
      interval works exactly if it is in it. */
  lemma {:induction false} SeenExactly(s: Search, a: int, b: int, p: Pos)
    requires s.c.Valid() && OneInterval(s, a, b) && Wide(s.c, a, b)
    requires InChains(s.c, p) && 0 <= p.steps && Ps(s.c, p) <= b + 2 * s.c.delayPerOpaTap
    ensures s.Accepts(p) <==> a <= Ps(s.c, p) <= b
    ensures Ps(s.c, p) <= b ==> p.steps < s.c.vfifoSize
  {
    PositionIsFourPhases(s.c);
    StepsInTurn(s.c, p);
  }

  lemma HomeDelay(c: Config)
    ensures Ps(c, Pos(0, 1, 0)) == c.delayPerOpaTap
  {
    assert Times(1, c.delayPerOpaTap) == Times(0, c.delayPerOpaTap) + c.delayPerOpaTap;
  }

  /** Some phase works, within two phases of where the interval begins. */
  lemma {:induction false} SomePhaseWorks(s: Search, a: int, b: int) returns (q: Pos)
    requires s.c.Valid() && OneInterval(s, a, b) && Wide(s.c, a, b)
    ensures AtPhase(s.c, q) && q.steps < s.c.vfifoSize && s.Accepts(q)
    ensures a <= Ps(s.c, q) < a + 2 * s.c.delayPerOpaTap
  {
    HomeDelay(s.c);
    q := Climb(s.c, Pos(0, 1, 0), a);
    SeenExactly(s, a, b, q);
  }

  /** The first working point is at tap 0, within two phases of where the interval begins, and
      its edge is not fuzzy. */
  lemma {:induction false} FirstInInterval(s: Search, a: int, b: int, first: Pos)
    requires s.c.Valid() && OneInterval(s, a, b) && Wide(s.c, a, b) && IsFirst(s, first)
    ensures AtPhase(s.c, first) && a <= Ps(s.c, first) < a + 2 * s.c.delayPerOpaTap
    ensures !EdgeIsFuzzy(s, first)
  {
    var q := SomePhaseWorks(s, a, b);
    NothingPrecedes(s, first, q);
    PsOrder(s.c, q, first);
    SeenExactly(s, a, b, first);
    var n := FirstTried(first);
    NextPhase(s.c, first);
    NextPhase(s.c, first.(phase := first.phase + 1));
    if n.phase <= s.c.dqsEnPhaseMax {
      SeenExactly(s, a, b, n);
    }
  }

  /** Every phase met up to the last works. */
  lemma TriedWork(s: Search, first: Pos, q: Pos, x: Pos)
    requires s.c.Valid() && AtPhase(s.c, first) && s.Accepts(first) && !EdgeIsFuzzy(s, first)
    requires LastPhase(s, first, q) && AtPhase(s.c, x)
    ensures Earlier(q, x.steps, x.phase) || s.Accepts(x) || Earlier(x, first.steps, FirstTried(first).phase)
    ensures s.Accepts(q)
  {
    assert !Earlier(q, x.steps, x.phase) ==> Earlier(x, q.steps, q.phase + 1);
    assert Earlier(q, q.steps, q.phase + 1);
  }

  /** The last phase of the window is within two phases of where the interval ends. */
  lemma {:induction false} LastInInterval(s: Search, a: int, b: int, first: Pos, q: Pos)
    requires s.c.Valid() && OneInterval(s, a, b) && Wide(s.c, a, b) && IsFirst(s, first)
    requires first.dtap == 0 && LastPhase(s, first, q)
    ensures AtPhase(s.c, q) && a <= Ps(s.c, q) <= b < Ps(s.c, q) + 2 * s.c.delayPerOpaTap
  {
    FirstInInterval(s, a, b, first);
    var x := Climb(s.c, first, b + 1);
    SeenExactly(s, a, b, x);
    NextPhase(s.c, first);
    NextPhase(s.c, first.(phase := first.phase + 1));
    TriedWork(s, first, q, x);
    PsOrder(s.c, q, first);
    PsOrder(s.c, q, x);
    if Ps(s.c, q) < Ps(s.c, x) {
      SeenExactly(s, a, b, q);
    }
    PsAfter(s.c, q);
    SeenExactly(s, a, b, After(s.c, q));
  }

  /** From tap 0 of q upward, the first tap whose delay is beyond b. */
  lemma ClimbTaps(c: Config, q: Pos, b: int, d: nat) returns (e: nat)
    requires c.Valid() && Ps(c, q.(dtap := 0)) <= b < Ps(c, q.(dtap := d))
    ensures e <= d && b < Ps(c, q.(dtap := e)) <= b + c.delayPerDqsEnTap
  {
    e := 0;
    while Ps(c, q.(dtap := e)) <= b
      invariant e <= d && (e > 0 ==> Ps(c, q.(dtap := e - 1)) <= b)
    {
      NextTap(c, q.(dtap := e));
      e := e + 1;
    }
    if e > 0 {
      NextTap(c, q.(dtap := e - 1));
    }
  }

  /** The last tap of the window is within one phase of where the interval ends. */
  lemma {:induction false} EndInInterval(s: Search, a: int, b: int, first: Pos, end: Pos)
    requires s.c.Valid() && OneInterval(s, a, b) && Wide(s.c, a, b) && IsFirst(s, first) && EndsAt(s, first, end)
    ensures a <= Ps(s.c, end) <= b < Ps(s.c, end) + s.c.delayPerOpaTap
  {
    FirstInInterval(s, a, b, first);
    var q := end.(dtap := 0);
    LastInInterval(s, a, b, first, q);
    MoreTaps(s.c, q, 0, end.dtap);
    SeenExactly(s, a, b, q);
    if Ps(s.c, end) > b {
      var e := ClimbTaps(s.c, q, b, end.dtap);
      SeenExactly(s, a, b, q.(dtap := e));
    } else if end.dtap == s.c.dqsEnDelayMax {
      WholeChain(s.c, q);
    } else {
      NextTap(s.c, end);
      SeenExactly(s, a, b, end.(dtap := end.dtap + 1));
    }
  }

  /** The delay chain spans a phase. */
  lemma WholeChain(c: Config, q: Pos)
    requires c.Valid()
    ensures Ps(c, q.(dtap := c.dqsEnDelayMax)) >= Ps(c, q.(dtap := 0)) + c.delayPerOpaTap
  {
    TimesIsProduct(c.dqsEnDelayMax, c.delayPerDqsEnTap);
  }

  /** The beginning is within two phases of where the interval begins. */
  lemma {:induction false} BeginInInterval(s: Search, a: int, b: int, first: Pos, bgn: Pos)
    requires s.c.Valid() && OneInterval(s, a, b) && Wide(s.c, a, b) && IsFirst(s, first) && BeginsAt(s, first, bgn)
    ensures a <= Ps(s.c, bgn) < a + 2 * s.c.delayPerOpaTap
  {
    FirstInInterval(s, a, b, first);
    if bgn != first {
      SeenExactly(s, a, b, bgn);
    }
  }

  /** The setting that the search ends with, at the VFIFO position of the window's middle. */
  function Final(k: Centre, regs: Settings): Pos {
    Pos(k.turns, regs.enPhase, regs.enDelay)
  }

  lemma {:induction false} AccumulatorsInInterval(s: Search, a: int, b: int, w: Ends, workBgn: int, workEnd: int)
    requires s.c.Valid() && OneInterval(s, a, b) && Wide(s.c, a, b) && IsWindow(s, w)
    requires Denotes(s.c, w, workBgn, workEnd)
    ensures a <= workBgn < a + 2 * s.c.delayPerOpaTap
    ensures b - 2 * s.c.delayPerOpaTap < workEnd <= b
  {
    FirstInInterval(s, a, b, w.first);
    BeginInInterval(s, a, b, w.first, w.bgn);
    EndInInterval(s, a, b, w.first, w.end);
  }

  lemma Distribute(x: int, t: int, q: int, y: int)
    ensures (x * t + q) * y == t * (x * y) + q * y
  {
  }

  lemma {:induction false} FinalNearMiddle(c: Config, k: Centre, regs: Settings)
    requires c.Valid() && Reduced(c, k.workBgn, k.workEnd, k.mid, k.turns) && Reaches(c, k.mid, k.p, k.d)
    requires regs.enPhase == (if k.p == 1 then 1 else k.p - 1)
    requires regs.enDelay == (if k.p == 1 then 0 else k.d)
    ensures InChains(c, Final(k, regs)) && 0 <= k.turns
    ensures (k.workBgn + k.workEnd) / 2 <= Ps(c, Final(k, regs)) < (k.workBgn + k.workEnd) / 2 + c.delayPerOpaTap
  {
    PsIsProduct(c, Final(k, regs));
    Distribute(c.dqsEnPhaseMax + 1, k.turns, regs.enPhase, c.delayPerOpaTap);
  }

  /** A setting just beyond the middle of two points near the ends of [a, b]. */
  lemma {:induction false} MiddleSeen(s: Search, a: int, b: int, x: int, y: int, p: Pos)
    requires s.c.Valid() && OneInterval(s, a, b) && Wide(s.c, a, b) && InChains(s.c, p) && 0 <= p.steps
    requires a <= x < a + 2 * s.c.delayPerOpaTap && b - 2 * s.c.delayPerOpaTap < y <= b
    requires (x + y) / 2 <= Ps(s.c, p) < (x + y) / 2 + s.c.delayPerOpaTap
    ensures s.Accepts(p) && a < Ps(s.c, p) <= b
    ensures a + b - 2 * s.c.delayPerOpaTap <= 2 * Ps(s.c, p) < a + b + 4 * s.c.delayPerOpaTap
  {
    SeenExactly(s, a, b, p);
  }

  /** On such a memory the setting that quantises the middle of the window works, and is not
      further than two phases from the centre of the interval. */
  lemma {:induction false} CentreInInterval(s: Search, a: int, b: int, k: Centre, regs: Settings)
    requires s.c.Valid() && s.Deterministic() && OneInterval(s, a, b) && Wide(s.c, a, b) && Centred(s, k, regs)
    ensures var p := Final(k, regs);
      && s.Accepts(p) && a < Ps(s.c, p) <= b
      && a + b - 2 * s.c.delayPerOpaTap <= 2 * Ps(s.c, p) < a + b + 4 * s.c.delayPerOpaTap
  {
    AccumulatorsInInterval(s, a, b, k.w, k.workBgn, k.workEnd);
    FinalNearMiddle(s.c, k, regs);
    MiddleSeen(s, a, b, k.workBgn, k.workEnd, Final(k, regs));
  }

  // ---------- sharper, away from phase 0 ----------

  /** Unless it is at phase 1, the beginning is within one delay tap of the interval's. */
  lemma {:induction false} BeginWithinTap(s: Search, a: int, b: int, first: Pos, bgn: Pos)
    requires s.c.Valid() && OneInterval(s, a, b) && Wide(s.c, a, b) && IsFirst(s, first) && BeginsAt(s, first, bgn)
    requires 2 <= first.phase
    ensures a <= Ps(s.c, bgn) < a + s.c.delayPerDqsEnTap
  {
    FirstInInterval(s, a, b, first);
    BeginInInterval(s, a, b, first, bgn);
    var back := Back(first, 0);
    NextPhase(s.c, back);
    SeenExactly(s, a, b, back);
    assert Ps(s.c, back) < a by { assert !s.Accepts(Pos(first.steps, first.phase - 1, 0)); }
    WholeChain(s.c, back);
    var e := ClimbTaps(s.c, back, a - 1, s.c.dqsEnDelayMax);
    assert back.(dtap := e) == Back(first, e);
    if Ps(s.c, Back(first, e)) < Ps(s.c, first) {
      SeenExactly(s, a, b, Back(first, e));
      assert EarlyTap(s, first, e) && bgn.dtap <= e;
      MoreTaps(s.c, back, bgn.dtap, e);
      assert back.(dtap := bgn.dtap) == bgn;
    }
  }

  /** Unless the delay chain is exhausted, so is the end. */
  lemma {:induction false} EndWithinTap(s: Search, a: int, b: int, first: Pos, end: Pos)
    requires s.c.Valid() && OneInterval(s, a, b) && Wide(s.c, a, b) && IsFirst(s, first) && EndsAt(s, first, end)
    requires end.dtap < s.c.dqsEnDelayMax
    ensures a <= Ps(s.c, end) <= b < Ps(s.c, end) + s.c.delayPerDqsEnTap
  {
    FirstInInterval(s, a, b, first);
    LastInInterval(s, a, b, first, end.(dtap := 0));
    SeenExactly(s, a, b, end.(dtap := 0));
    EndInInterval(s, a, b, first, end);
    NextTap(s.c, end);
    SeenExactly(s, a, b, end.(dtap := end.dtap + 1));
  }

  // ---------- the interval seen from any VFIFO position ----------

  /** The settings that work are those with a delay in [a, b], give or take whole turns. */
  ghost predicate WorksInInterval(c: Config, mem: Memory, base: Settings, a: int, b: int)
    requires Turn(c) > 0
  {
    forall x, q, e | 0 <= x < c.vfifoSize && InChains(c, Pos(x, q, e)) ::
      WorksWith(c, mem, base, x, q, e) <==> Wrap(Ps(c, Pos(x, q, e)) - a, Turn(c)) <= b - a
  }

  lemma TurnPositive(c: Config)
    requires c.Valid()
    ensures Turn(c) >= Position(c) > 0
    ensures Turn(c) == Times(Times(c.vfifoSize, c.dqsEnPhaseMax + 1), c.delayPerOpaTap)
  {
    PositionIsFourPhases(c);
    TimesMonotone(1, c.vfifoSize, c.dqsEnPhaseMax + 1);
    assert Times(1, c.dqsEnPhaseMax + 1) == c.dqsEnPhaseMax + 1;
    TimesMonotone(c.dqsEnPhaseMax + 1, Times(c.vfifoSize, c.dqsEnPhaseMax + 1), c.delayPerOpaTap);
  }

  /** n positions further on. */
  lemma {:induction false} PsFurther(c: Config, p: Pos, n: nat)
    ensures Ps(c, p.(steps := p.steps + n)) == Ps(c, p) + Ps(c, Pos(n, 0, 0))
  {
    var P := c.dqsEnPhaseMax + 1;
    TimesAdd(p.steps, n, P);
    TimesGrows(n, P);
    TimesAdd(Ticks(c, p), Times(n, P), c.delayPerOpaTap);
  }

  /** Positions that differ by whole turns have delays that do. */
  lemma {:induction false} PsWrap(c: Config, p: Pos, a: int)
    requires c.Valid() && Turn(c) > 0
    ensures Wrap(Ps(c, p.(steps := Wrap(p.steps, c.vfifoSize))) - a, Turn(c)) == Wrap(Ps(c, p) - a, Turn(c))
    decreases if p.steps < 0 then c.vfifoSize - p.steps else p.steps
  {
    var m := c.vfifoSize;
    if p.steps < 0 {
      var q := p.(steps := p.steps + m);
      PsWrap(c, q, a);
      PsFurther(c, p, m);
      WrapShift(Ps(c, p) - a, Turn(c));
      assert q.(steps := Wrap(q.steps, m)) == p.(steps := Wrap(p.steps, m));
    } else if p.steps >= m {
      var q := p.(steps := p.steps - m);
      PsWrap(c, q, a);
      PsFurther(c, q, m);
      WrapShift(Ps(c, q) - a, Turn(c));
      assert q.(steps := Wrap(q.steps, m)) == p.(steps := Wrap(p.steps, m));
    }
  }

  /** What a search from `home` accepts. */
  lemma {:induction false} SearchSees(s: Search, a: int, b: int, p: Pos)
    requires s.c.Valid() && Turn(s.c) > 0 && WorksInInterval(s.c, s.mem, s.base, a, b)
    requires 0 <= s.home && InChains(s.c, p)
    ensures s.Accepts(p) <==> Wrap(Ps(s.c, p) - (a - Ps(s.c, Pos(s.home, 0, 0))), Turn(s.c)) <= b - a
  {
    var q := p.(steps := p.steps + s.home);
    PsWrap(s.c, q, a);
    PsFurther(s.c, p, s.home);
    assert q.(steps := Wrap(q.steps, s.c.vfifoSize)) == Pos(Wrap(s.home + p.steps, s.c.vfifoSize), p.phase, p.dtap);
  }

  /** What a search sees, with the interval's start moved by whole turns to lie ahead. */
  lemma {:induction false} SearchSeesAhead(s: Search, a: int, b: int, p: Pos, a': int)
    requires s.c.Valid() && Turn(s.c) > 0 && WorksInInterval(s.c, s.mem, s.base, a, b)
    requires 0 <= s.home && InChains(s.c, p)
    requires var o := s.c.delayPerOpaTap + 1;
      a' == o + Wrap(a - Ps(s.c, Pos(s.home, 0, 0)) - o, Turn(s.c))
    ensures s.Accepts(p) <==> Wrap(Ps(s.c, p) - a', Turn(s.c)) <= b - a
  {
    SearchSees(s, a, b, p);
    SameShift(Ps(s.c, p), a - Ps(s.c, Pos(s.home, 0, 0)), s.c.delayPerOpaTap + 1, Turn(s.c));
  }

  /** From a home position where phase 1 fails, a search sees one interval ahead. */
  lemma {:induction false} IntervalAhead(s: Search, a: int, b: int) returns (a': int)
    requires s.c.Valid() && Turn(s.c) > 0 && WorksInInterval(s.c, s.mem, s.base, a, b)
    requires 0 <= s.home && !s.Accepts(Pos(0, 1, 0)) && 0 <= b - a < Turn(s.c)
    ensures OneInterval(s, a', a' + (b - a))
  {
    var T, O := Turn(s.c), s.c.delayPerOpaTap;
    a' := O + 1 + Wrap(a - Ps(s.c, Pos(s.home, 0, 0)) - (O + 1), T);
    HomeDelay(s.c);
    SearchSeesAhead(s, a, b, Pos(0, 1, 0), a');
    WrapNear(O - a', T);
    forall p: Pos | InChains(s.c, p) && 0 <= p.steps <= s.c.vfifoSize && Ps(s.c, p) < a' + T
      ensures s.Accepts(p) <==> a' <= Ps(s.c, p) <= a' + (b - a)
    {
      SearchSeesAhead(s, a, b, p, a');
      PsPositive(s.c, p);
      WrapNear(Ps(s.c, p) - a', T);
    }
  }

  lemma WrapNear(x: int, m: int)
    requires m > 0 && -m <= x < m
    ensures Wrap(x, m) == if x < 0 then x + m else x
  {
  }

  /** Shifting the origin by whole turns changes nothing. */
  lemma {:induction false} SameShift(y: int, h: int, o: int, m: int)
    requires m > 0
    ensures Wrap(y - (o + Wrap(h - o, m)), m) == Wrap(y - h, m)
    decreases if h - o < 0 then m - (h - o) else h - o
  {
    if h - o < 0 {
      SameShift(y, h + m, o, m);
      WrapShift(y - h - m, m);
    } else if h - o >= m {
      SameShift(y, h - m, o, m);
      WrapShift(y - h, m);
    }
  }

  // ---------- such a memory has a window ----------

  /** Phase 1 at VFIFO pointer x, as a delay beyond a. */
  function Beyond(c: Config, a: int, x: int): int
    requires Turn(c) > 0
  {
    Wrap(Ps(c, Pos(x, 1, 0)) - a, Turn(c))
  }

  /** The next pointer is one position further, unless that completes a turn. */
  lemma {:induction false} BeyondNext(c: Config, a: int, x: int)
    requires c.Valid() && Turn(c) > 0
    ensures Beyond(c, a, x + 1) == Wrap(Beyond(c, a, x) + Position(c), Turn(c))
  {
    var y := Ps(c, Pos(x, 1, 0)) - a;
    PsFurther(c, Pos(x, 1, 0), 1);
    assert Ps(c, Pos(1, 0, 0)) == Position(c) by {
      assert Times(1, c.dqsEnPhaseMax + 1) == Times(0, c.dqsEnPhaseMax + 1) + c.dqsEnPhaseMax + 1;
    }
    WrapOfWrap(y, Position(c), Turn(c));
  }

  /** Some pointer is in the last position of a turn beyond a. */
  lemma {:induction false} LastBeyond(c: Config, a: int) returns (x: nat)
    requires c.Valid() && Turn(c) > 0
    ensures x < c.vfifoSize && Beyond(c, a, x) >= Turn(c) - Position(c)
  {
    TurnPositive(c);
    x := 0;
    while Beyond(c, a, x) < Turn(c) - Position(c)
      invariant x < c.vfifoSize && Beyond(c, a, x) >= Ps(c, Pos(x, 0, 0))
      decreases c.vfifoSize - x
    {
      BeyondNext(c, a, x);
      WrapNear(Beyond(c, a, x) + Position(c), Turn(c));
      PsFurther(c, Pos(x, 0, 0), 1);
      assert Ps(c, Pos(1, 0, 0)) == Position(c) by {
        assert Times(1, c.dqsEnPhaseMax + 1) == Times(0, c.dqsEnPhaseMax + 1) + c.dqsEnPhaseMax + 1;
      }
      assert Ps(c, Pos(x + 1, 0, 0)) < Turn(c);
      FewerSteps(c, x + 1);
      x := x + 1;
    }
  }

  lemma FewerSteps(c: Config, x: nat)
    requires c.Valid() && Ps(c, Pos(x, 0, 0)) < Turn(c)
    ensures x < c.vfifoSize
  {
    if x >= c.vfifoSize {
      TimesMonotone(c.vfifoSize, x, c.dqsEnPhaseMax + 1);
      TimesGrows(c.vfifoSize, c.dqsEnPhaseMax + 1);
      TimesMonotone(Times(c.vfifoSize, c.dqsEnPhaseMax + 1), Times(x, c.dqsEnPhaseMax + 1), c.delayPerOpaTap);
    }
  }

  /** The position before is beyond the interval, too. */
  lemma {:induction false} LastButOne(c: Config, a: int, x: int)
    requires c.Valid() && Turn(c) > 0 && Beyond(c, a, x) >= Turn(c) - Position(c)
    ensures Beyond(c, a, x - 1) >= Turn(c) - 2 * Position(c)
    ensures Beyond(c, a, Wrap(x - 1, c.vfifoSize)) == Beyond(c, a, x - 1)
  {
    TurnPositive(c);
    BeyondNext(c, a, x - 1);
    PsWrap(c, Pos(x - 1, 1, 0), a);
    if Beyond(c, a, x - 1) < Turn(c) - Position(c) {
      WrapNear(Beyond(c, a, x - 1) + Position(c), Turn(c));
    }
  }

  lemma {:induction false} TwoFail(c: Config, mem: Memory, base: Settings, a: int, b: int) returns (x: nat)
    requires c.Valid() && Turn(c) > 0 && Wide(c, a, b) && WorksInInterval(c, mem, base, a, b)
    ensures x < c.vfifoSize && !WorksWith(c, mem, base, x, 1, 0) && !FewFailures(c, mem, base)
  {
    TurnPositive(c);
    FewerSteps(c, 1);
    x := LastBeyond(c, a);
    LastButOne(c, a, x);
    var y := Wrap(x - 1, c.vfifoSize);
    WrapNear(x - 1, c.vfifoSize);
    assert InChains(c, Pos(x, 1, 0)) && InChains(c, Pos(y, 1, 0));
    assert !WorksWith(c, mem, base, x, 1, 0) && !WorksWith(c, mem, base, y, 1, 0);
  }

  /** A memory whose working settings have a delay in one interval per turn, wide enough but
      not too wide, has two failing VFIFO positions and a working setting: exactly what the
      search needs to find a window. */
  lemma {:induction false} IntervalIsFound(c: Config, mem: Memory, base: Settings, a: int, b: int)
    requires c.Valid() && Turn(c) > 0 && Wide(c, a, b) && WorksInInterval(c, mem, base, a, b)
    ensures !FewFailures(c, mem, base) && !NothingWorks(c, mem, base)
  {
    var x := TwoFail(c, mem, base, a, b);
    var s := Search(c, mem, base, x);
    WrapNear(x, c.vfifoSize);
    var a' := IntervalAhead(s, a, b);
    var q := SomePhaseWorks(s, a', a' + (b - a));
    assert WorksWith(c, mem, base, Wrap(x + q.steps, c.vfifoSize), q.phase, 0);
    assert !NothingWorksAt(c, mem, base, 0);
  }

  /** And the setting the search ends with works at some VFIFO position. */
  lemma {:induction false} IntervalWorksSomewhere(s: Search, a: int, b: int, k: Centre, regs: Settings)
    requires s.c.Valid() && s.Deterministic() && Turn(s.c) > 0 && Wide(s.c, a, b)
    requires WorksInInterval(s.c, s.mem, s.base, a, b) && 0 <= s.home && Centred(s, k, regs)
    ensures exists x :: 0 <= x < s.c.vfifoSize && WorksWith(s.c, s.mem, s.base, x, regs.enPhase, regs.enDelay)
  {
    PositionIsFourPhases(s.c);
    var a' := IntervalAhead(s, a, b);
    CentreInInterval(s, a', a' + (b - a), k, regs);
    AcceptedSomewhere(s, Final(k, regs));
  }

  lemma {:induction false} AcceptedSomewhere(s: Search, p: Pos)
    requires s.c.Valid() && s.Accepts(p)
    ensures exists x :: 0 <= x < s.c.vfifoSize && WorksWith(s.c, s.mem, s.base, x, p.phase, p.dtap)
  {
    assert WorksWith(s.c, s.mem, s.base, Wrap(s.home + p.steps, s.c.vfifoSize), p.phase, p.dtap);
  }

  /** The memory that the search is made for. */
  ghost predicate FitsInterval(c: Config, mem: Memory, base: Settings) {
    Consistent(c, mem, base) && Turn(c) > 0 && exists a, b :: Wide(c, a, b) && WorksInInterval(c, mem, base, a, b)
  }

  // ---------- one such memory ----------

  /** A memory that reads correctly exactly at delays in [a, b], give or take whole turns. */
  function IntervalMemory(c: Config, a: int, b: int): Memory
    requires Turn(c) > 0
  {
    Memory((t, s: Settings, i) => Wrap(Ps(c, Pos(s.vfifo, s.enPhase, s.enDelay)) - a, Turn(c)) <= b - a,
           (t, s, i) => false, (t, s) => false, (t, s) => false)
  }

  lemma {:induction false} IntervalMemoryFits(c: Config, a: int, b: int, base: Settings)
    requires c.Valid() && Turn(c) > 0 && Wide(c, a, b)
    ensures FitsInterval(c, IntervalMemory(c, a, b), base)
  {
    var mem := IntervalMemory(c, a, b);
    forall t: nat, x, q, e
      ensures AnyBit(c, mem, t, base.(vfifo := x, enPhase := q, enDelay := e)) <==>
              Wrap(Ps(c, Pos(x, q, e)) - a, Turn(c)) <= b - a
    {
      assert Sweep.Bit(mem, Sweep.Read, t, base.(vfifo := x, enPhase := q, enDelay := e), 0) <==>
             Wrap(Ps(c, Pos(x, q, e)) - a, Turn(c)) <= b - a;
    }
    assert WorksInInterval(c, mem, base, a, b);
  }

  /** In the shipped configuration a window of one VFIFO position, eight phase taps, is wide
      enough, and so is half of it. */
  lemma ShippedWidths(c: Config)
    requires c == SHIPPED
    ensures c.Valid() && Turn(c) == 53248 && Wide(c, 0, 3328) && Wide(c, 0, 1664)
  {
    TimesIsProduct(c.vfifoSize, c.dqsEnPhaseMax + 1);
    TimesIsProduct(Times(c.vfifoSize, c.dqsEnPhaseMax + 1), c.delayPerOpaTap);
    TimesIsProduct(c.dqsEnPhaseMax + 1, c.delayPerOpaTap);
  }
}
