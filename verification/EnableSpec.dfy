/** The DQS-enable search as a function of the memory: when it finds a window, and what its
    accumulators denote. */
module EnableSpec {
  import opened Arith
  import opened Hardware
  import opened DqsEnable
  import opened WindowSpec
  import opened DqsWindow
  import opened DqsCentre
  import Sweep

  // ---------- what the memory answers, whatever the VFIFO started at ----------

  /** Reading works at VFIFO pointer x with the given phase and delay. */
  predicate WorksWith(c: Config, mem: Memory, base: Settings, x: int, phase: int, delay: int) {
    AnyBit(c, mem, 0, base.(vfifo := x, enPhase := phase, enDelay := delay))
  }

  /** The memory answers every enable setting always the same way. */
  ghost predicate Consistent(c: Config, mem: Memory, base: Settings) {
    forall t: nat, x: int, phase: int, delay: int ::
      AnyBit(c, mem, t, base.(vfifo := x, enPhase := phase, enDelay := delay))
      == WorksWith(c, mem, base, x, phase, delay)
  }

  /** At most one VFIFO pointer fails with phase 1 and no delay. */
  ghost predicate FewFailures(c: Config, mem: Memory, base: Settings) {
    forall x, y | 0 <= x < y < c.vfifoSize :: WorksWith(c, mem, base, x, 1, 0) || WorksWith(c, mem, base, y, 1, 0)
  }

  /** Nothing works at any VFIFO pointer and phase with less than a phase's worth of delay. */
  ghost predicate NothingWorks(c: Config, mem: Memory, base: Settings) {
    forall e: nat | Times(e, c.delayPerDqsEnTap) < c.delayPerOpaTap :: NothingWorksAt(c, mem, base, e)
  }

  ghost predicate NothingWorksAt(c: Config, mem: Memory, base: Settings, e: int) {
    forall x, q | 0 <= x < c.vfifoSize && 1 <= q <= c.dqsEnPhaseMax :: !WorksWith(c, mem, base, x, q, e)
  }

  lemma WrapSmall(x: int, m: int)
    requires 0 <= x < 2 * m
    ensures Wrap(x, m) == if x < m then x else x - m
  {
  }

  /** The positions of a search are all the pointers, each once. */
  lemma {:induction false} FewExactly(s: Search)
    requires s.c.Valid() && 0 <= s.home < s.c.vfifoSize
    ensures FewFailures(s.c, s.mem, s.base) <==>
      forall u: nat, w: nat | u < w < s.c.vfifoSize :: !(FailsAt(s, u) && FailsAt(s, w))
  {
    var m := s.c.vfifoSize;
    forall k: nat | k < m
      ensures 0 <= Wrap(s.home + k, m) < m
      ensures FailsAt(s, k) <==> !WorksWith(s.c, s.mem, s.base, Wrap(s.home + k, m), 1, 0)
    {
    }
    if FewFailures(s.c, s.mem, s.base) {
      forall u: nat, w: nat | u < w < m ensures !(FailsAt(s, u) && FailsAt(s, w)) {
        WrapSmall(s.home + u, m);
        WrapSmall(s.home + w, m);
      }
    } else {
      var x, y :| 0 <= x < y < m && !WorksWith(s.c, s.mem, s.base, x, 1, 0) && !WorksWith(s.c, s.mem, s.base, y, 1, 0);
      var u := WrapReaches(s.home, x, m);
      var w := WrapReaches(s.home, y, m);
      assert FailsAt(s, u) && FailsAt(s, w) && u != w;
    }
  }

  lemma {:induction false} NothingAtExactly(s: Search, e: int)
    requires s.c.Valid()
    ensures NothingWorksAt(s.c, s.mem, s.base, e) <==> RejectsVfifos(s, s.c.vfifoSize, e)
  {
    var m := s.c.vfifoSize;
    if RejectsVfifos(s, m, e) {
      forall x, q | 0 <= x < m && 1 <= q <= s.c.dqsEnPhaseMax ensures !WorksWith(s.c, s.mem, s.base, x, q, e) {
        var k := WrapReaches(Wrap(s.home, m), x, m);
        WrapOfWrap(s.home, k, m);
        assert RejectsAllPhases(s, k, e);
        assert s.At(Pos(k, q, e)) == s.base.(vfifo := x, enPhase := q, enDelay := e);
      }
    } else {
      var k :| 0 <= k < m && !RejectsAllPhases(s, k, e);
      var q :| 1 <= q < s.c.dqsEnPhaseMax + 1 && s.Accepts(Pos(k, q, e));
      assert WorksWith(s.c, s.mem, s.base, Wrap(s.home + k, m), q, e);
    }
  }

  lemma {:induction false} NothingExactly(s: Search, nominal: nat)
    requires s.c.Valid()
    requires nominal * s.c.delayPerDqsEnTap < s.c.delayPerOpaTap <= (nominal + 1) * s.c.delayPerDqsEnTap
    ensures NothingWorks(s.c, s.mem, s.base) <==> RejectsTaps(s, nominal + 1)
  {
    forall e: nat
      ensures Times(e, s.c.delayPerDqsEnTap) < s.c.delayPerOpaTap <==> e < nominal + 1
      ensures NothingWorksAt(s.c, s.mem, s.base, e) <==> RejectsVfifos(s, s.c.vfifoSize, e)
    {
      TimesIsProduct(e, s.c.delayPerDqsEnTap);
      ProductOrder(e, nominal + 1, s.c.delayPerDqsEnTap);
      ProductOrder(nominal, e, s.c.delayPerDqsEnTap);
      NothingAtExactly(s, e);
    }
  }

  lemma ConsistentSearch(s: Search)
    requires s.c.Valid()
    ensures Consistent(s.c, s.mem, s.base) ==> s.Deterministic()
  {
    if Consistent(s.c, s.mem, s.base) {
      forall t: nat, p: Pos ensures AnyBit(s.c, s.mem, t, s.At(p)) == s.Accepts(p) {
        assert s.Accepts(p) == WorksWith(s.c, s.mem, s.base, Wrap(s.home + p.steps, s.c.vfifoSize), p.phase, p.dtap);
      }
    }
  }

  /** The same search from v positions further on. */
  lemma {:induction false} Rehomed(s: Search, v: int)
    requires s.c.Valid()
    ensures var t := s.(home := s.home + v);
      && (t.Deterministic() ==> s.Deterministic())
      && t.At(Pos(0, 1, 0)) == s.At(Pos(v, 1, 0))
  {
    var t := s.(home := s.home + v);
    if t.Deterministic() {
      forall n: nat, p: Pos ensures AnyBit(s.c, s.mem, n, s.At(p)) == s.Accepts(p) {
        var q := p.(steps := p.steps - v);
        assert t.At(q) == s.At(p);
        assert AnyBit(t.c, t.mem, n, t.At(q)) == t.Accepts(q);
      }
    }
  }

  // ---------- the centre ----------

  /** What the search knew when it turned to the centre: the window's ends, what the
      accumulators said, and the quantisation of the middle. */
  datatype Centre = Centre(w: Ends, workBgn: int, workEnd: int, mid: int, turns: int, p: int, d: int)

  /** The setting in the registers quantises the middle of a window whose ends the
      accumulators denote; for a consistent memory it is the window. */
  ghost predicate Centred(s: Search, k: Centre, regs: Settings)
    requires s.c.vfifoSize > 0
  {
    && Denotes(s.c, k.w, k.workBgn, k.workEnd)
    && (s.Deterministic() ==> IsWindow(s, k.w) && !s.Accepts(Pos(0, 1, 0)))
    && Reduced(s.c, k.workBgn, k.workEnd, k.mid, k.turns)
    && Reaches(s.c, k.mid, k.p, k.d)
    && regs.enPhase == (if k.p == 1 then 1 else k.p - 1)
    && regs.enDelay == (if k.p == 1 then 0 else k.d)
  }

  // ---------- what the accumulators denote ----------

  lemma {:induction false} SameFirst(s: Search, p: Pos, q: Pos)
    requires s.c.Valid() && IsFirst(s, p) && IsFirst(s, q)
    ensures p == q
  {
    NothingPrecedes(s, p, q);
    NothingPrecedes(s, q, p);
  }

  /** With a consistent memory whose first working point is at tap 0 of phase 2 or later, both
      accumulators stand for settings that the read test accepts, if and only if the first
      phase tried after it, if there is one at the same position, does not fail. */
  lemma {:induction false} AccumulatorsDenote(s: Search, k: Centre, regs: Settings, first: Pos)
    requires s.c.Valid() && s.Deterministic() && Centred(s, k, regs)
    requires IsFirst(s, first) && first.dtap == 0 && 2 <= first.phase
    ensures k.workBgn == Ps(s.c, k.w.bgn) <= k.workEnd == Ps(s.c, k.w.end)
    ensures s.Accepts(k.w.bgn) && s.Accepts(k.w.end) <==>
      first.phase == s.c.dqsEnPhaseMax || s.Accepts(first.(phase := first.phase + 1))
  {
    SameFirst(s, first, k.w.first);
    EndsWork(s, k.w);
  }

  /** In general, the beginning is rejected exactly if the edge is fuzzy, and then it is the
      failing phase itself; the end is rejected exactly if it is that phase, too. */
  lemma {:induction false} EndsWorkExactly(s: Search, k: Centre, regs: Settings, first: Pos)
    requires s.c.Valid() && s.Deterministic() && Centred(s, k, regs) && IsFirst(s, first)
    ensures s.Accepts(k.w.bgn) <==> !EdgeIsFuzzy(s, first)
    ensures EdgeIsFuzzy(s, first) ==> k.w.bgn == FirstTried(first)
    ensures s.Accepts(k.w.end) <==> !(EdgeIsFuzzy(s, first) && k.w.end == FirstTried(first))
  {
    SameFirst(s, first, k.w.first);
    EndsWork(s, k.w);
  }

  /** The end accumulator equals the delay of the setting it stands for exactly when the first
      working point of the memory is not at tap 0 of phase 1. */
  lemma {:induction false} EndDenotesExactly(s: Search, k: Centre, regs: Settings, first: Pos)
    requires s.c.Valid() && s.Deterministic() && Centred(s, k, regs) && IsFirst(s, first)
    ensures k.workEnd == Ps(s.c, k.w.end) <==> !(first.dtap == 0 && first.phase == 1)
  {
    SameFirst(s, first, k.w.first);
  }

  /** In the shipped configuration every accumulator value fits easily in 32 bits. */
  lemma ShippedAccumulatorsFit(p: Pos)
    requires Settable(SHIPPED, p) && p.steps <= SHIPPED.vfifoSize + 1
    ensures SHIPPED.Valid() && 0 < Ps(SHIPPED, p) < 0x1_0000
  {
    PsIsProduct(SHIPPED, p);
  }

  // ---------- two memories ----------

  /** A memory that reads correctly at VFIFO pointer 5 with the given phases and any delay. */
  function PhaseMemory(lo: int, hi: int): Memory {
    Memory((t, s: Settings, i) => s.vfifo == 5 && lo <= s.enPhase <= hi,
           (t, s, i) => false, (t, s) => false, (t, s) => false)
  }

  /** A search for its window from VFIFO pointer 4. */
  function PhaseSearch(lo: int, hi: int, base: Settings): Search {
    Search(SHIPPED, PhaseMemory(lo, hi), base, 4)
  }

  lemma PhaseAccepts(lo: int, hi: int, base: Settings, p: Pos)
    ensures PhaseSearch(lo, hi, base).Accepts(p) <==> Wrap(4 + p.steps, 16) == 5 && lo <= p.phase <= hi
  {
    var s := PhaseSearch(lo, hi, base);
    assert Sweep.Bit(s.mem, Sweep.Read, 0, s.At(p), 0) <==> Wrap(4 + p.steps, 16) == 5 && lo <= p.phase <= hi;
  }

  /** With phase 3 the only one that works, both ends of the window are phase 4, which fails. */
  lemma FuzzyWindow(base: Settings)
    ensures var s := PhaseSearch(3, 3, base);
      var w := Ends(Pos(1, 3, 0), Pos(1, 4, 0), Pos(1, 4, 0), true);
      IsWindow(s, w) && !s.Accepts(w.bgn) && !s.Accepts(w.end)
  {
    forall p: Pos ensures PhaseSearch(3, 3, base).Accepts(p) <==> Wrap(4 + p.steps, 16) == 5 && 3 <= p.phase <= 3 {
      PhaseAccepts(3, 3, base, p);
    }
    WrapSmall(4, 16);
    WrapSmall(5, 16);
  }

  /** With phases 1 to 4 working, the window ends at phase 4, one phase after what the end
      accumulator says. */
  lemma LaggingEnd(base: Settings)
    ensures var s := PhaseSearch(1, 4, base);
      var w := Ends(Pos(1, 1, 0), Pos(1, 1, 0), Pos(1, 4, 31), false);
      IsWindow(s, w) && EndSkew(SHIPPED, w.first) == 416
  {
    forall p: Pos ensures PhaseSearch(1, 4, base).Accepts(p) <==> Wrap(4 + p.steps, 16) == 5 && 1 <= p.phase <= 4 {
      PhaseAccepts(1, 4, base, p);
    }
    WrapSmall(4, 16);
    WrapSmall(5, 16);
  }
}
