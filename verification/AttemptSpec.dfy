/** Why read calibration of a group fails, and what makes it succeed, as facts about the
    memory. */
module AttemptSpec {
  import opened Arith
  import opened Hardware
  import opened Sweep
  import opened Globals
  import opened ReadDeskew
  import opened DqsEnable
  import opened EnableSpec
  import opened IntervalWindow
  import opened FindDqsEn

  /** How read calibration is to be done: whether the only rank is to be skipped, and whether the
      guaranteed read is made. */
  datatype Mode = Mode(skip: bool, guaranteed: bool)

  /** Only what read calibration moves on the input side differs. */
  predicate SameOutputs(s: Settings, t: Settings) {
    t == s.(dqsIn := t.dqsIn, dqIn := t.dqIn, enPhase := t.enPhase, enDelay := t.enDelay, vfifo := t.vfifo)
  }

  function SpreadStep(c: Config): int
    requires c.dqPerDqs >= 2
  {
    c.ioInDelayMax / (c.dqPerDqs - 1)
  }

  /** The data delays of the enable search: equally spaced over the chain from 0 on. */
  function Spread(c: Config): (s: seq<int>)
    requires c.dqPerDqs >= 2
    ensures |s| == c.dqPerDqs && forall i | 0 <= i < |s| :: s[i] == i * SpreadStep(c)
    // It reaches to the end of the chain, but for a remainder of at most one less than the steps.
    ensures c.ioInDelayMax - (c.dqPerDqs - 2) <= s[c.dqPerDqs - 1] <= c.ioInDelayMax
  {
    seq(c.dqPerDqs, i => i * SpreadStep(c))
  }

  /** The pattern test fails at r, and again with every enable phase. */
  ghost predicate PatternsFail(c: Config, mem: Memory, r: Settings) {
    && (exists t: nat :: !mem.patterns(t, r))
    && forall p | 0 <= p <= c.dqsEnPhaseMax :: PatternFails(mem, r.(enPhase := p))
  }

  ghost predicate PatternFails(mem: Memory, r: Settings) {
    exists t: nat :: !mem.patterns(t, r)
  }

  ghost predicate PatternPasses(mem: Memory, r: Settings) {
    exists t: nat :: mem.patterns(t, r)
  }

  /** The pattern test passes at r, or with some enable phase. */
  ghost predicate PatternsPass(c: Config, mem: Memory, r: Settings) {
    PatternPasses(mem, r) || exists p | 0 <= p <= c.dqsEnPhaseMax :: PatternPasses(mem, r.(enPhase := p))
  }

  /** The enable search passed a test at r. */
  ghost predicate EnablePasses(c: Config, mem: Memory, r: Settings) {
    exists t: nat :: AnyBit(c, mem, t, r)
  }

  // ---------- one attempt: a strobe delay ----------

  /** The enable search from r fails; why is known if the memory is consistent there. */
  ghost predicate SearchFails(c: Config, mem: Memory, r: Settings)
    requires c.vfifoSize > 0
  {
    Consistent(c, mem, r) ==> EnableFails(c, mem, r)
  }

  /** With the strobe at `taps` and the data spread, the enable search fails. */
  ghost predicate EnableTryFails(c: Config, mem: Memory, base: Settings, taps: int)
    requires c.Valid()
  {
    exists r: Settings {:trigger SearchFails(c, mem, r)} ::
      SameOutputs(base, r) && r.dqsIn == taps && r.dqIn == Spread(c) && SearchFails(c, mem, r)
  }

  /** How an attempt fails: the enable search does, or the deskew, which finds a bit without a
      window, or margins that do not hold. */
  datatype Attempt = NotEnabled | NotSeen(bit: nat) | NotCentred {
    function Substage(): nat {
      if NotEnabled? then CAL_SUBSTAGE_DQS_EN_PHASE else CAL_SUBSTAGE_VFIFO_CENTER
    }
  }

  /** Sweeps of a read deskew from r fail in this way. */
  ghost predicate DeskewFailsAs(c: Config, mem: Memory, r: Settings, a: Attempt) {
    exists t: nat, es: seq<Edges> :: SweepsFailAs(Run(c, mem, Read, r, t), es, a)
  }

  ghost predicate SweepsFailAs(run: Run, es: seq<Edges>, a: Attempt) {
    && Swept(run, es) && !a.NotEnabled?
    && if a.NotSeen? then FirstWithoutWindow(run, es, a.bit) else AllHaveWindow(run, es) && !MarginsHold(run, es)
  }

  lemma {:induction false} FailsSomehow(c: Config, mem: Memory, r: Settings, a: Attempt)
    requires DeskewFailsAs(c, mem, r, a)
    ensures DeskewFails(c, mem, Read, r)
  {
    var t: nat, es: seq<Edges> :| SweepsFailAs(Run(c, mem, Read, r, t), es, a);
    assert FailedSweep(Run(c, mem, Read, r, t), es);
  }

  /** With the strobe at `taps` the enable search passes, but with it back at `start` the deskew
      fails. */
  ghost predicate DeskewTryFails(c: Config, mem: Memory, base: Settings, start: int, taps: int, a: Attempt)
    requires c.Valid()
  {
    exists r: Settings {:trigger DeskewFailsAs(c, mem, r, a)} ::
      && SameOutputs(base, r) && r.dqsIn == start && r.dqIn == Uniform(c.dqPerDqs, 0)
      && DeskewFailsAs(c, mem, r, a) && EnablePasses(c, mem, r.(dqsIn := taps, dqIn := Spread(c)))
  }

  /** The attempt at `taps` fails as told. With `skip` (the only rank is to be skipped) the strobe
      stays at `start` and nothing is deskewed. */
  ghost predicate AttemptFails(c: Config, mem: Memory, base: Settings, skip: bool, start: int, taps: int, a: Attempt)
    requires c.Valid()
  {
    if a.NotEnabled? then EnableTryFails(c, mem, base, if skip then start else taps)
    else !skip && DeskewTryFails(c, mem, base, start, taps, a)
  }

  /** With the data spread, the enable search sees an interval; and wherever it can end, at a
      setting where some test passes, the data windows fit. */
  ghost predicate AttemptFits(c: Config, mem: Memory, base: Settings, skip: bool, start: int)
    requires c.Valid()
  {
    && FitsInterval(c, mem, base.(dqsIn := start, dqIn := Spread(c)))
    && (skip || forall r: Settings {:trigger DeskewFits(c, mem, Read, r)} |
          && SameOutputs(base, r) && r.dqsIn == start && r.dqIn == Uniform(c.dqPerDqs, 0)
          && EnablePasses(c, mem, r.(dqIn := Spread(c))) :: DeskewFits(c, mem, Read, r))
  }

  // ---------- the loops over strobe delay, output phase and output delay ----------

  /** The search at one output phase: the strobe delay it started from and how its attempts
      failed. */
  datatype PhaseTry = PhaseTry(start: int, fails: seq<Attempt>)

  /** The attempts at the first strobe delays from `start` on failed in these ways. */
  ghost predicate StrobesFail(c: Config, mem: Memory, base: Settings, skip: bool, start: int, fails: seq<Attempt>)
    requires c.Valid()
  {
    forall i: nat | i < |fails| :: AttemptAt(c, mem, base, skip, start, fails, i)
  }

  ghost predicate AttemptAt(c: Config, mem: Memory, base: Settings, skip: bool, start: int, fails: seq<Attempt>, i: nat)
    requires c.Valid() && i < |fails|
  {
    AttemptFails(c, mem, base, skip, start, start + i, fails[i])
  }

  lemma OneMoreStrobe(c: Config, mem: Memory, base: Settings, skip: bool, start: int, fails: seq<Attempt>, taps: int,
                      a: Attempt)
    requires c.Valid() && StrobesFail(c, mem, base, skip, start, fails)
    requires taps == start + |fails| && AttemptFails(c, mem, base, skip, start, taps, a)
    ensures StrobesFail(c, mem, base, skip, start, fails + [a])
  {
    forall i: nat | i <= |fails| ensures AttemptAt(c, mem, base, skip, start, fails + [a], i) {
      assert i == |fails| || AttemptAt(c, mem, base, skip, start, fails, i);
    }
  }

  /** The attempts at all strobe delays from `start` on failed. */
  ghost predicate AllStrobesFail(c: Config, mem: Memory, base: Settings, skip: bool, t: PhaseTry)
    requires c.Valid()
  {
    && 0 <= t.start <= c.dqsInDelayMax && |t.fails| == c.dqsInDelayMax + 1 - t.start
    && StrobesFail(c, mem, base, skip, t.start, t.fails)
  }

  lemma AllStrobesTried(c: Config, mem: Memory, base: Settings, skip: bool, t: PhaseTry, before: nat)
    requires c.Valid() && StrobesFail(c, mem, base, skip, t.start, t.fails)
    requires 0 <= t.start <= c.dqsInDelayMax && |t.fails| == c.dqsInDelayMax + 1 - t.start
    ensures AllStrobesFail(c, mem, base, skip, t) && LastSubstage([t], before) == t.fails[|t.fails| - 1].Substage()
  {
  }

  /** The guaranteed read, if it is made, passed with the strobe at `start`. */
  ghost predicate GuaranteedPasses(c: Config, mem: Memory, base: Settings, m: Mode, start: int) {
    !m.guaranteed ||
    exists r: Settings {:trigger PatternsPass(c, mem, r)} ::
      SameOutputs(base, r) && r.dqsIn == start && PatternsPass(c, mem, r)
  }

  ghost predicate GuaranteedFails(c: Config, mem: Memory, base: Settings, m: Mode) {
    m.guaranteed &&
    exists r: Settings {:trigger PatternsFail(c, mem, r)} :: SameOutputs(base, r) && PatternsFail(c, mem, r)
  }

  /** At output phase p the guaranteed read passed, and all strobe delays failed. */
  ghost predicate PhaseAt(c: Config, mem: Memory, base: Settings, m: Mode, h: seq<PhaseTry>, p: nat)
    requires c.Valid() && p < |h|
  {
    && GuaranteedPasses(c, mem, base.(outPhase := p), m, h[p].start)
    && AllStrobesFail(c, mem, base.(outPhase := p), m.skip, h[p])
  }

  ghost predicate PhasesTried(c: Config, mem: Memory, base: Settings, m: Mode, h: seq<PhaseTry>)
    requires c.Valid()
  {
    forall p: nat | p < |h| :: PhaseAt(c, mem, base, m, h, p)
  }

  lemma {:induction false} OneMorePhase(c: Config, mem: Memory, base: Settings, m: Mode, h: seq<PhaseTry>, phase: nat,
                                        t: PhaseTry, before: nat)
    requires c.Valid() && PhasesTried(c, mem, base, m, h) && phase == |h|
    requires GuaranteedPasses(c, mem, base.(outPhase := phase), m, t.start)
    requires AllStrobesFail(c, mem, base.(outPhase := phase), m.skip, t)
    ensures PhasesTried(c, mem, base, m, h + [t])
    ensures LastSubstage(h + [t], before) == LastSubstage([t], before)
  {
    forall p: nat | p <= |h| ensures PhaseAt(c, mem, base, m, h + [t], p) {
      assert p == |h| || PhaseAt(c, mem, base, m, h, p);
    }
  }

  /** After that the guaranteed read fails, or there are no more output phases. */
  ghost predicate PhasesFail(c: Config, mem: Memory, base: Settings, m: Mode, h: seq<PhaseTry>)
    requires c.Valid()
  {
    && PhasesTried(c, mem, base, m, h)
    && (|h| == c.dqdqsOutPhaseMax + 1 ||
        (|h| <= c.dqdqsOutPhaseMax && GuaranteedFails(c, mem, base.(outPhase := |h|), m)))
  }

  /** The output side at output delay d of the search: at 0 as it was. */
  function Delayed(base: Settings, d: nat): Settings {
    if d == 0 then base else base.(dqsOut := d, octOut := d)
  }

  /** The search failed at output delays 0, 2 and so on. */
  ghost predicate DelaysFail(c: Config, mem: Memory, base: Settings, m: Mode, h: seq<seq<PhaseTry>>)
    requires c.Valid()
  {
    forall i: nat | i < |h| :: DelayAt(c, mem, base, m, h, i)
  }

  ghost predicate DelayAt(c: Config, mem: Memory, base: Settings, m: Mode, h: seq<seq<PhaseTry>>, i: nat)
    requires c.Valid() && i < |h|
  {
    PhasesFail(c, mem, Delayed(base, 2 * i), m, h[i])
  }

  /** The first search from s: the guaranteed read, if it is made, fails or passes right there,
      and the strobe starts where it is. */
  ghost predicate FirstTry(c: Config, mem: Memory, s: Settings, m: Mode, h: seq<PhaseTry>) {
    if h == [] then m.guaranteed && PatternsFail(c, mem, s.(outPhase := 0))
    else h[0].start == s.dqsIn && (m.guaranteed ==> PatternsPass(c, mem, s.(outPhase := 0)))
  }

  /** The search failed at the output delays so far, from the settings it found. */
  ghost predicate FailsSoFar(c: Config, mem: Memory, base: Settings, m: Mode, h: seq<seq<PhaseTry>>)
    requires c.Valid()
  {
    DelaysFail(c, mem, base, m, h) && (h == [] || FirstTry(c, mem, base, m, h[0]))
  }

  lemma {:induction false} OneMoreDelay(c: Config, mem: Memory, base: Settings, m: Mode, h: seq<seq<PhaseTry>>, d: nat,
                                        t: seq<PhaseTry>)
    requires c.Valid() && FailsSoFar(c, mem, base, m, h)
    requires d == 2 * |h| && PhasesFail(c, mem, Delayed(base, d), m, t)
    requires d == 0 ==> FirstTry(c, mem, base, m, t)
    ensures FailsSoFar(c, mem, base, m, h + [t])
    ensures Recorded(h + [t]) == LastSubstage(t, Recorded(h))
  {
    forall i: nat | i <= |h| ensures DelayAt(c, mem, base, m, h + [t], i) {
      assert i == |h| || DelayAt(c, mem, base, m, h, i);
    }
    assert (h + [t])[..|h|] == h;
  }

  /** The search fails at every second output delay up to a phase's worth. */
  ghost predicate VfifoFails(c: Config, mem: Memory, base: Settings, m: Mode, h: seq<seq<PhaseTry>>)
    requires c.Valid()
  {
    0 < |h| && c.delayPerOpaTap <= Times(2 * |h|, c.delayPerDqsEnTap) && FailsSoFar(c, mem, base, m, h)
  }

  /** The substage of the last attempt, or `before` if there was none. */
  function LastSubstage(h: seq<PhaseTry>, before: nat): nat {
    if h == [] || h[|h| - 1].fails == [] then before
    else var fails := h[|h| - 1].fails; fails[|fails| - 1].Substage()
  }

  /** The substage recorded in the end: the guaranteed read, until there is an attempt. */
  function Recorded(h: seq<seq<PhaseTry>>): nat {
    if h == [] then CAL_SUBSTAGE_GUARANTEED_READ
    else LastSubstage(h[|h| - 1], Recorded(h[..|h| - 1]))
  }

  /** The last substage is that of a failing attempt, so not the guaranteed read. */
  lemma {:induction false} LastIsAttempt(c: Config, mem: Memory, base: Settings, m: Mode, h: seq<PhaseTry>, before: nat)
    requires c.Valid() && PhasesTried(c, mem, base, m, h) && h != []
    ensures LastSubstage(h, before) != CAL_SUBSTAGE_GUARANTEED_READ
  {
    var n := |h| - 1;
    assert PhaseAt(c, mem, base, m, h, n);
    assert AttemptAt(c, mem, base.(outPhase := n), m.skip, h[n].start, h[n].fails, |h[n].fails| - 1);
  }

  /** The substage recorded is the guaranteed read if and only if nothing else was attempted at
      any output delay; it then failed at the first output phase each time. */
  lemma {:induction false} SubstageMeans(c: Config, mem: Memory, base: Settings, m: Mode, h: seq<seq<PhaseTry>>)
    requires c.Valid() && DelaysFail(c, mem, base, m, h)
    ensures Recorded(h) == CAL_SUBSTAGE_GUARANTEED_READ <==> AllEmpty(h)
    ensures forall i: nat | i < |h| && h[i] == [] :: GuaranteedFails(c, mem, Delayed(base, 2 * i).(outPhase := 0), m)
    decreases |h|
  {
    forall i: nat | i < |h| && h[i] == [] ensures GuaranteedFails(c, mem, Delayed(base, 2 * i).(outPhase := 0), m) {
      assert DelayAt(c, mem, base, m, h, i);
    }
    if h != [] {
      var n := |h| - 1;
      forall i: nat | i < n ensures DelayAt(c, mem, base, m, h[..n], i) {
        assert DelayAt(c, mem, base, m, h, i);
      }
      SubstageMeans(c, mem, base, m, h[..n]);
      assert DelayAt(c, mem, base, m, h, n);
      if h[n] != [] {
        LastIsAttempt(c, mem, Delayed(base, 2 * n), m, h[n], Recorded(h[..n]));
      }
      assert AllEmpty(h) <==> AllEmpty(h[..n]) && h[n] == [];
    }
  }

  /** The substage recorded is that of the last attempt of all. */
  lemma {:induction false} RecordedIsLast(h: seq<seq<PhaseTry>>, i: nat)
    requires i < |h| && h[i] != [] && forall j: nat | i < j < |h| :: h[j] == []
    requires h[i][|h[i]| - 1].fails != []
    ensures var fails := h[i][|h[i]| - 1].fails; Recorded(h) == fails[|fails| - 1].Substage()
    decreases |h|
  {
    if i < |h| - 1 {
      RecordedIsLast(h[..|h| - 1], i);
    }
  }

  ghost predicate AllEmpty(h: seq<seq<PhaseTry>>) {
    forall i | 0 <= i < |h| :: h[i] == []
  }

  /** A memory on which the first attempt succeeds: the guaranteed read passes, if need be with
      another enable phase, and the attempt fits. */
  ghost predicate VfifoFits(c: Config, mem: Memory, base: Settings, m: Mode)
    requires c.Valid()
  {
    && (m.guaranteed ==> !PatternsFail(c, mem, base.(outPhase := 0)))
    && AttemptFits(c, mem, base.(outPhase := 0), m.skip, base.dqsIn)
  }

  /** The interval does not depend on where the enable setting is at first. */
  lemma {:induction false} SameInterval(c: Config, mem: Memory, s: Settings, r: Settings)
    requires c.Valid() && OnlyEnableMoved(s, r) && FitsInterval(c, mem, s)
    ensures FitsInterval(c, mem, r)
  {
    forall x: int, phase: int, delay: int
      ensures s.(vfifo := x, enPhase := phase, enDelay := delay) == r.(vfifo := x, enPhase := phase, enDelay := delay)
      ensures WorksWith(c, mem, s, x, phase, delay) == WorksWith(c, mem, r, x, phase, delay)
    {
    }
    var a, b :| Wide(c, a, b) && WorksInInterval(c, mem, s, a, b);
    assert WorksInInterval(c, mem, r, a, b);
  }

  lemma {:induction false} FittingAttemptSucceeds(c: Config, mem: Memory, base: Settings, skip: bool, start: int,
                                                  a: Attempt)
    requires c.Valid() && 0 <= start <= c.dqsInDelayMax && AttemptFits(c, mem, base, skip, start)
    ensures !AttemptFails(c, mem, base, skip, start, start, a)
  {
    forall r: Settings | SameOutputs(base, r) && r.dqsIn == start && r.dqIn == Spread(c)
      ensures !SearchFails(c, mem, r)
    {
      SameInterval(c, mem, base.(dqsIn := start, dqIn := Spread(c)), r);
      IntervalSuffices(c, mem, r);
    }
    forall r: Settings |
      && !skip && SameOutputs(base, r) && r.dqsIn == start && r.dqIn == Uniform(c.dqPerDqs, 0)
      && EnablePasses(c, mem, r.(dqsIn := start, dqIn := Spread(c)))
      ensures !DeskewFailsAs(c, mem, r, a)
    {
      assert DeskewFits(c, mem, Read, r);
      FittingNeverFails(c, mem, Read, r);
      if DeskewFailsAs(c, mem, r, a) {
        FailsSomehow(c, mem, r, a);
      }
    }
  }

  /** On such a memory no search fails. */
  lemma {:induction false} FittingVfifoSucceeds(c: Config, mem: Memory, base: Settings, m: Mode, h: seq<seq<PhaseTry>>)
    requires c.Valid() && VfifoFits(c, mem, base, m)
    ensures !VfifoFails(c, mem, base, m, h)
  {
    if VfifoFails(c, mem, base, m, h) {
      assert DelayAt(c, mem, base, m, h, 0);
      if h[0] != [] {
        var t := h[0][0];
        assert PhaseAt(c, mem, base, m, h[0], 0);
        assert AttemptAt(c, mem, base.(outPhase := 0), m.skip, t.start, t.fails, 0);
        FittingAttemptSucceeds(c, mem, base.(outPhase := 0), m.skip, t.start, t.fails[0]);
      }
    }
  }

  lemma {:induction false} TriedIsPassed(c: Config, mem: Memory, base: Settings, m: Mode, h: seq<PhaseTry>)
    requires c.Valid() && m.guaranteed && PhasesTried(c, mem, base, m, h) && h != []
    ensures !NeverPatterns(mem)
  {
    assert PhaseAt(c, mem, base, m, h, 0);
  }

  /** If the guaranteed read is made and never passes, nothing else is attempted. */
  lemma {:induction false} NothingAttempted(c: Config, mem: Memory, base: Settings, m: Mode, h: seq<seq<PhaseTry>>)
    requires c.Valid() && m.guaranteed && NeverPatterns(mem) && VfifoFails(c, mem, base, m, h)
    ensures AllEmpty(h) && Recorded(h) == CAL_SUBSTAGE_GUARANTEED_READ
  {
    SubstageMeans(c, mem, base, m, h);
    forall i: nat | i < |h| ensures h[i] == [] {
      assert DelayAt(c, mem, base, m, h, i);
      if h[i] != [] {
        TriedIsPassed(c, mem, Delayed(base, 2 * i), m, h[i]);
      }
    }
  }

  /** If it is not made, every output phase is attempted, and it is never what is recorded. */
  lemma {:induction false} EveryPhaseAttempted(c: Config, mem: Memory, base: Settings, m: Mode,
                                               h: seq<seq<PhaseTry>>)
    requires c.Valid() && !m.guaranteed && VfifoFails(c, mem, base, m, h)
    ensures forall i: nat | i < |h| :: |h[i]| == c.dqdqsOutPhaseMax + 1
    ensures Recorded(h) != CAL_SUBSTAGE_GUARANTEED_READ
  {
    SubstageMeans(c, mem, base, m, h);
    forall i: nat | i < |h| ensures |h[i]| == c.dqdqsOutPhaseMax + 1 {
      assert DelayAt(c, mem, base, m, h, i);
    }
  }

  ghost predicate NeverPatterns(mem: Memory) {
    forall t: nat, r: Settings :: !mem.patterns(t, r)
  }
}
