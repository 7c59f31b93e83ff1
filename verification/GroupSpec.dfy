/** What calibrating one group comes to: the sweeps its registers and figures of merit are due
    to, why it failed, what success means, and which memories never fail. */
module GroupSpec {
  import opened Arith
  import opened Hardware
  import opened Sweep
  import opened Placement
  import opened Globals
  import opened ReadDeskew
  import opened WriteDeskew
  import opened AttemptSpec
  import DmSearch
  import RD = ReadDeskew
  import WD = WriteDeskew

  // ---------- deskews ----------

  /** The two sweeps of a deskew, and the edges they found. */
  datatype Sweeps = Sweeps(run: Run, es: seq<Edges>) {
    ghost predicate Succeeds() {
      AllHaveWindow(run, es) && MarginsHold(run, es)
    }

    /** What a deskew adds to a figure of merit: the least margin on either side, if every bit
        has a window. */
    ghost function Margins(): int {
      if AllHaveWindow(run, es) then MinLeft(run, es, |es|) + MinRight(run, es, |es|) else 0
    }
  }

  /** A deskew can start from `base`: the strobe is within its chain. */
  predicate Sweepable(c: Config, side: Side, base: Settings) {
    0 <= Dqs(side, base) <= DqsMax(c, side) && (side == Write ==> base.dqsOut == base.octOut)
  }

  /** w are sweeps from `base`. */
  ghost predicate SweptFrom(c: Config, mem: Memory, side: Side, base: Settings, w: Sweeps) {
    && w.run == Run(c, mem, side, base, w.run.t0) && Swept(w.run, w.es) && |w.es| == c.dqPerDqs
    && Sweepable(c, side, base)
  }

  /** How an attempt with a failing deskew failed. */
  ghost function FailureOf(w: Sweeps): Attempt {
    if AllHaveWindow(w.run, w.es) then NotCentred else NotSeen(FirstMissingBit(w.run, w.es))
  }

  lemma SweptFailsAs(c: Config, mem: Memory, base: Settings, w: Sweeps)
    requires SweptFrom(c, mem, Read, base, w) && !w.Succeeds()
    ensures DeskewFailsAs(c, mem, base, FailureOf(w))
  {
    assert SweepsFailAs(Run(c, mem, Read, base, w.run.t0), w.es, FailureOf(w));
  }

  lemma MarginBounds(w: Sweeps)
    requires w.Succeeds()
    ensures 0 <= w.Margins() <= 2 * w.run.Sentinel()
  {
    MinLeftIsLeast(w.run, w.es, |w.es|, w.run.Sentinel() + 1);
    MinRightIsLeast(w.run, w.es, |w.es|, w.run.Sentinel() + 1);
  }

  /** A group that is its write group's only read group has the whole sum as its share. */
  lemma WholeShare(run: Run, es: seq<Edges>)
    ensures FomShare(run, es, 1) == MinLeft(run, es, |es|) + MinRight(run, es, |es|)
  {
  }

  lemma {:induction false} FomShareBounds(w: Sweeps, share: nat)
    requires share > 0 && w.Succeeds()
    ensures 0 <= FomShare(w.run, w.es, share) <= 2 * w.run.Sentinel()
  {
    MarginBounds(w);
    QuotientBounds(w.Margins(), share, TruncDiv(w.Margins(), share));
  }

  lemma {:induction false} ProductGrows(q: nat, y: nat)
    requires y > 0
    ensures q * y >= q
  {
    if q > 0 {
      ProductGrows(q - 1, y);
      assert q * y == (q - 1) * y + y;
    }
  }

  lemma {:induction false} QuotientBounds(x: int, y: int, q: int)
    requires x >= 0 && y > 0 && q * y <= x < q * y + y
    ensures 0 <= q <= x
  {
    if q >= 0 {
      ProductGrows(q, y);
    }
  }

  /** The offset model holds for the group whatever its other settings are. */
  ghost predicate Modelled(c: Config, mem: Memory, side: Side) {
    forall base: Settings :: Separable(c, mem, side, base)
  }

  /** Under the offset model, success means that every bit passes at the settings left behind. */
  lemma {:induction false} SweptPasses(c: Config, mem: Memory, side: Side, base: Settings, w: Sweeps)
    requires c.Valid() && SweptFrom(c, mem, side, base, w) && w.Succeeds() && Separable(c, mem, side, base)
    ensures AllPass(c, mem, side, Placed(w.run, w.es))
  {
    SeparablePasses(w.run, w.es);
  }

  // ---------- read calibration ----------

  /** The strobe delays are within their chains, those of the output side alike. */
  predicate Orderly(c: Config, s: Settings) {
    0 <= s.dqsIn <= c.dqsInDelayMax && StrobesAgree(c, s)
  }

  predicate SameInputSide(s: Settings, t: Settings) {
    && s.dqsIn == t.dqsIn && s.dqIn == t.dqIn
    && s.enPhase == t.enPhase && s.enDelay == t.enDelay && s.vfifo == t.vfifo
  }

  /** s is where sweeps from an enable setting that works, with the strobe at `start`, have put
      strobe and data. */
  ghost predicate DeskewedTo(c: Config, mem: Memory, w: Sweeps, start: int, taps: int, s: Settings)
    requires c.Valid()
  {
    && SweptFrom(c, mem, Read, w.run.base, w) && w.Succeeds() && s == Placed(w.run, w.es)
    && w.run.base.dqsIn == start && EnablePasses(c, mem, w.run.base.(dqsIn := taps, dqIn := Spread(c)))
  }

  /** The input side of a group as a successful attempt at `taps` leaves it: the enable phase is
      usable, and the deskew from `start` succeeded with it. With `skip`, the only rank is to be
      skipped, and the strobe stays at `start` and nothing is deskewed. */
  ghost predicate ReadReady(c: Config, mem: Memory, s: Settings, skip: bool, start: int, taps: int)
    requires c.Valid()
  {
    && 1 <= s.enPhase
    && if skip then s.dqsIn == start && EnablePasses(c, mem, s.(dqIn := Spread(c)))
       else Deskewed(c, mem, s, start, taps)
  }

  ghost predicate Deskewed(c: Config, mem: Memory, s: Settings, start: int, taps: int)
    requires c.Valid()
  {
    exists w: Sweeps :: DeskewedTo(c, mem, w, start, taps, s)
  }

  /** Under the offset model every bit then reads correctly. */
  lemma {:induction false} ReadyReads(c: Config, mem: Memory, s: Settings, start: int, taps: int)
    requires c.Valid() && Deskewed(c, mem, s, start, taps) && Modelled(c, mem, Read)
    ensures AllPass(c, mem, Read, s)
  {
    var w: Sweeps :| DeskewedTo(c, mem, w, start, taps, s);
    SweptPasses(c, mem, Read, w.run.base, w);
  }

  /** After the failing attempts of t, the attempt at the next strobe delay led to s. */
  ghost predicate StrobeFound(c: Config, mem: Memory, base: Settings, skip: bool, t: PhaseTry, s: Settings)
    requires c.Valid()
  {
    && 0 <= t.start && t.start + |t.fails| <= c.dqsInDelayMax && SameOutputs(base, s)
    && StrobesFail(c, mem, base, skip, t.start, t.fails)
    && ReadReady(c, mem, s, skip, t.start, t.start + |t.fails|)
  }

  lemma LastStrobe(c: Config, mem: Memory, base: Settings, skip: bool, start: int, fails: seq<Attempt>, taps: int,
                   s: Settings)
    requires c.Valid() && StrobesFail(c, mem, base, skip, start, fails) && SameOutputs(base, s)
    requires 0 <= start && taps == start + |fails| <= c.dqsInDelayMax && ReadReady(c, mem, s, skip, start, taps)
    ensures StrobeFound(c, mem, base, skip, PhaseTry(start, fails), s)
  {
  }

  /** All but the last output phase in h failed, and the search at that one led to s: there the
      guaranteed read, if it is made, passed. */
  ghost predicate PhaseFound(c: Config, mem: Memory, base: Settings, m: Mode, h: seq<PhaseTry>, s: Settings)
    requires c.Valid()
  {
    h != [] && var n := |h| - 1;
    && n <= c.dqdqsOutPhaseMax && PhasesTried(c, mem, base, m, h[..n])
    && GuaranteedPasses(c, mem, base.(outPhase := n), m, h[n].start)
    && StrobeFound(c, mem, base.(outPhase := n), m.skip, h[n], s)
  }

  lemma {:induction false} PhaseReads(c: Config, mem: Memory, base: Settings, m: Mode, h: seq<PhaseTry>, s: Settings)
    requires c.Valid() && PhaseFound(c, mem, base, m, h, s) && !m.skip && Modelled(c, mem, Read)
    ensures AllPass(c, mem, Read, s)
  {
    var t := h[|h| - 1];
    ReadyReads(c, mem, s, t.start, t.start + |t.fails|);
  }

  lemma {:induction false} LastPhase(c: Config, mem: Memory, base: Settings, m: Mode, h: seq<PhaseTry>, phase: nat,
                                     t: PhaseTry, s: Settings)
    requires c.Valid() && PhasesTried(c, mem, base, m, h) && phase == |h| <= c.dqdqsOutPhaseMax
    requires GuaranteedPasses(c, mem, base.(outPhase := phase), m, t.start)
    requires StrobeFound(c, mem, base.(outPhase := phase), m.skip, t, s)
    ensures PhaseFound(c, mem, base, m, h + [t], s)
  {
    assert (h + [t])[..|h|] == h;
  }

  /** All but the last output delay in h failed, and the search at that one led to s. */
  ghost predicate FoundAt(c: Config, mem: Memory, start: Settings, m: Mode, h: seq<seq<PhaseTry>>, s: Settings)
    requires c.Valid()
  {
    h != [] && var n := |h| - 1;
    && FailsSoFar(c, mem, start, m, h[..n])
    && PhaseFound(c, mem, Delayed(start, 2 * n), m, h[n], s)
    && (n == 0 ==> FirstTry(c, mem, start, m, h[n]))
  }

  lemma {:induction false} LastDelay(c: Config, mem: Memory, start: Settings, m: Mode, h: seq<seq<PhaseTry>>, d: nat,
                                     t: seq<PhaseTry>, s: Settings)
    requires c.Valid() && FailsSoFar(c, mem, start, m, h) && d == 2 * |h|
    requires PhaseFound(c, mem, Delayed(start, d), m, t, s) && (d == 0 ==> FirstTry(c, mem, start, m, t))
    ensures FoundAt(c, mem, start, m, h + [t], s)
  {
    assert (h + [t])[..|h|] == h;
  }

  /** The output side of a group as the reset of its outputs leaves it. */
  function OutputsReset(c: Config, s: Settings): Settings {
    s.(dqOut := Uniform(c.dqPerDqs, 0), dmOut := 0, dqsOut := c.dqsOutReserve, octOut := c.dqsOutReserve)
  }

  /** The registers s after a successful read calibration from `start` that went as h tells: those
      that the search found, with the outputs reset if they were delayed. */
  ghost predicate ReadBy(c: Config, mem: Memory, start: Settings, m: Mode, h: seq<seq<PhaseTry>>, s: Settings)
    requires c.Valid()
  {
    && Orderly(c, s)
    && exists ready: Settings {:trigger FoundAt(c, mem, start, m, h, ready)} ::
         FoundAt(c, mem, start, m, h, ready) && s == if |h| > 1 then OutputsReset(c, ready) else ready
  }

  ghost predicate AfterRead(c: Config, mem: Memory, start: Settings, m: Mode, s: Settings)
    requires c.Valid()
  {
    exists h: seq<seq<PhaseTry>> :: ReadBy(c, mem, start, m, h, s)
  }

  /** The output side is then as at the start, or reset, but for its phase. */
  lemma {:induction false} AfterReadOutputs(c: Config, mem: Memory, start: Settings, m: Mode, s: Settings)
    requires c.Valid() && AfterRead(c, mem, start, m, s)
    ensures SameOutputs(start.(outPhase := s.outPhase), s) ||
            SameOutputs(OutputsReset(c, start).(outPhase := s.outPhase), s)
  {
    var h :| ReadBy(c, mem, start, m, h, s);
    var ready :| FoundAt(c, mem, start, m, h, ready) && s == if |h| > 1 then OutputsReset(c, ready) else ready;
    var n := |h| - 1;
    assert SameOutputs(Delayed(start, 2 * n).(outPhase := |h[n]| - 1), ready);
  }

  /** Under the offset model the input side reads every bit. */
  lemma {:induction false} AfterReadInputs(c: Config, mem: Memory, start: Settings, m: Mode, s: Settings)
    returns (ready: Settings)
    requires c.Valid() && AfterRead(c, mem, start, m, s) && !m.skip && Modelled(c, mem, Read)
    ensures AllPass(c, mem, Read, ready) && SameInputSide(ready, s)
  {
    var h :| ReadBy(c, mem, start, m, h, s);
    ready :| FoundAt(c, mem, start, m, h, ready) && s == if |h| > 1 then OutputsReset(c, ready) else ready;
    PhaseReads(c, mem, Delayed(start, 2 * (|h| - 1)), m, h[|h| - 1], ready);
  }

  /** A successful read calibration, if it makes the guaranteed read, has seen it pass. */
  lemma {:induction false} PatternsWerePassed(c: Config, mem: Memory, start: Settings, m: Mode, s: Settings)
    requires c.Valid() && AfterRead(c, mem, start, m, s) && m.guaranteed
    ensures !NeverPatterns(mem)
  {
    var h :| ReadBy(c, mem, start, m, h, s);
    var ready :| FoundAt(c, mem, start, m, h, ready);
  }

  // ---------- the outcome ----------

  /** How the calibration of a group ends: in a failing read calibration, without a deskew
      because the only rank is to be skipped, in a failing write deskew, in a failing read deskew
      after the writes, or calibrated. */
  datatype Outcome =
    | ReadFailed(tried: seq<seq<PhaseTry>>)
    | RankSkipped(tried: seq<seq<PhaseTry>>)
    | WriteFailed(tried: seq<seq<PhaseTry>>, writes: Sweeps, mask: MaskRun)
    | ReadAgainFailed(tried: seq<seq<PhaseTry>>, writes: Sweeps, mask: MaskRun, again: Sweeps)
    | Done(tried: seq<seq<PhaseTry>>, writes: Sweeps, mask: MaskRun, again: Sweeps)
  {
    ghost predicate Succeeds() {
      Done? || RankSkipped?
    }

    /** What it adds to the figure of merit of the inputs: the margins of the read deskew after
        the writes. */
    ghost function InMargins(): int {
      if Done? || ReadAgainFailed? then again.Margins() else 0
    }

    /** What it adds to the figure of merit of the outputs: the margins of the write deskew. */
    ghost function OutMargins(): int {
      if ReadFailed? || RankSkipped? then 0 else writes.Margins()
    }

    /** The last failure that it records for the group. */
    ghost function Reported(group: nat): Failure
      requires !Succeeds()
    {
      match this
      case ReadFailed(tried) => Failure(group, CAL_STAGE_VFIFO, AttemptSpec.Recorded(tried))
      case WriteFailed(_, _, _) => Failure(group, CAL_STAGE_WRITES, CAL_SUBSTAGE_WRITES_CENTER)
      case ReadAgainFailed(_, _, _, _) => Failure(group, CAL_STAGE_VFIFO_AFTER_WRITES, CAL_SUBSTAGE_VFIFO_CENTER)
    }
  }

  /** A write deskew from registers that read calibration left behind, and the registers s that
      it leaves behind. */
  ghost predicate Wrote(c: Config, mem: Memory, start: Settings, m: Mode, h: seq<seq<PhaseTry>>, w: Sweeps,
                        mask: MaskRun, s: Settings)
    requires c.Valid()
  {
    && SweptFrom(c, mem, Write, w.run.base, w) && ReadBy(c, mem, start, m, h, w.run.base)
    && WD.Settled(w.run, w.es, mask, s)
  }

  ghost predicate WriteSucceeds(w: Sweeps, mask: MaskRun) {
    w.Succeeds() && DmSearch.MaskMargin(mask.bgn, mask.end, mask.win) >= 0
  }

  /** A read deskew through write tests from the registers that a write deskew left behind. */
  ghost predicate ReadAgain(c: Config, mem: Memory, start: Settings, m: Mode, h: seq<seq<PhaseTry>>, w: Sweeps,
                            mask: MaskRun, r: Sweeps, s: Settings)
    requires c.Valid()
  {
    && Wrote(c, mem, start, m, h, w, mask, r.run.base) && WriteSucceeds(w, mask)
    && SweptFrom(c, mem, ReadAfterWrite, r.run.base, r) && RD.Settled(r.run, r.es, s)
  }

  /** The outcome o explains how calibrating a group from `start` led to the registers s. */
  ghost predicate Explains(c: Config, mem: Memory, m: Mode, start: Settings, o: Outcome, s: Settings)
    requires c.Valid()
  {
    match o
    case ReadFailed(h) => VfifoFails(c, mem, start, m, h)
    case RankSkipped(h) => m.skip && ReadBy(c, mem, start, m, h, s)
    case WriteFailed(h, w, mask) => !m.skip && Wrote(c, mem, start, m, h, w, mask, s) && !WriteSucceeds(w, mask)
    case ReadAgainFailed(h, w, mask, r) => !m.skip && ReadAgain(c, mem, start, m, h, w, mask, r, s) && !r.Succeeds()
    case Done(h, w, mask, r) => !m.skip && ReadAgain(c, mem, start, m, h, w, mask, r, s) && r.Succeeds()
  }

  /** If the guaranteed read is made and never passes, the group fails with it. */
  lemma {:induction false} PatternsNeeded(c: Config, mem: Memory, m: Mode, start: Settings, o: Outcome, s: Settings,
                                          group: nat)
    requires c.Valid() && Explains(c, mem, m, start, o, s) && m.guaranteed && NeverPatterns(mem)
    ensures !o.Succeeds() && o.Reported(group) == Failure(group, CAL_STAGE_VFIFO, CAL_SUBSTAGE_GUARANTEED_READ)
  {
    match o
    case ReadFailed(tried) => NothingAttempted(c, mem, start, m, tried);
    case RankSkipped(_) => PatternsWerePassed(c, mem, start, m, s);
    case WriteFailed(_, w, _) => PatternsWerePassed(c, mem, start, m, w.run.base);
    case ReadAgainFailed(_, w, _, _) => PatternsWerePassed(c, mem, start, m, w.run.base);
    case Done(_, w, _, _) => PatternsWerePassed(c, mem, start, m, w.run.base);
  }

  /** If it is not made, no failure is due to it. */
  lemma {:induction false} PatternsNotNeeded(c: Config, mem: Memory, m: Mode, start: Settings, o: Outcome, s: Settings,
                                             group: nat)
    requires c.Valid() && Explains(c, mem, m, start, o, s) && !m.guaranteed && !o.Succeeds()
    ensures o.Reported(group) != Failure(group, CAL_STAGE_VFIFO, CAL_SUBSTAGE_GUARANTEED_READ)
  {
    if o.ReadFailed? {
      EveryPhaseAttempted(c, mem, start, m, o.tried);
    }
  }

  // ---------- why writes fail, and what they leave ----------

  /** The mask answers every setting the same way each time. */
  ghost predicate MaskConsistent(mem: Memory) {
    forall t: nat, s: Settings :: mem.dmBits(t, s) == mem.dmBits(0, s)
  }

  /** The longest run of the mask, with the data placed somehow, has no setting to use. */
  ghost predicate MaskFails(c: Config, mem: Memory, base: Settings) {
    exists mask: MaskRun ::
      && mask.s == DmSearch.Search(c, mem, base.(dqOut := mask.s.base.dqOut)) && mask.Searched()
      && DmSearch.MaskMargin(mask.bgn, mask.end, mask.win) < 0
  }

  lemma {:induction false} WhyWritesFail(w: Sweeps, mask: MaskRun, s: Settings)
    requires w.run.c.Valid() && SweptFrom(w.run.c, w.run.mem, Write, w.run.base, w)
    requires WD.Settled(w.run, w.es, mask, s) && !WriteSucceeds(w, mask)
    ensures w.Succeeds() ==> MaskFails(w.run.c, w.run.mem, w.run.base)
    ensures !w.Succeeds() ==> DeskewFails(w.run.c, w.run.mem, Write, w.run.base)
  {
    if !w.Succeeds() {
      assert FailedSweep(w.run, w.es);
    } else {
      assert Placed(w.run, w.es) == w.run.base.(dqOut := Placed(w.run, w.es).dqOut);
    }
  }

  /** What a write deskew that found every window leaves in the registers. */
  lemma WritesPlaced(run: Run, es: seq<Edges>, mask: MaskRun, s: Settings)
    requires |es| > 0 && run.side == Write && AllHaveWindow(run, es)
    requires WD.Settled(run, es, mask, s) && Orderly(run.c, run.base)
    ensures Orderly(run.c, s) && SameInputSide(run.base, s)
    ensures s.(dmOut := run.base.dmOut) == Placed(run, es)
  {
  }

  /** The mask works wherever a search with a margin that is not negative has put it. */
  lemma {:induction false} MaskWorksAt(mask: MaskRun)
    requires mask.Searched() && mask.s.Deterministic()
    requires DmSearch.MaskMargin(mask.bgn, mask.end, mask.win) >= 0
    ensures forall t: nat :: mask.s.mem.dmBits(t, mask.s.base.(dmOut := DmSearch.MaskDelay(mask.bgn, mask.end)))
  {
    var mid := DmSearch.MaskDelay(mask.bgn, mask.end);
    DmSearch.MaskPlacement(mask.s, mask.s.Last(), mask.bgn, mask.end, mask.win);
    assert mask.s.Pass(0 - mid) && mask.s.At(0 - mid) == mask.s.base.(dmOut := mid);
  }

  /** A successful write deskew leaves every bit written, under the offset model, and a
      consistent mask working; a failing one has swept, or searched, in vain. */
  lemma {:induction false} WritesMean(w: Sweeps, mask: MaskRun, s: Settings)
    requires w.run.c.Valid() && SweptFrom(w.run.c, w.run.mem, Write, w.run.base, w)
    requires WD.Settled(w.run, w.es, mask, s) && Orderly(w.run.c, w.run.base)
    ensures WriteSucceeds(w, mask) ==> Orderly(w.run.c, s) && SameInputSide(w.run.base, s)
    ensures WriteSucceeds(w, mask) && Modelled(w.run.c, w.run.mem, Write) ==>
      AllPass(w.run.c, w.run.mem, Write, s.(dmOut := w.run.base.dmOut))
    ensures !WriteSucceeds(w, mask) ==>
      DeskewFails(w.run.c, w.run.mem, Write, w.run.base) || MaskFails(w.run.c, w.run.mem, w.run.base)
  {
    if WriteSucceeds(w, mask) {
      WritesPlaced(w.run, w.es, mask, s);
      if Modelled(w.run.c, w.run.mem, Write) {
        SweptPasses(w.run.c, w.run.mem, Write, w.run.base, w);
      }
    } else {
      WhyWritesFail(w, mask, s);
    }
  }

  // ---------- what success means ----------

  /** The largest figure of merit one group can add. */
  function FomLimit(c: Config): nat {
    2 * (Max(c.ioInDelayMax, c.ioOut1DelayMax) + 1)
  }

  lemma {:induction false} SweptMargins(c: Config, mem: Memory, side: Side, base: Settings, w: Sweeps)
    requires SweptFrom(c, mem, side, base, w) && w.Succeeds()
    ensures 0 <= w.Margins() <= FomLimit(c)
  {
    MarginBounds(w);
  }

  lemma {:induction false} MarginsWithin(c: Config, mem: Memory, m: Mode, start: Settings, o: Outcome, s: Settings)
    requires c.Valid() && Explains(c, mem, m, start, o, s) && o.Succeeds()
    ensures 0 <= o.InMargins() <= FomLimit(c) && 0 <= o.OutMargins() <= FomLimit(c)
  {
    if o.Done? {
      SweptMargins(c, mem, Write, o.writes.run.base, o.writes);
      SweptMargins(c, mem, ReadAfterWrite, o.again.run.base, o.again);
    }
  }

  /** Besides, a mask that works at some input delays works at all those at which every written
      bit is read back. */
  ghost predicate MaskModelled(c: Config, mem: Memory) {
    && MaskConsistent(mem)
    && forall s: Settings, x: int, q: seq<int> |
         mem.dmBits(0, s) && AllPass(c, mem, ReadAfterWrite, s.(dqsIn := x, dqIn := q)) ::
         mem.dmBits(0, s.(dqsIn := x, dqIn := q))
  }

  /** What a calibrated group guarantees at the settings in its registers: if its memory fits
      the offset model, every bit of every write test passes; if besides its mask does not
      depend on the input delays as long as every bit is read back, the mask works. */
  ghost predicate Calibrated(c: Config, mem: Memory, regs: Settings) {
    Modelled(c, mem, ReadAfterWrite) ==>
      AllPass(c, mem, ReadAfterWrite, regs) && (MaskModelled(c, mem) ==> forall t: nat :: mem.dmBits(t, regs))
  }

  /** The mask keeps working through the read deskew after the writes. */
  lemma {:induction false} MaskSurvives(c: Config, mem: Memory, start: Settings, m: Mode, h: seq<seq<PhaseTry>>,
                                        w: Sweeps, mask: MaskRun, r: Sweeps, s: Settings)
    requires c.Valid() && ReadAgain(c, mem, start, m, h, w, mask, r, s) && r.Succeeds()
    requires AllPass(c, mem, ReadAfterWrite, s) && MaskModelled(c, mem)
    ensures forall t: nat :: mem.dmBits(t, s)
  {
    MaskWorksAt(mask);
    var before := r.run.base;
    assert mem.dmBits(0, before);
    assert s == before.(dqsIn := s.dqsIn, dqIn := s.dqIn);
    assert mem.dmBits(0, s);
  }

  lemma {:induction false} DoneIsCalibrated(c: Config, mem: Memory, m: Mode, start: Settings, o: Outcome, s: Settings)
    requires c.Valid() && o.Done? && Explains(c, mem, m, start, o, s)
    ensures Calibrated(c, mem, s)
  {
    if Modelled(c, mem, ReadAfterWrite) {
      SweptPasses(c, mem, ReadAfterWrite, o.again.run.base, o.again);
      if MaskModelled(c, mem) {
        MaskSurvives(c, mem, start, m, o.tried, o.writes, o.mask, o.again, s);
      }
    }
  }

  // ---------- memories that fit ----------

  /** The offsets at which the mask works are those of m; there are some, and they begin at or
      before 0. */
  ghost predicate MaskWindow(s: DmSearch.Search, m: Window) {
    && !m.Empty() && s.First() <= m.b && m.a <= 0 <= s.Last()
    && forall t: nat, x: int | s.First() <= x <= s.Last() :: s.mem.dmBits(t, s.At(x)) == m.Has(x)
  }

  /** Wherever the data are put so that every bit is written, the mask has such a window. */
  ghost predicate MaskFits(c: Config, mem: Memory, base: Settings) {
    forall q: seq<int> | |q| == c.dqPerDqs && AllPass(c, mem, Write, base.(dqOut := q)) ::
      exists m :: MaskWindow(DmSearch.Search(c, mem, base.(dqOut := q)), m)
  }

  lemma {:induction false} FittingMaskFound(mask: MaskRun, m: Window)
    requires mask.Searched() && MaskWindow(mask.s, m)
    ensures mask.s.Deterministic() && DmSearch.MaskMargin(mask.bgn, mask.end, mask.win) >= 0
  {
    var s := mask.s;
    var lo, hi := Max(m.a, s.First()), Min(m.b, s.Last());
    forall t: nat, x: int | s.First() <= x <= s.Last()
      ensures s.mem.dmBits(t, s.At(x)) == s.Pass(x) && s.Pass(x) == m.Has(x)
    {
      assert s.mem.dmBits(t, s.At(x)) == m.Has(x) == s.mem.dmBits(0, s.At(x));
    }
    assert s.Passing(lo, hi);
    assert s.Pass(mask.bgn) && s.Pass(mask.end);
    DmSearch.MaskPlacement(s, s.Last(), mask.bgn, mask.end, mask.win);
  }

  /** The registers s after a successful write calibration: every bit is written, and the mask
      works. */
  ghost predicate AfterWrites(c: Config, mem: Memory, start: Settings, m: Mode, s: Settings)
    requires c.Valid()
  {
    exists base: Settings :: WrittenFrom(c, mem, start, m, base, s)
  }

  ghost predicate WrittenFrom(c: Config, mem: Memory, start: Settings, m: Mode, base: Settings, s: Settings)
    requires c.Valid()
  {
    && AfterRead(c, mem, start, m, base) && s == base.(dqOut := s.dqOut, dmOut := s.dmOut)
    && |s.dqOut| == c.dqPerDqs && AllPass(c, mem, Write, base.(dqOut := s.dqOut))
    && forall t: nat :: mem.dmBits(t, s)
  }

  /** A memory on which the calibration of a group from `start` succeeds: its read calibration
      does, and wherever that and the writes can end, the windows of the next step fit. */
  ghost predicate GroupFits(c: Config, mem: Memory, m: Mode, start: Settings)
    requires c.Valid()
  {
    && VfifoFits(c, mem, start, m)
    && (!m.skip ==>
        (forall s: Settings | AfterRead(c, mem, start, m, s) ::
              DeskewFits(c, mem, Write, s) && MaskFits(c, mem, s))
        && (forall s: Settings | AfterWrites(c, mem, start, m, s) :: DeskewFits(c, mem, ReadAfterWrite, s)))
  }

  /** Under the offset model with windows that fit, sweeps succeed, and leave every bit passing. */
  lemma {:induction false} FittingSweeps(c: Config, mem: Memory, side: Side, base: Settings, w: Sweeps)
    requires c.Valid() && SweptFrom(c, mem, side, base, w) && DeskewFits(c, mem, side, base)
    ensures w.Succeeds() && AllPass(c, mem, side, Placed(w.run, w.es))
  {
    FittingSucceeds(w.run, w.es);
    SweptPasses(c, mem, side, base, w);
  }

  /** The write deskew of such a memory succeeds. */
  lemma {:induction false} FittingWrites(c: Config, mem: Memory, m: Mode, start: Settings, h: seq<seq<PhaseTry>>,
                                         w: Sweeps, mask: MaskRun, s: Settings)
    requires c.Valid() && !m.skip && GroupFits(c, mem, m, start) && Wrote(c, mem, start, m, h, w, mask, s)
    ensures WriteSucceeds(w, mask) && AfterWrites(c, mem, start, m, s)
  {
    var base := w.run.base;
    FittingSweeps(c, mem, Write, base, w);
    var q := NewDqList(w.run, w.es);
    assert Placed(w.run, w.es) == base.(dqOut := q);
    var window :| MaskWindow(DmSearch.Search(c, mem, base.(dqOut := q)), window);
    FittingMaskFound(mask, window);
    MaskWorksAt(mask);
    assert s.dqOut == q && WrittenFrom(c, mem, start, m, base, s);
  }

  /** No calibration of such a group fails. */
  lemma {:induction false} FittingGroupSucceeds(c: Config, mem: Memory, m: Mode, start: Settings, o: Outcome,
                                                s: Settings)
    requires c.Valid() && GroupFits(c, mem, m, start) && Explains(c, mem, m, start, o, s)
    ensures o.Succeeds()
  {
    match o
    case ReadFailed(tried) => FittingVfifoSucceeds(c, mem, start, m, tried);
    case WriteFailed(h, w, mask) => FittingWrites(c, mem, m, start, h, w, mask, s);
    case ReadAgainFailed(h, w, mask, r) =>
      FittingWrites(c, mem, m, start, h, w, mask, r.run.base);
      FittingSweeps(c, mem, ReadAfterWrite, r.run.base, r);
    case _ =>
  }
}
