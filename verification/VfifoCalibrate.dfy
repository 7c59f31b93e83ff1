/** Read-side calibration of a group, its repetition after the writes, and the reset of the
    group's settings. */
module VfifoCalibrate {
  import opened Arith
  import opened Hardware
  import opened Sweep
  import opened Placement
  import opened Deskew
  import opened Globals
  import opened WriteDeskew
  import opened ReadDeskew
  import opened DqsEnable
  import opened EnableSpec
  import opened FindDqsEn
  import opened AttemptSpec
  import opened GroupSpec
  import opened RecordSpec
  import RD = ReadDeskew
  import WD = WriteDeskew

  /** Resets the output side of a group, and unless told otherwise the data inputs. */
  method ZeroGroup(g: DqsGroup, outOnly: bool)
    requires g.Valid()
    modifies g
    ensures g.Stepped() && g.tests == old(g.tests) && g.phaseZeroStores == old(g.phaseZeroStores)
    ensures g.regs == old(g.regs).(
      dqOut := Uniform(g.c.dqPerDqs, 0),
      dqIn := if outOnly then old(g.regs).dqIn else Uniform(g.c.dqPerDqs, 0),
      dmOut := 0, dqsOut := g.c.dqsOutReserve, octOut := g.c.dqsOutReserve)
  {
    ApplyGroupDq(g, Write, 0);
    if !outOnly {
      ApplyGroupDq(g, Read, 0);
    }
    g.SetGroupDmOut1Delay(0);
    g.SetDqsIoAndOctOut1(g.c.dqsOutReserve);
  }

  /** Delays the whole output side by d. There is no second output chain in this family, so
      only the strobe and the termination take the delay. */
  method AddOutputDelay(g: DqsGroup, d: nat)
    requires g.Valid() && d <= g.c.ioOut1DelayMax
    modifies g
    ensures g.Stepped() && g.tests == old(g.tests) && g.phaseZeroStores == old(g.phaseZeroStores)
    ensures g.regs == old(g.regs).(dqsOut := d, octOut := d)
  {
    g.SetDqsIoAndOctOut1(d);
  }

  method PatternTest(g: DqsGroup) returns (pass: bool)
    requires g.Valid()
    modifies g
    ensures g.Stepped() && g.regs == old(g.regs) && g.tests == old(g.tests) + 1
    ensures g.phaseZeroStores == old(g.phaseZeroStores)
    ensures pass == g.mem.patterns(old(g.tests), g.regs)
  {
    pass := g.mem.patterns(g.tests, g.regs);
    g.tests := g.tests + 1;
  }

  /** The guaranteed read. If it fails it is retried with every enable phase, phase 0 too. */
  method GuaranteedRead(g: DqsGroup) returns (pass: bool)
    requires g.Valid()
    modifies g
    ensures g.Stepped() && g.regs == old(g.regs).(enPhase := g.regs.enPhase)
    ensures pass ==> g.tests > old(g.tests) && g.mem.patterns(g.tests - 1, g.regs)
    ensures pass ==> PatternsPass(g.c, g.mem, old(g.regs))
    // It passes at once, or else with the first enable phase with which it passes.
    ensures pass && g.tests == old(g.tests) + 1 ==> g.regs == old(g.regs)
    ensures pass && g.tests != old(g.tests) + 1 ==>
      && PatternFails(g.mem, old(g.regs)) && 0 <= g.regs.enPhase <= g.c.dqsEnPhaseMax
      && forall q | 0 <= q < g.regs.enPhase :: PatternFails(g.mem, old(g.regs).(enPhase := q))
    ensures !pass ==> PatternsFail(g.c, g.mem, old(g.regs))
  {
    pass := PatternTest(g);
    if pass {
      return;
    }
    var p := 0;
    while p <= g.c.dqsEnPhaseMax
      invariant p <= g.c.dqsEnPhaseMax + 1 && !pass && g.tests == old(g.tests) + 1 + p
      invariant g.Stepped() && g.regs == old(g.regs).(enPhase := g.regs.enPhase)
      invariant forall q | 0 <= q < p :: PatternFails(g.mem, old(g.regs).(enPhase := q))
    {
      g.SetDqsEnPhase(p);
      pass := PatternTest(g);
      if pass {
        return;
      }
      p := p + 1;
    }
  }

  /** Spreads the data inputs over their chain. */
  method SpreadInputs(g: DqsGroup)
    requires g.Valid()
    modifies g
    ensures g.Stepped() && g.tests == old(g.tests) && g.phaseZeroStores == old(g.phaseZeroStores)
    ensures g.regs == old(g.regs).(dqIn := Spread(g.c))
  {
    var n := g.c.dqPerDqs;
    var step := g.c.ioInDelayMax / (n - 1);
    assert step * (n - 1) <= g.c.ioInDelayMax;
    var d := 0;
    for i := 0 to n
      invariant g.Stepped() && g.tests == old(g.tests) && g.phaseZeroStores == old(g.phaseZeroStores)
      invariant d == i * step && g.regs == old(g.regs).(dqIn := g.regs.dqIn)
      invariant forall j | 0 <= j < i :: g.regs.dqIn[j] == j * step
    {
      StepFits(i, n, step);
      g.SetDqInDelay(i, d);
      d := d + step;
    }
  }

  /** The DQS-enable search with the data inputs spread over their chain, since the data path
      is shorter than the strobe's; they are back at 0 afterwards. */
  method FindDqsEnSpread(g: DqsGroup) returns (found: bool, measured: bool, dtaps: int)
    requires g.Valid()
    modifies g
    ensures g.Stepped() && g.phaseZeroStores == old(g.phaseZeroStores)
    ensures OnlyEnableMoved(old(g.regs).(dqIn := Uniform(g.c.dqPerDqs, 0)), g.regs)
    ensures measured ==> 1 <= dtaps <= g.c.dqsEnDelayMax
    ensures found ==> measured && 1 <= g.regs.enPhase && EnablePasses(g.c, g.mem, g.regs.(dqIn := Spread(g.c)))
    ensures !found ==> SearchFails(g.c, g.mem, old(g.regs).(dqIn := Spread(g.c)))
    ensures measured && Consistent(g.c, g.mem, old(g.regs).(dqIn := Spread(g.c))) ==>
      DtapsMeasured(g.c, g.mem, old(g.regs).(dqIn := Spread(g.c)), dtaps)
  {
    SpreadInputs(g);
    var v;
    ghost var s, k;
    found, measured, dtaps, v, s, k := FindDqsEnPhase(g);
    ghost var searched := g.regs;
    ApplyGroupDq(g, Read, 0);
    assert g.regs.(dqIn := Spread(g.c)) == searched;
  }

  lemma StepFits(i: nat, n: nat, step: nat)
    requires i < n
    ensures i * step <= step * (n - 1)
  {
  }

  /** A deskew together with what its success means, and why it may fail. */
  method DeskewInputs(g: DqsGroup, gbl: Gbl, readGroup: nat, side: Side, updateFom: bool, share: nat)
    returns (ok: bool, ghost w: Sweeps)
    requires g.Valid() && gbl.Valid() && side != Write && share > 0 && 0 <= g.regs.dqsIn <= g.c.dqsInDelayMax
    modifies g, gbl
    ensures g.Stepped() && gbl.Stepped() && g.phaseZeroStores == old(g.phaseZeroStores)
    ensures g.regs == old(g.regs).(dqsIn := g.regs.dqsIn, dqIn := g.regs.dqIn)
    ensures 0 <= g.regs.dqsIn <= g.c.dqsInDelayMax
    ensures SweptFrom(g.c, g.mem, side, old(g.regs), w) && RD.Settled(w.run, w.es, g.regs)
    ensures ok == w.Succeeds()
    ensures ok && Modelled(g.c, g.mem, side) ==> AllPass(g.c, g.mem, side, g.regs)
    ensures !ok ==> DeskewFails(g.c, g.mem, side, old(g.regs))
    ensures gbl.failures == old(gbl.failures) + SweepRecords(FirstPin(g.c, readGroup), w)
    ensures gbl.fomOutSum == old(gbl.fomOutSum)
    ensures gbl.fomInSum == old(gbl.fomInSum) +
      if updateFom && AllHaveWindow(w.run, w.es) then FomShare(w.run, w.es, share) else 0
  {
    ghost var run, es, missing;
    ok, run, es, missing := VfifoCenter(g, gbl, readGroup, side, updateFom, share);
    w := Sweeps(run, es);
    PlacedInRange(run, es);
    if !AllHaveWindow(run, es) {
      RecordsMissing(FirstPin(g.c, readGroup), w, missing);
    }
    if !ok {
      assert FailedSweep(run, es);
    } else if Modelled(g.c, g.mem, side) {
      SweptPasses(g.c, g.mem, side, run.base, w);
    }
  }

  /** Read calibration leaves the strobe delays in order and within their chains. */
  ghost predicate InOrder(g: DqsGroup)
    reads g
  {
    Orderly(g.c, g.regs)
  }

  ghost predicate ReadSubstage(sub: nat) {
    CAL_SUBSTAGE_GUARANTEED_READ <= sub <= CAL_SUBSTAGE_VFIFO_CENTER
  }

  /** How a group's read calibration is done. */
  ghost function ModeOf(gbl: Gbl, skip: bool): Mode
    reads gbl
  {
    Mode(skip, !gbl.disableGuaranteedRead)
  }

  /** One strobe delay of the search: the enable search, then the deskew from `start`. */
  method TryStrobe(g: DqsGroup, gbl: Gbl, readGroup: nat, skip: bool, share: nat, start: int, taps: int, failed: nat,
                   ghost base: Settings)
    returns (calibrated: bool, failed': nat, ghost a: Attempt)
    requires g.Valid() && gbl.Valid() && share > 0 && InOrder(g) && ReadSubstage(failed)
    requires 0 <= start <= taps <= g.c.dqsInDelayMax && SameOutputs(base, g.regs) && (skip ==> g.regs.dqsIn == start)
    modifies g, gbl
    ensures g.Stepped() && gbl.Stepped() && gbl.SameFom()
    ensures InOrder(g) && ReadSubstage(failed') && SameOutputs(base, g.regs) && (skip ==> g.regs.dqsIn == start)
    ensures calibrated ==> ReadReady(g.c, g.mem, g.regs, skip, start, taps) && gbl.failures == old(gbl.failures)
    ensures !calibrated ==> failed' == a.Substage() && AttemptFails(g.c, g.mem, base, skip, start, taps, a)
    ensures !calibrated ==> gbl.failures == old(gbl.failures) + AttemptRecords(g.c, readGroup, a)
  {
    if !skip {
      g.SetDqsBusInDelay(taps);
    }
    calibrated, failed', a := true, failed, NotEnabled;
    ghost var spread := g.regs.(dqIn := Spread(g.c));
    var found, measured, dtaps := FindDqsEnSpread(g);
    if !found {
      calibrated, failed' := false, CAL_SUBSTAGE_DQS_EN_PHASE;
      assert SameOutputs(base, spread) && SearchFails(g.c, g.mem, spread);
    } else if !skip {
      calibrated, a := TryDeskew(g, gbl, readGroup, share, start, taps, base);
      if !calibrated {
        failed' := CAL_SUBSTAGE_VFIFO_CENTER;
      }
    }
  }

  /** The deskew of an attempt, with the strobe, at which the enable search passed, back at
      `start`. */
  method TryDeskew(g: DqsGroup, gbl: Gbl, readGroup: nat, share: nat, start: int, taps: int, ghost base: Settings)
    returns (ok: bool, ghost a: Attempt)
    requires g.Valid() && gbl.Valid() && share > 0 && InOrder(g) && 0 <= start <= g.c.dqsInDelayMax
    requires SameOutputs(base, g.regs) && g.regs.dqsIn == taps && g.regs.dqIn == Uniform(g.c.dqPerDqs, 0)
    requires 1 <= g.regs.enPhase && EnablePasses(g.c, g.mem, g.regs.(dqIn := Spread(g.c)))
    modifies g, gbl
    ensures g.Stepped() && gbl.Stepped() && gbl.SameFom() && InOrder(g) && SameOutputs(base, g.regs)
    ensures ok ==> ReadReady(g.c, g.mem, g.regs, false, start, taps) && gbl.failures == old(gbl.failures)
    ensures !ok ==> !a.NotEnabled? && DeskewTryFails(g.c, g.mem, base, start, taps, a)
    ensures !ok ==> gbl.failures == old(gbl.failures) + AttemptRecords(g.c, readGroup, a)
  {
    ghost var passed := g.regs.(dqIn := Spread(g.c));
    g.SetDqsBusInDelay(start);
    ghost var r := g.regs;
    assert r.(dqsIn := taps, dqIn := Spread(g.c)) == passed;
    ghost var w;
    ok, w := DeskewInputs(g, gbl, readGroup, Read, false, share);
    a := FailureOf(w);
    if ok {
      assert DeskewedTo(g.c, g.mem, w, start, taps, g.regs);
    } else {
      SweptFailsAs(g.c, g.mem, r, w);
    }
  }

  /** The next strobe delay, after those at which the attempts failed as `before` tells. */
  method NextStrobe(g: DqsGroup, gbl: Gbl, readGroup: nat, skip: bool, share: nat, start: int, taps: int, failed: nat,
                    ghost base: Settings, ghost before: seq<Attempt>, ghost first: seq<Failure>)
    returns (calibrated: bool, failed': nat, ghost fails: seq<Attempt>)
    requires g.Valid() && gbl.Valid() && share > 0 && InOrder(g) && ReadSubstage(failed)
    requires 0 <= start <= taps <= g.c.dqsInDelayMax && SameOutputs(base, g.regs) && (skip ==> g.regs.dqsIn == start)
    requires taps == start + |before| && StrobesFail(g.c, g.mem, base, skip, start, before)
    requires gbl.failures == first + StrobeRecords(g.c, readGroup, before)
    modifies g, gbl
    ensures g.Stepped() && gbl.Stepped() && gbl.SameFom()
    ensures InOrder(g) && ReadSubstage(failed') && SameOutputs(base, g.regs) && (skip ==> g.regs.dqsIn == start)
    ensures calibrated ==> fails == before && StrobeFound(g.c, g.mem, base, skip, PhaseTry(start, fails), g.regs)
    ensures !calibrated ==> StrobesFail(g.c, g.mem, base, skip, start, fails)
    ensures !calibrated ==> |fails| == |before| + 1 && failed' == fails[|before|].Substage()
    ensures gbl.failures == first + StrobeRecords(g.c, readGroup, fails)
  {
    ghost var a;
    calibrated, failed', a := TryStrobe(g, gbl, readGroup, skip, share, start, taps, failed, base);
    fails := before;
    if calibrated {
      LastStrobe(g.c, g.mem, base, skip, start, before, taps, g.regs);
    } else {
      OneMoreStrobe(g.c, g.mem, base, skip, start, before, taps, a);
      StrobeRecordsAdd(g.c, readGroup, first, before, a);
      fails := before + [a];
    }
  }

  /** The inner search of a group's read calibration: raise the strobe's input delay from its
      present value until the enable search and the deskew succeed. If nothing does, the
      strobe is left where the search ended. `tried` are the attempts that failed. */
  method SearchStrobe(g: DqsGroup, gbl: Gbl, readGroup: nat, skip: bool, share: nat, failed: nat,
                      ghost base: Settings)
    returns (calibrated: bool, failed': nat, ghost tried: PhaseTry)
    requires g.Valid() && gbl.Valid() && share > 0 && InOrder(g) && ReadSubstage(failed) && SameOutputs(base, g.regs)
    modifies g, gbl
    ensures g.Stepped() && gbl.Stepped() && gbl.SameFom()
    ensures InOrder(g) && ReadSubstage(failed') && SameOutputs(base, g.regs)
    ensures calibrated ==> StrobeFound(g.c, g.mem, base, skip, tried, g.regs)
    // Giving up means that at every strobe delay from the present one on the attempt failed.
    ensures tried.start == old(g.regs.dqsIn)
    ensures !calibrated ==> tried.fails != [] && failed' == LastSubstage([tried], failed)
    ensures !calibrated ==> AllStrobesFail(g.c, g.mem, base, skip, tried)
    ensures gbl.failures == old(gbl.failures) + StrobeRecords(g.c, readGroup, tried.fails)
  {
    var start := g.regs.dqsIn;
    var taps := start;
    calibrated, failed' := false, failed;
    ghost var fails: seq<Attempt> := [];
    while taps <= g.c.dqsInDelayMax && !calibrated
      invariant start <= taps <= g.c.dqsInDelayMax + 1
      invariant g.Stepped() && gbl.Stepped() && gbl.SameFom()
      invariant InOrder(g) && ReadSubstage(failed') && SameOutputs(base, g.regs) && (skip ==> g.regs.dqsIn == start)
      invariant taps == start + |fails| + if calibrated then 1 else 0
      invariant calibrated ==> StrobeFound(g.c, g.mem, base, skip, PhaseTry(start, fails), g.regs)
      invariant !calibrated ==> StrobesFail(g.c, g.mem, base, skip, start, fails)
      invariant !calibrated && fails != [] ==> failed' == fails[|fails| - 1].Substage()
      invariant gbl.failures == old(gbl.failures) + StrobeRecords(g.c, readGroup, fails)
      decreases g.c.dqsInDelayMax + 1 - taps
    {
      calibrated, failed', fails := NextStrobe(g, gbl, readGroup, skip, share, start, taps, failed', base, fails,
                                               old(gbl.failures));
      taps := taps + 1;
    }
    tried := PhaseTry(start, fails);
    if !calibrated {
      AllStrobesTried(g.c, g.mem, base, skip, tried, failed);
    }
  }

  /** One output phase: the guaranteed read, unless disabled, and all strobe delays. */
  method TryPhase(g: DqsGroup, gbl: Gbl, readGroup: nat, skip: bool, share: nat, p: nat, failed: nat,
                  ghost base: Settings, ghost m: Mode)
    returns (guaranteed: bool, calibrated: bool, failed': nat, ghost tried: PhaseTry)
    requires g.Valid() && gbl.Valid() && share > 0 && InOrder(g) && ReadSubstage(failed) && m == ModeOf(gbl, skip)
    requires p <= g.c.dqdqsOutPhaseMax && SameOutputs(base.(outPhase := g.regs.outPhase), g.regs)
    modifies g, gbl
    ensures g.Stepped() && gbl.Stepped() && gbl.SameFom()
    ensures InOrder(g) && ReadSubstage(failed') && SameOutputs(base.(outPhase := p), g.regs)
    ensures !guaranteed ==> !calibrated && failed' == failed && GuaranteedFails(g.c, g.mem, base.(outPhase := p), m)
    ensures !guaranteed ==> m.guaranteed && PatternsFail(g.c, g.mem, old(g.regs).(outPhase := p))
    ensures guaranteed ==>
      tried.start == old(g.regs.dqsIn) && GuaranteedPasses(g.c, g.mem, base.(outPhase := p), m, tried.start)
    ensures guaranteed && m.guaranteed ==> PatternsPass(g.c, g.mem, old(g.regs).(outPhase := p))
    ensures calibrated ==> StrobeFound(g.c, g.mem, base.(outPhase := p), skip, tried, g.regs)
    ensures guaranteed && !calibrated ==> tried.fails != [] && failed' == LastSubstage([tried], failed)
    ensures guaranteed && !calibrated ==> AllStrobesFail(g.c, g.mem, base.(outPhase := p), skip, tried)
    ensures gbl.failures == old(gbl.failures) + StrobeRecords(g.c, readGroup, tried.fails)
    ensures !guaranteed ==> tried.fails == []
  {
    g.SetDqdqsOutputPhase(p);
    guaranteed, calibrated, failed', tried := true, false, failed, PhaseTry(0, []);
    if !gbl.disableGuaranteedRead {
      ghost var r := g.regs;
      guaranteed := GuaranteedRead(g);
      assert SameOutputs(base.(outPhase := p), r);
      if !guaranteed {
        return;
      }
    }
    calibrated, failed', tried := SearchStrobe(g, gbl, readGroup, skip, share, failed, base.(outPhase := p));
  }

  /** The next output phase of a search from `entry`, after those told in `before`. */
  method NextPhase(g: DqsGroup, gbl: Gbl, readGroup: nat, skip: bool, share: nat, p: nat, failed: nat,
                   ghost base: Settings, ghost m: Mode, ghost before: seq<PhaseTry>, ghost first: seq<Failure>,
                   ghost entry: Settings, ghost failed0: nat)
    returns (guaranteed: bool, calibrated: bool, failed': nat, ghost tried: seq<PhaseTry>)
    requires g.Valid() && gbl.Valid() && share > 0 && InOrder(g) && ReadSubstage(failed) && m == ModeOf(gbl, skip)
    requires p == |before| <= g.c.dqdqsOutPhaseMax && SameOutputs(base.(outPhase := g.regs.outPhase), g.regs)
    requires PhasesTried(g.c, g.mem, base, m, before)
    requires if p == 0 then g.regs == entry else FirstTry(g.c, g.mem, entry, m, before)
    requires failed == LastSubstage(before, failed0) && gbl.failures == first + PhaseRecords(g.c, readGroup, before)
    modifies g, gbl
    ensures g.Stepped() && gbl.Stepped() && gbl.SameFom()
    ensures InOrder(g) && ReadSubstage(failed') && SameOutputs(base.(outPhase := g.regs.outPhase), g.regs)
    ensures FirstTry(g.c, g.mem, entry, m, tried)
    ensures !guaranteed ==> !calibrated && tried == before
    ensures !guaranteed ==> GuaranteedFails(g.c, g.mem, base.(outPhase := p), m)
    ensures guaranteed ==> |tried| == p + 1
    ensures calibrated ==> PhaseFound(g.c, g.mem, base, m, tried, g.regs)
    ensures !calibrated ==> failed' == LastSubstage(tried, failed0) && PhasesTried(g.c, g.mem, base, m, tried)
    ensures gbl.failures == first + PhaseRecords(g.c, readGroup, tried)
  {
    ghost var t;
    guaranteed, calibrated, failed', t := TryPhase(g, gbl, readGroup, skip, share, p, failed, base, m);
    tried := before;
    if guaranteed {
      if calibrated {
        LastPhase(g.c, g.mem, base, m, before, p, t, g.regs);
      } else {
        OneMorePhase(g.c, g.mem, base, m, before, p, t, failed0);
      }
      PhaseRecordsAdd(g.c, readGroup, first, before, t);
      tried := before + [t];
    }
  }

  /** The search at one output delay, over the output phases. A failing guaranteed read ends
      it. `tried` are the output phases at which the guaranteed read passed. */
  method SearchPhases(g: DqsGroup, gbl: Gbl, readGroup: nat, skip: bool, share: nat, failed: nat,
                      ghost base: Settings, ghost m: Mode)
    returns (calibrated: bool, failed': nat, ghost tried: seq<PhaseTry>)
    requires g.Valid() && gbl.Valid() && share > 0 && InOrder(g) && ReadSubstage(failed) && m == ModeOf(gbl, skip)
    requires SameOutputs(base.(outPhase := g.regs.outPhase), g.regs)
    modifies g, gbl
    ensures g.Stepped() && gbl.Stepped() && gbl.SameFom()
    ensures InOrder(g) && ReadSubstage(failed') && SameOutputs(base.(outPhase := g.regs.outPhase), g.regs)
    ensures FirstTry(g.c, g.mem, old(g.regs), m, tried)
    ensures calibrated ==> PhaseFound(g.c, g.mem, base, m, tried, g.regs)
    ensures !calibrated ==> failed' == LastSubstage(tried, failed) && PhasesFail(g.c, g.mem, base, m, tried)
    ensures gbl.failures == old(gbl.failures) + PhaseRecords(g.c, readGroup, tried)
  {
    var p, guaranteed := 0, true;
    calibrated, failed', tried := false, failed, [];
    while p <= g.c.dqdqsOutPhaseMax && !calibrated
      invariant 0 <= p == |tried| <= g.c.dqdqsOutPhaseMax + 1
      invariant g.Stepped() && gbl.Stepped() && gbl.SameFom()
      invariant InOrder(g) && ReadSubstage(failed') && SameOutputs(base.(outPhase := g.regs.outPhase), g.regs)
      invariant if p == 0 then g.regs == old(g.regs) && !calibrated else FirstTry(g.c, g.mem, old(g.regs), m, tried)
      invariant calibrated ==> PhaseFound(g.c, g.mem, base, m, tried, g.regs)
      invariant !calibrated ==> failed' == LastSubstage(tried, failed) && PhasesTried(g.c, g.mem, base, m, tried)
      invariant gbl.failures == old(gbl.failures) + PhaseRecords(g.c, readGroup, tried)
      decreases g.c.dqdqsOutPhaseMax + 1 - p
    {
      guaranteed, calibrated, failed', tried := NextPhase(g, gbl, readGroup, skip, share, p, failed', base, m, tried,
                                                          old(gbl.failures), old(g.regs), failed);
      if !guaranteed {
        break;
      }
      p := p + 1;
    }
  }

  /** One output delay: at 0 the output side stays as it was. */
  method TryDelay(g: DqsGroup, gbl: Gbl, readGroup: nat, skip: bool, share: nat, d: nat, failed: nat,
                  ghost base: Settings, ghost m: Mode, ghost before: seq<seq<PhaseTry>>,
                  ghost first: seq<Failure>)
    returns (calibrated: bool, failed': nat, ghost tried: seq<seq<PhaseTry>>)
    requires g.Valid() && gbl.Valid() && share > 0 && InOrder(g) && ReadSubstage(failed) && m == ModeOf(gbl, skip)
    requires d <= g.c.ioOut1DelayMax && MovedTo(base, g.regs, d)
    requires d == 2 * |before| && failed == Recorded(before) && FailsSoFar(g.c, g.mem, base, m, before)
    requires gbl.failures == first + ReadRecords(g.c, readGroup, before)
    modifies g, gbl
    ensures g.Stepped() && gbl.Stepped() && gbl.SameFom()
    ensures InOrder(g) && ReadSubstage(failed') && MovedTo(base, g.regs, d + 2)
    ensures |tried| == |before| + 1
    ensures calibrated ==> FoundAt(g.c, g.mem, base, m, tried, g.regs)
    ensures !calibrated ==> failed' == Recorded(tried) && FailsSoFar(g.c, g.mem, base, m, tried)
    ensures gbl.failures == first + ReadRecords(g.c, readGroup, tried)
  {
    if d > 0 {
      AddOutputDelay(g, d);
    }
    ghost var h;
    calibrated, failed', h := SearchPhases(g, gbl, readGroup, skip, share, failed, Delayed(base, d), m);
    if calibrated {
      LastDelay(g.c, g.mem, base, m, before, d, h, g.regs);
    } else {
      OneMoreDelay(g.c, g.mem, base, m, before, d, h);
    }
    ReadRecordsAdd(g.c, readGroup, first, before, h);
    tried := before + [h];
  }

  /** Every second output delay up to `last`, until the search succeeds; d is the delay it ends
      before. */
  method RaiseDelays(g: DqsGroup, gbl: Gbl, readGroup: nat, skip: bool, share: nat, last: nat, ghost m: Mode)
    returns (ok: bool, failed: nat, d: nat, ghost tried: seq<seq<PhaseTry>>)
    requires g.Valid() && gbl.Valid() && share > 0 && InOrder(g) && m == ModeOf(gbl, skip)
    requires last <= g.c.ioOut1DelayMax
    modifies g, gbl
    ensures g.Stepped() && gbl.Stepped() && gbl.SameFom() && InOrder(g)
    ensures d == 2 * |tried| && (!ok ==> last < d)
    ensures ok ==> FoundAt(g.c, g.mem, old(g.regs), m, tried, g.regs)
    ensures !ok ==> failed == Recorded(tried) && FailsSoFar(g.c, g.mem, old(g.regs), m, tried)
    ensures gbl.failures == old(gbl.failures) + ReadRecords(g.c, readGroup, tried)
  {
    ok, failed, d, tried := false, CAL_SUBSTAGE_GUARANTEED_READ, 0, [];
    while d <= last && !ok
      invariant 0 <= d <= last + 2 && d == 2 * |tried|
      invariant g.Stepped() && gbl.Stepped() && gbl.SameFom()
      invariant InOrder(g) && ReadSubstage(failed) && MovedTo(old(g.regs), g.regs, d)
      invariant ok ==> FoundAt(g.c, g.mem, old(g.regs), m, tried, g.regs)
      invariant !ok ==> failed == Recorded(tried) && FailsSoFar(g.c, g.mem, old(g.regs), m, tried)
      invariant gbl.failures == old(gbl.failures) + ReadRecords(g.c, readGroup, tried)
      decreases last + 2 - d
    {
      ok, failed, tried := TryDelay(g, gbl, readGroup, skip, share, d, failed, old(g.regs), m, tried,
                                   old(gbl.failures));
      d := d + 2;
    }
  }

  /** The search over every second output delay of less than a phase. */
  method SearchDelays(g: DqsGroup, gbl: Gbl, readGroup: nat, skip: bool, share: nat, ghost m: Mode)
    returns (ok: bool, failed: nat, d: nat, ghost tried: seq<seq<PhaseTry>>)
    requires g.Valid() && gbl.Valid() && share > 0 && InOrder(g) && m == ModeOf(gbl, skip)
    modifies g, gbl
    ensures g.Stepped() && gbl.Stepped() && gbl.SameFom() && InOrder(g)
    ensures ok ==> d == 2 * |tried| && FoundAt(g.c, g.mem, old(g.regs), m, tried, g.regs)
    ensures !ok ==> failed == Recorded(tried) && VfifoFails(g.c, g.mem, old(g.regs), m, tried)
    ensures gbl.failures == old(gbl.failures) + ReadRecords(g.c, readGroup, tried)
  {
    var nominal := StaticDtaps(g.c);
    ok, failed, d, tried := RaiseDelays(g, gbl, readGroup, skip, share, nominal, m);
    if !ok {
      PhaseReached(g.c, d, nominal);
    }
  }

  /** Read calibration of a group. `skip` says that the only rank is to be skipped; `tried` are
      the attempts that failed, by output delay. */
  method CalibrateVfifo(g: DqsGroup, gbl: Gbl, readGroup: nat, skip: bool, share: nat, ghost m: Mode)
    returns (ok: bool, ghost tried: seq<seq<PhaseTry>>)
    requires g.Valid() && gbl.Valid() && share > 0 && InOrder(g) && m == ModeOf(gbl, skip)
    modifies g, gbl
    ensures g.Stepped() && gbl.Stepped() && gbl.SameFom() && InOrder(g)
    ensures ok ==> ReadBy(g.c, g.mem, old(g.regs), m, tried, g.regs)
    ensures ok ==> gbl.failures == old(gbl.failures) + ReadRecords(g.c, readGroup, tried)
    ensures !ok ==>
      gbl.failures == old(gbl.failures) + ReadRecords(g.c, readGroup, tried) +
                      [Failure(readGroup, CAL_STAGE_VFIFO, Recorded(tried))]
    ensures !ok ==> VfifoFails(g.c, g.mem, old(g.regs), m, tried)
    ensures VfifoFits(g.c, g.mem, old(g.regs), m) ==> ok
  {
    var failed, d;
    ok, failed, d, tried := SearchDelays(g, gbl, readGroup, skip, share, m);
    if VfifoFits(g.c, g.mem, old(g.regs), m) {
      FittingVfifoSucceeds(g.c, g.mem, old(g.regs), m, tried);
    }
    ghost var ready := g.regs;
    EndVfifo(g, gbl, readGroup, ok, failed, d);
    assert ok ==> FoundAt(g.c, g.mem, old(g.regs), m, tried, ready);
  }

  /** Records a failing search, and resets the outputs if a successful one has moved them. */
  method EndVfifo(g: DqsGroup, gbl: Gbl, readGroup: nat, ok: bool, failed: nat, d: nat)
    requires g.Valid() && gbl.Valid() && InOrder(g)
    modifies g, gbl
    ensures g.Stepped() && gbl.Stepped() && gbl.SameFom() && InOrder(g)
    ensures g.regs == if ok && d > 2 then OutputsReset(g.c, old(g.regs)) else old(g.regs)
    ensures ok ==> gbl.failures == old(gbl.failures)
    ensures !ok ==> gbl.failures == old(gbl.failures) + [Failure(readGroup, CAL_STAGE_VFIFO, failed)]
  {
    if !ok {
      gbl.SetFailingGroupStage(readGroup, CAL_STAGE_VFIFO, failed);
    } else if d > 2 {
      ZeroGroup(g, true);
    }
  }

  /** Where the output side is when the search is about to try output delay d. */
  predicate MovedTo(base: Settings, s: Settings, d: nat) {
    if d < 2 then s == base else SameOutputs(Delayed(base, d - 2).(outPhase := s.outPhase), s)
  }

  lemma PhaseReached(c: Config, d: nat, nominal: nat)
    requires c.Valid() && nominal < d && c.delayPerOpaTap <= (nominal + 1) * c.delayPerDqsEnTap
    ensures c.delayPerOpaTap <= Times(d, c.delayPerDqsEnTap)
  {
    TimesIsProduct(d, c.delayPerDqsEnTap);
    ProductOrder(d, nominal + 1, c.delayPerDqsEnTap);
  }

  /** Read deskew again, now through write tests. */
  method CalibrateVfifoEnd(g: DqsGroup, gbl: Gbl, readGroup: nat, skip: bool, share: nat)
    returns (ok: bool, ghost w: Sweeps)
    requires g.Valid() && gbl.Valid() && share > 0 && InOrder(g)
    modifies g, gbl
    ensures g.Stepped() && gbl.Stepped() && InOrder(g) && g.phaseZeroStores == old(g.phaseZeroStores)
    ensures g.regs == old(g.regs).(dqsIn := g.regs.dqsIn, dqIn := g.regs.dqIn)
    // Success is that of the sweeps, whose margins are added.
    ensures !skip ==> SweptFrom(g.c, g.mem, ReadAfterWrite, old(g.regs), w) && RD.Settled(w.run, w.es, g.regs)
    ensures ok == (skip || w.Succeeds())
    ensures skip ==> g.regs == old(g.regs)
    ensures gbl.fomOutSum == old(gbl.fomOutSum)
    ensures gbl.fomInSum == old(gbl.fomInSum) +
      if !skip && AllHaveWindow(w.run, w.es) then FomShare(w.run, w.es, share) else 0
    ensures ok ==> gbl.failures == old(gbl.failures)
    ensures !ok ==>
      gbl.failures == old(gbl.failures) + SweepRecords(FirstPin(g.c, readGroup), w) +
                      [Failure(readGroup, CAL_STAGE_VFIFO_AFTER_WRITES, CAL_SUBSTAGE_VFIFO_CENTER)]
  {
    ok, w := true, Sweeps(Run(g.c, g.mem, ReadAfterWrite, g.regs, g.tests), []);
    if !skip {
      ok, w := DeskewInputs(g, gbl, readGroup, ReadAfterWrite, true, share);
    }
    if !ok {
      gbl.SetFailingGroupStage(readGroup, CAL_STAGE_VFIFO_AFTER_WRITES, CAL_SUBSTAGE_VFIFO_CENTER);
    }
  }

  /** A write deskew with its sweeps, its mask search and what it records. */
  method DeskewOutputs(g: DqsGroup, gbl: Gbl, testBgn: nat)
    returns (ok: bool, ghost w: Sweeps, ghost mask: MaskRun)
    requires g.Valid() && gbl.Valid() && InOrder(g)
    modifies g, gbl
    ensures g.Stepped() && gbl.Stepped() && g.phaseZeroStores == old(g.phaseZeroStores)
    ensures SweptFrom(g.c, g.mem, Write, old(g.regs), w) && WD.Settled(w.run, w.es, mask, g.regs)
    ensures ok == WriteSucceeds(w, mask)
    ensures ok && MaskConsistent(g.mem) ==> MaskWorks(g)
    ensures gbl.fomInSum == old(gbl.fomInSum) && gbl.fomOutSum == old(gbl.fomOutSum) + w.Margins()
    ensures gbl.failures == old(gbl.failures) + SweepRecords(testBgn, w)
  {
    ghost var run, es, missing;
    ok, run, es, missing, mask := WritesCenter(g, gbl, testBgn);
    w := Sweeps(run, es);
    if AllHaveWindow(run, es) {
      assert SweepRecords(testBgn, w) == [];
    } else {
      RecordsMissing(testBgn, w, missing);
    }
  }

  /** Write calibration of a group. */
  method CalibrateWrites(g: DqsGroup, gbl: Gbl, group: nat, testBgn: nat)
    returns (ok: bool, ghost w: Sweeps, ghost mask: MaskRun)
    requires g.Valid() && gbl.Valid() && InOrder(g)
    modifies g, gbl
    ensures g.Stepped() && gbl.Stepped() && g.phaseZeroStores == old(g.phaseZeroStores)
    ensures SweptFrom(g.c, g.mem, Write, old(g.regs), w) && WD.Settled(w.run, w.es, mask, g.regs)
    ensures ok == WriteSucceeds(w, mask)
    ensures ok ==> InOrder(g) && SameInputSide(old(g.regs), g.regs)
    ensures ok && MaskConsistent(g.mem) ==> MaskWorks(g)
    ensures ok && Modelled(g.c, g.mem, Write) ==> AllPass(g.c, g.mem, Write, g.regs.(dmOut := old(g.regs.dmOut)))
    ensures gbl.fomInSum == old(gbl.fomInSum) && gbl.fomOutSum == old(gbl.fomOutSum) + w.Margins()
    ensures !ok ==> DeskewFails(g.c, g.mem, Write, old(g.regs)) || MaskFails(g.c, g.mem, old(g.regs))
    ensures ok ==> gbl.failures == old(gbl.failures)
    ensures !ok ==>
      gbl.failures == old(gbl.failures) + SweepRecords(testBgn, w) +
                      [Failure(group, CAL_STAGE_WRITES, CAL_SUBSTAGE_WRITES_CENTER)]
  {
    ok, w, mask := DeskewOutputs(g, gbl, testBgn);
    WritesMean(w, mask, g.regs);
    if !ok {
      gbl.SetFailingGroupStage(group, CAL_STAGE_WRITES, CAL_SUBSTAGE_WRITES_CENTER);
    }
  }
}
