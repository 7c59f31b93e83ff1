/** The calibration entry point: a run, its status and its report words. */
module RunCalibration {
  import opened Arith
  import opened Words
  import opened Hardware
  import opened Globals
  import opened Latency
  import opened AttemptSpec
  import opened GroupSpec
  import opened RunSpec
  import opened RecordSpec
  import opened VfifoCalibrate
  import opened Calibration

  const PHY_MGR_CAL_RESET: nat := 0
  const PHY_MGR_CAL_SUCCESS: nat := 1
  const PHY_MGR_CAL_FAIL: nat := 2

  /** The two figures of merit in one report word. */
  function FomWord(fomIn: nat, fomOut: nat): nat {
    Or(fomIn, Shl(fomOut, 8))
  }

  function FailureWord(stage: nat, substage: nat, group: nat): nat {
    Or(Or(stage, Shl(substage, 8)), Shl(group, 16))
  }

  function FailureWordOf(f: Failure): nat {
    FailureWord(f.stage, f.substage, f.group)
  }

  lemma {:induction false} SmallHasNoHighBit(x: nat, n: nat, i: nat)
    requires x < Pow2(n) && i >= n
    ensures !Bit(x, i)
    decreases i
  {
    if n == 0 {
      BitZero(i);
    } else {
      SmallHasNoHighBit(x / 2, n - 1, i - 1);
    }
  }

  /** Values that fit their bytes can be read back from the word. */
  lemma FomWordBytes(x: nat, y: nat)
    requires x < 0x100 && y < 0x100
    ensures Low(FomWord(x, y), 8) == x && Shr(FomWord(x, y), 8) == y
  {
    assert Pow2(8) == 0x100;
    forall i: nat ensures Bit(Low(FomWord(x, y), 8), i) == Bit(x, i) {
      BitLow(FomWord(x, y), 8, i);
      BitOr(x, Shl(y, 8), i);
      BitShl(y, 8, i);
      if i >= 8 {
        SmallHasNoHighBit(x, 8, i);
      }
    }
    SameBits(Low(FomWord(x, y), 8), x);
    forall i: nat ensures Bit(Shr(FomWord(x, y), 8), i) == Bit(y, i) {
      BitShr(FomWord(x, y), 8, i);
      BitOr(x, Shl(y, 8), i + 8);
      BitShl(y, 8, i + 8);
      SmallHasNoHighBit(x, 8, i + 8);
    }
    SameBits(Shr(FomWord(x, y), 8), y);
  }

  /** The figure of merit reported for a sum of margins. */
  function Reported(sum: nat): (r: nat)
    ensures r <= 0xff && 2 * r <= sum
    ensures r < 0xff ==> sum <= 2 * r + 1
  {
    Min(sum / 2, 0xff)
  }

  /** Halves the figures of merit and limits each to a byte. */
  method CloseFom(gbl: Gbl) returns (x: nat, y: nat)
    requires gbl.Valid() && 0 <= gbl.fomInSum < 0x1_0000_0000 && 0 <= gbl.fomOutSum < 0x1_0000_0000
    ensures x == Reported(gbl.fomInSum) && y == Reported(gbl.fomOutSum)
  {
    x, y := gbl.fomIn / 2, gbl.fomOut / 2;
    if x > 0xff {
      x := 0xff;
    }
    if y > 0xff {
      y := 0xff;
    }
  }

  /** Writes the verdict and its report words. */
  method Report(gbl: Gbl, regs: Registers, pass: bool)
    requires gbl.Valid()
    requires pass ==> 0 <= gbl.fomInSum < 0x1_0000_0000 && 0 <= gbl.fomOutSum < 0x1_0000_0000
    requires !pass ==> gbl.failures != []
    modifies regs`fom, regs`failingStage, regs`calDebugInfo, regs`calStatus
    ensures regs.calStatus == if pass then PHY_MGR_CAL_SUCCESS else PHY_MGR_CAL_FAIL
    ensures pass ==> Low(regs.fom, 8) == Reported(gbl.fomInSum) && Shr(regs.fom, 8) == Reported(gbl.fomOutSum)
    ensures pass ==> regs.calDebugInfo == regs.fom
    ensures !pass ==> regs.failingStage == regs.calDebugInfo == FailureWordOf(gbl.failures[0])
    ensures if pass then regs.failingStage == old(regs.failingStage) else regs.fom == old(regs.fom)
  {
    if pass {
      var x, y := CloseFom(gbl);
      FomWordBytes(x, y);
      var info := FomWord(x, y);
      regs.fom := info;
      regs.calDebugInfo := info;
      regs.calStatus := PHY_MGR_CAL_SUCCESS;
    } else {
      var info := FailureWord(gbl.errorStage, gbl.errorSubstage, gbl.errorGroup);
      regs.failingStage := info;
      regs.calDebugInfo := info;
      regs.calStatus := PHY_MGR_CAL_FAIL;
    }
  }

  /** Resets the status and takes over the PHY. */
  method TakeControl(regs: Registers)
    modifies regs`calStatus, regs`muxSel, regs`calDebugInfo
    ensures regs.calStatus == regs.calDebugInfo == 0 && regs.muxSel == 3
  {
    regs.calStatus := PHY_MGR_CAL_RESET;
    regs.muxSel := 3;
    regs.calStatus, regs.calDebugInfo := 0, 0;
  }

  /** Hands the PHY over, unless debugging, and reports. */
  method Conclude(gbl: Gbl, regs: Registers, pass: bool)
    requires gbl.Valid()
    requires pass ==> 0 <= gbl.fomInSum < 0x1_0000_0000 && 0 <= gbl.fomOutSum < 0x1_0000_0000
    requires !pass ==> gbl.failures != []
    modifies regs`fom, regs`failingStage, regs`calDebugInfo, regs`calStatus, regs`muxSel
    ensures regs.calStatus == if pass then PHY_MGR_CAL_SUCCESS else PHY_MGR_CAL_FAIL
    ensures pass ==> Low(regs.fom, 8) == Reported(gbl.fomInSum) && Shr(regs.fom, 8) == Reported(gbl.fomOutSum)
    ensures pass ==> regs.calDebugInfo == regs.fom
    ensures !pass ==> regs.failingStage == regs.calDebugInfo == FailureWordOf(gbl.failures[0])
    ensures if pass then regs.failingStage == old(regs.failingStage) else regs.fom == old(regs.fom)
    ensures regs.muxSel == if gbl.inDebugMode then old(regs.muxSel) else 2
  {
    if !gbl.inDebugMode {
      regs.muxSel := 2;
    }
    Report(gbl, regs, pass);
  }

  /** Figures of merit of so many groups cannot wrap. */
  predicate SumsFit(c: Config, n: nat) {
    Times(n, FomLimit(c)) < 0x1_0000_0000
  }

  /** What the log of a run means, if it passes and if its memories fit. */
  lemma {:induction false} RunMeans(groups: seq<DqsGroup>, c: Config, skipGroups: nat, m: Mode, sweepAll: bool,
                                    before: seq<Settings>, log: seq<Entry>)
    requires c.Valid() && AllTell(groups, c, m, before, log) && SumsFit(c, |groups|)
    requires Covers(log, |groups|, skipGroups, sweepAll)
    ensures AllSucceed(log) && !m.skip ==> AllCalibrated(groups, c, skipGroups, AfterRun(before, log))
    ensures AllSucceed(log) ==> 0 <= InSum(log) < 0x1_0000_0000 && 0 <= OutSum(log) < 0x1_0000_0000
    ensures AllFit(groups, c, skipGroups, m, before) ==> AllSucceed(log)
  {
    if AllSucceed(log) {
      PassingSumsWithin(groups, c, m, before, log);
      if !m.skip {
        PassingCalibrates(groups, c, skipGroups, m, sweepAll, before, log);
      }
    }
    if AllFit(groups, c, skipGroups, m, before) {
      FittingRunSucceeds(groups, c, skipGroups, m, sweepAll, before, log);
    }
  }

  /** A run and what it means, before it is reported. */
  method TakeAndCalibrate(groups: seq<DqsGroup>, gbl: Gbl, regs: Registers, skipGroups: nat, skip: bool,
                          tWl: nat, tAdd: nat, tRl: nat, passes: nat -> bool, ghost m: Mode,
                          ghost c: Config, ghost safe: bool, ghost before: seq<Settings>)
    returns (pass: bool, ghost log: seq<Entry>)
    requires Interface(groups, c) && Stand(groups, safe, before) && c.Valid() && tWl + tAdd + 2 < 0x1_0000_0000
    requires SumsFit(c, |groups|) && m == ModeOf(gbl, skip)
    modifies groups, gbl, regs`phyRlat, regs`afiWlat, regs`calStatus, regs`muxSel, regs`calDebugInfo
    ensures gbl.Valid() && regs.muxSel == 3
    ensures Covers(log, |groups|, skipGroups, gbl.sweepAllGroups)
    ensures Stand(groups, safe, AfterRun(AllReset(c, before), log))
    ensures AllTell(groups, c, m, AllReset(c, before), log)
    ensures pass == (AllSucceed(log) && (skipGroups == 0 ==> passes(Min(tRl + 16, MAX_LATENCY))))
    ensures pass && skipGroups == 0 ==> LatencySettled(gbl, passes, Min(tRl + 16, MAX_LATENCY))
    ensures pass && !m.skip ==> AllCalibrated(groups, c, skipGroups, AfterRun(AllReset(c, before), log))
    ensures RunFits(groups, c, skipGroups, m, before, passes, tRl) ==> pass
    ensures gbl.fomInSum == InSum(log) && gbl.fomOutSum == OutSum(log)
    ensures pass ==> 0 <= InSum(log) < 0x1_0000_0000 && 0 <= OutSum(log) < 0x1_0000_0000
    ensures !pass ==> gbl.errorStage != CAL_STAGE_NIL && gbl.failures != []
    ensures !pass ==> gbl.failures[0] == FirstFailure(c, log)
    ensures Advertised(regs.afiWlat, gbl.rwWlNopCycles, tWl + tAdd)
  {
    TakeControl(regs);
    pass, log := MemCalibrate(groups, gbl, regs, skipGroups, skip, tWl, tAdd, tRl, passes, m, c, safe, before);
    RunMeans(groups, c, skipGroups, m, gbl.sweepAllGroups, AllReset(c, before), log);
  }

  /** A run of calibration with its status and report. */
  method RunMemCalibrate(groups: seq<DqsGroup>, gbl: Gbl, regs: Registers, skipGroups: nat, skip: bool,
                         tWl: nat, tAdd: nat, tRl: nat, passes: nat -> bool, ghost m: Mode,
                         ghost c: Config, ghost safe: bool, ghost before: seq<Settings>)
    returns (pass: bool, ghost log: seq<Entry>)
    requires Interface(groups, c) && Stand(groups, safe, before) && c.Valid() && tWl + tAdd + 2 < 0x1_0000_0000
    requires SumsFit(c, |groups|) && m == ModeOf(gbl, skip)
    modifies groups, gbl, regs
    ensures gbl.Valid()
    ensures Covers(log, |groups|, skipGroups, gbl.sweepAllGroups)
    ensures Stand(groups, safe, AfterRun(AllReset(c, before), log))
    ensures AllTell(groups, c, m, AllReset(c, before), log)
    ensures pass == (AllSucceed(log) && (skipGroups == 0 ==> passes(Min(tRl + 16, MAX_LATENCY))))
    ensures pass && skipGroups == 0 ==> LatencySettled(gbl, passes, Min(tRl + 16, MAX_LATENCY))
    ensures regs.calStatus == if pass then PHY_MGR_CAL_SUCCESS else PHY_MGR_CAL_FAIL
    // Success means that every attempted group is calibrated, and memories that fit succeed.
    ensures pass && !m.skip ==> AllCalibrated(groups, c, skipGroups, AfterRun(AllReset(c, before), log))
    ensures RunFits(groups, c, skipGroups, m, before, passes, tRl) ==> pass
    // The figures of merit never wrapped: both bytes of the report are the halved sums of the
    // margins of the visits.
    ensures pass ==> 0 <= InSum(log) && 0 <= OutSum(log)
    ensures pass ==> Low(regs.fom, 8) == Reported(InSum(log)) && Shr(regs.fom, 8) == Reported(OutSum(log))
    ensures pass ==> regs.calDebugInfo == regs.fom
    // A failing run reports the first failure that its visits tell of.
    ensures !pass ==> gbl.errorStage != CAL_STAGE_NIL
    ensures !pass ==> regs.failingStage == regs.calDebugInfo == FailureWordOf(FirstFailure(c, log))
    ensures if pass then regs.failingStage == old(regs.failingStage) else regs.fom == old(regs.fom)
    ensures regs.muxSel == if gbl.inDebugMode then 3 else 2
    ensures Advertised(regs.afiWlat, gbl.rwWlNopCycles, tWl + tAdd)
  {
    pass, log := TakeAndCalibrate(groups, gbl, regs, skipGroups, skip, tWl, tAdd, tRl, passes, m, c, safe, before);
    Conclude(gbl, regs, pass);
  }

  /** Stage, substage and group of the first failure can be read back from the report. */
  lemma FailureWordFields(f: Failure)
    requires f.stage < 0x100 && f.substage < 0x100
    ensures var word := FailureWordOf(f);
      Low(word, 8) == f.stage && Low(Shr(word, 8), 8) == f.substage && Shr(word, 16) == f.group
  {
    var word := FailureWordOf(f);
    assert Pow2(8) == 0x100;
    forall i: nat
      ensures Bit(word, i) == ((i < 8 && Bit(f.stage, i)) || (8 <= i < 16 && Bit(f.substage, i - 8)) ||
                               (i >= 16 && Bit(f.group, i - 16)))
    {
      BitOr(Or(f.stage, Shl(f.substage, 8)), Shl(f.group, 16), i);
      BitOr(f.stage, Shl(f.substage, 8), i);
      BitShl(f.substage, 8, i);
      BitShl(f.group, 16, i);
      if i >= 8 {
        SmallHasNoHighBit(f.stage, 8, i);
      }
      if i >= 16 {
        SmallHasNoHighBit(f.substage, 8, i - 8);
      }
    }
    forall i: nat
      ensures Bit(Low(word, 8), i) == Bit(f.stage, i) && Bit(Low(Shr(word, 8), 8), i) == Bit(f.substage, i)
      ensures Bit(Shr(word, 16), i) == Bit(f.group, i)
    {
      BitLow(word, 8, i);
      BitLow(Shr(word, 8), 8, i);
      BitShr(word, 8, i);
      BitShr(word, 16, i);
      if i >= 8 {
        SmallHasNoHighBit(f.stage, 8, i);
        SmallHasNoHighBit(f.substage, 8, i);
      }
    }
    SameBits(Low(word, 8), f.stage);
    SameBits(Low(Shr(word, 8), 8), f.substage);
    SameBits(Shr(word, 16), f.group);
  }
}
