/** A whole calibration run: reset, all groups, read latency, report. */
module Calibration {
  import opened Arith
  import opened Words
  import opened Hardware
  import opened Globals
  import opened ReadDeskew
  import opened AttemptSpec
  import opened GroupSpec
  import opened RunSpec
  import opened RecordSpec
  import opened VfifoCalibrate
  import opened Groups
  import opened Latency

  /** Read calibration, write calibration and the final read deskew of one group. With `skip`
      (the only rank is to be skipped) only the enable search is done. */
  method CalibrateGroup(g: DqsGroup, gbl: Gbl, group: nat, skip: bool, ghost m: Mode)
    returns (ok: bool, ghost o: Outcome)
    requires g.Valid() && gbl.Valid() && InOrder(g) && m == ModeOf(gbl, skip)
    modifies g, gbl
    ensures g.Stepped() && gbl.Stepped()
    ensures Explains(g.c, g.mem, m, old(g.regs), o, g.regs) && ok == o.Succeeds()
    ensures gbl.failures == old(gbl.failures) + Records(g.c, group, o)
    ensures gbl.fomInSum == old(gbl.fomInSum) + o.InMargins()
    ensures gbl.fomOutSum == old(gbl.fomOutSum) + o.OutMargins()
  {
    ghost var tried;
    ok, tried := CalibrateVfifo(g, gbl, group, skip, 1, m);
    o := if ok then RankSkipped(tried) else ReadFailed(tried);
    if ok {
      if skip {
        ghost var w;
        ok, w := CalibrateVfifoEnd(g, gbl, group, skip, 1);
      } else {
        ok, o := CalibrateOutputs(g, gbl, group, m, old(g.regs), tried);
      }
    }
    RecordsAdd(g.c, group, old(gbl.failures), o);
  }

  /** The part of it after read calibration, for a rank that is not skipped. */
  method CalibrateOutputs(g: DqsGroup, gbl: Gbl, group: nat, ghost m: Mode, ghost start: Settings,
                          ghost tried: seq<seq<PhaseTry>>)
    returns (ok: bool, ghost o: Outcome)
    requires g.Valid() && gbl.Valid() && InOrder(g) && ReadBy(g.c, g.mem, start, m, tried, g.regs) && !m.skip
    modifies g, gbl
    ensures g.Stepped() && gbl.Stepped()
    ensures Explains(g.c, g.mem, m, start, o, g.regs) && ok == o.Succeeds() && o.tried == tried
    ensures o.Done? || o.WriteFailed? || o.ReadAgainFailed?
    ensures ok ==> gbl.failures == old(gbl.failures)
    ensures !ok ==> gbl.failures == old(gbl.failures) + OutputRecords(group, o) + [o.Reported(group)]
    ensures gbl.fomInSum == old(gbl.fomInSum) + o.InMargins()
    ensures gbl.fomOutSum == old(gbl.fomOutSum) + o.OutMargins()
  {
    ghost var w, mask;
    ok, w, mask := CalibrateWrites(g, gbl, group, FirstPin(g.c, group));
    assert Wrote(g.c, g.mem, start, m, tried, w, mask, g.regs);
    o := WriteFailed(tried, w, mask);
    if ok {
      ghost var r;
      ok, r := CalibrateVfifoEnd(g, gbl, group, false, 1);
      WholeShare(r.run, r.es);
      assert ReadAgain(g.c, g.mem, start, m, tried, w, mask, r, g.regs);
      o := if ok then Done(tried, w, mask, r) else ReadAgainFailed(tried, w, mask, r);
    }
  }

  /** One group from its reset to its end. */
  method VisitGroup(g: DqsGroup, gbl: Gbl, group: nat, skip: bool, ghost m: Mode) returns (ok: bool, ghost o: Outcome)
    requires g.Valid() && gbl.Valid() && 0 <= g.regs.dqsIn <= g.c.dqsInDelayMax && m == ModeOf(gbl, skip)
    modifies g, gbl
    ensures g.Stepped() && gbl.Stepped()
    ensures Explains(g.c, g.mem, m, GroupReset(g.c, old(g.regs)), o, g.regs) && ok == o.Succeeds()
    ensures gbl.failures == old(gbl.failures) + Records(g.c, group, o)
    ensures gbl.fomInSum == old(gbl.fomInSum) + o.InMargins()
    ensures gbl.fomOutSum == old(gbl.fomOutSum) + o.OutMargins()
  {
    ZeroGroup(g, false);
    ok, o := CalibrateGroup(g, gbl, group, skip, m);
  }

  /** Resets a group's strobe, enable and output-phase settings. */
  method ZeroStrobes(g: DqsGroup)
    requires g.Valid()
    modifies g
    ensures g.Stepped() && g.tests == old(g.tests)
    ensures g.regs == StrobesReset(g.c, old(g.regs))
    ensures g.regs.dqsIn == g.c.dqsInReserve && g.regs.enPhase == g.regs.enDelay == g.regs.outPhase == 0
    ensures g.regs.octOut == g.c.dqsOutReserve && g.regs.dqsOut == old(g.regs.dqsOut)
  {
    g.SetDqsBusInDelay(g.c.dqsInReserve);
    g.SetDqsEnPhase(0);
    g.SetDqsEnDelay(0);
    g.SetDqdqsOutputPhase(0);
    g.SetOctOut1Delay(g.c.dqsOutReserve);
  }

  method ZeroAll(groups: seq<DqsGroup>, ghost c: Config, ghost safe: bool, ghost before: seq<Settings>)
    requires Interface(groups, c) && Stand(groups, safe, before)
    modifies groups
    ensures Stand(groups, safe, AllReset(c, before))
  {
    for k := 0 to |groups|
      invariant forall i: nat | i < |groups| :: groups[i].Valid() && (safe ==> groups[i].safe)
      invariant forall i: nat | i < |groups| ::
        groups[i].regs == if i < k then StrobesReset(c, before[i]) else before[i]
    {
      ZeroStrobes(groups[k]);
    }
  }

  /** Visits group k of an interface; the others stand. */
  method VisitMember(groups: seq<DqsGroup>, k: nat, gbl: Gbl, skip: bool, ghost m: Mode, ghost c: Config,
                     ghost safe: bool, ghost s: seq<Settings>)
    returns (ok: bool, ghost e: Entry)
    requires Interface(groups, c) && Stand(groups, safe, s) && gbl.Valid() && k < |groups| && c.Valid()
    requires 0 <= s[k].dqsIn <= c.dqsInDelayMax && m == ModeOf(gbl, skip)
    modifies groups[k], gbl
    ensures gbl.Stepped()
    ensures e.before == s[k] && e.visit.Visited? && Stand(groups, safe, s[k := e.after])
    ensures Tells(c, groups[k].mem, m, e) && ok == e.visit.Succeeds()
    ensures gbl.failures == old(gbl.failures) + VisitRecords(c, k, e.visit)
    ensures gbl.fomInSum == old(gbl.fomInSum) + e.visit.InMargins()
    ensures gbl.fomOutSum == old(gbl.fomOutSum) + e.visit.OutMargins()
  {
    ghost var o;
    ok, o := VisitGroup(groups[k], gbl, k, skip, m);
    e := Entry(s[k], Visited(o), groups[k].regs);
    forall i: nat | i < |groups|
      ensures groups[i].Valid() && groups[i].regs == s[k := e.after][i] && (safe ==> groups[i].safe)
    {
      if i != k {
        assert groups[i] != groups[k];
        assert old(groups[i].Valid());
      }
    }
  }

  /** Group k of a run: it is passed over, or visited. */
  method NextGroup(groups: seq<DqsGroup>, k: nat, gbl: Gbl, skipGroups: nat, runGroups: nat, skip: bool,
                   ghost m: Mode, ghost c: Config, ghost safe: bool, ghost before: seq<Settings>, ghost log: seq<Entry>)
    returns (ok: bool, ghost e: Entry)
    requires Interface(groups, c) && Stand(groups, safe, AfterRun(before, log)) && gbl.Valid() && c.Valid()
    requires |log| == k < |groups| == |before| && 0 <= before[k].dqsIn <= c.dqsInDelayMax
    requires runGroups == RunMask(skipGroups, 1, k) && m == ModeOf(gbl, skip)
    modifies groups[k], gbl
    ensures gbl.Stepped()
    ensures Stand(groups, safe, AfterRun(before, log + [e])) && e.before == before[k]
    ensures Tells(c, groups[k].mem, m, e) && ok == e.visit.Succeeds()
    ensures e.visit.Visited? <==> Attempted(skipGroups, k)
    ensures gbl.failures == old(gbl.failures) + VisitRecords(c, k, e.visit)
    ensures gbl.fomInSum == old(gbl.fomInSum) + e.visit.InMargins()
    ensures gbl.fomOutSum == old(gbl.fomOutSum) + e.visit.OutMargins()
  {
    AttemptedExactly(skipGroups, 1, k);
    ok, e := true, Entry(before[k], PassedOver, before[k]);
    if And(runGroups, Ones(1)) != 0 {
      ok, e := VisitMember(groups, k, gbl, skip, m, c, safe, AfterRun(before, log));
    }
    assert AfterRun(before, log + [e]) == AfterRun(before, log)[k := e.after];
  }

  /** All groups in turn. A failing group ends the run unless all groups are to be swept. */
  method CalibrateGroups(groups: seq<DqsGroup>, gbl: Gbl, skipGroups: nat, skip: bool, ghost m: Mode,
                         ghost c: Config, ghost safe: bool, ghost before: seq<Settings>)
    returns (ok: bool, ghost log: seq<Entry>)
    requires Interface(groups, c) && Stand(groups, safe, before) && gbl.Valid() && c.Valid() && m == ModeOf(gbl, skip)
    requires forall i: nat | i < |groups| :: 0 <= before[i].dqsIn <= c.dqsInDelayMax
    modifies groups, gbl
    ensures gbl.Stepped()
    ensures Stand(groups, safe, AfterRun(before, log)) && AllTell(groups, c, m, before, log)
    ensures Covers(log, |groups|, skipGroups, gbl.sweepAllGroups) && ok == AllSucceed(log)
    ensures Added(c, log, old(gbl.fomInSum), gbl.fomInSum, old(gbl.fomOutSum), gbl.fomOutSum,
                  old(gbl.failures), gbl.failures)
  {
    ok, log := true, [];
    assert AfterRun(before, log) == before;
    var runGroups := Not(skipGroups, WORD);
    for k := 0 to |groups|
      invariant gbl.Stepped()
      invariant runGroups == RunMask(skipGroups, 1, k)
      invariant Stand(groups, safe, AfterRun(before, log)) && AllTell(groups, c, m, before, log)
      invariant Reaches(log, k, skipGroups, gbl.sweepAllGroups) && ok == AllSucceed(log)
      invariant Added(c, log, old(gbl.fomInSum), gbl.fomInSum, old(gbl.fomOutSum), gbl.fomOutSum,
                      old(gbl.failures), gbl.failures)
    {
      ghost var e;
      ghost var fomIn, fomOut, failures := gbl.fomInSum, gbl.fomOutSum, gbl.failures;
      var done;
      done, e := NextGroup(groups, k, gbl, skipGroups, runGroups, skip, m, c, safe, before, log);
      OneMoreTells(groups, c, m, before, log, e);
      OneMoreReached(log, k, skipGroups, gbl.sweepAllGroups, e);
      OneMoreAdded(c, log, e, old(gbl.fomInSum), fomIn, old(gbl.fomOutSum), fomOut, old(gbl.failures), failures);
      log := log + [e];
      runGroups := Shr(runGroups, 1);
      ok := ok && done;
      if !done && !gbl.sweepAllGroups {
        return;
      }
    }
    AllReached(log, |groups|, skipGroups, gbl.sweepAllGroups);
  }

  /** The reset of all groups, and then their calibration. */
  method ResetAndCalibrate(groups: seq<DqsGroup>, gbl: Gbl, skipGroups: nat, skip: bool, ghost m: Mode,
                           ghost c: Config, ghost safe: bool, ghost before: seq<Settings>)
    returns (ok: bool, ghost log: seq<Entry>)
    requires Interface(groups, c) && Stand(groups, safe, before) && gbl.Valid() && c.Valid() && m == ModeOf(gbl, skip)
    modifies groups, gbl
    ensures gbl.Stepped()
    ensures Stand(groups, safe, AfterRun(AllReset(c, before), log))
    ensures AllTell(groups, c, m, AllReset(c, before), log)
    ensures Covers(log, |groups|, skipGroups, gbl.sweepAllGroups) && ok == AllSucceed(log)
    ensures Added(c, log, old(gbl.fomInSum), gbl.fomInSum, old(gbl.fomOutSum), gbl.fomOutSum,
                  old(gbl.failures), gbl.failures)
  {
    ZeroAll(groups, c, safe, before);
    ok, log := CalibrateGroups(groups, gbl, skipGroups, skip, m, c, safe, AllReset(c, before));
  }

  /** The read-latency search is only run if no group is skipped. */
  ghost predicate LatencySettled(gbl: Gbl, passes: nat -> bool, initial: nat)
    reads gbl
  {
    && 2 <= gbl.currReadLat <= initial + 1
    && (forall l | gbl.currReadLat - 1 <= l <= initial :: passes(l))
    && (gbl.currReadLat == 2 || !passes(gbl.currReadLat - 2))
  }

  /** From the registers that the reset leaves, the memories behind all attempted groups fit,
      and the initial read latency passes. */
  ghost predicate RunFits(groups: seq<DqsGroup>, c: Config, skipGroups: nat, m: Mode, before: seq<Settings>,
                          passes: nat -> bool, tRl: nat)
    requires c.Valid() && |before| == |groups|
  {
    AllFit(groups, c, skipGroups, m, AllReset(c, before)) && passes(Min(tRl + 16, MAX_LATENCY))
  }

  /** A blank record and the initial latencies. */
  method PrepareRun(gbl: Gbl, regs: Registers, tWl: nat, tAdd: nat, tRl: nat)
    requires tWl + tAdd + 2 < 0x1_0000_0000
    modifies gbl, regs`phyRlat, regs`afiWlat
    ensures gbl.Valid() && gbl.failures == [] && gbl.fomInSum == gbl.fomOutSum == 0
    ensures gbl.inDebugMode == old(gbl.inDebugMode) && gbl.sweepAllGroups == old(gbl.sweepAllGroups)
    ensures gbl.disableGuaranteedRead == old(gbl.disableGuaranteedRead)
    ensures 1 <= gbl.currReadLat == Min(tRl + 16, MAX_LATENCY)
    ensures Advertised(regs.afiWlat, gbl.rwWlNopCycles, tWl + tAdd)
  {
    gbl.StartRun();
    MemConfig(gbl, regs, tWl, tAdd, tRl);
  }

  /** The run but for the read latency: a blank record, and then all groups. */
  method RunGroups(groups: seq<DqsGroup>, gbl: Gbl, regs: Registers, skipGroups: nat, skip: bool,
                   tWl: nat, tAdd: nat, tRl: nat, ghost m: Mode, ghost c: Config, ghost safe: bool,
                   ghost before: seq<Settings>)
    returns (ok: bool, ghost log: seq<Entry>)
    requires Interface(groups, c) && Stand(groups, safe, before) && c.Valid() && tWl + tAdd + 2 < 0x1_0000_0000
    requires m == ModeOf(gbl, skip)
    modifies groups, gbl, regs`phyRlat, regs`afiWlat
    ensures gbl.Valid()
    ensures gbl.inDebugMode == old(gbl.inDebugMode) && gbl.sweepAllGroups == old(gbl.sweepAllGroups)
    ensures Stand(groups, safe, AfterRun(AllReset(c, before), log))
    ensures AllTell(groups, c, m, AllReset(c, before), log)
    ensures Covers(log, |groups|, skipGroups, gbl.sweepAllGroups) && ok == AllSucceed(log)
    ensures gbl.fomInSum == InSum(log) && gbl.fomOutSum == OutSum(log)
    ensures gbl.failures == RunRecords(c, log)
    ensures 1 <= gbl.currReadLat == Min(tRl + 16, MAX_LATENCY)
    ensures Advertised(regs.afiWlat, gbl.rwWlNopCycles, tWl + tAdd)
  {
    PrepareRun(gbl, regs, tWl, tAdd, tRl);
    ok, log := ResetAndCalibrate(groups, gbl, skipGroups, skip, m, c, safe, before);
  }

  /** A whole run, over groups whose registers are `before`. If every setting stored so far is
      `safe`, all that the run stores are. */
  method MemCalibrate(groups: seq<DqsGroup>, gbl: Gbl, regs: Registers, skipGroups: nat, skip: bool,
                      tWl: nat, tAdd: nat, tRl: nat, passes: nat -> bool, ghost m: Mode,
                      ghost c: Config, ghost safe: bool, ghost before: seq<Settings>)
    returns (pass: bool, ghost log: seq<Entry>)
    requires Interface(groups, c) && Stand(groups, safe, before) && c.Valid() && tWl + tAdd + 2 < 0x1_0000_0000
    requires m == ModeOf(gbl, skip)
    modifies groups, gbl, regs`phyRlat, regs`afiWlat
    ensures gbl.Valid()
    // Which groups were visited, and what each visit did.
    ensures Covers(log, |groups|, skipGroups, gbl.sweepAllGroups)
    ensures Stand(groups, safe, AfterRun(AllReset(c, before), log))
    ensures AllTell(groups, c, m, AllReset(c, before), log)
    // The run passes exactly if every visit succeeds, and the initial latency where it is tried.
    ensures pass == (AllSucceed(log) && (skipGroups == 0 ==> passes(Min(tRl + 16, MAX_LATENCY))))
    ensures pass && skipGroups == 0 ==> LatencySettled(gbl, passes, Min(tRl + 16, MAX_LATENCY))
    ensures gbl.fomInSum == InSum(log) && gbl.fomOutSum == OutSum(log)
    // The write latency told to the PHY stands, and so do the idle cycles of the write tests.
    ensures Advertised(regs.afiWlat, gbl.rwWlNopCycles, tWl + tAdd)
    // What is recorded is what the visits tell, or else that the initial latency fails; a failing
    // run reports what it recorded first.
    ensures pass || !AllSucceed(log) ==> gbl.failures == RunRecords(c, log)
    ensures !pass && AllSucceed(log) ==> gbl.failures == RunRecords(c, log) + [LATENCY_FAILURE]
    ensures !pass ==> gbl.failures != [] && gbl.errorStage != CAL_STAGE_NIL
    ensures !pass ==>
      gbl.failures[0] == FirstFailure(c, log) == Failure(gbl.errorGroup, gbl.errorStage, gbl.errorSubstage)
    ensures gbl.inDebugMode == old(gbl.inDebugMode) && gbl.sweepAllGroups == old(gbl.sweepAllGroups)
  {
    pass, log := RunGroups(groups, gbl, regs, skipGroups, skip, tWl, tAdd, tRl, m, c, safe, before);
    if !pass {
      FailingRunRecords(c, log);
    }
    if pass && skipGroups == 0 {
      pass := CalibrateLfifo(gbl, regs, passes);
    }
  }
}
