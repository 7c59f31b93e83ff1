/** Write-side calibration of a group: deskew of the data against the write strobe, then the
    data mask. */
module WriteDeskew {
  import opened Hardware
  import opened Sweep
  import opened Placement
  import opened Deskew
  import opened Globals
  import DmSearch
  import ReadDeskew

  /** A group whose write side is calibrated: under the offset model every bit passes, and
      a mask that answers its search consistently works. */
  ghost predicate MaskWorks(g: DqsGroup)
    reads g
  {
    forall t: nat :: g.mem.dmBits(t, g.regs)
  }

  /** The run of mask offsets that the mask search settled on. */
  datatype MaskRun = MaskRun(s: DmSearch.Search, bgn: int, end: int, win: int) {
    /** The longest run, if the memory is consistent; well formed in any case. */
    ghost predicate Searched() {
      && DmSearch.Bounded(s, s.Last(), bgn, end, win)
      && (s.Deterministic() ==> s.Longest(s.Last(), bgn, end, win))
    }
  }

  /** What writing needs of the registers: both strobe delays agree and fit the chain. */
  predicate StrobesAgree(c: Config, s: Settings) {
    s.dqsOut == s.octOut && 0 <= s.dqsOut <= c.ioOut1DelayMax
  }

  /** The write deskew after the edge check, and the mask. The strobe returns to its start. */
  method CentreWrites(g: DqsGroup, gbl: Gbl, start: int, left: array<int>, right: array<int>,
                      ghost run: Run, ghost es: seq<Edges>)
    returns (ok: bool, ghost mask: MaskRun)
    requires g.Valid() && gbl.Valid()
    requires left.Length == right.Length == g.c.dqPerDqs && es == EdgesOf(left[..], right[..])
    requires run.c == g.c && run.side == Write && start == run.base.dqsOut && StrobesAgree(g.c, run.base)
    requires g.regs == WithDqs(Write, WithDq(Write, run.base, Uniform(g.c.dqPerDqs, 0)), g.regs.dqsOut)
    modifies g, gbl
    ensures g.Stepped() && gbl.Stepped() && g.phaseZeroStores == old(g.phaseZeroStores)
    ensures mask.s == DmSearch.Search(g.c, g.mem, Placed(run, es)) && mask.Searched()
    ensures g.regs == Placed(run, es).(dmOut := DmSearch.MaskDelay(mask.bgn, mask.end))
    ensures PlacedNearest(run, es, g.regs)
    ensures mask.win > 0 ==> DmSearch.MaskNearest(g.c, mask.bgn, mask.end, g.regs.dmOut)
    ensures ok == (ReadDeskew.MarginsHold(run, es) && DmSearch.MaskMargin(mask.bgn, mask.end, mask.win) >= 0)
    ensures ok && mask.s.Deterministic() ==> MaskWorks(g)
    ensures gbl.failures == old(gbl.failures) && gbl.fomInSum == old(gbl.fomInSum)
    ensures gbl.fomOutSum == old(gbl.fomOutSum) + MinLeft(run, es, |es|) + MinRight(run, es, |es|)
  {
    var newDqs, dqMargin, dqsMargin := PlaceData(g, Write, start, left, right, run, es);
    g.SetDqsIoAndOctOut1(newDqs);
    assert g.regs == Placed(run, es);
    PlacedIsNearest(run, es);
    var dmMargin, s, bgn, end, win := DmSearch.CenterMask(g);
    mask := MaskRun(s, bgn, end, win);
    gbl.AddFomOut(dqMargin + dqsMargin);
    ok := dqMargin >= 0 && dqsMargin >= 0 && dmMargin >= 0;
  }

  /** What a write deskew that found the edges `es` leaves behind. Without a window for
      every bit, the strobe stays where its sweep stopped. */
  ghost predicate Settled(run: Run, es: seq<Edges>, mask: MaskRun, regs: Settings)
    requires |es| > 0
  {
    if AllHaveWindow(run, es) then
      && mask.s == DmSearch.Search(run.c, run.mem, Placed(run, es)) && mask.Searched()
      && regs == Placed(run, es).(dmOut := DmSearch.MaskDelay(mask.bgn, mask.end))
    else StoppedAt(run, es, regs)
  }

  /** Reports the pin without a window. The strobe stays where its sweep stopped. */
  method ReportPin(g: DqsGroup, gbl: Gbl, testBgn: nat, bit: nat)
    requires g.Valid() && gbl.Valid()
    modifies gbl
    ensures g.Stepped() && gbl.Stepped() && gbl.SameFom()
    ensures gbl.failures == old(gbl.failures) + [ReadDeskew.MissingWindow(testBgn, bit, Write)]
  {
    gbl.SetFailingGroupStage(testBgn + bit, CAL_STAGE_WRITES, CAL_SUBSTAGE_WRITES_CENTER);
  }

  method WritesCenter(g: DqsGroup, gbl: Gbl, testBgn: nat)
    returns (ok: bool, ghost run: Run, ghost es: seq<Edges>, ghost missing: nat, ghost mask: MaskRun)
    requires g.Valid() && gbl.Valid() && StrobesAgree(g.c, g.regs)
    modifies g, gbl
    ensures g.Stepped() && gbl.Stepped() && g.phaseZeroStores == old(g.phaseZeroStores)
    ensures run == Run(g.c, g.mem, Write, old(g.regs), old(g.tests)) && Swept(run, es)
    ensures Settled(run, es, mask, g.regs)
    // With all windows there, data and mask are centred as well as the chains allow.
    ensures AllHaveWindow(run, es) ==> PlacedNearest(run, es, g.regs)
    ensures AllHaveWindow(run, es) && mask.win > 0 ==> DmSearch.MaskNearest(g.c, mask.bgn, mask.end, g.regs.dmOut)
    ensures ok == (AllHaveWindow(run, es) && ReadDeskew.MarginsHold(run, es) &&
                   DmSearch.MaskMargin(mask.bgn, mask.end, mask.win) >= 0)
    ensures ok && mask.s.Deterministic() ==> MaskWorks(g)
    ensures AllHaveWindow(run, es) ==> gbl.failures == old(gbl.failures)
    ensures !AllHaveWindow(run, es) ==>
      && FirstWithoutWindow(run, es, missing)
      && gbl.failures == old(gbl.failures) +
           [ReadDeskew.MissingWindow(testBgn, missing, Write)]
    ensures gbl.fomInSum == old(gbl.fomInSum)
    ensures gbl.fomOutSum == old(gbl.fomOutSum) +
      if AllHaveWindow(run, es) then MinLeft(run, es, |es|) + MinRight(run, es, |es|) else 0
  {
    var n, start := g.c.dqPerDqs, g.regs.dqsOut;
    var left, right := new int[n], new int[n];
    run := FindEdges(g, Write, left, right);
    es := EdgesOf(left[..], right[..]);
    var i := FirstMissing(DqMax(g.c, Write) + 1, left, right, run);
    missing := i;
    if i < n {
      ReportPin(g, gbl, testBgn, i);
      ok := false;
      mask := MaskRun(DmSearch.Search(g.c, g.mem, g.regs), 0, 0, 0);
    } else {
      ok, mask := CentreWrites(g, gbl, start, left, right, run, es);
    }
  }
}
