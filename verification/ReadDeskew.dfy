/** Read-side per-bit deskew, in read calibration and again after the writes. */
module ReadDeskew {
  import opened Arith
  import opened Hardware
  import opened Sweep
  import opened Placement
  import opened Deskew
  import opened Globals

  function CenterStage(side: Side): nat {
    match side
    case Read => CAL_STAGE_VFIFO
    case ReadAfterWrite => CAL_STAGE_VFIFO_AFTER_WRITES
    case Write => CAL_STAGE_WRITES
  }

  function CenterSubstage(side: Side): nat {
    if side == Write then CAL_SUBSTAGE_WRITES_CENTER else CAL_SUBSTAGE_VFIFO_CENTER
  }

  /** The number of a group's first pin. */
  function FirstPin(c: Config, group: nat): nat {
    group * c.dqPerDqs
  }

  /** The record of a bit without a window. */
  function MissingWindow(first: nat, bit: nat, side: Side): Failure {
    Failure(first + bit, CenterStage(side), CenterSubstage(side))
  }

  /** It is the pin of the bit, in the stage that the deskew belongs to. */
  lemma RecordsPin(c: Config, group: nat, bit: nat)
    ensures MissingWindow(FirstPin(c, group), bit, Read) ==
            Failure(group * c.dqPerDqs + bit, CAL_STAGE_VFIFO, CAL_SUBSTAGE_VFIFO_CENTER)
    ensures MissingWindow(FirstPin(c, group), bit, ReadAfterWrite) ==
            Failure(group * c.dqPerDqs + bit, CAL_STAGE_VFIFO_AFTER_WRITES, CAL_SUBSTAGE_VFIFO_CENTER)
    ensures MissingWindow(FirstPin(c, group), bit, Write) ==
            Failure(group * c.dqPerDqs + bit, CAL_STAGE_WRITES, CAL_SUBSTAGE_WRITES_CENTER)
  {
  }

  /** The margins a deskew reports for its figure of merit, shared among the read groups of a
      write group. */
  function FomShare(run: Run, es: seq<Edges>, share: nat): int
    requires share > 0
  {
    TruncDiv(MinLeft(run, es, |es|) + MinRight(run, es, |es|), share)
  }

  /** The part of a deskew after the edge check: every bit has a window. */
  method Centre(g: DqsGroup, gbl: Gbl, side: Side, start: int, left: array<int>, right: array<int>,
                updateFom: bool, share: nat, ghost run: Run, ghost es: seq<Edges>)
    returns (ok: bool)
    requires g.Valid() && gbl.Valid() && side != Write && share > 0
    requires left.Length == right.Length == g.c.dqPerDqs && es == EdgesOf(left[..], right[..])
    requires run.c == g.c && run.side == side && start == run.base.dqsIn && 0 <= start <= g.c.dqsInDelayMax
    requires g.regs == WithDqs(side, WithDq(side, run.base, Uniform(g.c.dqPerDqs, 0)), g.regs.dqsIn)
    modifies g, gbl
    ensures g.Stepped() && gbl.Stepped() && g.phaseZeroStores == old(g.phaseZeroStores)
    ensures gbl.failures == old(gbl.failures) && gbl.fomOutSum == old(gbl.fomOutSum)
    ensures g.regs == Placed(run, es) && PlacedNearest(run, es, g.regs) && ok == MarginsHold(run, es)
    ensures gbl.fomInSum == old(gbl.fomInSum) + if updateFom then FomShare(run, es, share) else 0
  {
    var newDqs, dqMargin, dqsMargin := PlaceData(g, side, start, left, right, run, es);
    SetDqs(g, side, newDqs);
    PlacedIsNearest(run, es);
    if updateFom {
      gbl.AddFomIn(TruncDiv(dqMargin + dqsMargin, share));
    }
    ok := dqMargin >= 0 && dqsMargin >= 0;
  }

  /** Puts the strobe back and reports the pin without a window. */
  method RestoreAndReport(g: DqsGroup, gbl: Gbl, side: Side, start: int, first: nat, bit: nat, ghost run: Run)
    requires g.Valid() && gbl.Valid() && side != Write && run.c == g.c && run.side == side
    requires start == run.base.dqsIn && 0 <= start <= g.c.dqsInDelayMax
    requires g.regs == WithDqs(side, WithDq(side, run.base, Uniform(g.c.dqPerDqs, 0)), g.regs.dqsIn)
    modifies g, gbl
    ensures g.Stepped() && gbl.Stepped() && gbl.SameFom() && g.phaseZeroStores == old(g.phaseZeroStores)
    ensures g.regs == WithDq(side, run.base, Uniform(g.c.dqPerDqs, 0))
    ensures gbl.failures == old(gbl.failures) + [MissingWindow(first, bit, side)]
  {
    g.SetDqsBusInDelay(start);
    gbl.SetFailingGroupStage(first + bit, CenterStage(side), CAL_SUBSTAGE_VFIFO_CENTER);
  }

  /** What a deskew that found the edges `es` leaves behind. */
  ghost predicate Settled(run: Run, es: seq<Edges>, regs: Settings)
    requires |es| > 0
  {
    regs == if AllHaveWindow(run, es) then Placed(run, es)
            else WithDq(run.side, run.base, Uniform(run.c.dqPerDqs, 0))
  }

  ghost predicate MarginsHold(run: Run, es: seq<Edges>) {
    MinLeft(run, es, |es|) >= 0 && MinRight(run, es, |es|) >= 0
  }

  method VfifoCenter(g: DqsGroup, gbl: Gbl, readGroup: nat, side: Side, updateFom: bool, share: nat)
    returns (ok: bool, ghost run: Run, ghost es: seq<Edges>, ghost missing: nat)
    requires g.Valid() && gbl.Valid() && side != Write && share > 0
    requires 0 <= g.regs.dqsIn <= g.c.dqsInDelayMax
    modifies g, gbl
    ensures g.Stepped() && gbl.Stepped() && g.phaseZeroStores == old(g.phaseZeroStores)
    ensures run == Run(g.c, g.mem, side, old(g.regs), old(g.tests)) && Swept(run, es)
    // With a bit missing its window the strobe is back where it was.
    ensures Settled(run, es, g.regs)
    // With all windows there, every one is centred as well as the chains allow.
    ensures AllHaveWindow(run, es) ==> PlacedNearest(run, es, g.regs)
    ensures ok == (AllHaveWindow(run, es) && MarginsHold(run, es))
    ensures AllHaveWindow(run, es) ==> gbl.failures == old(gbl.failures)
    ensures !AllHaveWindow(run, es) ==>
      && FirstWithoutWindow(run, es, missing)
      && gbl.failures == old(gbl.failures) + [MissingWindow(FirstPin(g.c, readGroup), missing, side)]
    ensures gbl.fomOutSum == old(gbl.fomOutSum)
    ensures gbl.fomInSum == old(gbl.fomInSum) +
      if updateFom && AllHaveWindow(run, es) then FomShare(run, es, share) else 0
  {
    var n, start := g.c.dqPerDqs, g.regs.dqsIn;
    var left, right := new int[n], new int[n];
    run := FindEdges(g, side, left, right);
    es := EdgesOf(left[..], right[..]);
    var i := FirstMissing(DqMax(g.c, side) + 1, left, right, run);
    missing := i;
    if i < n {
      RestoreAndReport(g, gbl, side, start, FirstPin(g.c, readGroup), i, run);
      ok := false;
    } else {
      ok := Centre(g, gbl, side, start, left, right, updateFom, share, run, es);
    }
  }

  /** Under the offset model, non-negative margins mean that every bit passes. */
  lemma {:induction false} SeparablePasses(run: Run, es: seq<Edges>)
    requires run.c.Valid() && Swept(run, es) && AllHaveWindow(run, es)
    requires |es| == run.c.dqPerDqs
    requires MarginsHold(run, es)
    requires Separable(run.c, run.mem, run.side, run.base)
    requires 0 <= run.Last()
    requires run.side == Write ==> run.base.dqsOut == run.base.octOut
    ensures AllPass(run.c, run.mem, run.side, Placed(run, es))
  {
    var ws :| OffsetModel(run.c, run.mem, run.side, run.base, ws);
    var vs := VisibleWindows(run, ws);
    forall i: nat | i < |es| ensures es[i] == Edges(-vs[i].a, vs[i].b) {
      SweptExact(run, vs, es, i);
    }
    PlacedPasses(run, ws, vs, es);
  }

  /** Sweeps from `base` that end without success. */
  ghost predicate DeskewFails(c: Config, mem: Memory, side: Side, base: Settings) {
    exists t: nat, es: seq<Edges> :: FailedSweep(Run(c, mem, side, base, t), es)
  }

  ghost predicate FailedSweep(run: Run, es: seq<Edges>) {
    Swept(run, es) && !(AllHaveWindow(run, es) && MarginsHold(run, es))
  }

  /** The edges of what the sweeps can see of the windows. */
  function VisibleEdges(run: Run, ws: seq<Window>): (es: seq<Edges>)
    ensures |es| == |ws|
  {
    seq(|ws|, i requires 0 <= i < |ws| =>
      var v := Visible(ws[i], Dqs(run.side, run.base), -(run.Sentinel() - 1), run.Last());
      Edges(-v.a, v.b))
  }

  /** Every window can be seen, and the chains are long enough to centre it. */
  ghost predicate WindowsFit(run: Run, ws: seq<Window>) {
    var es := VisibleEdges(run, ws);
    && |ws| > 0 && StrobeFits(run, es)
    && forall i: nat | i < |ws| ::
         es[i].left + es[i].right >= 0 && es[i].right != run.Sentinel() && DataFits(run, es, i)
  }

  ghost predicate DeskewFits(c: Config, mem: Memory, side: Side, base: Settings) {
    exists ws :: OffsetModel(c, mem, side, base, ws) && WindowsFit(Run(c, mem, side, base, 0), ws)
  }

  /** Under the offset model, windows that fit make the deskew succeed. */
  lemma {:induction false} FittingSucceeds(run: Run, es: seq<Edges>)
    requires run.c.Valid() && Swept(run, es) && 0 <= run.Last()
    requires run.side == Write ==> run.base.dqsOut == run.base.octOut
    requires DeskewFits(run.c, run.mem, run.side, run.base)
    ensures AllHaveWindow(run, es) && MarginsHold(run, es)
  {
    var zero := run.(t0 := 0);
    var ws :| OffsetModel(run.c, run.mem, run.side, run.base, ws) && WindowsFit(zero, ws);
    FittingSeen(run, zero, ws, es);
    SameShifts(run, zero, es);
    CentringSucceeds(run, es);
  }

  lemma {:induction false} FittingNeverFails(c: Config, mem: Memory, side: Side, base: Settings)
    requires c.Valid() && 0 <= Dqs(side, base) <= DqsMax(c, side) && DeskewFits(c, mem, side, base)
    requires side == Write ==> base.dqsOut == base.octOut
    ensures !DeskewFails(c, mem, side, base)
  {
    forall t: nat, es: seq<Edges> ensures !FailedSweep(Run(c, mem, side, base, t), es) {
      if Swept(Run(c, mem, side, base, t), es) {
        FittingSucceeds(Run(c, mem, side, base, t), es);
      }
    }
  }

  /** The sweeps find the edges of windows that fit. */
  lemma {:induction false} FittingSeen(run: Run, zero: Run, ws: seq<Window>, es: seq<Edges>)
    requires Swept(run, es) && 0 <= run.Last() && zero == run.(t0 := 0)
    requires run.side == Write ==> run.base.dqsOut == run.base.octOut
    requires OffsetModel(run.c, run.mem, run.side, run.base, ws) && WindowsFit(zero, ws)
    ensures es == VisibleEdges(zero, ws) && AllHaveWindow(run, es)
  {
    var vs := VisibleWindows(run, ws);
    var fs := VisibleEdges(zero, ws);
    forall i: nat | i < |es| ensures HasWindow(run, es[i]) && es[i] == fs[i] {
      SweptExact(run, vs, es, i);
      assert fs[i] == Edges(-vs[i].a, vs[i].b);
      assert fs[i].left + fs[i].right >= 0 && fs[i].right != run.Sentinel();
    }
  }

  /** Where bits are placed does not depend on the numbers of the tests. */
  lemma SameShifts(run: Run, other: Run, es: seq<Edges>)
    requires |es| > 0 && other == run.(t0 := other.t0)
    ensures StrobeFits(run, es) == StrobeFits(other, es)
    ensures forall i: nat | i < |es| ::
      Shift(run, es, i) == Shift(other, es, i) && DataFits(run, es, i) == DataFits(other, es, i)
  {
  }

  // ---------- a window that ends exactly at the sentinel ----------

  /** A configuration whose strobe chain is longer than its data chain. */
  const LONG_STROBE := SHIPPED.(ioInDelayMax := 15)

  /** A memory that reads correctly with the strobe 0 to 16 taps later than the data. */
  function SeventeenTaps(): Memory {
    Memory((t, s: Settings, i: nat) => i < |s.dqIn| && 0 <= s.dqsIn - s.dqIn[i] <= 16,
           (t, s, i) => false, (t, s) => false, (t, s) => false)
  }

  /** Its bits pass at seventeen offsets, and yet every sweep from strobe delay 0 reports that
      they have no window. */
  lemma {:induction false} SeventeenTapsMissed(base: Settings, t0: nat, es: seq<Edges>, i: nat)
    requires Shaped(LONG_STROBE, base) && base.dqsIn == 0
    requires var run := Run(LONG_STROBE, SeventeenTaps(), Read, base, t0); Swept(run, es) && i < |es|
    ensures var run := Run(LONG_STROBE, SeventeenTaps(), Read, base, t0);
      && LONG_STROBE.Valid() && !HasWindow(run, es[i])
      && forall t: nat, x | 0 <= x <= 16 :: Bit(run.mem, Read, t, At(run.c, Read, base, x), i)
  {
    var run := Run(LONG_STROBE, SeventeenTaps(), Read, base, t0);
    var w := Window(0, 16);
    var ws := seq(run.c.dqPerDqs, j => w);
    forall j: nat | j < |ws| ensures PassesOn(run, j, ws[j], -(run.Sentinel() - 1), run.Last()) {
      forall t: nat, x: int | -(run.Sentinel() - 1) <= x <= run.Last()
        ensures Bit(run.mem, Read, t, At(run.c, Read, base, x), j) == w.Has(x)
      {
        var s := At(run.c, Read, base, x);
        assert s.dqIn == Uniform(run.c.dqPerDqs, if x <= 0 then -x else 0);
      }
    }
    SweptExact(run, ws, es, i);
  }
}
