/** Per-bit deskew and centering: the sweeps, the edge check and the placement shared by
    the read and the write side. */
module Deskew {
  import opened Arith
  import opened Hardware
  import opened Sweep
  import opened Placement

  method SetDq(g: DqsGroup, side: Side, pin: nat, delay: int)
    requires g.Valid() && pin < g.c.dqPerDqs
    modifies g
    ensures g.Valid() && g.regs == WithDq(side, old(g.regs), Dq(side, old(g.regs))[pin := delay])
    ensures g.safe == (old(g.safe) && 0 <= delay <= DqMax(g.c, side))
    ensures g.tests == old(g.tests) && g.phaseZeroStores == old(g.phaseZeroStores)
  {
    if side == Write {
      g.SetDqOut1Delay(pin, delay);
    } else {
      g.SetDqInDelay(pin, delay);
    }
  }

  method SetDqs(g: DqsGroup, side: Side, delay: int)
    requires g.Valid()
    modifies g
    ensures g.Valid() && g.regs == WithDqs(side, old(g.regs), delay)
    ensures g.safe == (old(g.safe) && 0 <= delay <= DqsMax(g.c, side))
    ensures g.tests == old(g.tests) && g.phaseZeroStores == old(g.phaseZeroStores)
  {
    if side == Write {
      g.SetDqsIoAndOctOut1(delay);
    } else {
      g.SetDqsBusInDelay(delay);
    }
  }

  /** Applies one delay to every data pin of the group. */
  method ApplyGroupDq(g: DqsGroup, side: Side, delay: int)
    requires g.Valid() && 0 <= delay <= DqMax(g.c, side)
    modifies g
    ensures g.Stepped() && g.tests == old(g.tests) && g.phaseZeroStores == old(g.phaseZeroStores)
    ensures g.regs == WithDq(side, old(g.regs), Uniform(g.c.dqPerDqs, delay))
  {
    var n := g.c.dqPerDqs;
    for i := 0 to n
      invariant g.Stepped() && g.tests == old(g.tests) && g.phaseZeroStores == old(g.phaseZeroStores)
      invariant g.regs == WithDq(side, old(g.regs), Dq(side, g.regs))
      invariant |Dq(side, g.regs)| == n && forall j | 0 <= j < i :: Dq(side, g.regs)[j] == delay
    {
      SetDq(g, side, i, delay);
    }
    assert Dq(side, g.regs) == Uniform(n, delay);
  }

  /** Runs one test and returns its word, one entry per bit. */
  method TestBits(g: DqsGroup, side: Side) returns (bits: seq<bool>)
    requires g.Valid()
    modifies g
    ensures g.Stepped() && g.regs == old(g.regs) && g.tests == old(g.tests) + 1
    ensures g.phaseZeroStores == old(g.phaseZeroStores)
    ensures |bits| == g.c.dqPerDqs
    ensures forall i: nat | i < |bits| :: bits[i] == Bit(g.mem, side, old(g.tests), g.regs, i)
  {
    var mem, t, s := g.mem, g.tests, g.regs;
    bits := seq(g.c.dqPerDqs, i requires 0 <= i => Bit(mem, side, t, s, i));
    g.tests := g.tests + 1;
  }

  predicate NoBit(bits: seq<bool>) {
    forall i | 0 <= i < |bits| :: !bits[i]
  }

  predicate EveryBit(bits: seq<bool>) {
    forall i | 0 <= i < |bits| :: bits[i]
  }

  function Or(x: seq<bool>, y: seq<bool>): (z: seq<bool>)
    requires |x| == |y|
    ensures |z| == |x| && forall i | 0 <= i < |z| :: z[i] == (x[i] || y[i])
  {
    seq(|x|, i requires 0 <= i < |x| => x[i] || y[i])
  }

  /** Step d of the data sweep. */
  method DataTest(g: DqsGroup, side: Side, d: nat, ghost run: Run) returns (bits: seq<bool>)
    requires g.Valid() && run.c == g.c && run.mem == g.mem && run.side == side && g.tests == run.t0 + d
    requires d <= DqMax(g.c, side) && g.regs == WithDq(side, run.base, Dq(side, g.regs))
    modifies g
    ensures g.Stepped() && g.phaseZeroStores == old(g.phaseZeroStores) && g.tests == old(g.tests) + 1
    ensures g.regs == WithDq(side, run.base, Dq(side, g.regs))
    ensures |bits| == g.c.dqPerDqs && forall i: nat | i < |bits| :: bits[i] == run.DataPass(d, i)
  {
    ApplyGroupDq(g, side, d);
    assert g.regs == At(g.c, side, run.base, 0 - d);
    bits := TestBits(g, side);
  }

  /** Step d of the strobe sweep. */
  method StrobeTest(g: DqsGroup, side: Side, start: int, d: nat, ghost run: Run) returns (bits: seq<bool>)
    requires g.Valid() && run.c == g.c && run.mem == g.mem && run.side == side && g.tests == run.t0 + d
    requires start == Dqs(side, run.base) && 0 <= start + d <= DqsMax(g.c, side)
    requires side == Write ==> run.base.dqsOut == run.base.octOut
    requires g.regs == WithDqs(side, WithDq(side, run.base, Uniform(g.c.dqPerDqs, 0)), Dqs(side, g.regs))
    modifies g
    ensures g.Stepped() && g.phaseZeroStores == old(g.phaseZeroStores) && g.tests == old(g.tests) + 1
    ensures g.regs == WithDqs(side, WithDq(side, run.base, Uniform(g.c.dqPerDqs, 0)), Dqs(side, g.regs))
    ensures g.regs == At(g.c, side, run.base, d)
    ensures |bits| == g.c.dqPerDqs && forall i: nat | i < |bits| :: bits[i] == run.StrobePass(d, i)
  {
    SetDqs(g, side, d + start);
    assert g.regs == At(g.c, side, run.base, d);
    bits := TestBits(g, side);
  }

  /** Records the word of step d of the data sweep. */
  method RecordLeft(ghost run: Run, sentinel: int, d: nat, bits: seq<bool>, left: array<int>, right: array<int>)
    requires left != right && left.Length == right.Length == |bits| && sentinel == run.Sentinel()
    requires forall i: nat | i < |bits| :: bits[i] == run.DataPass(d, i)
    requires forall i: nat | i < |bits| :: Edges(left[i], right[i]) == LeftFold(run, i, d)
    modifies left, right
    ensures forall i: nat | i < |bits| :: Edges(left[i], right[i]) == LeftFold(run, i, d + 1)
  {
    for i := 0 to |bits|
      invariant forall j: nat | j < i :: Edges(left[j], right[j]) == LeftFold(run, j, d + 1)
      invariant forall j: nat | i <= j < |bits| :: Edges(left[j], right[j]) == LeftFold(run, j, d)
    {
      assert LeftFold(run, i, d + 1) == LeftStep(LeftFold(run, i, d), d, bits[i], sentinel);
      if bits[i] {
        left[i] := d;
      } else if left[i] == sentinel {
        right[i] := -(d + 1);
      }
    }
  }

  /** The sticky bits say which bits have passed so far. */
  lemma {:induction false} LeftSticky(run: Run, k: nat, bits: seq<bool>, sticky: seq<bool>)
    requires |bits| == |sticky|
    requires forall i: nat | i < |bits| :: bits[i] == run.DataPass(k, i) && sticky[i] == run.PassedData(k, i)
    ensures forall i: nat | i < |bits| :: Or(sticky, bits)[i] == run.PassedData(k + 1, i)
  {
    forall i: nat | i < |bits| ensures Or(sticky, bits)[i] == run.PassedData(k + 1, i) {
      assert run.PassedData(k + 1, i) <==> run.PassedData(k, i) || run.DataPass(k, i);
    }
  }

  /** The stop condition of the data sweep is that of its specification. */
  lemma {:induction false} LeftStops(run: Run, k: nat, bits: seq<bool>, sticky: seq<bool>)
    requires |bits| == |sticky| == run.c.dqPerDqs && k < run.Sentinel()
    requires forall i: nat | i < |bits| :: bits[i] == run.DataPass(k, i)
    requires forall i: nat | i < |bits| :: sticky[i] == run.PassedData(k + 1, i)
    ensures NoBit(bits) && EveryBit(sticky) <==> LeftExhausted(run, k)
    ensures LeftGoesOn(run, k) && !(NoBit(bits) && EveryBit(sticky)) ==> LeftGoesOn(run, k + 1)
  {
    if NoBit(bits) && EveryBit(sticky) {
      forall i: nat | i < run.c.dqPerDqs ensures !run.DataPass(k, i) && run.PassedData(k, i) {
        assert !bits[i] && sticky[i];
        var d: nat :| d < k + 1 && run.DataPass(d, i);
        assert d < k;
      }
    }
    if LeftExhausted(run, k) {
      forall i: nat | i < |bits| ensures !bits[i] && sticky[i] {
        assert !run.DataPass(k, i) && run.PassedData(k, i);
      }
    }
  }

  /** The data sweep: from the start settings, raise all data delays together until a test
      fails everywhere after every bit has passed once. Leaves the data delays at 0. */
  method DataSweep(g: DqsGroup, side: Side, left: array<int>, right: array<int>) returns (k: nat, ghost run: Run)
    requires g.Valid() && left != right && left.Length == right.Length == g.c.dqPerDqs
    modifies g, left, right
    ensures g.Stepped() && g.phaseZeroStores == old(g.phaseZeroStores)
    ensures run == Run(g.c, g.mem, side, old(g.regs), old(g.tests))
    ensures LeftStop(run, k)
    ensures forall i: nat | i < left.Length :: Edges(left[i], right[i]) == LeftFold(run, i, k)
    ensures g.regs == WithDq(side, old(g.regs), Uniform(g.c.dqPerDqs, 0))
  {
    var n, sentinel := g.c.dqPerDqs, DqMax(g.c, side) + 1;
    run := Run(g.c, g.mem, side, g.regs, g.tests);
    var sticky := seq(n, _ => false);
    for i := 0 to n
      modifies left, right
      invariant forall j: nat | j < i :: left[j] == right[j] == sentinel
    {
      left[i], right[i] := sentinel, sentinel;
    }
    k := 0;
    while k <= DqMax(g.c, side)
      invariant k <= sentinel
      invariant g.Stepped() && g.phaseZeroStores == old(g.phaseZeroStores)
      invariant g.tests == run.t0 + k
      invariant g.regs == WithDq(side, run.base, Dq(side, g.regs))
      invariant |sticky| == n && forall i: nat | i < n :: sticky[i] == run.PassedData(k, i)
      invariant forall i: nat | i < n :: Edges(left[i], right[i]) == LeftFold(run, i, k)
      invariant LeftGoesOn(run, k)
    {
      var bits := DataTest(g, side, k, run);
      LeftSticky(run, k, bits, sticky);
      sticky := Or(sticky, bits);
      LeftStops(run, k, bits, sticky);
      if NoBit(bits) && EveryBit(sticky) {
        break;
      }
      RecordLeft(run, sentinel, k, bits, left, right);
      k := k + 1;
    }
    assert LeftStop(run, k);
    ApplyGroupDq(g, side, 0);
  }

  /** Clears right edges that no left edge backs, and marks the bits already done. */
  method ResetEdges(run: Run, left: array<int>, right: array<int>) returns (sticky: seq<bool>)
    requires left != right && left.Length == right.Length == run.c.dqPerDqs
    modifies right
    ensures |sticky| == left.Length
    ensures forall i: nat | i < left.Length ::
      && Edges(left[i], right[i]) == Reset(old(Edges(left[i], right[i])), run.Sentinel())
      && sticky[i] == Seen(run, Edges(left[i], right[i]))
  {
    var sentinel, i := run.Sentinel(), left.Length;
    sticky := [];
    while i > 0
      invariant 0 <= i <= left.Length && |sticky| == left.Length - i
      invariant forall j: nat | j < i :: right[j] == old(right[j])
      invariant forall j: nat | i <= j < left.Length ::
        && Edges(left[j], right[j]) == Reset(old(Edges(left[j], right[j])), sentinel)
        && sticky[j - i] == Seen(run, Edges(left[j], right[j]))
    {
      i := i - 1;
      if left[i] == sentinel && right[i] != sentinel {
        right[i] := sentinel;
      }
      sticky := [left[i] != sentinel && (run.side == Write || right[i] != sentinel)] + sticky;
    }
  }

  function EdgesOf(left: seq<int>, right: seq<int>): (es: seq<Edges>)
    requires |left| == |right|
    ensures |es| == |left| && forall i | 0 <= i < |es| :: es[i] == Edges(left[i], right[i])
  {
    seq(|left|, i requires 0 <= i < |left| => Edges(left[i], right[i]))
  }

  /** Records the word of step d of the strobe sweep. */
  method RecordRight(ghost run: Run, sentinel: int, ghost es: seq<Edges>, d: nat, bits: seq<bool>,
                     left: array<int>, right: array<int>)
    requires left != right && left.Length == right.Length == |bits| == |es| && sentinel == run.Sentinel()
    requires forall i: nat | i < |bits| :: bits[i] == run.StrobePass(d, i)
    requires forall i: nat | i < |bits| :: Edges(left[i], right[i]) == RightFold(run, i, es[i], d)
    modifies left, right
    ensures forall i: nat | i < |bits| :: Edges(left[i], right[i]) == RightFold(run, i, es[i], d + 1)
  {
    for i := 0 to |bits|
      invariant forall j: nat | j < i :: Edges(left[j], right[j]) == RightFold(run, j, es[j], d + 1)
      invariant forall j: nat | i <= j < |bits| :: Edges(left[j], right[j]) == RightFold(run, j, es[j], d)
    {
      assert RightFold(run, i, es[i], d + 1) == RightStep(RightFold(run, i, es[i], d), d, bits[i], sentinel);
      if bits[i] {
        right[i] := d;
      } else if d != 0 {
        if right[i] == sentinel {
          left[i] := -(d + 1);
        }
      } else if right[i] == sentinel && left[i] != sentinel {
        right[i] := -1;
      } else if right[i] == sentinel {
        left[i] := -(d + 1);
      }
    }
  }

  /** The write side's early stop at step 0: nothing passes at the start although every left
      edge was seen, so those bits are marginal there. */
  method MarkMarginal(ghost run: Run, sentinel: int, ghost es: seq<Edges>, ghost bits: seq<bool>,
                      left: array<int>, right: array<int>)
    requires left != right && left.Length == right.Length == |bits| == |es| && sentinel == run.Sentinel()
    requires forall i: nat | i < |bits| :: !bits[i] && bits[i] == run.StrobePass(0, i)
    requires forall i: nat | i < |bits| :: Edges(left[i], right[i]) == es[i] && left[i] != sentinel
    modifies right
    ensures forall i: nat | i < |bits| :: Edges(left[i], right[i]) == RightFold(run, i, es[i], 1)
  {
    for i := 0 to left.Length
      invariant forall j: nat | j < i :: Edges(left[j], right[j]) == RightFold(run, j, es[j], 1)
      invariant forall j: nat | i <= j < |bits| :: Edges(left[j], right[j]) == es[j]
    {
      assert RightFold(run, i, es[i], 1) == RightStep(RightFold(run, i, es[i], 0), 0, false, sentinel);
      if right[i] == sentinel && left[i] != sentinel {
        right[i] := -1;
      }
    }
  }

  lemma {:induction false} RightSticky(run: Run, es: seq<Edges>, k: nat, bits: seq<bool>, sticky: seq<bool>)
    requires |bits| == |sticky| == |es|
    requires forall i: nat | i < |bits| :: bits[i] == run.StrobePass(k, i)
    requires forall i: nat | i < |bits| :: sticky[i] == (Seen(run, es[i]) || run.PassedStrobe(k, i))
    ensures forall i: nat | i < |bits| :: Or(sticky, bits)[i] == (Seen(run, es[i]) || run.PassedStrobe(k + 1, i))
  {
    forall i: nat | i < |bits|
      ensures Or(sticky, bits)[i] == (Seen(run, es[i]) || run.PassedStrobe(k + 1, i))
    {
      assert run.PassedStrobe(k + 1, i) <==> run.PassedStrobe(k, i) || run.StrobePass(k, i);
    }
  }

  /** The stop condition of the strobe sweep is that of its specification. */
  lemma {:induction false} RightStops(run: Run, es: seq<Edges>, k: nat, bits: seq<bool>, sticky: seq<bool>)
    requires |bits| == |sticky| == |es| == run.c.dqPerDqs && k <= run.Last()
    requires forall i: nat | i < |bits| :: bits[i] == run.StrobePass(k, i)
    requires forall i: nat | i < |bits| ::
      sticky[i] == (Seen(run, es[i]) || run.PassedStrobe(k + 1, i))
    ensures NoBit(bits) && EveryBit(sticky) <==> RightExhausted(run, es, k)
    ensures RightGoesOn(run, es, k) && !(NoBit(bits) && EveryBit(sticky)) ==> RightGoesOn(run, es, k + 1)
  {
    if NoBit(bits) && EveryBit(sticky) {
      forall i: nat | i < run.c.dqPerDqs
        ensures !run.StrobePass(k, i) && (Seen(run, es[i]) || run.PassedStrobe(k, i))
      {
        assert !bits[i] && sticky[i];
        if !Seen(run, es[i]) {
          var d: nat :| d < k + 1 && run.StrobePass(d, i);
          assert d < k;
        }
      }
    }
    if RightExhausted(run, es, k) {
      forall i: nat | i < |bits| ensures !bits[i] && sticky[i] {
        assert !run.StrobePass(k, i) && (Seen(run, es[i]) || run.PassedStrobe(k, i));
      }
    }
  }

  /** Step k of the strobe sweep, unless it is where the sweep stops. */
  method StrobeStep(g: DqsGroup, side: Side, start: int, k: nat, left: array<int>, right: array<int>,
                    sticky: seq<bool>, ghost run: Run, ghost es: seq<Edges>)
    returns (stop: bool, sticky': seq<bool>)
    requires g.Valid() && left != right && left.Length == right.Length == |sticky| == |es| == g.c.dqPerDqs
    requires run.c == g.c && run.mem == g.mem && run.side == side && g.tests == run.t0 + k
    requires start == Dqs(side, run.base) && 0 <= start && start + k <= DqsMax(g.c, side)
    requires side == Write ==> run.base.dqsOut == run.base.octOut
    requires g.regs == At(g.c, side, run.base, if k == 0 then 0 else k - 1)
    requires RightGoesOn(run, es, k)
    requires forall i: nat | i < |sticky| :: sticky[i] == (Seen(run, es[i]) || run.PassedStrobe(k, i))
    requires forall i: nat | i < |sticky| :: Edges(left[i], right[i]) == RightFold(run, i, es[i], k)
    modifies g, left, right
    ensures g.Stepped() && g.phaseZeroStores == old(g.phaseZeroStores) && g.tests == old(g.tests) + 1
    ensures g.regs == At(g.c, side, run.base, k)
    ensures |sticky'| == g.c.dqPerDqs
    ensures forall i: nat | i < |sticky'| :: sticky'[i] == (Seen(run, es[i]) || run.PassedStrobe(k + 1, i))
    ensures if stop then RightExhausted(run, es, k) else RightGoesOn(run, es, k + 1)
    ensures forall i: nat | i < left.Length ::
      Edges(left[i], right[i]) == RightFold(run, i, es[i], if stop then Steps(run, k) else k + 1)
  {
    var bits := StrobeTest(g, side, start, k, run);
    RightSticky(run, es, k, bits, sticky);
    sticky' := Or(sticky, bits);
    RightStops(run, es, k, bits, sticky');
    stop := NoBit(bits) && EveryBit(sticky');
    if !stop {
      RecordRight(run, DqMax(g.c, side) + 1, es, k, bits, left, right);
    } else if side == Write && k == 0 {
      assert forall i: nat | i < |sticky'| :: sticky'[i];
      MarkMarginal(run, DqMax(g.c, side) + 1, es, bits, left, right);
    }
  }

  /** The strobe sweep: with all data delays 0, raise the strobe delay from its start. */
  method StrobeSweep(g: DqsGroup, side: Side, start: int, left: array<int>, right: array<int>, seen: seq<bool>,
                     ghost base: Settings, ghost es: seq<Edges>)
    returns (k: nat, ghost run: Run)
    requires g.Valid() && left != right && left.Length == right.Length == |seen| == g.c.dqPerDqs
    requires g.regs == WithDq(side, base, Uniform(g.c.dqPerDqs, 0))
    requires start == Dqs(side, base) && 0 <= start <= DqsMax(g.c, side)
    requires side == Write ==> base.dqsOut == base.octOut
    requires es == EdgesOf(left[..], right[..])
    requires forall i: nat | i < |seen| :: seen[i] == Seen(Run(g.c, g.mem, side, base, 0), es[i])
    modifies g, left, right
    ensures g.Stepped() && g.phaseZeroStores == old(g.phaseZeroStores)
    ensures run == Run(g.c, g.mem, side, base, old(g.tests))
    ensures RightStop(run, es, k)
    ensures forall i: nat | i < left.Length :: Edges(left[i], right[i]) == RightFold(run, i, es[i], Steps(run, k))
    ensures g.regs == At(g.c, side, base, Min(k, run.Last()))
  {
    var n := g.c.dqPerDqs;
    run := Run(g.c, g.mem, side, base, g.tests);
    var sticky := seen;
    k := 0;
    while k <= DqsMax(g.c, side) - start
      invariant k <= DqsMax(g.c, side) - start + 1
      invariant g.Stepped() && g.phaseZeroStores == old(g.phaseZeroStores)
      invariant g.tests == run.t0 + k
      invariant g.regs == At(g.c, side, base, if k == 0 then 0 else k - 1)
      invariant RightGoesOn(run, es, k)
      invariant |sticky| == n && forall i: nat | i < n ::
        sticky[i] == (Seen(run, es[i]) || run.PassedStrobe(k, i))
      invariant forall i: nat | i < n :: Edges(left[i], right[i]) == RightFold(run, i, es[i], k)
    {
      var stop;
      stop, sticky := StrobeStep(g, side, start, k, left, right, sticky, run, es);
      if stop {
        break;
      }
      k := k + 1;
    }
  }

  /** Both sweeps from the current settings. */
  method FindEdges(g: DqsGroup, side: Side, left: array<int>, right: array<int>) returns (ghost run: Run)
    requires g.Valid() && left != right && left.Length == right.Length == g.c.dqPerDqs
    requires 0 <= Dqs(side, g.regs) <= DqsMax(g.c, side)
    requires side == Write ==> g.regs.dqsOut == g.regs.octOut
    modifies g, left, right
    ensures g.Stepped() && g.phaseZeroStores == old(g.phaseZeroStores)
    ensures run == Run(g.c, g.mem, side, old(g.regs), old(g.tests))
    ensures Swept(run, EdgesOf(left[..], right[..])) && StoppedAt(run, EdgesOf(left[..], right[..]), g.regs)
    ensures g.regs == WithDqs(side, WithDq(side, run.base, Uniform(g.c.dqPerDqs, 0)), Dqs(side, g.regs))
  {
    var start := Dqs(side, g.regs);
    var k;
    k, run := DataSweep(g, side, left, right);
    var seen := ResetEdges(Run(g.c, g.mem, side, g.regs, 0), left, right);
    assert EdgesOf(left[..], right[..]) == AfterReset(run, k);
    ghost var t := g.tests;
    ghost var strobe;
    var m;
    m, strobe := StrobeSweep(g, side, start, left, right, seen, run.base, AfterReset(run, k));
    assert SweptBy(run, EdgesOf(left[..], right[..]), k, t, m);
  }

  /** The first bit without a window, or the number of bits. */
  method FirstMissing(sentinel: int, left: array<int>, right: array<int>, ghost run: Run) returns (i: nat)
    requires left.Length == right.Length && sentinel == run.Sentinel()
    ensures i <= left.Length
    ensures var es := EdgesOf(left[..], right[..]);
      if i < left.Length then FirstWithoutWindow(run, es, i) && !AllHaveWindow(run, es) else AllHaveWindow(run, es)
  {
    ghost var es := EdgesOf(left[..], right[..]);
    i := 0;
    while i < left.Length
      invariant i <= left.Length
      invariant AllHaveWindow(run, es[..i])
    {
      if left[i] == sentinel || right[i] == sentinel {
        assert !HasWindow(run, es[i]);
        return;
      }
      assert es[..i + 1] == es[..i] + [es[i]];
      i := i + 1;
    }
    assert es[..i] == es;
  }

  method FindMinMid(left: array<int>, right: array<int>) returns (midMin: int, minIndex: nat)
    requires left.Length == right.Length > 0
    ensures midMin == MinMid(EdgesOf(left[..], right[..]))
    ensures minIndex < left.Length && left[minIndex] - right[minIndex] == midMin
    ensures forall i | 0 <= i < minIndex :: left[i] - right[i] > midMin
  {
    ghost var es := EdgesOf(left[..], right[..]);
    midMin, minIndex := left[0] - right[0], 0;
    for i := 1 to left.Length
      invariant minIndex < i && left[minIndex] - right[minIndex] == midMin
      invariant forall j | 0 <= j < i :: left[j] - right[j] >= midMin && (j < minIndex ==> left[j] - right[j] > midMin)
      invariant midMin == MinMid(es[..i])
    {
      assert es[..i + 1][..i] == es[..i];
      var mid := left[i] - right[i];
      if mid < midMin {
        midMin, minIndex := mid, i;
      }
    }
    assert es[..left.Length] == es;
  }

  /** How far to move the strobe, limited to its chain. Returns the rounded half of the
      reference window's centre, the new strobe delay and the distance actually moved. */
  method ChooseDqs(c: Config, side: Side, start: int, minMid: int, ghost run: Run, ghost es: seq<Edges>)
    returns (origMidMin: int, newDqs: int, midMin: int)
    requires |es| > 0 && minMid == MinMid(es)
    requires run.c == c && run.side == side && start == Dqs(side, run.base)
    ensures origMidMin == Half(MinMid(es)) && newDqs == NewDqs(run, es) && midMin == Moved(run, es)
    ensures StrobeNearest(run, es, newDqs)
  {
    midMin := minMid;
    if midMin > 0 {
      midMin := midMin + 1;
    }
    midMin := TruncDiv(midMin, 2);
    origMidMin := midMin;
    if side == Write {
      newDqs, midMin := start, 0;
    } else {
      newDqs := start - midMin;
      if newDqs > DqsMax(c, side) {
        newDqs := DqsMax(c, side);
      } else if newDqs < 0 {
        newDqs := 0;
      }
      midMin := start - newDqs;
    }
    NewDqsNearest(run, es);
  }

  /** Moves the data of bit i, whose delay is still 0, and returns its margins. */
  method PlaceBit(g: DqsGroup, side: Side, i: nat, left: int, right: int, reference: int, origMidMin: int, midMin: int,
                  ghost run: Run, ghost es: seq<Edges>)
    returns (leftMargin: int, rightMargin: int)
    requires g.Valid() && i < |es| == g.c.dqPerDqs && run.c == g.c && run.side == side
    requires es[i] == Edges(left, right) && midMin == Moved(run, es)
    requires reference == MinMid(es) && origMidMin == Half(MinMid(es))
    requires |Dq(side, g.regs)| == g.c.dqPerDqs && Dq(side, g.regs)[i] == 0
    modifies g
    ensures g.Stepped() && g.tests == old(g.tests) && g.phaseZeroStores == old(g.phaseZeroStores)
    ensures g.regs == WithDq(side, old(g.regs), Dq(side, old(g.regs))[i := NewDq(run, es, i)])
    ensures leftMargin == LeftMargin(run, es, i) && rightMargin == RightMargin(run, es, i)
    ensures DataNearest(run, es, i, NewDqs(run, es), Dq(side, g.regs)[i])
  {
    NewDqNearest(run, es, i);
    var shift := TruncDiv(left - right - reference, 2) + (origMidMin - midMin);
    var current := Dq(side, g.regs)[i];
    if shift + current > DqMax(g.c, side) {
      shift := DqMax(g.c, side) - current;
    } else if shift + current < 0 {
      shift := -current;
    }
    SetDq(g, side, i, current + shift);
    leftMargin := left - shift + (-midMin);
    rightMargin := right + shift - (-midMin);
  }

  /** The data delays once the first k bits have been moved. */
  ghost function DelaysAfter(run: Run, es: seq<Edges>, k: nat): (delays: seq<int>)
    ensures |delays| == |es| && forall i: nat | i < |es| :: delays[i] == if i < k then NewDq(run, es, i) else 0
  {
    seq(|es|, i requires 0 <= i < |es| => if i < k then NewDq(run, es, i) else 0)
  }

  lemma DelaysAdd(run: Run, es: seq<Edges>, k: nat)
    requires k < |es|
    ensures DelaysAfter(run, es, k)[k := NewDq(run, es, k)] == DelaysAfter(run, es, k + 1)
  {
  }

  lemma DelaysInAll(run: Run, es: seq<Edges>)
    ensures DelaysAfter(run, es, |es|) == NewDqList(run, es)
  {
  }

  /** Moves the data of all bits and returns the smallest margin on either side. */
  method PlaceBits(g: DqsGroup, side: Side, left: array<int>, right: array<int>, minIndex: nat, origMidMin: int,
                   midMin: int, ghost run: Run, ghost es: seq<Edges>)
    returns (dqMargin: int, dqsMargin: int)
    requires g.Valid() && left.Length == right.Length == g.c.dqPerDqs
    requires es == EdgesOf(left[..], right[..]) && run.c == g.c && run.side == side
    requires minIndex < left.Length && left[minIndex] - right[minIndex] == MinMid(es)
    requires origMidMin == Half(MinMid(es)) && midMin == Moved(run, es)
    requires Dq(side, g.regs) == Uniform(g.c.dqPerDqs, 0)
    modifies g
    ensures g.Stepped() && g.tests == old(g.tests) && g.phaseZeroStores == old(g.phaseZeroStores)
    ensures g.regs == WithDq(side, old(g.regs), NewDqList(run, es))
    ensures dqMargin == MinLeft(run, es, |es|) && dqsMargin == MinRight(run, es, |es|)
  {
    dqMargin, dqsMargin := DqMax(g.c, side) + 1, DqMax(g.c, side) + 1;
    assert DelaysAfter(run, es, 0) == Uniform(g.c.dqPerDqs, 0);
    for i := 0 to g.c.dqPerDqs
      invariant g.Stepped() && g.tests == old(g.tests) && g.phaseZeroStores == old(g.phaseZeroStores)
      invariant g.regs == WithDq(side, old(g.regs), DelaysAfter(run, es, i))
      invariant dqMargin == MinLeft(run, es, i) && dqsMargin == MinRight(run, es, i)
    {
      var leftMargin, rightMargin := PlaceBit(g, side, i, left[i], right[i], left[minIndex] - right[minIndex],
                                              origMidMin, midMin, run, es);
      DelaysAdd(run, es, i);
      if leftMargin < dqMargin {
        dqMargin := leftMargin;
      }
      if rightMargin < dqsMargin {
        dqsMargin := rightMargin;
      }
    }
    DelaysInAll(run, es);
  }

  /** Finds where strobe and data belong and moves the data; the caller moves the strobe.
      Returns the strobe delay and the smallest margin on either side. */
  method PlaceData(g: DqsGroup, side: Side, start: int, left: array<int>, right: array<int>, ghost run: Run,
                   ghost es: seq<Edges>)
    returns (newDqs: int, dqMargin: int, dqsMargin: int)
    requires g.Valid() && left.Length == right.Length == g.c.dqPerDqs
    requires es == EdgesOf(left[..], right[..])
    requires run.c == g.c && run.side == side && start == Dqs(side, run.base)
    requires Dq(side, g.regs) == Uniform(g.c.dqPerDqs, 0)
    modifies g
    ensures g.Stepped() && g.tests == old(g.tests) && g.phaseZeroStores == old(g.phaseZeroStores)
    ensures newDqs == NewDqs(run, es)
    ensures g.regs == WithDq(side, old(g.regs), NewDqList(run, es))
    ensures dqMargin == MinLeft(run, es, |es|) && dqsMargin == MinRight(run, es, |es|)
  {
    var minMid, minIndex := FindMinMid(left, right);
    var origMidMin, midMin;
    origMidMin, newDqs, midMin := ChooseDqs(g.c, side, start, minMid, run, es);
    dqMargin, dqsMargin := PlaceBits(g, side, left, right, minIndex, origMidMin, midMin, run, es);
  }
}
