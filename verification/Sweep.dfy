/** What the two deskew sweeps observe, and the window edges they derive from it.

    Both sweeps move along one axis of offsets between strobe and data: a data delay
    of d is offset -d, a strobe delay of d beyond its start is offset d. */
module Sweep {
  import opened Arith
  import opened Hardware

  /** The three uses of the deskew: read deskew, read deskew through write tests (run
      after the writes are calibrated), and write deskew. */
  datatype Side = Read | ReadAfterWrite | Write

  function DqMax(c: Config, side: Side): nat {
    if side == Write then c.ioOut1DelayMax else c.ioInDelayMax
  }

  function DqsMax(c: Config, side: Side): nat {
    if side == Write then c.ioOut1DelayMax else c.dqsInDelayMax
  }

  function Dqs(side: Side, s: Settings): int {
    if side == Write then s.dqsOut else s.dqsIn
  }

  function Dq(side: Side, s: Settings): seq<int> {
    if side == Write then s.dqOut else s.dqIn
  }

  function WithDqs(side: Side, s: Settings, delay: int): Settings {
    if side == Write then s.(dqsOut := delay, octOut := delay) else s.(dqsIn := delay)
  }

  function WithDq(side: Side, s: Settings, delays: seq<int>): Settings {
    if side == Write then s.(dqOut := delays) else s.(dqIn := delays)
  }

  /** Bit i of the word that test number t returns. */
  predicate Bit(mem: Memory, side: Side, t: nat, s: Settings, i: nat) {
    if side == Read then mem.readBit(t, s, i) else mem.writeBit(t, s, i)
  }

  /** The settings a sweep from `base` tests at offset x. */
  function At(c: Config, side: Side, base: Settings, x: int): Settings {
    if x <= 0 then WithDq(side, base, Uniform(c.dqPerDqs, -x))
    else WithDqs(side, WithDq(side, base, Uniform(c.dqPerDqs, 0)), Dqs(side, base) + x)
  }

  /** A sweep from `base` whose step d is test number t0 + d. */
  datatype Run = Run(c: Config, mem: Memory, side: Side, base: Settings, t0: nat) {
    /** Step d of the data sweep, every data delay at d, passes on bit i. */
    predicate DataPass(d: nat, i: nat) {
      Bit(mem, side, t0 + d, At(c, side, base, 0 - d), i)
    }

    /** Step d of the strobe sweep, the strobe d beyond its start, passes on bit i. */
    predicate StrobePass(d: nat, i: nat) {
      Bit(mem, side, t0 + d, At(c, side, base, d), i)
    }

    /** Bit i passed one of the first k steps of the data sweep. */
    ghost predicate PassedData(k: nat, i: nat) {
      exists d: nat | d < k :: DataPass(d, i)
    }

    ghost predicate PassedStrobe(k: nat, i: nat) {
      exists d: nat | d < k :: StrobePass(d, i)
    }

    /** The value no edge can have: one more than the longest data delay. */
    function Sentinel(): int {
      DqMax(c, side) + 1
    }

    /** The largest offset the strobe sweep can reach. */
    function Last(): int {
      DqsMax(c, side) - Dqs(side, base)
    }
  }

  datatype Edges = Edges(left: int, right: int)

  function LeftStep(e: Edges, d: nat, pass: bool, sentinel: int): Edges {
    if pass then e.(left := d)
    else if e.left == sentinel then e.(right := -(d + 1))
    else e
  }

  function RightStep(e: Edges, d: nat, pass: bool, sentinel: int): Edges {
    if pass then e.(right := d)
    else if e.right != sentinel then e
    else if d == 0 && e.left != sentinel then e.(right := -1)
    else e.(left := -(d + 1))
  }

  /** The edges of bit i after k steps of the data sweep. */
  function LeftFold(run: Run, i: nat, k: nat): Edges {
    if k == 0 then Edges(run.Sentinel(), run.Sentinel())
    else LeftStep(LeftFold(run, i, k - 1), k - 1, run.DataPass(k - 1, i), run.Sentinel())
  }

  /** A right edge is only meaningful once a left edge was seen. */
  function Reset(e: Edges, sentinel: int): Edges {
    if e.left == sentinel then e.(right := sentinel) else e
  }

  /** The edges of bit i after k steps of the strobe sweep, which began with `e`. */
  function RightFold(run: Run, i: nat, e: Edges, k: nat): Edges {
    if k == 0 then e
    else RightStep(RightFold(run, i, e, k - 1), k - 1, run.StrobePass(k - 1, i), run.Sentinel())
  }

  /** Step k of the data sweep fails on every bit after each bit has passed some earlier step. */
  ghost predicate LeftExhausted(run: Run, k: nat) {
    forall i: nat | i < run.c.dqPerDqs :: !run.DataPass(k, i) && run.PassedData(k, i)
  }

  ghost predicate LeftGoesOn(run: Run, k: nat) {
    forall j: nat | j < k :: !LeftExhausted(run, j)
  }

  /** The data sweep stops after k steps: there for the first time, or at the end of the chain. */
  ghost predicate LeftStop(run: Run, k: nat) {
    && LeftGoesOn(run, k)
    && (k == run.Sentinel() || (k < run.Sentinel() && LeftExhausted(run, k)))
  }

  /** Step k of the strobe sweep fails on every bit after each has been seen: the data sweep
      found its edges (on the write side, its left edge) or an earlier step passed. */
  ghost predicate RightExhausted(run: Run, start: seq<Edges>, k: nat)
    requires |start| == run.c.dqPerDqs
  {
    forall i: nat | i < run.c.dqPerDqs :: !run.StrobePass(k, i) && (Seen(run, start[i]) || run.PassedStrobe(k, i))
  }

  ghost predicate RightGoesOn(run: Run, start: seq<Edges>, k: nat)
    requires |start| == run.c.dqPerDqs
  {
    forall j: nat | j < k :: !RightExhausted(run, start, j)
  }

  ghost predicate RightStop(run: Run, start: seq<Edges>, k: nat)
    requires |start| == run.c.dqPerDqs
  {
    && RightGoesOn(run, start, k)
    && (k == run.Last() + 1 || (k <= run.Last() && RightExhausted(run, start, k)))
  }

  /** How many strobe steps the edges account for when the sweep stopped at step k. The
      write side also accounts for step 0 when it stops there. */
  function Steps(run: Run, k: nat): nat {
    if run.side == Write && k == 0 then 1 else k
  }

  predicate Seen(run: Run, e: Edges) {
    e.left != run.Sentinel() && (run.side == Write || e.right != run.Sentinel())
  }

  // ---------- exact windows ----------

  /** An interval of offsets; empty when a > b. */
  datatype Window = Window(a: int, b: int) {
    predicate Has(x: int) {
      a <= x <= b
    }

    predicate Empty() {
      a > b
    }
  }

  /** Bit i passes exactly on w, at every offset from lo to hi and whenever tested. */
  ghost predicate PassesOn(run: Run, i: nat, w: Window, lo: int, hi: int) {
    && (w.Empty() || lo <= w.a <= w.b <= hi)
    && forall t: nat, x: int | lo <= x <= hi ::
         Bit(run.mem, run.side, t, At(run.c, run.side, run.base, x), i) == w.Has(x)
  }

  ghost predicate AllPassOn(run: Run, ws: seq<Window>, lo: int, hi: int) {
    |ws| == run.c.dqPerDqs && forall i: nat | i < |ws| :: PassesOn(run, i, ws[i], lo, hi)
  }

  /** The edges after k steps of the data sweep, in closed form. */
  function LeftExact(w: Window, sentinel: int, k: nat): Edges {
    if k == 0 then Edges(sentinel, sentinel)
    else if w.Empty() || w.a > 0 || w.b <= 0 - k then Edges(sentinel, 0 - k)
    else Edges(if k <= -w.a then k - 1 else -w.a, if w.b >= 0 then sentinel else w.b)
  }

  /** The edges after the data sweep and the reset. */
  function Between(w: Window, sentinel: int): Edges {
    if w.Empty() || w.a > 0 then Edges(sentinel, sentinel)
    else Edges(-w.a, if w.b >= 0 then sentinel else w.b)
  }

  /** The edges after k steps of the strobe sweep, in closed form. A window that ends
      exactly at the sentinel is forgotten again: its right edge reads as missing. */
  function RightExact(w: Window, sentinel: int, k: nat): Edges {
    if k == 0 || (!w.Empty() && w.b < 0) then Between(w, sentinel)
    else if w.Empty() || k <= w.a then Edges(0 - k, sentinel)
    else if w.b == sentinel && k > sentinel + 1 then Edges(0 - k, sentinel)
    else Edges(-w.a, if k <= w.b then k - 1 else w.b)
  }

  lemma {:induction false} LeftFoldExact(run: Run, i: nat, w: Window, hi: int, k: nat)
    requires k <= run.Sentinel()
    requires PassesOn(run, i, w, -(run.Sentinel() - 1), hi) && 0 <= hi
    ensures LeftFold(run, i, k) == LeftExact(w, run.Sentinel(), k)
  {
    if k > 0 {
      LeftFoldExact(run, i, w, hi, k - 1);
      assert run.DataPass(k - 1, i) == w.Has(-(k - 1));
    }
  }

  /** Stopping the data sweep early loses nothing. */
  lemma LeftStopExact(run: Run, i: nat, w: Window, hi: int, k: nat)
    requires LeftStop(run, k) && i < run.c.dqPerDqs
    requires PassesOn(run, i, w, -(run.Sentinel() - 1), hi) && 0 <= hi
    ensures Reset(LeftFold(run, i, k), run.Sentinel()) == Between(w, run.Sentinel())
  {
    LeftFoldExact(run, i, w, hi, k);
    if k < run.Sentinel() {
      assert run.DataPass(k, i) == w.Has(0 - k);
      var d: nat :| d < k && run.DataPass(d, i);
      assert w.Has(0 - d);
    }
  }

  lemma {:induction false} RightFoldExact(run: Run, i: nat, w: Window, lo: int, k: nat)
    requires 0 <= run.Last() && k <= run.Last() + 1 && lo <= 0
    requires PassesOn(run, i, w, lo, run.Last())
    ensures RightFold(run, i, Between(w, run.Sentinel()), k) == RightExact(w, run.Sentinel(), k)
  {
    if k > 0 {
      RightFoldExact(run, i, w, lo, k - 1);
      assert run.StrobePass(k - 1, i) == w.Has(k - 1);
    }
  }

  /** The two sweeps together recover a bit's window exactly, whether it lies left of,
      across or right of offset 0, despite both early stops and the reset between them. A
      bit that passes nowhere, or whose window ends exactly at the sentinel, is left without
      a right edge. `runL` and `runR` differ only in their test numbers. */
  lemma ExactWindow(runL: Run, runR: Run, ws: seq<Window>, start: seq<Edges>, k: nat, m: nat, i: nat)
    requires runR == runL.(t0 := runR.t0)
    requires 0 <= runL.Last()
    requires AllPassOn(runL, ws, -(runL.Sentinel() - 1), runL.Last()) && i < |ws|
    requires |start| == |ws|
    requires forall j: nat | j < |ws| :: start[j] == Reset(LeftFold(runL, j, k), runL.Sentinel())
    requires LeftStop(runL, k) && RightStop(runR, start, m)
    ensures var e := RightFold(runR, i, start[i], Steps(runR, m));
      if ws[i].Empty() || ws[i].b == runL.Sentinel() then e.right == runL.Sentinel()
      else e == Edges(-ws[i].a, ws[i].b)
  {
    var w, s := ws[i], runL.Sentinel();
    assert PassesOn(runL, i, w, -(s - 1), runL.Last());
    LeftStopExact(runL, i, w, runL.Last(), k);
    assert PassesOn(runR, i, w, -(s - 1), runR.Last());
    RightFoldExact(runR, i, w, -(s - 1), Steps(runR, m));
    if m <= runR.Last() {
      assert runR.StrobePass(m, i) == w.Has(m);
      if !Seen(runR, start[i]) {
        var d: nat :| d < m && runR.StrobePass(d, i);
        assert w.Has(d);
      }
    }
  }

  /** `es` are the edges that the two sweeps find from run.base: the data sweep is `run`
      stopped after k steps, the strobe sweep begins at test number t and stops after m. */
  ghost predicate SweptBy(run: Run, es: seq<Edges>, k: nat, t: nat, m: nat) {
    var between := AfterReset(run, k);
    var strobe := run.(t0 := t);
    && |es| == run.c.dqPerDqs
    && LeftStop(run, k)
    && RightStop(strobe, between, m)
    && forall i: nat | i < |es| :: es[i] == RightFold(strobe, i, between[i], Steps(strobe, m))
  }

  ghost function AfterReset(run: Run, k: nat): (es: seq<Edges>)
    ensures |es| == run.c.dqPerDqs
    ensures forall i: nat | i < |es| :: es[i] == Reset(LeftFold(run, i, k), run.Sentinel())
  {
    seq(run.c.dqPerDqs, i requires 0 <= i => Reset(LeftFold(run, i, k), run.Sentinel()))
  }

  ghost predicate Swept(run: Run, es: seq<Edges>) {
    exists k: nat, t: nat, m: nat :: SweptBy(run, es, k, t, m)
  }

  /** The sweeps of es have left the strobe where the second one stopped. */
  ghost predicate StoppedAt(run: Run, es: seq<Edges>, regs: Settings) {
    exists k: nat, t: nat, m: nat ::
      SweptBy(run, es, k, t, m) && regs == At(run.c, run.side, run.base, Min(m, run.Last()))
  }

  /** A bit has a window if neither edge is missing. */
  predicate HasWindow(run: Run, e: Edges) {
    e.left != run.Sentinel() && e.right != run.Sentinel()
  }

  predicate AllHaveWindow(run: Run, es: seq<Edges>) {
    forall i | 0 <= i < |es| :: HasWindow(run, es[i])
  }

  /** Bit i is the first one without a window. */
  ghost predicate FirstWithoutWindow(run: Run, es: seq<Edges>, i: nat) {
    i < |es| && !HasWindow(run, es[i]) && AllHaveWindow(run, es[..i])
  }

  /** The first bit without a window, or the number of bits if there is none. */
  function FirstMissingBit(run: Run, es: seq<Edges>): (i: nat)
    ensures if AllHaveWindow(run, es) then i == |es| else FirstWithoutWindow(run, es, i)
  {
    if es == [] then 0
    else
      var n := |es| - 1;
      var i := FirstMissingBit(run, es[..n]);
      assert es == es[..n] + [es[n]] && forall k: nat | k <= n :: es[..n][..k] == es[..k];
      if i < n || !HasWindow(run, es[n]) then i else n + 1
  }

  /** There is only one. */
  lemma {:induction false} FirstMissingIsUnique(run: Run, es: seq<Edges>, i: nat)
    requires FirstWithoutWindow(run, es, i)
    ensures i == FirstMissingBit(run, es)
  {
    var j := FirstMissingBit(run, es);
    assert forall k | 0 <= k < j :: es[..j][k] == es[k] && HasWindow(run, es[k]);
    assert forall k | 0 <= k < i :: es[..i][k] == es[k] && HasWindow(run, es[k]);
  }

  /** For a memory whose passing offsets form one interval per bit, the sweeps find exactly
      those intervals. A window is missing just where a bit never passes, or passes up to
      exactly one offset: the sentinel, which the strobe can only reach if its chain is
      longer than the data chain. */
  lemma SweptExact(run: Run, ws: seq<Window>, es: seq<Edges>, i: nat)
    requires Swept(run, es) && i < |es|
    requires 0 <= run.Last()
    requires AllPassOn(run, ws, -(run.Sentinel() - 1), run.Last())
    ensures HasWindow(run, es[i]) <==> !ws[i].Empty() && ws[i].b != run.Sentinel()
    ensures HasWindow(run, es[i]) ==> es[i] == Edges(-ws[i].a, ws[i].b)
  {
    var k: nat, t: nat, m: nat :| SweptBy(run, es, k, t, m);
    ExactWindow(run, run.(t0 := t), ws, AfterReset(run, k), k, m, i);
    assert PassesOn(run, i, ws[i], -(run.Sentinel() - 1), run.Last());
  }

  /** Where the strobe cannot reach the sentinel, as in the shipped configuration, only a bit
      that never passes misses its window. */
  lemma SweptExactWithinChain(run: Run, ws: seq<Window>, es: seq<Edges>, i: nat)
    requires Swept(run, es) && i < |es|
    requires 0 <= run.Last() < run.Sentinel()
    requires AllPassOn(run, ws, -(run.Sentinel() - 1), run.Last())
    ensures HasWindow(run, es[i]) <==> !ws[i].Empty()
  {
    SweptExact(run, ws, es, i);
    assert PassesOn(run, i, ws[i], -(run.Sentinel() - 1), run.Last());
  }
}
