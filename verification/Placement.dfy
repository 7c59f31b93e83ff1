/** Where the deskew puts strobe and data once the edges are known. */
module Placement {
  import opened Arith
  import opened Hardware
  import opened Sweep

  /** Twice the offset of the window's centre, with the sign of a data delay. */
  function Mid(e: Edges): int {
    e.left - e.right
  }

  function MinMid(es: seq<Edges>): int
    requires |es| > 0
  {
    var last := Mid(es[|es| - 1]);
    if |es| == 1 then last else Min(MinMid(es[..|es| - 1]), last)
  }

  /** The rounding of the code: one is added to positive values before the truncated
      halving. */
  function Half(mid: int): int {
    TruncDiv(if mid > 0 then mid + 1 else mid, 2)
  }

  /** The strobe delay finally programmed. Write strobes are not moved in this
      configuration. */
  function NewDqs(run: Run, es: seq<Edges>): int
    requires |es| > 0
  {
    var start := Dqs(run.side, run.base);
    if run.side == Write then start
    else Clamp(start - Half(MinMid(es)), 0, DqsMax(run.c, run.side))
  }

  /** How far the strobe is moved toward smaller delays. */
  function Moved(run: Run, es: seq<Edges>): int
    requires |es| > 0
  {
    Dqs(run.side, run.base) - NewDqs(run, es)
  }

  /** The data delay wanted for bit i, before it is clamped to the chain. */
  function Shift(run: Run, es: seq<Edges>, i: nat): int
    requires i < |es|
  {
    TruncDiv(Mid(es[i]) - MinMid(es), 2) + (Half(MinMid(es)) - Moved(run, es))
  }

  /** The data delay finally programmed for bit i. */
  function NewDq(run: Run, es: seq<Edges>, i: nat): int
    requires i < |es|
  {
    Clamp(Shift(run, es, i), 0, DqMax(run.c, run.side))
  }

  function NewDqList(run: Run, es: seq<Edges>): (delays: seq<int>)
    ensures |delays| == |es| && forall i: nat | i < |es| :: delays[i] == NewDq(run, es, i)
  {
    seq(|es|, i requires 0 <= i < |es| => NewDq(run, es, i))
  }

  function LeftMargin(run: Run, es: seq<Edges>, i: nat): int
    requires i < |es|
  {
    es[i].left - NewDq(run, es, i) - Moved(run, es)
  }

  function RightMargin(run: Run, es: seq<Edges>, i: nat): int
    requires i < |es|
  {
    es[i].right + NewDq(run, es, i) + Moved(run, es)
  }

  /** The accumulated minimum of the left margins of the first k bits, starting from the
      sentinel. */
  function MinLeft(run: Run, es: seq<Edges>, k: nat): int
    requires k <= |es|
  {
    if k == 0 then run.Sentinel() else Min(MinLeft(run, es, k - 1), LeftMargin(run, es, k - 1))
  }

  function MinRight(run: Run, es: seq<Edges>, k: nat): int
    requires k <= |es|
  {
    if k == 0 then run.Sentinel() else Min(MinRight(run, es, k - 1), RightMargin(run, es, k - 1))
  }

  /** The settings left behind by a deskew that found every window. */
  function Placed(run: Run, es: seq<Edges>): Settings
    requires |es| > 0
  {
    WithDqs(run.side, WithDq(run.side, run.base, NewDqList(run, es)), NewDqs(run, es))
  }

  lemma {:induction false} MinMidIsLeast(es: seq<Edges>)
    requires |es| > 0
    ensures forall i | 0 <= i < |es| :: MinMid(es) <= Mid(es[i])
    ensures exists i :: 0 <= i < |es| && MinMid(es) == Mid(es[i])
  {
    var n := |es| - 1;
    if n > 0 {
      MinMidIsLeast(es[..n]);
      var j :| 0 <= j < n && MinMid(es[..n]) == Mid(es[..n][j]);
      assert es[..n][j] == es[j];
      forall i | 0 <= i < n ensures MinMid(es) <= Mid(es[i]) {
        assert es[..n][i] == es[i];
      }
    } else {
      assert MinMid(es) == Mid(es[0]);
    }
  }

  lemma {:induction false} MinLeftIsLeast(run: Run, es: seq<Edges>, k: nat, bound: int)
    requires k <= |es|
    ensures MinLeft(run, es, k) >= bound <==>
      run.Sentinel() >= bound && forall i: nat | i < k :: LeftMargin(run, es, i) >= bound
  {
    if k > 0 {
      MinLeftIsLeast(run, es, k - 1, bound);
    }
  }

  lemma {:induction false} MinRightIsLeast(run: Run, es: seq<Edges>, k: nat, bound: int)
    requires k <= |es|
    ensures MinRight(run, es, k) >= bound <==>
      run.Sentinel() >= bound && forall i: nat | i < k :: RightMargin(run, es, i) >= bound
  {
    if k > 0 {
      MinRightIsLeast(run, es, k - 1, bound);
    }
  }

  /** The rounding is the ceiling of the half, for either sign. */
  lemma {:induction false} HalfIsCeiling(mid: int)
    ensures mid <= 2 * Half(mid) <= mid + 1
  {
    if mid > 0 {
      assert Half(mid) == (mid + 1) / 2;
    } else {
      assert Half(mid) == -((-mid) / 2);
    }
  }

  /** Moving strobe and data only trades one margin for the other. */
  lemma {:induction false} MarginsSum(run: Run, es: seq<Edges>, i: nat)
    requires i < |es|
    ensures LeftMargin(run, es, i) + RightMargin(run, es, i) == es[i].left + es[i].right
  {
  }

  ghost predicate StrobeFits(run: Run, es: seq<Edges>)
    requires |es| > 0
  {
    run.side == Write || 0 <= Dqs(run.side, run.base) - Half(MinMid(es)) <= DqsMax(run.c, run.side)
  }

  ghost predicate DataFits(run: Run, es: seq<Edges>, i: nat)
    requires i < |es|
  {
    0 <= Shift(run, es, i) <= DqMax(run.c, run.side)
  }

  /** Where no chain is too short, every bit ends centred to within one tap: its two
      margins differ by at most one, so the smaller is the floor of half the window. On the
      read side no data delay is ever asked to be negative, because the leftmost window was
      the reference. */
  lemma CentredWithinOneTap(run: Run, es: seq<Edges>, i: nat)
    requires i < |es| && StrobeFits(run, es)
    ensures run.side != Write ==> Shift(run, es, i) >= 0
    ensures DataFits(run, es, i) ==>
      && -1 <= LeftMargin(run, es, i) - RightMargin(run, es, i) <= 1
      && Min(LeftMargin(run, es, i), RightMargin(run, es, i)) == (es[i].left + es[i].right) / 2
  {
    HalfIsCeiling(MinMid(es));
    MinMidIsLeast(es);
    MarginsSum(run, es, i);
    var mm := MinMid(es);
    assert Mid(es[i]) >= mm;
    assert 2 * TruncDiv(Mid(es[i]) - mm, 2) <= Mid(es[i]) - mm <= 2 * TruncDiv(Mid(es[i]) - mm, 2) + 1;
  }

  /** Hence a deskew that found windows can only fail when a chain is too short. */
  lemma {:induction false} CentringSucceeds(run: Run, es: seq<Edges>)
    requires |es| > 0 && StrobeFits(run, es)
    requires forall i: nat | i < |es| :: DataFits(run, es, i) && es[i].left + es[i].right >= 0
    ensures MinLeft(run, es, |es|) >= 0 && MinRight(run, es, |es|) >= 0
  {
    forall i: nat | i < |es|
      ensures LeftMargin(run, es, i) >= 0 && RightMargin(run, es, i) >= 0
    {
      CentredWithinOneTap(run, es, i);
    }
    MinLeftIsLeast(run, es, |es|, 0);
    MinRightIsLeast(run, es, |es|, 0);
  }

  /** Every programmed delay fits its chain, whatever the edges are. */
  lemma {:induction false} PlacedInRange(run: Run, es: seq<Edges>)
    requires |es| > 0 && 0 <= Dqs(run.side, run.base) <= DqsMax(run.c, run.side)
    ensures 0 <= NewDqs(run, es) <= DqsMax(run.c, run.side)
    ensures forall i: nat | i < |es| :: 0 <= NewDq(run, es, i) <= DqMax(run.c, run.side)
  {
  }

  // ---------- as near as the chains allow ----------

  function Abs(x: int): nat {
    if x < 0 then -x else x
  }

  /** How far the reference window would be off centre, in half taps, with the strobe at d. */
  function StrobeMiss(run: Run, es: seq<Edges>, d: int): nat
    requires |es| > 0
  {
    Abs(2 * (Dqs(run.side, run.base) - d) - MinMid(es))
  }

  /** How far the window of bit i would be off centre with strobe and data at these delays: the
      difference of the distances to its two edges. */
  function DataMiss(run: Run, es: seq<Edges>, i: nat, strobe: int, d: int): nat
    requires i < |es|
  {
    var offset := strobe - Dqs(run.side, run.base) - d;
    Abs((es[i].left + offset) - (es[i].right - offset))
  }

  /** Of all delays of its chain the strobe has one that centres the reference best, up to the
      rounding; a write strobe is not moved. */
  ghost predicate StrobeNearest(run: Run, es: seq<Edges>, strobe: int)
    requires |es| > 0
  {
    if run.side == Write then strobe == Dqs(run.side, run.base)
    else
      && 0 <= strobe <= DqsMax(run.c, run.side)
      && forall d | 0 <= d <= DqsMax(run.c, run.side) :: StrobeMiss(run, es, strobe) <= StrobeMiss(run, es, d) + 1
  }

  /** Of all delays of its chain bit i has one that centres its window best, up to the rounding,
      given where the strobe is. */
  ghost predicate DataNearest(run: Run, es: seq<Edges>, i: nat, strobe: int, delay: int)
    requires i < |es|
  {
    && 0 <= delay <= DqMax(run.c, run.side)
    && forall d | 0 <= d <= DqMax(run.c, run.side) ::
         DataMiss(run, es, i, strobe, delay) <= DataMiss(run, es, i, strobe, d) + 1
  }

  /** The registers s centre every window as well as the chains allow. */
  ghost predicate PlacedNearest(run: Run, es: seq<Edges>, s: Settings)
    requires |es| > 0
  {
    && StrobeNearest(run, es, Dqs(run.side, s)) && |Dq(run.side, s)| == |es|
    && forall i: nat | i < |es| :: DataNearest(run, es, i, Dqs(run.side, s), Dq(run.side, s)[i])
  }

  lemma {:induction false} NewDqsNearest(run: Run, es: seq<Edges>)
    requires |es| > 0
    ensures StrobeNearest(run, es, NewDqs(run, es))
  {
    HalfIsCeiling(MinMid(es));
  }

  /** The shift wanted is half the difference of the edges, less what the strobe was moved. */
  lemma {:induction false} ShiftIsHalf(run: Run, es: seq<Edges>, i: nat)
    requires i < |es|
    ensures -1 <= Mid(es[i]) - 2 * (Shift(run, es, i) + Moved(run, es)) <= 1
  {
    HalfIsCeiling(MinMid(es));
    MinMidIsLeast(es);
    var mm := MinMid(es);
    assert 2 * TruncDiv(Mid(es[i]) - mm, 2) <= Mid(es[i]) - mm <= 2 * TruncDiv(Mid(es[i]) - mm, 2) + 1;
  }

  lemma {:induction false} NewDqNearest(run: Run, es: seq<Edges>, i: nat)
    requires i < |es|
    ensures DataNearest(run, es, i, NewDqs(run, es), NewDq(run, es, i))
  {
    ShiftIsHalf(run, es, i);
  }

  /** Where the chains are too short, too, a deskew leaves strobe and data at the delays that
      centre the windows best. */
  lemma {:induction false} PlacedIsNearest(run: Run, es: seq<Edges>)
    requires |es| > 0
    ensures PlacedNearest(run, es, Placed(run, es))
  {
    NewDqsNearest(run, es);
    forall i: nat | i < |es| ensures DataNearest(run, es, i, NewDqs(run, es), NewDqList(run, es)[i]) {
      NewDqNearest(run, es, i);
    }
  }

  // ---------- end to end ----------

  /** The memory as deskewing assumes it: with everything else as in `base`, bit i passes
      exactly when strobe delay minus data delay lies in its window. */
  ghost predicate OffsetModel(c: Config, mem: Memory, side: Side, base: Settings, ws: seq<Window>) {
    && |ws| == c.dqPerDqs
    && forall t: nat, strobe: int, data: seq<int>, i: nat | |data| == c.dqPerDqs && i < |ws| ::
         Bit(mem, side, t, WithDqs(side, WithDq(side, base, data), strobe), i) == ws[i].Has(strobe - data[i])
  }

  ghost predicate Separable(c: Config, mem: Memory, side: Side, base: Settings) {
    exists ws :: OffsetModel(c, mem, side, base, ws)
  }

  /** Every bit passes whenever it is tested. */
  ghost predicate AllPass(c: Config, mem: Memory, side: Side, s: Settings) {
    forall t: nat, i: nat | i < c.dqPerDqs :: Bit(mem, side, t, s, i)
  }

  function Max(x: int, y: int): int {
    if x >= y then x else y
  }

  /** The part of a bit's window that the sweeps from a given start can see. */
  function Visible(w: Window, start: int, lo: int, hi: int): Window {
    Window(Max(w.a - start, lo), Min(w.b - start, hi))
  }

  /** Under the offset model, what each sweep sees of a bit is one interval. */
  lemma {:induction false} VisibleWindows(run: Run, ws: seq<Window>) returns (vs: seq<Window>)
    requires OffsetModel(run.c, run.mem, run.side, run.base, ws)
    requires run.side == Write ==> run.base.dqsOut == run.base.octOut
    requires 0 <= run.Last()
    ensures AllPassOn(run, vs, -(run.Sentinel() - 1), run.Last())
    ensures forall i: nat | i < |ws| ::
      vs[i] == Visible(ws[i], Dqs(run.side, run.base), -(run.Sentinel() - 1), run.Last())
  {
    var start, lo, hi := Dqs(run.side, run.base), -(run.Sentinel() - 1), run.Last();
    vs := seq(|ws|, i requires 0 <= i < |ws| => Visible(ws[i], start, lo, hi));
    forall i: nat | i < |ws| ensures PassesOn(run, i, vs[i], lo, hi) {
      forall t: nat, x: int | lo <= x <= hi
        ensures Bit(run.mem, run.side, t, At(run.c, run.side, run.base, x), i) == vs[i].Has(x)
      {
        var data := Uniform(run.c.dqPerDqs, if x <= 0 then -x else 0);
        var strobe := start + if x <= 0 then 0 else x;
        assert At(run.c, run.side, run.base, x) == WithDqs(run.side, WithDq(run.side, run.base, data), strobe);
        assert ws[i].Has(strobe - data[i]) == ws[i].Has(start + x);
      }
    }
  }

  /** If the edges are those of the visible windows and no margin is negative, every bit
      passes at the delays finally programmed, through both clamps. */
  lemma {:induction false} PlacedPasses(run: Run, ws: seq<Window>, vs: seq<Window>, es: seq<Edges>)
    requires 2 <= run.c.dqPerDqs && |es| == |vs| == run.c.dqPerDqs
    requires OffsetModel(run.c, run.mem, run.side, run.base, ws)
    requires forall i: nat | i < |ws| ::
      vs[i] == Visible(ws[i], Dqs(run.side, run.base), -(run.Sentinel() - 1), run.Last())
    requires forall i: nat | i < |es| :: es[i] == Edges(-vs[i].a, vs[i].b)
    requires MinLeft(run, es, |es|) >= 0 && MinRight(run, es, |es|) >= 0
    ensures AllPass(run.c, run.mem, run.side, Placed(run, es))
  {
    MinLeftIsLeast(run, es, |es|, 0);
    MinRightIsLeast(run, es, |es|, 0);
    var data := NewDqList(run, es);
    forall t: nat, i: nat | i < run.c.dqPerDqs
      ensures Bit(run.mem, run.side, t, Placed(run, es), i)
    {
      assert LeftMargin(run, es, i) >= 0 && RightMargin(run, es, i) >= 0;
      assert vs[i].Has(NewDqs(run, es) - Dqs(run.side, run.base) - data[i]);
      assert ws[i].Has(NewDqs(run, es) - data[i]);
    }
  }

  /** The margins say exactly whether the final offset of each bit is inside the window the
      sweeps saw. */
  lemma {:induction false} MarginsMeanInside(run: Run, vs: seq<Window>, es: seq<Edges>)
    requires |es| == |vs| > 0 && run.Sentinel() > 0
    requires forall i: nat | i < |es| :: es[i] == Edges(-vs[i].a, vs[i].b)
    ensures MinLeft(run, es, |es|) >= 0 && MinRight(run, es, |es|) >= 0 <==>
      forall i: nat | i < |vs| :: vs[i].Has(NewDqs(run, es) - Dqs(run.side, run.base) - NewDq(run, es, i))
  {
    MinLeftIsLeast(run, es, |es|, 0);
    MinRightIsLeast(run, es, |es|, 0);
    forall i: nat | i < |es|
      ensures LeftMargin(run, es, i) >= 0 && RightMargin(run, es, i) >= 0 <==>
        vs[i].Has(NewDqs(run, es) - Dqs(run.side, run.base) - NewDq(run, es, i))
    {
      assert es[i] == Edges(-vs[i].a, vs[i].b);
    }
  }
}
