/** The data-mask search: the longest passing run over two joined delay axes. */
module DmSearch {
  import opened Arith
  import opened Hardware

  /** A search from `base`. Offset x <= 0 is a mask delay of -x; a positive offset moves the
      write strobe that far beyond its place with the mask delay at 0. */
  datatype Search = Search(c: Config, mem: Memory, base: Settings) {
    function At(x: int): Settings {
      if x <= 0 then base.(dmOut := -x)
      else base.(dmOut := 0, dqsOut := base.dqsOut + x, octOut := base.dqsOut + x)
    }

    predicate Pass(x: int) {
      mem.dmBits(0, At(x))
    }

    function First(): int {
      0 - c.ioOut1DelayMax
    }

    function Last(): int {
      c.ioOut1DelayMax - base.dqsOut
    }

    function Sentinel(): int {
      c.ioOut1DelayMax + 1
    }

    /** The memory answers every setting of the search always the same way. */
    ghost predicate Deterministic() {
      forall t: nat, x: int | First() <= x <= Last() :: mem.dmBits(t, At(x)) == Pass(x)
    }

    /** Everything from x to y passes. */
    ghost predicate Passing(x: int, y: int) {
      forall z | x <= z <= y :: Pass(z)
    }

    /** [bgn, end] is the earliest among the longest passing runs within [First, hi]; win is
        its length, 0 if nothing passes there. */
    ghost predicate Longest(hi: int, bgn: int, end: int, win: int) {
      && (win == 0 ==> bgn == end == Sentinel())
      && (win != 0 ==> First() <= bgn <= end <= hi && win == end - bgn + 1 && Passing(bgn, end))
      && forall x, y | First() <= x <= y <= hi && Passing(x, y) ::
           y - x + 1 < win || (y - x + 1 == win && bgn <= x)
    }

    /** [bgn, end] is the passing run that ends at x, or both are the sentinel. */
    ghost predicate Current(x: int, bgn: int, end: int) {
      if x >= First() && Pass(x) then
        && end == x && First() <= bgn <= x && Passing(bgn, x)
        && (bgn == First() || !Pass(bgn - 1))
      else bgn == end == Sentinel()
    }
  }

  /** One more offset: the run ending there is the only new candidate, and it replaces the
      best only if it is strictly longer. */
  lemma {:induction false} Extend(s: Search, x: int, bgn: int, end: int, win: int, cur: int)
    requires s.First() <= x && s.Longest(x - 1, bgn, end, win)
    requires s.Pass(x) ==> s.Current(x, cur, x)
    ensures !s.Pass(x) ==> s.Longest(x, bgn, end, win)
    ensures s.Pass(x) && x - cur + 1 > win ==> s.Longest(x, cur, x, x - cur + 1)
    ensures s.Pass(x) && x - cur + 1 <= win ==> s.Longest(x, bgn, end, win)
  {
    forall u, v | s.First() <= u <= v <= x && s.Passing(u, v)
      ensures v == x ==> s.Pass(x) && cur <= u
      ensures v < x ==> v - u + 1 < win || (v - u + 1 == win && bgn <= u)
    {
      if v == x {
        assert s.Pass(x);
        assert cur > s.First() ==> !s.Pass(cur - 1);
      }
    }
  }

  /** The early exit discards nothing: after a failure at d, no run that starts later can
      reach the length already seen. */
  lemma {:induction false} ExitLosesNothing(s: Search, d: int, bgn: int, end: int, win: int)
    requires s.First() <= d <= s.Last() && !s.Pass(d) && s.Longest(d, bgn, end, win)
    requires win - 1 > s.Last() - d
    ensures s.Longest(s.Last(), bgn, end, win)
  {
    forall u, v | s.First() <= u <= v <= s.Last() && s.Passing(u, v)
      ensures v - u + 1 < win || (v - u + 1 == win && bgn <= u)
    {
      assert !s.Pass(d);
    }
  }

  /** Bounds that hold whatever the memory answers. */
  ghost predicate Bounded(s: Search, hi: int, bgn: int, end: int, win: int) {
    if win == 0 then bgn == end == s.Sentinel()
    else s.First() <= bgn <= end <= hi && win == end - bgn + 1
  }

  method DmTest(g: DqsGroup) returns (pass: bool)
    requires g.Valid()
    modifies g
    ensures g.Stepped() && g.regs == old(g.regs) && g.tests == old(g.tests) + 1
    ensures g.phaseZeroStores == old(g.phaseZeroStores)
    ensures pass == g.mem.dmBits(old(g.tests), g.regs)
  {
    pass := g.mem.dmBits(g.tests, g.regs);
    g.tests := g.tests + 1;
  }

  /** Tests the mask delay d with the strobe in its place. */
  method TestMask(g: DqsGroup, d: nat, ghost s: Search) returns (pass: bool)
    requires g.Valid() && s.c == g.c && s.mem == g.mem && d <= g.c.ioOut1DelayMax
    requires g.regs == s.base.(dmOut := g.regs.dmOut)
    modifies g
    ensures g.Stepped() && g.phaseZeroStores == old(g.phaseZeroStores)
    ensures g.regs == s.base.(dmOut := d)
    ensures s.Deterministic() && 0 <= s.Last() ==> pass == s.Pass(0 - d)
  {
    g.SetGroupDmOut1Delay(d);
    assert g.regs == s.At(0 - d);
    pass := DmTest(g);
  }

  /** Tests the strobe d beyond its place with the mask delay at 0. */
  method TestStrobe(g: DqsGroup, newDqs: int, d: nat, ghost s: Search) returns (pass: bool)
    requires g.Valid() && s.c == g.c && s.mem == g.mem && newDqs == s.base.dqsOut == s.base.octOut
    requires 0 <= newDqs && newDqs + d <= g.c.ioOut1DelayMax
    requires g.regs == s.base.(dmOut := 0, dqsOut := g.regs.dqsOut, octOut := g.regs.octOut)
    modifies g
    ensures g.Stepped() && g.phaseZeroStores == old(g.phaseZeroStores)
    ensures g.tests == old(g.tests) + 1
    ensures g.regs == s.base.(dmOut := 0, dqsOut := g.regs.dqsOut, octOut := g.regs.octOut)
    ensures s.Deterministic() ==> pass == s.Pass(d)
  {
    g.SetDqsIoAndOctOut1(d + newDqs);
    assert g.regs == s.At(d);
    pass := DmTest(g);
  }

  /** Adds the outcome at offset x to the current run and the best run. */
  method Note(c: Config, ghost s: Search, x: int, pass: bool, bgnCurr: int, endCurr: int,
              bgnBest: int, endBest: int, winBest: int)
    returns (bgnCurr': int, endCurr': int, bgnBest': int, endBest': int, winBest': int)
    requires c == s.c && s.First() <= x < s.Sentinel()
    requires endCurr == s.Sentinel() ==> bgnCurr == s.Sentinel()
    requires bgnCurr == s.Sentinel() || s.First() <= bgnCurr <= x
    requires Bounded(s, x, bgnBest, endBest, winBest)
    ensures if pass then endCurr' == x && s.First() <= bgnCurr' <= x else bgnCurr' == endCurr' == s.Sentinel()
    ensures Bounded(s, x, bgnBest', endBest', winBest') && winBest' >= winBest
    ensures s.Longest(x - 1, bgnBest, endBest, winBest) && s.Current(x - 1, bgnCurr, endCurr) && pass == s.Pass(x)
      ==> s.Longest(x, bgnBest', endBest', winBest') && s.Current(x, bgnCurr', endCurr')
    // The same offset again changes nothing.
    ensures s.Longest(x, bgnBest, endBest, winBest) && s.Current(x, bgnCurr, endCurr) && pass == s.Pass(x)
      ==> s.Longest(x, bgnBest', endBest', winBest') && s.Current(x, bgnCurr', endCurr')
  {
    bgnCurr', endCurr', bgnBest', endBest', winBest' := bgnCurr, endCurr, bgnBest, endBest, winBest;
    if pass {
      endCurr' := x;
      if bgnCurr' == c.ioOut1DelayMax + 1 {
        bgnCurr' := x;
      }
      if endCurr' - bgnCurr' + 1 > winBest' {
        winBest' := endCurr' - bgnCurr' + 1;
        bgnBest', endBest' := bgnCurr', endCurr';
      }
    } else {
      bgnCurr', endCurr' := c.ioOut1DelayMax + 1, c.ioOut1DelayMax + 1;
    }
    if s.Longest(x - 1, bgnBest, endBest, winBest) && s.Current(x - 1, bgnCurr, endCurr) && pass == s.Pass(x) {
      Extend(s, x, bgnBest, endBest, winBest, bgnCurr');
    }
  }

  /** One mask step, at offset -d. */
  method MaskStep(g: DqsGroup, d: int, bgn: int, end: int, bgn0: int, end0: int, win0: int, ghost s: Search)
    returns (bgn': int, end': int, bgnBest: int, endBest: int, winBest: int)
    requires g.Valid() && s.c == g.c && s.mem == g.mem && 0 <= d <= g.c.ioOut1DelayMax
    requires g.regs == s.base.(dmOut := g.regs.dmOut)
    requires if end == -(d + 1) && d < g.c.ioOut1DelayMax then s.First() <= bgn <= -(d + 1)
      else bgn == end == s.Sentinel()
    requires Bounded(s, -(d + 1), bgn0, end0, win0)
    requires s.Deterministic() && 0 <= s.Last() ==>
      s.Longest(-(d + 1), bgn0, end0, win0) && s.Current(-(d + 1), bgn, end)
    modifies g
    ensures g.Stepped() && g.phaseZeroStores == old(g.phaseZeroStores) && g.regs == s.base.(dmOut := d)
    ensures if end' == -d then s.First() <= bgn' <= -d else bgn' == end' == s.Sentinel()
    ensures Bounded(s, -d, bgnBest, endBest, winBest)
    ensures s.Deterministic() && 0 <= s.Last() ==>
      s.Longest(-d, bgnBest, endBest, winBest) && s.Current(-d, bgn', end')
  {
    var pass := TestMask(g, d, s);
    bgn', end', bgnBest, endBest, winBest := Note(g.c, s, -d, pass, bgn, end, bgn0, end0, win0);
  }

  /** The part of the search that shifts the mask: offsets from the longest mask delay up
      to 0. */
  method MaskSweep(g: DqsGroup, ghost s: Search)
    returns (bgnCurr: int, endCurr: int, bgnBest: int, endBest: int, winBest: int)
    requires g.Valid() && s == Search(g.c, g.mem, g.regs) && 0 <= s.base.dqsOut
    modifies g
    ensures g.Stepped() && g.phaseZeroStores == old(g.phaseZeroStores)
    ensures g.regs == s.base.(dmOut := 0)
    ensures if endCurr == 0 then s.First() <= bgnCurr <= 0 else bgnCurr == endCurr == s.Sentinel()
    ensures Bounded(s, 0, bgnBest, endBest, winBest)
    ensures s.Deterministic() && 0 <= s.Last() ==>
      s.Longest(0, bgnBest, endBest, winBest) && s.Current(0, bgnCurr, endCurr)
  {
    var max := g.c.ioOut1DelayMax;
    bgnCurr, endCurr := max + 1, max + 1;
    bgnBest, endBest, winBest := max + 1, max + 1, 0;
    var d: int := max;
    while d >= 0
      invariant -1 <= d <= max
      invariant g.Stepped() && g.phaseZeroStores == old(g.phaseZeroStores)
      invariant g.regs == s.base.(dmOut := g.regs.dmOut)
      invariant if endCurr == -(d + 1) && d < max then s.First() <= bgnCurr <= -(d + 1)
        else bgnCurr == endCurr == s.Sentinel()
      invariant Bounded(s, -(d + 1), bgnBest, endBest, winBest)
      invariant s.Deterministic() && 0 <= s.Last() ==>
        s.Longest(-(d + 1), bgnBest, endBest, winBest) && s.Current(-(d + 1), bgnCurr, endCurr)
    {
      bgnCurr, endCurr, bgnBest, endBest, winBest :=
        MaskStep(g, d, bgnCurr, endCurr, bgnBest, endBest, winBest, s);
      d := d - 1;
    }
    g.SetGroupDmOut1Delay(0);
  }

  /** One strobe step, at offset d. */
  method StrobeStep(g: DqsGroup, newDqs: int, d: nat, bgn: int, end: int, bgn0: int, end0: int, win0: int,
                    ghost s: Search)
    returns (pass: bool, bgn': int, end': int, bgnBest: int, endBest: int, winBest: int)
    requires g.Valid() && s.c == g.c && s.mem == g.mem && newDqs == s.base.dqsOut == s.base.octOut
    requires 0 <= newDqs && newDqs + d <= g.c.ioOut1DelayMax
    requires g.regs == s.base.(dmOut := 0, dqsOut := g.regs.dqsOut, octOut := g.regs.octOut)
    requires end == s.Sentinel() ==> bgn == s.Sentinel()
    requires bgn == s.Sentinel() || s.First() <= bgn <= d
    requires Bounded(s, Done(d), bgn0, end0, win0)
    requires s.Deterministic() ==> s.Longest(Done(d), bgn0, end0, win0) && s.Current(Done(d), bgn, end)
    modifies g
    ensures g.Stepped() && g.phaseZeroStores == old(g.phaseZeroStores) && g.tests == old(g.tests) + 1
    ensures g.regs == s.base.(dmOut := 0, dqsOut := g.regs.dqsOut, octOut := g.regs.octOut)
    ensures end' == s.Sentinel() ==> bgn' == s.Sentinel()
    ensures bgn' == s.Sentinel() || s.First() <= bgn' <= d
    ensures Bounded(s, d, bgnBest, endBest, winBest)
    ensures s.Deterministic() ==>
      pass == s.Pass(d) && s.Longest(d, bgnBest, endBest, winBest) && s.Current(d, bgn', end')
  {
    pass := TestStrobe(g, newDqs, d, s);
    bgn', end', bgnBest, endBest, winBest := Note(g.c, s, d, pass, bgn, end, bgn0, end0, win0);
  }

  /** The part of the search that shifts the strobe: offsets from 0 to the end of its chain,
      continuing the run that reached offset 0. */
  method StrobeSweep(g: DqsGroup, newDqs: int, bgn: int, end: int, bgn0: int, end0: int, win0: int, ghost s: Search)
    returns (bgnBest: int, endBest: int, winBest: int)
    requires g.Valid() && s.c == g.c && s.mem == g.mem && newDqs == s.base.dqsOut == s.base.octOut
    requires g.regs == s.base.(dmOut := 0) && 0 <= newDqs <= g.c.ioOut1DelayMax
    requires if end == 0 then s.First() <= bgn <= 0 else bgn == end == s.Sentinel()
    requires Bounded(s, 0, bgn0, end0, win0)
    requires s.Deterministic() ==> s.Longest(0, bgn0, end0, win0) && s.Current(0, bgn, end)
    modifies g
    ensures g.Stepped() && g.phaseZeroStores == old(g.phaseZeroStores)
    // Offset 0 is tested again.
    ensures g.tests > old(g.tests)
    ensures g.regs == s.base.(dmOut := 0, dqsOut := g.regs.dqsOut, octOut := g.regs.octOut)
    ensures Bounded(s, s.Last(), bgnBest, endBest, winBest)
    ensures s.Deterministic() ==> s.Longest(s.Last(), bgnBest, endBest, winBest)
  {
    var max := g.c.ioOut1DelayMax;
    var bgnCurr, endCurr := bgn, end;
    bgnBest, endBest, winBest := bgn0, end0, win0;
    var d := 0;
    while d <= max - newDqs
      invariant 0 <= d <= max - newDqs + 1 && g.tests == old(g.tests) + d
      invariant g.Stepped() && g.phaseZeroStores == old(g.phaseZeroStores)
      invariant g.regs == s.base.(dmOut := 0, dqsOut := g.regs.dqsOut, octOut := g.regs.octOut)
      invariant endCurr == s.Sentinel() ==> bgnCurr == s.Sentinel()
      invariant bgnCurr == s.Sentinel() || s.First() <= bgnCurr <= Min(d, s.Last())
      invariant Bounded(s, Done(d), bgnBest, endBest, winBest)
      invariant s.Deterministic() ==>
        s.Longest(Done(d), bgnBest, endBest, winBest) && s.Current(Done(d), bgnCurr, endCurr)
    {
      var pass;
      pass, bgnCurr, endCurr, bgnBest, endBest, winBest :=
        StrobeStep(g, newDqs, d, bgnCurr, endCurr, bgnBest, endBest, winBest, s);
      if !pass && winBest - 1 > max - newDqs - d {
        if s.Deterministic() {
          ExitLosesNothing(s, d, bgnBest, endBest, winBest);
        }
        return;
      }
      d := d + 1;
    }
  }

  /** The last offset covered when the strobe sweep is about to take step d; offset 0 was
      already covered by the mask sweep. */
  function Done(d: nat): int {
    if d == 0 then 0 else d - 1
  }

  /** Where the mask goes: the centre of the run, but never to a negative delay. */
  function MaskDelay(bgn: int, end: int): int {
    var mid := TruncDiv(-bgn - end, 2);
    if mid < 0 then 0 else mid
  }

  function MaskMargin(bgn: int, end: int, win: int): int {
    if win == 0 then -1 else -bgn - MaskDelay(bgn, end)
  }

  /** The mask delay fits its chain. The margin is non-negative exactly when something
      passes and the programmed setting lies in the run found, and is then its distance to
      the run's start. */
  lemma {:induction false} MaskPlacement(s: Search, hi: int, bgn: int, end: int, win: int)
    requires Bounded(s, hi, bgn, end, win)
    ensures 0 <= MaskDelay(bgn, end) <= s.c.ioOut1DelayMax
    ensures MaskMargin(bgn, end, win) >= 0 <==> win > 0 && bgn <= 0 - MaskDelay(bgn, end) <= end
    ensures win > 0 ==> MaskMargin(bgn, end, win) == (0 - MaskDelay(bgn, end)) - bgn
    ensures MaskMargin(bgn, end, win) >= 0 <==> win > 0 && bgn <= 0
  {
    var x := -bgn - end;
    assert x >= 0 ==> 2 * TruncDiv(x, 2) <= x < 2 * TruncDiv(x, 2) + 2;
    assert x <= 0 ==> 2 * TruncDiv(x, 2) - 2 < x <= 2 * TruncDiv(x, 2);
  }

  /** Centring is as good as the chain allows: unless the mask would need a negative delay,
      the two distances to the ends of the run differ by at most one. */
  lemma {:induction false} MaskCentred(s: Search, hi: int, bgn: int, end: int, win: int)
    requires Bounded(s, hi, bgn, end, win) && win > 0 && bgn + end <= 0
    ensures var x := 0 - MaskDelay(bgn, end); 0 <= (x - bgn) - (end - x) <= 1
  {
    var x := -bgn - end;
    assert 2 * TruncDiv(x, 2) <= x < 2 * TruncDiv(x, 2) + 2;
  }

  /** The delay m centres the mask in the run as well as any delay of its chain does. */
  ghost predicate MaskNearest(c: Config, bgn: int, end: int, m: int) {
    && 0 <= m <= c.ioOut1DelayMax
    && forall d | 0 <= d <= c.ioOut1DelayMax :: MaskMiss(bgn, end, m) <= MaskMiss(bgn, end, d)
  }

  /** How far the run would be off centre with the mask at delay m: the difference of the
      distances to its two ends. */
  function MaskMiss(bgn: int, end: int, m: int): nat {
    var off := (-m - bgn) - (end + m);
    if off < 0 then -off else off
  }

  lemma {:induction false} MaskDelayNearest(s: Search, hi: int, bgn: int, end: int, win: int)
    requires Bounded(s, hi, bgn, end, win) && win > 0
    ensures MaskNearest(s.c, bgn, end, MaskDelay(bgn, end))
  {
    MaskPlacement(s, hi, bgn, end, win);
    var x := -bgn - end;
    assert x >= 0 ==> 2 * TruncDiv(x, 2) <= x < 2 * TruncDiv(x, 2) + 2;
    assert x <= 0 ==> 2 * TruncDiv(x, 2) - 2 < x <= 2 * TruncDiv(x, 2);
  }

  /** The mask search and placement. The strobe ends where it began. */
  method CenterMask(g: DqsGroup)
    returns (margin: int, ghost s: Search, ghost bgn: int, ghost end: int, ghost win: int)
    requires g.Valid() && 0 <= g.regs.dqsOut <= g.c.ioOut1DelayMax && g.regs.octOut == g.regs.dqsOut
    modifies g
    ensures g.Stepped() && g.phaseZeroStores == old(g.phaseZeroStores)
    ensures s == Search(g.c, g.mem, old(g.regs))
    ensures Bounded(s, s.Last(), bgn, end, win)
    ensures s.Deterministic() ==> s.Longest(s.Last(), bgn, end, win)
    ensures g.regs == old(g.regs).(dmOut := MaskDelay(bgn, end))
    ensures margin == MaskMargin(bgn, end, win)
    ensures win > 0 ==> MaskNearest(g.c, bgn, end, g.regs.dmOut)
    // A non-negative margin means that the mask works at the setting now programmed.
    ensures margin >= 0 && s.Deterministic() ==> forall t: nat :: g.mem.dmBits(t, g.regs)
  {
    var newDqs := g.regs.dqsOut;
    s := Search(g.c, g.mem, g.regs);
    var bgnCurr, endCurr, bgnBest, endBest, winBest := MaskSweep(g, s);
    if endCurr != 0 {
      bgnCurr, endCurr := g.c.ioOut1DelayMax + 1, g.c.ioOut1DelayMax + 1;
    }
    bgnBest, endBest, winBest := StrobeSweep(g, newDqs, bgnCurr, endCurr, bgnBest, endBest, winBest, s);
    var leftEdge, rightEdge := -1 * bgnBest, endBest;
    g.SetDqsIoAndOctOut1(newDqs);
    var mid := TruncDiv(leftEdge - rightEdge, 2);
    if mid < 0 {
      mid := 0;
    }
    margin := if winBest == 0 then -1 else leftEdge - mid;
    MaskPlacement(s, s.Last(), bgnBest, endBest, winBest);
    g.SetGroupDmOut1Delay(mid);
    bgn, end, win := bgnBest, endBest, winBest;
    if win > 0 {
      MaskDelayNearest(s, s.Last(), bgn, end, win);
    }
    if margin >= 0 && s.Deterministic() {
      assert g.regs == s.At(0 - mid) && s.Pass(0 - mid);
    }
  }
}
