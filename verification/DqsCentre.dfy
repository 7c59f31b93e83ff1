/** From the two ends of the DQS-enable window to the setting finally programmed. */
module DqsCentre {
  import opened Hardware
  import opened DqsEnable
  import opened WindowSpec

  // ---------- taps per phase, for tracking ----------

  /** A phase back, the window's edge is found again by delay taps: from d on the first tap that
      works is e, and the first that fails after it is d + k. */
  ghost predicate EdgeAgain(s: Search, back: Pos, d: int, e: int, k: int)
    requires s.c.vfifoSize > 0
  {
    && d <= e < d + k <= s.c.dqsEnDelayMax
    && (forall x | d <= x < e :: !s.Accepts(back.(dtap := x)))
    && (forall x | e <= x < d + k :: s.Accepts(back.(dtap := x)))
    && !s.Accepts(back.(dtap := d + k))
  }

  /** k is the distance from d to the edge found again, or nominal if there is no edge. */
  ghost predicate Measured(s: Search, back: Pos, d: int, nominal: int, k: int)
    requires s.c.vfifoSize > 0
  {
    || (exists e :: EdgeAgain(s, back, d, e, k))
    || (k == nominal && forall e, j :: !EdgeAgain(s, back, d, e, j))
  }

  /** The first failing tap of the end phase, where the search for the end stops; 0 if the end
      itself fails. */
  function FailingTap(s: Search, end: Pos): int
    requires s.c.vfifoSize > 0
  {
    end.dtap + if s.Accepts(end) then 1 else 0
  }

  /** The largest number of delay taps that is less than a phase tap. */
  ghost predicate IsNominal(c: Config, n: nat) {
    n * c.delayPerDqsEnTap < c.delayPerOpaTap <= (n + 1) * c.delayPerDqsEnTap
  }

  /** What is written out for tracking, if the window ends at `end`: from the tap where it ends
      to the edge found again a phase back, or the nominal number. */
  ghost predicate TapsForTracking(s: Search, end: Pos, dtaps: int)
    requires s.c.vfifoSize > 0
  {
    exists n: nat :: IsNominal(s.c, n) &&
      Measured(s, Before(s.c, end.steps, end.phase), FailingTap(s, end), n, dtaps)
  }

  /** Taps that all fail, or that after failing all work, hold no edge. */
  lemma NoEdge(s: Search, back: Pos, d: int, e: int)
    requires s.c.Valid() && d <= e
    requires forall x | d <= x < e && x <= s.c.dqsEnDelayMax :: !s.Accepts(back.(dtap := x))
    requires forall x | e <= x <= s.c.dqsEnDelayMax :: s.Accepts(back.(dtap := x))
    ensures forall u, j :: !EdgeAgain(s, back, d, u, j)
  {
    forall u, j ensures !EdgeAgain(s, back, d, u, j) {
      assert d <= u < e && u <= s.c.dqsEnDelayMax ==> !s.Accepts(back.(dtap := u));
      assert e <= d + j <= s.c.dqsEnDelayMax ==> s.Accepts(back.(dtap := d + j));
    }
  }

  /** Raises the delay tap from d0 until a read passes, or until one fails. */
  method RaiseTap(g: DqsGroup, d0: nat, wanted: bool, ghost s: Search, ghost here: Pos)
    returns (d: nat, seen: bool, ghost q: Pos)
    requires g.Valid() && s.c == g.c && s.mem == g.mem && g.regs == s.At(here) && d0 <= g.c.dqsEnDelayMax + 1
    modifies g
    ensures g.Stepped() && g.phaseZeroStores == old(g.phaseZeroStores)
    ensures g.regs == s.At(q) && q.(dtap := 0) == here.(dtap := 0)
    ensures d0 <= d && (if seen then d <= g.c.dqsEnDelayMax else d == g.c.dqsEnDelayMax + 1)
    ensures s.Deterministic() ==> forall x | d0 <= x < d :: s.Accepts(here.(dtap := x)) != wanted
    ensures s.Deterministic() && seen ==> s.Accepts(here.(dtap := d)) == wanted
  {
    d, seen, q := d0, false, here;
    while d <= g.c.dqsEnDelayMax
      invariant d0 <= d <= g.c.dqsEnDelayMax + 1
      invariant g.Stepped() && g.phaseZeroStores == old(g.phaseZeroStores)
      invariant g.regs == s.At(q) && q.(dtap := 0) == here.(dtap := 0) && !seen
      invariant s.Deterministic() ==> forall x | d0 <= x < d :: s.Accepts(here.(dtap := x)) != wanted
    {
      g.SetDqsEnDelay(d);
      q := here.(dtap := d);
      var pass := TestAt(g, 1, s, q);
      if pass == wanted {
        seen := true;
        return;
      }
      d := d + 1;
    }
  }

  /** Measures how many delay taps make a phase tap, falling back on the nominal number. */
  method MeasureDtaps(g: DqsGroup, p0: nat, d0: nat, nominal: nat, v: nat,
                      ghost s: Search, ghost here: Pos, ghost entry: int)
    returns (k: int, v': nat, ghost q: Pos)
    requires g.Valid() && s.c == g.c && s.mem == g.mem && Tracks(g.c, entry, v, g.regs)
    requires g.regs == s.At(here) && here.phase == p0 && 1 <= p0 <= g.c.dqsEnPhaseMax
    requires d0 <= g.c.dqsEnDelayMax + 1 && 1 <= nominal <= g.c.dqsEnDelayMax
    modifies g
    ensures g.Stepped() && g.phaseZeroStores == old(g.phaseZeroStores) && Tracks(g.c, entry, v', g.regs)
    ensures g.regs == s.At(q)
    ensures 1 <= k <= g.c.dqsEnDelayMax && q.(dtap := 0) == Before(g.c, here.steps, p0)
    ensures s.Deterministic() ==> Measured(s, Before(g.c, here.steps, p0), d0, nominal, k)
  {
    var p := p0;
    v', q := v, here;
    if p == 0 || p == 1 {
      p := g.c.dqsEnPhaseMax;
      v' := DecrVfifo(g, v', s, here, entry);
      q := q.(steps := q.steps - 1);
    } else {
      p := p - 1;
    }
    g.SetDqsEnPhase(p);
    q := q.(phase := p);
    ghost var back := q.(dtap := 0);
    assert back == Before(g.c, here.steps, p0);
    var d := d0;
    var passing, failing := false, false;
    d, passing, q := RaiseTap(g, d, true, s, q);
    ghost var e := d;
    if passing {
      d, failing, q := RaiseTap(g, d + 1, false, s, q);
    }
    k := nominal;
    if passing && failing {
      k := d - d0;
    }
    if s.Deterministic() {
      if passing && failing {
        assert EdgeAgain(s, back, d0, e, k);
      } else {
        NoEdge(s, back, d0, e);
      }
    }
  }

  // ---------- step 6: quantise the centre ----------

  /** `mid` is the middle of the window, less whole VFIFO positions, within one of them. */
  ghost predicate Reduced(c: Config, workBgn: int, workEnd: int, mid: int, turns: int) {
    && 0 < mid <= (c.dqsEnPhaseMax + 1) * c.delayPerOpaTap && 0 <= turns
    && mid + turns * ((c.dqsEnPhaseMax + 1) * c.delayPerOpaTap) == (workBgn + workEnd) / 2
  }

  /** The phase and tap counters of the quantisation reach the middle from below by less than
      one delay tap. */
  ghost predicate Reaches(c: Config, mid: int, p: int, d: int) {
    && 1 <= p <= c.dqsEnPhaseMax + 1 && 0 <= d <= c.dqsEnDelayMax
    && mid <= (p - 1) * c.delayPerOpaTap + d * c.delayPerDqsEnTap < mid + c.delayPerDqsEnTap
    && (p - 1) * c.delayPerOpaTap < mid <= p * c.delayPerOpaTap
  }

  method ReduceMid(c: Config, workBgn: int, workEnd: int) returns (mid: int, ghost turns: int)
    requires c.Valid() && 0 < workBgn <= workEnd
    ensures 0 < mid <= (c.dqsEnPhaseMax + 1) * c.delayPerOpaTap && mid <= (workBgn + workEnd) / 2
    ensures Reduced(c, workBgn, workEnd, mid, turns)
  {
    mid := (workBgn + workEnd) / 2;
    turns := 0;
    var cycle := 0;
    for p := 0 to c.dqsEnPhaseMax + 1
      invariant cycle == p * c.delayPerOpaTap
    {
      cycle := cycle + c.delayPerOpaTap;
    }
    ghost var total := mid;
    assert cycle > 0;
    while mid > cycle
      invariant 0 < mid <= total && 0 <= turns && mid + turns * cycle == total
      decreases mid
    {
      mid, turns := mid - cycle, turns + 1;
    }
  }

  method CountPhases(c: Config, mid: int) returns (p: int, tmpDelay: int)
    requires c.Valid() && 0 < mid <= (c.dqsEnPhaseMax + 1) * c.delayPerOpaTap
    ensures 1 <= p <= c.dqsEnPhaseMax + 1 && tmpDelay == (p - 1) * c.delayPerOpaTap
    ensures tmpDelay < mid <= tmpDelay + c.delayPerOpaTap
  {
    p, tmpDelay := 0, 0;
    while p <= c.dqsEnPhaseMax && tmpDelay < mid
      invariant 0 <= p <= c.dqsEnPhaseMax + 1 && tmpDelay == p * c.delayPerOpaTap
      invariant p > 0 ==> (p - 1) * c.delayPerOpaTap < mid
    {
      p, tmpDelay := p + 1, tmpDelay + c.delayPerOpaTap;
    }
    tmpDelay := tmpDelay - c.delayPerOpaTap;
  }

  method CountTaps(c: Config, mid: int, base: int) returns (d: int)
    requires c.Valid() && base < mid <= base + c.delayPerOpaTap
    ensures 0 <= d <= c.dqsEnDelayMax
    ensures mid <= base + d * c.delayPerDqsEnTap < mid + c.delayPerDqsEnTap
  {
    d := 0;
    var tmpDelay := base;
    while d <= c.dqsEnDelayMax && tmpDelay < mid
      invariant 0 <= d <= c.dqsEnDelayMax + 1 && tmpDelay == base + d * c.delayPerDqsEnTap
      invariant tmpDelay < mid + c.delayPerDqsEnTap
      invariant d > 0 ==> base + (d - 1) * c.delayPerDqsEnTap < mid
    {
      d, tmpDelay := d + 1, tmpDelay + c.delayPerDqsEnTap;
    }
  }

  method Quantise(c: Config, mid: int) returns (phase: int, delay: int, ghost p: int, ghost d: int)
    requires c.Valid() && 0 < mid <= (c.dqsEnPhaseMax + 1) * c.delayPerOpaTap
    ensures Reaches(c, mid, p, d)
    // A middle that falls on phase 0, which cannot be set, goes to phase 1 with no delay.
    ensures if p == 1 then phase == 1 && delay == 0 else phase == p - 1 && delay == d
    ensures 1 <= phase <= c.dqsEnPhaseMax && 0 <= delay <= c.dqsEnDelayMax
  {
    var pp, base := CountPhases(c, mid);
    var dd := CountTaps(c, mid, base);
    p, d := pp, dd;
    if pp == 1 {
      pp, dd := 2, 0;
    }
    phase, delay := pp - 1, dd;
  }

  // ---------- the final push ----------

  /** Reading works at VFIFO pointer x with the chosen phase and delay. */
  ghost predicate WorksAtPointer(c: Config, mem: Memory, s: Settings, x: int) {
    AnyBit(c, mem, 0, s.(vfifo := x))
  }

  lemma {:induction false} WrapReaches(home: int, x: int, m: int) returns (k: int)
    requires 0 <= home < m && 0 <= x < m
    ensures 0 <= k < m && Wrap(home + k, m) == x
  {
    if x >= home {
      k := x - home;
    } else {
      k := x - home + m;
      WrapShift(x, m);
    }
  }

  predicate AcceptsAfter(s: Search, here: Pos, k: int)
    requires s.c.vfifoSize > 0
  {
    s.Accepts(here.(steps := here.steps + k))
  }

  /** The FIFO was pushed on from `from` as little as possible: at every position passed over,
      reading fails. */
  ghost predicate PushedLeast(s: Search, from: Pos, regs: Settings)
    requires s.c.vfifoSize > 0
  {
    exists n: nat :: PushedBy(s, from, n, regs)
  }

  ghost predicate PushedBy(s: Search, from: Pos, n: nat, regs: Settings)
    requires s.c.vfifoSize > 0
  {
    && n < s.c.vfifoSize && regs == s.At(from.(steps := from.steps + n))
    && forall k | 0 <= k < n :: !AcceptsAfter(s, from, k)
  }

  /** Pushes the VFIFO until a read works, at most once around. */
  method PushToWorking(g: DqsGroup, v: nat, ghost s: Search, ghost here: Pos, ghost entry: int)
    returns (ok: bool, v': nat)
    requires g.Valid() && s.c == g.c && s.mem == g.mem && Tracks(g.c, entry, v, g.regs)
    requires g.regs == s.At(here)
    modifies g
    ensures g.Stepped() && g.phaseZeroStores == old(g.phaseZeroStores) && Tracks(g.c, entry, v', g.regs)
    ensures g.regs == old(g.regs).(vfifo := g.regs.vfifo)
    ensures v <= v' && (if ok then v' - v < g.c.vfifoSize else v' - v == g.c.vfifoSize)
    ensures ok ==> exists t: nat :: old(g.tests) <= t < g.tests && AnyBit(g.c, g.mem, t, g.regs)
    ensures s.Deterministic() ==>
      ok == exists x :: 0 <= x < g.c.vfifoSize && WorksAtPointer(g.c, g.mem, g.regs, x)
    ensures s.Deterministic() && ok ==>
      WorksAtPointer(g.c, g.mem, g.regs, g.regs.vfifo) && PushedLeast(s, here, g.regs)
  {
    var i := 0;
    v', ok := v, false;
    while i < g.c.vfifoSize
      invariant i <= g.c.vfifoSize && v' == v + i
      invariant g.Stepped() && g.phaseZeroStores == old(g.phaseZeroStores) && Tracks(g.c, entry, v', g.regs)
      invariant g.regs == s.At(here.(steps := here.steps + i))
      invariant s.Deterministic() ==> forall k | 0 <= k < i :: !AcceptsAfter(s, here, k)
    {
      ok := TestAt(g, 1, s, here.(steps := here.steps + i));
      if ok {
        assert g.regs == g.regs.(vfifo := g.regs.vfifo);
        assert s.Deterministic() ==> WorksAtPointer(g.c, g.mem, g.regs, g.regs.vfifo);
        assert s.Deterministic() ==> PushedBy(s, here, i, g.regs);
        return;
      }
      assert s.Deterministic() ==> !AcceptsAfter(s, here, i);
      v' := IncrVfifo(g, v', s, here.(steps := here.steps + i), entry);
      i := i + 1;
    }
    if s.Deterministic() {
      forall x | 0 <= x < g.c.vfifoSize ensures !WorksAtPointer(g.c, g.mem, g.regs, x) {
        var k := WrapReaches(Wrap(s.home + here.steps, g.c.vfifoSize), x, g.c.vfifoSize);
        WrapOfWrap(s.home + here.steps, k, g.c.vfifoSize);
        assert !AcceptsAfter(s, here, k);
        assert g.regs.(vfifo := x) == s.At(here.(steps := here.steps + k));
      }
    }
  }

  lemma {:induction false} WrapOfWrap(x: int, k: int, m: int)
    requires m > 0
    ensures Wrap(Wrap(x, m) + k, m) == Wrap(x + k, m)
    decreases if x < 0 then m - x else x
  {
    if x < 0 {
      WrapOfWrap(x + m, k, m);
      WrapShift(x + k, m);
    } else if x >= m {
      WrapOfWrap(x - m, k, m);
      WrapShift(x - m + k, m);
    }
  }
}
