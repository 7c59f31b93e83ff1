/** Finding the two ends of the DQS-enable window. Picosecond accumulators shadow the
    hardware position all along. */
module DqsWindow {
  import opened Arith
  import opened Hardware
  import opened DqsEnable
  import opened WindowSpec

  // ---------- step 1: a failing read ----------

  /** Reading fails at VFIFO position v with phase 1 and no delay. */
  predicate FailsAt(s: Search, v: nat)
    requires s.c.vfifoSize > 0
  {
    !s.Accepts(Pos(v, 1, 0))
  }

  /** v is the second position from the home position on at which reading fails. */
  ghost predicate SecondFailing(s: Search, v: nat)
    requires s.c.vfifoSize > 0
  {
    && v < s.c.vfifoSize && FailsAt(s, v)
    && exists u: nat :: u < v && OnlyBefore(s, u, v)
  }

  /** Of the positions before v only u fails. */
  ghost predicate OnlyBefore(s: Search, u: nat, v: nat)
    requires s.c.vfifoSize > 0
  {
    FailsAt(s, u) && forall w: nat | w < v && w != u :: !FailsAt(s, w)
  }

  lemma {:induction false} SecondIsUnique(s: Search, v: nat, w: nat)
    requires s.c.vfifoSize > 0 && SecondFailing(s, v) && SecondFailing(s, w)
    ensures v == w
  {
    var t: nat :| t < v && OnlyBefore(s, t, v);
    var u: nat :| u < w && OnlyBefore(s, u, w);
    assert FailsAt(s, t) && FailsAt(s, u) && FailsAt(s, v) && FailsAt(s, w);
  }

  /** Pushes the VFIFO until the second failing read. */
  method PushToFailing(g: DqsGroup, ghost s: Search) returns (ok: bool, v: nat)
    requires g.Valid() && s.c == g.c && s.mem == g.mem && g.regs == s.At(Pos(0, 1, 0))
    requires s.home == g.regs.vfifo
    modifies g
    ensures g.Stepped() && g.phaseZeroStores == old(g.phaseZeroStores)
    ensures g.regs == s.At(Pos(v, 1, 0)) && Tracks(g.c, s.home, v, g.regs)
    ensures ok ==> v < g.c.vfifoSize
    ensures g.tests > old(g.tests)
    ensures ok && s.Deterministic() ==> SecondFailing(s, v)
    ensures !ok && s.Deterministic() ==>
      forall u: nat, w: nat | u < w < g.c.vfifoSize :: !(FailsAt(s, u) && FailsAt(s, w))
  {
    v := 0;
    var failCnt := 0;
    ghost var first := 0;
    while v < g.c.vfifoSize
      invariant v <= g.c.vfifoSize && 0 <= failCnt <= 1
      invariant v > 0 ==> g.tests > old(g.tests)
      invariant g.Stepped() && g.phaseZeroStores == old(g.phaseZeroStores)
      invariant g.regs == s.At(Pos(v, 1, 0)) && Tracks(g.c, s.home, v, g.regs)
      invariant failCnt == 1 ==> first < v
      invariant s.Deterministic() ==> forall u: nat | u < v && (failCnt == 0 || u != first) :: !FailsAt(s, u)
      invariant s.Deterministic() && failCnt == 1 ==> FailsAt(s, first)
    {
      var pass := TestAt(g, SEARCH_TRIES, s, Pos(v, 1, 0));
      if !pass {
        failCnt := failCnt + 1;
        if failCnt == 2 {
          assert s.Deterministic() ==> OnlyBefore(s, first, v);
          ok := true;
          return;
        }
        first := v;
      }
      v := IncrVfifo(g, v, s, Pos(v, 1, 0), s.home);
    }
    ok := false;
  }

  // ---------- step 2: the first working phase ----------

  method TryPhases(g: DqsGroup, steps: int, d: int, work: int, ghost s: Search, ghost start: Pos)
    returns (found: bool, p: nat, work': int)
    requires g.Valid() && s.c == g.c && s.mem == g.mem && g.regs == s.At(start)
    requires start.steps == steps && start.dtap == d && work == Ps(g.c, Pos(steps, 0, d))
    modifies g
    ensures g.Stepped() && g.phaseZeroStores == old(g.phaseZeroStores)
    ensures work' == Ps(g.c, Pos(steps, p, d))
    ensures found ==> 1 <= p <= g.c.dqsEnPhaseMax && g.regs == s.At(Pos(steps, p, d))
    ensures found ==> PassedTries(s, Pos(steps, p, d), SEARCH_TRIES)
    ensures !found ==> p == g.c.dqsEnPhaseMax + 1 && g.regs == s.At(Pos(steps, g.c.dqsEnPhaseMax, d))
    ensures s.Deterministic() ==> RejectsPhases(s, steps, d, p) && (found ==> s.Accepts(Pos(steps, p, d)))
  {
    p, work', found := 0, work, false;
    while p <= g.c.dqsEnPhaseMax
      invariant p <= g.c.dqsEnPhaseMax + 1
      invariant g.Stepped() && g.phaseZeroStores == old(g.phaseZeroStores)
      invariant g.regs == s.At(if p <= 1 then start else Pos(steps, p - 1, d))
      invariant work' == Ps(g.c, Pos(steps, p, d))
      invariant s.Deterministic() ==> RejectsPhases(s, steps, d, p)
    {
      if p != 0 {
        g.SetDqsEnPhase(p);
        found := TestAt(g, SEARCH_TRIES, s, Pos(steps, p, d));
        if found {
          return;
        }
      }
      NextPhase(g.c, Pos(steps, p, d));
      p, work' := p + 1, work' + g.c.delayPerOpaTap;
    }
  }

  method TryVfifos(g: DqsGroup, d: nat, tmpDelay: int, v: nat, ghost s: Search, ghost start: Pos, ghost entry: int)
    returns (found: bool, i: nat, p: nat, work: int, v': nat, ghost here: Pos)
    requires g.Valid() && s.c == g.c && s.mem == g.mem && g.regs == s.At(start) && start.steps == 0
    requires d <= g.c.dqsEnDelayMax && tmpDelay == Ps(g.c, Pos(0, 0, d)) && Tracks(g.c, entry, v, g.regs)
    modifies g
    ensures g.Stepped() && g.phaseZeroStores == old(g.phaseZeroStores)
    ensures v' == v + i && Tracks(g.c, entry, v', g.regs)
    ensures g.regs == s.At(here) && here.dtap == d
    ensures found ==> i < g.c.vfifoSize && 1 <= p <= g.c.dqsEnPhaseMax && here == Pos(i, p, d) && work == Ps(g.c, here)
    ensures found ==> PassedTries(s, here, SEARCH_TRIES)
    ensures !found ==> i == g.c.vfifoSize && here.steps == 0
    ensures s.Deterministic() ==> RejectsVfifos(s, i, d) && (found ==> s.Accepts(here) && RejectsPhases(s, i, d, p))
  {
    g.SetDqsEnDelay(d);
    here := start.(dtap := d);
    work := tmpDelay;
    i, p, v', found := 0, 0, v, false;
    while i < g.c.vfifoSize
      invariant i <= g.c.vfifoSize
      invariant g.Stepped() && g.phaseZeroStores == old(g.phaseZeroStores)
      invariant v' == v + i && Tracks(g.c, entry, v', g.regs)
      invariant g.regs == s.At(here) && here.steps == i && here.dtap == d
      invariant work == Ps(g.c, Pos(i, 0, d))
      invariant s.Deterministic() ==> RejectsVfifos(s, i, d)
    {
      found, p, work := TryPhases(g, i, d, work, s, here);
      if found {
        here := Pos(i, p, d);
        return;
      }
      here := Pos(i, g.c.dqsEnPhaseMax, d);
      assert s.Deterministic() ==> RejectsAllPhases(s, i, d);
      v' := IncrVfifo(g, v', s, here, entry);
      NextStep(g.c, Pos(i, 0, d));
      i, here := i + 1, here.(steps := i + 1);
    }
    WrapShift(s.home, g.c.vfifoSize);
    here := here.(steps := 0);
  }

  /** The first working point in the order delay tap, VFIFO position, phase. */
  method FindFirst(g: DqsGroup, dtaps: nat, v: nat, ghost s: Search, ghost start: Pos, ghost entry: int)
    returns (found: bool, i: nat, p: nat, d: nat, work: int, v': nat, ghost here: Pos)
    requires g.Valid() && s.c == g.c && s.mem == g.mem && g.regs == s.At(start) && start.steps == 0
    requires dtaps <= g.c.dqsEnDelayMax && Tracks(g.c, entry, v, g.regs)
    modifies g
    ensures g.Stepped() && g.phaseZeroStores == old(g.phaseZeroStores)
    ensures Tracks(g.c, entry, v', g.regs) && g.regs == s.At(here)
    ensures found ==> i < g.c.vfifoSize && 1 <= p <= g.c.dqsEnPhaseMax && d <= dtaps
    ensures found ==> here == Pos(i, p, d) && work == Ps(g.c, here) && PassedTries(s, here, SEARCH_TRIES)
    ensures s.Deterministic() && found ==>
      s.Accepts(here) && RejectsTaps(s, d) && RejectsVfifos(s, i, d) && RejectsPhases(s, i, d, p)
    ensures s.Deterministic() && !found ==> RejectsTaps(s, dtaps + 1)
  {
    d, v', here := 0, v, start;
    i, p, work, found := 0, 0, 0, false;
    var tmpDelay := 0;
    while d <= dtaps
      invariant d <= dtaps + 1
      invariant g.Stepped() && g.phaseZeroStores == old(g.phaseZeroStores)
      invariant Tracks(g.c, entry, v', g.regs) && g.regs == s.At(here) && here.steps == 0
      invariant tmpDelay == Ps(g.c, Pos(0, 0, d))
      invariant s.Deterministic() ==> RejectsTaps(s, d)
    {
      found, i, p, work, v', here := TryVfifos(g, d, tmpDelay, v', s, here, entry);
      if found {
        return;
      }
      NextTap(g.c, Pos(0, 0, d));
      d, tmpDelay := d + 1, tmpDelay + g.c.delayPerDqsEnTap;
    }
  }

  // ---------- step 3a: extend the beginning by delay taps ----------

  /** Backs off one phase from the first working one and looks for the first working delay
      tap there. Phase 0 cannot be set, so from phase 1 there is nothing to back off to; the
      code then still counts the phase up again, so p comes out one too high. */
  method ExtendBegin(g: DqsGroup, p0: nat, work: int, ghost s: Search, ghost first: Pos)
    returns (p: nat, workBgn: int, ghost bgn: Pos)
    requires g.Valid() && s.c == g.c && s.mem == g.mem && g.regs == s.At(first)
    requires first.phase == p0 && first.dtap == 0 && 0 <= first.steps
    requires 1 <= p0 <= g.c.dqsEnPhaseMax && work == Ps(g.c, first)
    modifies g
    ensures g.Stepped() && g.phaseZeroStores == old(g.phaseZeroStores)
    ensures p == if p0 == 1 then 2 else p0
    ensures g.regs == s.At(first.(phase := p - 1))
    ensures workBgn == Ps(g.c, bgn) && workBgn <= work
    ensures bgn.steps == first.steps && bgn.phase >= 1 && bgn.dtap >= 0
    ensures s.Deterministic() ==> ExtendsTo(s, first, bgn)
  {
    p := p0 - 1;
    var tmpDelay := work - g.c.delayPerOpaTap;
    NextPhase(g.c, first.(phase := p0 - 1));
    if p == 0 {
      p := 1;
      tmpDelay := work;
    }
    g.SetDqsEnPhase(p);
    ghost var back := first.(phase := p);
    workBgn, bgn := work, first;
    var d := 0;
    while d <= g.c.dqsEnDelayMax && tmpDelay < work
      invariant d <= g.c.dqsEnDelayMax + 1
      invariant g.Stepped() && g.phaseZeroStores == old(g.phaseZeroStores)
      invariant g.regs == s.At(back.(dtap := if d == 0 then 0 else d - 1))
      invariant tmpDelay == (if p0 == 1 then work else Ps(g.c, Back(first, d)))
      invariant s.Deterministic() ==> NoEarlyTap(s, first, d)
      invariant workBgn == work && bgn == first
    {
      g.SetDqsEnDelay(d);
      assert back.(dtap := d) == Back(first, d);
      var pass := TestAt(g, SEARCH_TRIES, s, Back(first, d));
      if pass {
        workBgn, bgn := tmpDelay, Back(first, d);
        break;
      }
      NextTap(g.c, Back(first, d));
      d, tmpDelay := d + 1, tmpDelay + g.c.delayPerDqsEnTap;
    }
    if bgn == first {
      LateTaps(s, first, d);
    }
    p := p + 1;
    g.SetDqsEnDelay(0);
  }

  /** Once a tap of the phase before is as late as `first`, so are all further ones. */
  lemma {:induction false} LateTaps(s: Search, first: Pos, d: nat)
    requires s.c.Valid() && (d > s.c.dqsEnDelayMax || first.phase < 2 || Ps(s.c, first) <= Ps(s.c, Back(first, d)))
    ensures NoEarlyTap(s, first, d) ==> NoEarlyTap(s, first, s.c.dqsEnDelayMax + 1)
  {
    forall e: nat | d <= e ensures Ps(s.c, Back(first, d)) <= Ps(s.c, Back(first, e)) {
      MoreTaps(s.c, Back(first, 0), d, e);
    }
  }

  lemma MoreTaps(c: Config, p: Pos, d: nat, e: nat)
    requires d <= e
    ensures Ps(c, p.(dtap := d)) <= Ps(c, p.(dtap := e))
  {
    TimesMonotone(d, e, c.delayPerDqsEnTap);
  }

  // ---------- step 4a: forward to the first failing phase ----------

  /** Where the forward search stands: about to try phase p, with
      the accumulators, the count j of phases behind it and whether the first phase tried
      failed (then the beginning was fuzzy and has been moved there). */
  datatype Forward = Forward(p: nat, workBgn: int, workEnd: int, j: nat, fuzzy: bool)
  {
    function Over(c: Config): Forward {
      Forward(p + 1, workBgn, workEnd + c.delayPerOpaTap, j + 1, fuzzy)
    }

    function Fuzzy(c: Config): Forward {
      Forward(p + 1, workEnd, workEnd + c.delayPerOpaTap, j + 1, true)
    }
  }

  /** A first working point at delay tap 0. */
  predicate AtTapZero(c: Config, first: Pos) {
    first.dtap == 0 && 1 <= first.phase <= c.dqsEnPhaseMax
  }

  /** How far the search has come: nothing is behind it before the first phase tried, which
      is at the next position if `first` is at the last phase. */
  predicate Reached(c: Config, first: Pos, steps: int, f: Forward) {
    if f.j > 0 then !Earlier(Pos(steps, f.p, 0), first.steps, FirstTried(first).phase + 1)
    else if f.p == 0 then first.phase == c.dqsEnPhaseMax && steps == first.steps + 1
    else Pos(steps, f.p, 0) == FirstTried(first)
  }

  /** The accumulator shadows the hardware up to the skew; the beginning stands for `bgn`, or
      if fuzzy for the first phase tried; the end has passed the beginning by at least a phase,
      by two if phase 0 lies between. Every other phase behind works. */
  ghost predicate Shadows(s: Search, skew: int, first: Pos, bgn: Pos, steps: int, f: Forward)
    requires s.c.vfifoSize > 0
  {
    && f.workEnd + skew == Ps(s.c, Pos(steps, f.p, 0))
    && (if f.fuzzy then f.workBgn + skew == Ps(s.c, FirstTried(first))
        else f.workBgn == Ps(s.c, bgn) <= Ps(s.c, first))
    && (if f.fuzzy then f.workBgn else Ps(s.c, first)) + s.c.delayPerOpaTap <= f.workEnd
    && (f.fuzzy ==> Ps(s.c, first) <= f.workBgn && FirstTried(first).phase <= s.c.dqsEnPhaseMax)
    && (f.p == 1 ==> (if f.fuzzy then f.workBgn else Ps(s.c, first)) + 2 * s.c.delayPerOpaTap <= f.workEnd)
    && Reached(s.c, first, steps, f) && (f.j == 0 ==> !f.fuzzy)
    && (s.Deterministic() ==>
          && s.Accepts(first) && WorksBetween(s, first, steps, f.p)
          && (f.j > 0 ==> f.fuzzy == EdgeIsFuzzy(s, first)))
  }

  /** One more phase behind the search: phase 0, the first tried, or one that works. */
  lemma WorksOneMore(s: Search, first: Pos, steps: int, p: nat)
    requires s.c.Valid() && WorksBetween(s, first, steps, p)
    requires p == 0 || Pos(steps, p, 0) == FirstTried(first) || s.Accepts(Pos(steps, p, 0))
    ensures WorksBetween(s, first, steps, p + 1)
  {
    forall q: Pos | Tried(s.c, first, steps, p + 1, q) && q != FirstTried(first) ensures s.Accepts(q) {
      assert Tried(s.c, first, steps, p, q) || q == Pos(steps, p, 0);
    }
  }

  /** Passing over phase 0, which is not tried, or a phase that works. */
  lemma ShadowsOver(s: Search, skew: int, first: Pos, bgn: Pos, steps: int, f: Forward)
    requires s.c.Valid() && AtTapZero(s.c, first)
    requires Shadows(s, skew, first, bgn, steps, f) && f.p <= s.c.dqsEnPhaseMax
    requires s.Deterministic() && f.p != 0 ==> s.Accepts(Pos(steps, f.p, 0))
    ensures Shadows(s, skew, first, bgn, steps, f.Over(s.c))
  {
    NextPhase(s.c, Pos(steps, f.p, 0));
    if s.Deterministic() {
      WorksOneMore(s, first, steps, f.p);
    }
  }

  /** The first phase tried fails: the beginning moves there. */
  lemma ShadowsFuzzy(s: Search, skew: int, first: Pos, bgn: Pos, steps: int, f: Forward)
    requires s.c.Valid() && AtTapZero(s.c, first)
    requires Shadows(s, skew, first, bgn, steps, f) && 0 < f.p <= s.c.dqsEnPhaseMax && f.j == 0
    requires s.Deterministic() ==> !s.Accepts(Pos(steps, f.p, 0))
    ensures Shadows(s, skew, first, bgn, steps, f.Fuzzy(s.c))
  {
    NextPhase(s.c, Pos(steps, f.p, 0));
    if s.Deterministic() {
      WorksOneMore(s, first, steps, f.p);
    }
  }

  /** One phase of the forward search. */
  method ForwardPhase(g: DqsGroup, f: Forward, ghost s: Search, ghost start: Pos, ghost skew: int,
                      ghost first: Pos, ghost bgn: Pos, ghost steps: int)
    returns (found: bool, f': Forward)
    requires g.Valid() && s.c == g.c && s.mem == g.mem && g.regs == s.At(start)
    requires start.steps == steps && start.dtap == 0 && 1 <= f.p <= g.c.dqsEnPhaseMax
    requires AtTapZero(g.c, first) && Shadows(s, skew, first, bgn, steps, f)
    modifies g
    ensures g.Stepped() && g.phaseZeroStores == old(g.phaseZeroStores)
    ensures g.regs == s.At(Pos(steps, f.p, 0))
    ensures Shadows(s, skew, first, bgn, steps, f') && f'.j > 0
    ensures f'.p == if found then f.p else f.p + 1
    ensures s.Deterministic() && found ==> !s.Accepts(Pos(steps, f.p, 0))
  {
    g.SetDqsEnPhase(f.p);
    var pass := TestAt(g, SEARCH_TRIES, s, Pos(steps, f.p, 0));
    found, f' := false, f;
    if !pass && f.j == 0 {
      ShadowsFuzzy(s, skew, first, bgn, steps, f);
      f' := f.Fuzzy(g.c);
    } else if !pass {
      found := true;
    } else {
      ShadowsOver(s, skew, first, bgn, steps, f);
      f' := f.Over(g.c);
    }
  }

  /** Phases f.p to the last at one VFIFO position. */
  method ForwardPhases(g: DqsGroup, f: Forward, ghost s: Search, ghost start: Pos, ghost skew: int,
                       ghost first: Pos, ghost bgn: Pos, ghost steps: int)
    returns (found: bool, f': Forward, ghost here: Pos)
    requires g.Valid() && s.c == g.c && s.mem == g.mem && g.regs == s.At(start)
    requires start.steps == steps && start.dtap == 0 && f.p <= g.c.dqsEnPhaseMax
    requires AtTapZero(g.c, first) && Shadows(s, skew, first, bgn, steps, f)
    modifies g
    ensures g.Stepped() && g.phaseZeroStores == old(g.phaseZeroStores)
    ensures Shadows(s, skew, first, bgn, steps, f') && f'.j > 0
    ensures g.regs == s.At(here) && here.steps == steps && here.dtap == 0
    ensures if found then 1 <= f'.p <= g.c.dqsEnPhaseMax && here == Pos(steps, f'.p, 0)
      else f'.p == g.c.dqsEnPhaseMax + 1 && here.phase == g.c.dqsEnPhaseMax
    ensures s.Deterministic() && found ==> !s.Accepts(here)
  {
    f', here, found := f, start, false;
    if f'.p == 0 {
      ShadowsOver(s, skew, first, bgn, steps, f');
      f' := f'.Over(g.c);
    }
    while f'.p <= g.c.dqsEnPhaseMax
      invariant 1 <= f'.p <= g.c.dqsEnPhaseMax + 1 && (f'.p > f.p ==> f'.j > 0)
      invariant g.Stepped() && g.phaseZeroStores == old(g.phaseZeroStores)
      invariant Shadows(s, skew, first, bgn, steps, f')
      invariant g.regs == s.At(here) && here.steps == steps && here.dtap == 0
      invariant f'.p == f.p || f'.p == 1 || here.phase == f'.p - 1
      decreases g.c.dqsEnPhaseMax + 1 - f'.p
    {
      var p := f'.p;
      found, f' := ForwardPhase(g, f', s, here, skew, first, bgn, steps);
      here := Pos(steps, p, 0);
      if found {
        return;
      }
    }
  }

  /** Starting the forward search one phase past where `p` was handed over. */
  lemma ShadowsStart(s: Search, first: Pos, bgn: Pos)
    requires s.c.Valid() && AtTapZero(s.c, first)
    requires Ps(s.c, bgn) <= Ps(s.c, first)
    requires s.Deterministic() ==> s.Accepts(first)
    ensures var p := FirstTried(first).phase;
      var workEnd := Ps(s.c, first) + s.c.delayPerOpaTap;
      if p > s.c.dqsEnPhaseMax
      then Shadows(s, Skew(s.c, first), first, bgn, first.steps + 1, Forward(0, Ps(s.c, bgn), workEnd, 0, false))
      else Shadows(s, Skew(s.c, first), first, bgn, first.steps, Forward(p, Ps(s.c, bgn), workEnd, 0, false))
  {
    NextPhase(s.c, first);
    NextPhase(s.c, first.(phase := first.phase + 1));
    NextStep(s.c, first.(phase := 0));
  }

  /** Moving on to the next VFIFO position. */
  lemma ShadowsWrap(s: Search, skew: int, first: Pos, bgn: Pos, steps: int, f: Forward)
    requires s.c.Valid() && Shadows(s, skew, first, bgn, steps, f)
    requires f.p == s.c.dqsEnPhaseMax + 1 && f.j > 0
    ensures Shadows(s, skew, first, bgn, steps + 1, f.(p := 0))
  {
    NextStep(s.c, Pos(steps, 0, 0));
    if s.Deterministic() {
      forall q: Pos | Tried(s.c, first, steps + 1, 0, q) && q != FirstTried(first) ensures s.Accepts(q) {
        assert Tried(s.c, first, steps, f.p, q);
      }
    }
  }

  /** The search cannot get past the home position come round again, where phase 1 fails. */
  lemma {:induction false} HomeEndsSearch(s: Search, skew: int, first: Pos, bgn: Pos, steps: int, f: Forward)
    requires s.c.Valid() && AtTapZero(s.c, first) && 0 <= first.steps < s.c.vfifoSize < steps
    requires s.Deterministic() && Shadows(s, skew, first, bgn, steps, f)
    ensures s.Accepts(Pos(0, 1, 0))
  {
    var q := Pos(s.c.vfifoSize, 1, 0);
    assert Tried(s.c, first, steps, f.p, q) && q != FirstTried(first);
    WrapShift(s.home, s.c.vfifoSize);
    assert s.At(q) == s.At(Pos(0, 1, 0));
  }

  /** The forward search from VFIFO position i on, to the home position come round again. */
  method ForwardVfifos(g: DqsGroup, i0: nat, f0: Forward, v: nat, ghost s: Search, ghost start: Pos,
                       ghost first: Pos, ghost bgn: Pos, ghost entry: int)
    returns (found: bool, f: Forward, v': nat, ghost here: Pos)
    requires g.Valid() && s.c == g.c && s.mem == g.mem && Tracks(g.c, entry, v, g.regs)
    requires g.regs == s.At(start) && start.dtap == 0 && f0.p <= g.c.dqsEnPhaseMax
    requires AtTapZero(g.c, first) && Shadows(s, Skew(g.c, first), first, bgn, start.steps, f0)
    requires i0 <= start.steps && i0 <= g.c.vfifoSize
    modifies g
    ensures g.Stepped() && g.phaseZeroStores == old(g.phaseZeroStores)
    ensures Tracks(g.c, entry, v', g.regs) && g.regs == s.At(here)
    ensures Shadows(s, Skew(g.c, first), first, bgn, here.steps, f)
    ensures found ==>
      && f.j > 0 && 1 <= f.p <= g.c.dqsEnPhaseMax && here == Pos(here.steps, f.p, 0)
      && (s.Deterministic() ==> !s.Accepts(here))
    ensures !found ==> here.steps > g.c.vfifoSize
  {
    f, v', here, found := f0, v, start, false;
    var i := i0;
    while i < g.c.vfifoSize + 1
      invariant g.Stepped() && g.phaseZeroStores == old(g.phaseZeroStores)
      invariant Tracks(g.c, entry, v', g.regs) && g.regs == s.At(here) && here.dtap == 0
      invariant f.p <= g.c.dqsEnPhaseMax && i <= here.steps && i <= g.c.vfifoSize + 1
      invariant Shadows(s, Skew(g.c, first), first, bgn, here.steps, f)
    {
      found, f, here := ForwardPhases(g, f, s, here, Skew(g.c, first), first, bgn, here.steps);
      if found {
        return;
      }
      v' := IncrVfifo(g, v', s, here, entry);
      ShadowsWrap(s, Skew(g.c, first), first, bgn, here.steps, f);
      f := f.(p := 0);
      i, here := i + 1, here.(steps := here.steps + 1);
    }
  }

  /** From the first working phase forward to a failing one. In `p0` the code hands over the
      first working phase, or 2 if that was 1; `work` shadows the first working phase. */
  method ForwardToFailing(g: DqsGroup, i0: nat, p0: nat, work: int, workBgn: int, v: nat,
                          ghost s: Search, ghost first: Pos, ghost bgn: Pos, ghost entry: int)
    returns (found: bool, f: Forward, v': nat, ghost here: Pos)
    requires g.Valid() && s.c == g.c && s.mem == g.mem && Tracks(g.c, entry, v, g.regs)
    requires first.steps == i0 < g.c.vfifoSize && AtTapZero(g.c, first)
    requires p0 == (if first.phase == 1 then 2 else first.phase) && g.regs == s.At(first.(phase := p0 - 1))
    requires work == Ps(g.c, first) && workBgn == Ps(g.c, bgn) <= work
    requires s.Deterministic() ==> s.Accepts(first) && !s.Accepts(Pos(0, 1, 0))
    modifies g
    ensures g.Stepped() && g.phaseZeroStores == old(g.phaseZeroStores)
    ensures Tracks(g.c, entry, v', g.regs) && g.regs == s.At(here)
    ensures found ==>
      && Shadows(s, Skew(g.c, first), first, bgn, here.steps, f) && f.j > 0
      && 1 <= f.p <= g.c.dqsEnPhaseMax && here == Pos(here.steps, f.p, 0)
      && (s.Deterministic() ==> !s.Accepts(here))
    ensures s.Deterministic() ==> found
  {
    v', here := v, first.(phase := p0 - 1);
    ShadowsStart(s, first, bgn);
    var p, workEnd := p0 + 1, work + g.c.delayPerOpaTap;
    if p > g.c.dqsEnPhaseMax {
      p := 0;
      v' := IncrVfifo(g, v', s, here, entry);
      here := here.(steps := here.steps + 1);
    }
    found, f, v', here := ForwardVfifos(g, i0, Forward(p, workBgn, workEnd, 0, false), v', s, here, first, bgn, entry);
    if !found && s.Deterministic() {
      HomeEndsSearch(s, Skew(g.c, first), first, bgn, here.steps, f);
    }
  }

  /** How far the end accumulator falls behind the hardware: one phase if the first working
      phase was 1, otherwise nothing. */
  function Skew(c: Config, first: Pos): int {
    if first.phase == 1 then c.delayPerOpaTap else 0
  }

  // ---------- step 5: back off one phase, then on by delay taps ----------

  /** Backs off from the failing phase to the one tested before it. */
  method BackOff(g: DqsGroup, f: Forward, v: nat, ghost s: Search, ghost skew: int,
                 ghost first: Pos, ghost bgn: Pos, ghost steps: int, ghost entry: int)
    returns (p: nat, workEnd: int, v': nat, ghost here: Pos)
    requires g.Valid() && s.c == g.c && s.mem == g.mem && Tracks(g.c, entry, v, g.regs)
    requires AtTapZero(g.c, first) && Shadows(s, skew, first, bgn, steps, f) && f.j > 0
    requires 1 <= f.p <= g.c.dqsEnPhaseMax && g.regs == s.At(Pos(steps, f.p, 0))
    requires s.Deterministic() ==> !s.Accepts(Pos(steps, f.p, 0))
    modifies g
    ensures g.Stepped() && g.phaseZeroStores == old(g.phaseZeroStores)
    ensures Tracks(g.c, entry, v', g.regs) && g.regs == s.At(here)
    ensures here == Before(g.c, steps, f.p) && here.phase == p && 1 <= p <= g.c.dqsEnPhaseMax
    ensures workEnd + skew == Ps(g.c, here) && f.workBgn <= workEnd
    ensures s.Deterministic() ==> LastPhase(s, first, here)
  {
    p, workEnd, v', here := f.p, f.workEnd, v, Pos(steps, f.p, 0);
    NextPhase(g.c, Pos(steps, p - 1, 0));
    if p == 1 {
      p := 0;
      workEnd := workEnd - g.c.delayPerOpaTap;
    }
    if p == 0 {
      p := g.c.dqsEnPhaseMax;
      v' := DecrVfifo(g, v', s, here, entry);
      NextStep(g.c, Pos(steps - 1, 0, 0));
      NextPhase(g.c, Pos(steps - 1, p, 0));
      here := here.(steps := steps - 1);
    } else {
      p := p - 1;
    }
    workEnd := workEnd - g.c.delayPerOpaTap;
    g.SetDqsEnPhase(p);
    here := here.(phase := p);
    if s.Deterministic() {
      EndsBefore(s, skew, first, bgn, steps, f);
    }
  }

  /** The phase before the first failing one is the last of the window. */
  lemma {:induction false} EndsBefore(s: Search, skew: int, first: Pos, bgn: Pos, steps: int, f: Forward)
    requires s.c.Valid() && AtTapZero(s.c, first) && s.Deterministic()
    requires Shadows(s, skew, first, bgn, steps, f) && f.j > 0 && 1 <= f.p <= s.c.dqsEnPhaseMax
    requires !s.Accepts(Pos(steps, f.p, 0))
    ensures LastPhase(s, first, Before(s.c, steps, f.p))
  {
    var here := Before(s.c, steps, f.p);
    assert After(s.c, here) == Pos(steps, f.p, 0);
    forall q: Pos | Tried(s.c, first, here.steps, here.phase + 1, q) && q != FirstTried(first) ensures s.Accepts(q) {
      assert Tried(s.c, first, steps, f.p, q);
    }
  }

  /** Raises the delay tap until the read fails and steps the accumulator back to the last
      working tap. */
  method TapsToFailing(g: DqsGroup, d0: nat, work: int, ghost s: Search, ghost start: Pos, ghost skew: int)
    returns (d: nat, workEnd: int)
    requires g.Valid() && s.c == g.c && s.mem == g.mem && d0 <= g.c.dqsEnDelayMax
    requires g.regs == s.At(start) && work + skew == Ps(g.c, start.(dtap := d0))
    modifies g
    ensures g.Stepped() && g.phaseZeroStores == old(g.phaseZeroStores)
    ensures d0 <= d <= g.c.dqsEnDelayMax + 1
    ensures g.regs == s.At(start.(dtap := if d <= g.c.dqsEnDelayMax then d else g.c.dqsEnDelayMax))
    ensures workEnd + skew == Ps(g.c, start.(dtap := if d == 0 then 0 else d - 1))
    ensures s.Deterministic() ==> forall e | d0 <= e < d :: s.Accepts(start.(dtap := e))
    ensures s.Deterministic() && d <= g.c.dqsEnDelayMax ==> !s.Accepts(start.(dtap := d))
  {
    d, workEnd := d0, work;
    while d <= g.c.dqsEnDelayMax
      invariant d0 <= d <= g.c.dqsEnDelayMax + 1
      invariant g.Stepped() && g.phaseZeroStores == old(g.phaseZeroStores)
      invariant g.regs == s.At(if d == d0 then start else start.(dtap := d - 1))
      invariant workEnd + skew == Ps(g.c, start.(dtap := d))
      invariant s.Deterministic() ==> forall e | d0 <= e < d :: s.Accepts(start.(dtap := e))
    {
      g.SetDqsEnDelay(d);
      var pass := TestAt(g, SEARCH_TRIES, s, start.(dtap := d));
      if !pass {
        break;
      }
      NextTap(g.c, start.(dtap := d));
      d, workEnd := d + 1, workEnd + g.c.delayPerDqsEnTap;
    }
    if d != 0 {
      NextTap(g.c, start.(dtap := d - 1));
      workEnd := workEnd - g.c.delayPerDqsEnTap;
    }
  }

  // ---------- steps 2 to 5 together ----------

  /** How far the end accumulator is behind, for a window found at `first`. */
  function EndSkew(c: Config, first: Pos): int {
    if first.dtap == 0 then Skew(c, first) else 0
  }

  /** What the accumulators mean once the window is known. The beginning always stands for
      its position, or, if fuzzy, trails like the end. The end trails by one phase exactly
      if the first working point was at tap 0 of phase 1. */
  ghost predicate Denotes(c: Config, w: Ends, workBgn: int, workEnd: int) {
    && Settable(c, w.first) && w.first.steps < c.vfifoSize
    && Settable(c, w.end.(steps := 0)) && 1 <= w.bgn.phase
    && workBgn + (if w.fuzzy then EndSkew(c, w.first) else 0) == Ps(c, w.bgn)
    && workEnd + EndSkew(c, w.first) == Ps(c, w.end)
    && 0 < workBgn <= workEnd
  }

  lemma PsPositive(c: Config, p: Pos)
    requires c.Valid() && 0 <= p.steps && 1 <= p.phase && 0 <= p.dtap
    ensures Ps(c, p) >= c.delayPerOpaTap
  {
    TimesGrows(p.steps, c.dqsEnPhaseMax + 1);
    TimesGrows(Ticks(c, p), c.delayPerOpaTap);
    TimesGrows(p.dtap, c.delayPerDqsEnTap);
  }

  /** The window found at tap 0: extend its beginning by delay taps, go forward by phases
      and back off. */
  method PhaseWindow(g: DqsGroup, i: nat, p0: nat, work: int, v: nat,
                     ghost s: Search, ghost first: Pos, ghost entry: int)
    returns (found: bool, p: nat, workBgn: int, workEnd: int, v': nat,
             ghost bgn: Pos, ghost here: Pos, ghost fuzzy: bool)
    requires g.Valid() && s.c == g.c && s.mem == g.mem && Tracks(g.c, entry, v, g.regs)
    requires first == Pos(i, p0, 0) && i < g.c.vfifoSize && 1 <= p0 <= g.c.dqsEnPhaseMax
    requires work == Ps(g.c, first) && g.regs == s.At(first)
    requires s.Deterministic() ==> s.Accepts(first) && !s.Accepts(Pos(0, 1, 0))
    modifies g
    ensures g.Stepped() && g.phaseZeroStores == old(g.phaseZeroStores) && Tracks(g.c, entry, v', g.regs)
    ensures exists q :: g.regs == s.At(q)
    ensures found ==>
      && g.regs == s.At(here) && here.phase == p && here.dtap == 0 && 1 <= p <= g.c.dqsEnPhaseMax
      && workEnd + Skew(g.c, first) == Ps(g.c, here) && 0 < workBgn <= workEnd && 1 <= bgn.phase
      && workBgn + (if fuzzy then Skew(g.c, first) else 0) == Ps(g.c, bgn)
    ensures s.Deterministic() ==>
      found && fuzzy == EdgeIsFuzzy(s, first) && BeginsAt(s, first, bgn) && LastPhase(s, first, here)
  {
    var p1;
    p1, workBgn, bgn := ExtendBegin(g, p0, work, s, first);
    PsPositive(g.c, first);
    PsPositive(g.c, bgn);
    var f;
    found, f, v', here := ForwardToFailing(g, i, p1, work, workBgn, v, s, first, bgn, entry);
    p, workEnd, fuzzy := f.p, f.workEnd, f.fuzzy;
    workBgn := f.workBgn;
    if found {
      p, workEnd, v', here := BackOff(g, f, v', s, Skew(g.c, first), first, bgn, here.steps, entry);
      bgn := if f.fuzzy then FirstTried(first) else bgn;
    }
  }

  /** Steps 2 to 5: both ends of the window, with the accumulators for them. The search starts
      where phase 1 fails. */
  method FindWindow(g: DqsGroup, dtaps: nat, v: nat, ghost s: Search, ghost start: Pos, ghost entry: int)
    returns (found: bool, p: nat, d: nat, workBgn: int, workEnd: int, v': nat, ghost w: Ends)
    requires g.Valid() && s.c == g.c && s.mem == g.mem && g.regs == s.At(start) && start.steps == 0
    requires dtaps <= g.c.dqsEnDelayMax && Tracks(g.c, entry, v, g.regs)
    requires s.Deterministic() ==> !s.Accepts(Pos(0, 1, 0))
    modifies g
    ensures g.Stepped() && g.phaseZeroStores == old(g.phaseZeroStores) && Tracks(g.c, entry, v', g.regs)
    ensures exists q :: g.regs == s.At(q)
    ensures found ==> Denotes(g.c, w, workBgn, workEnd) && PassedTries(s, w.first, SEARCH_TRIES)
    ensures found && s.Deterministic() ==> IsWindow(s, w)
    ensures found && s.Deterministic() ==> d == w.end.dtap + if s.Accepts(w.end) then 1 else 0
    // A consistent memory is refused exactly if nothing works up to the given tap.
    ensures s.Deterministic() ==> found == !RejectsTaps(s, dtaps + 1)
    ensures found ==> w.end.phase == p && w.end.dtap == (if d == 0 then 0 else d - 1) && d <= g.c.dqsEnDelayMax + 1
    ensures found ==> g.regs == s.At(w.end.(dtap := if d <= g.c.dqsEnDelayMax then d else g.c.dqsEnDelayMax))
  {
    var i, work;
    ghost var here;
    found, i, p, d, work, v', here := FindFirst(g, dtaps, v, s, start, entry);
    workBgn, workEnd := work, work;
    w := Ends(here, here, here, false);
    if !found {
      return;
    }
    PsPositive(g.c, here);
    ghost var first := here;
    if s.Deterministic() {
      WorkingTap(s, first, dtaps);
    }
    if d == 0 {
      ghost var bgn, fuzzy;
      found, p, workBgn, workEnd, v', bgn, here, fuzzy := PhaseWindow(g, i, p, work, v', s, first, entry);
      if !found {
        return;
      }
      w := Ends(first, bgn, here, fuzzy);
    }
    ghost var d0 := d;
    d, workEnd := TapsToFailing(g, d, workEnd, s, here, EndSkew(g.c, first));
    MoreTaps(g.c, here, d0, if d <= d0 then d0 else d - 1);
    w := w.(end := here.(dtap := if d == 0 then 0 else d - 1));
    found := workEnd >= workBgn;
    if s.Deterministic() {
      TapsEnd(s, here, d0, d);
    }
  }

  /** The tap before the first failing one is the last of the window. */
  lemma {:induction false} TapsEnd(s: Search, q: Pos, d0: nat, d: nat)
    requires s.c.Valid() && d0 <= d <= s.c.dqsEnDelayMax + 1 && d0 <= s.c.dqsEnDelayMax && q.dtap == d0
    requires forall e | d0 <= e < d :: s.Accepts(q.(dtap := e))
    requires d <= s.c.dqsEnDelayMax ==> !s.Accepts(q.(dtap := d))
    requires d0 > 0 ==> s.Accepts(q)
    ensures var last := if d == 0 then 0 else d - 1;
      && d0 <= last && LastTap(s, q.(dtap := last), d0, last)
      && d == last + if s.Accepts(q.(dtap := last)) then 1 else 0
  {
    assert q == q.(dtap := d0);
  }

  /** Something works up to a tap where the first working point is. */
  lemma {:induction false} WorkingTap(s: Search, first: Pos, dtaps: nat)
    requires s.c.Valid() && IsFirst(s, first) && first.dtap <= dtaps
    ensures !RejectsTaps(s, dtaps + 1)
  {
    assert first == Pos(first.steps, first.phase, first.dtap);
    assert !RejectsAllPhases(s, first.steps, first.dtap);
    assert !RejectsVfifos(s, s.c.vfifoSize, first.dtap);
  }
}
