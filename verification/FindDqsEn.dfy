/** The DQS-enable search as a whole. */
module FindDqsEn {
  import opened Hardware
  import opened DqsEnable
  import opened WindowSpec
  import opened DqsWindow
  import opened DqsCentre
  import opened EnableSpec
  import opened IntervalWindow

  /** Only the enable settings and the VFIFO differ. */
  predicate OnlyEnableMoved(before: Settings, after: Settings) {
    after == before.(enPhase := after.enPhase, enDelay := after.enDelay, vfifo := after.vfifo)
  }

  /** The search starts at the second failing position from `entry` on. */
  ghost predicate SeenFromFailing(s: Search, entry: int)
    requires s.c.vfifoSize > 0
  {
    exists v: nat :: s.home == entry + v && SecondFailing(s.(home := entry), v)
  }

  /** Why the search fails: hardly anything fails, nothing works, or its centre does not work at
      any VFIFO position. */
  ghost predicate EnableFails(c: Config, mem: Memory, base: Settings)
    requires c.vfifoSize > 0
  {
    FewFailures(c, mem, base) || NothingWorks(c, mem, base) || CentreFails(c, mem, base)
  }

  ghost predicate CentreFails(c: Config, mem: Memory, base: Settings)
    requires c.vfifoSize > 0
  {
    exists home: int, k: Centre, regs: Settings ::
      && 0 <= home && SeenFromFailing(Search(c, mem, base, home), base.vfifo)
      && OnlyEnableMoved(base, regs) && Centred(Search(c, mem, base, home), k, regs)
      && forall x | 0 <= x < c.vfifoSize :: !WorksAtPointer(c, mem, regs, x)
  }

  /** dtaps is what is written out for tracking, by the window that the memory has from the
      second failing position on. */
  ghost predicate DtapsMeasured(c: Config, mem: Memory, base: Settings, dtaps: int)
    requires c.vfifoSize > 0
  {
    exists home: int, w: Ends :: MeasuredFrom(Search(c, mem, base, home), base.vfifo, w, dtaps)
  }

  ghost predicate MeasuredFrom(s: Search, entry: int, w: Ends, dtaps: int)
    requires s.c.vfifoSize > 0
  {
    SeenFromFailing(s, entry) && IsWindow(s, w) && TapsForTracking(s, w.end, dtaps)
  }

  /** `dtaps` is the number of delay taps per phase written out for tracking, if `measured`;
      v counts the increments sent to the VFIFO. */
  method FindDqsEnPhase(g: DqsGroup)
    returns (found: bool, measured: bool, dtaps: int, v: nat, ghost s: Search, ghost k: Centre)
    requires g.Valid()
    modifies g
    ensures g.Stepped() && g.phaseZeroStores == old(g.phaseZeroStores)
    ensures OnlyEnableMoved(old(g.regs), g.regs)
    ensures Tracks(g.c, old(g.regs.vfifo), v, g.regs)
    ensures s.c == g.c && s.mem == g.mem && s.base == old(g.regs)
    // The window is seen from the second failing position after the entry.
    ensures measured && Consistent(g.c, g.mem, old(g.regs)) ==> SeenFromFailing(s, old(g.regs.vfifo))
    // Any memory, marginal or not, has passed five tests at the first working point.
    ensures measured ==> 1 <= dtaps <= g.c.dqsEnDelayMax && Centred(s, k, g.regs)
    ensures measured ==> PassedTries(s, k.w.first, SEARCH_TRIES)
    ensures found ==> measured && PassedOnce(g, old(g.tests))
    // A window of a consistent memory is missed for two reasons only.
    ensures Consistent(g.c, g.mem, old(g.regs)) ==>
      && s.Deterministic()
      && measured == !(FewFailures(g.c, g.mem, old(g.regs)) || NothingWorks(g.c, g.mem, old(g.regs)))
      && found == (measured && WorksSomewhere(g))
      && (found ==> WorksAtPointer(g.c, g.mem, g.regs, g.regs.vfifo))
    ensures Consistent(g.c, g.mem, old(g.regs)) && !found ==> EnableFails(g.c, g.mem, old(g.regs))
    ensures Consistent(g.c, g.mem, old(g.regs)) && measured ==>
      TapsForTracking(s, k.w.end, dtaps) && DtapsMeasured(g.c, g.mem, old(g.regs), dtaps)
    // A memory that works in one wide enough interval of delays is never missed.
    ensures FitsInterval(g.c, g.mem, old(g.regs)) ==> found
    // From where the measurement left it, the FIFO is pushed on as little as possible.
    ensures Consistent(g.c, g.mem, old(g.regs)) && found ==> PushedLeast(s, AfterMeasuring(s.c, k, g.regs), g.regs)
  {
    ghost var entry := g.regs.vfifo;
    s := Search(g.c, g.mem, g.regs, entry);
    ConsistentSearch(s);
    FewExactly(s);
    g.SetDqsEnDelay(0);
    g.SetDqsEnPhase(1);
    var nominal := StaticDtaps(g.c);
    found, measured, dtaps := false, false, 0;
    var ok;
    ok, v := PushToFailing(g, s);
    k := NoCentre();
    if ok {
      Rehomed(s, v);
      assert Consistent(g.c, g.mem, s.base) ==> SecondFailing(s, v) && s.(home := entry) == s;
      s := s.(home := entry + v);
      ConsistentSearch(s);
      NothingExactly(s, nominal);
      found, measured, dtaps, v, k := FindFromFailing(g, nominal, v, s, entry);
    }
    assert measured && !WorksSomewhere(g) && Consistent(g.c, g.mem, s.base) ==>
      && SeenFromFailing(s, entry) && s == Search(g.c, g.mem, s.base, s.home) && 0 <= s.home
      && forall x | 0 <= x < g.c.vfifoSize :: !WorksAtPointer(g.c, g.mem, g.regs, x);
    assert found && Consistent(g.c, g.mem, s.base) ==> PushedLeast(s, AfterMeasuring(s.c, k, g.regs), g.regs);
    assert measured && Consistent(g.c, g.mem, s.base) ==>
      s == Search(g.c, g.mem, s.base, s.home) && MeasuredFrom(s, entry, k.w, dtaps);
    if FitsInterval(g.c, g.mem, s.base) {
      IntervalSuffices(g.c, g.mem, s.base);
    }
  }

  /** On the memory that the search is made for it finds a window, and its centre works. */
  lemma {:induction false} IntervalSuffices(c: Config, mem: Memory, base: Settings)
    requires c.Valid() && FitsInterval(c, mem, base)
    ensures !EnableFails(c, mem, base)
  {
    var a, b :| Wide(c, a, b) && WorksInInterval(c, mem, base, a, b);
    IntervalIsFound(c, mem, base, a, b);
    forall home: int, k: Centre, regs: Settings |
      && 0 <= home && SeenFromFailing(Search(c, mem, base, home), base.vfifo)
      && OnlyEnableMoved(base, regs) && Centred(Search(c, mem, base, home), k, regs)
      ensures exists x :: 0 <= x < c.vfifoSize && WorksAtPointer(c, mem, regs, x)
    {
      CentreWorks(Search(c, mem, base, home), a, b, k, regs);
    }
  }

  lemma {:induction false} CentreWorks(s: Search, a: int, b: int, k: Centre, regs: Settings)
    requires s.c.Valid() && 0 <= s.home && Consistent(s.c, s.mem, s.base) && Turn(s.c) > 0
    requires Wide(s.c, a, b) && WorksInInterval(s.c, s.mem, s.base, a, b)
    requires OnlyEnableMoved(s.base, regs) && Centred(s, k, regs)
    ensures exists x :: 0 <= x < s.c.vfifoSize && WorksAtPointer(s.c, s.mem, regs, x)
  {
    ConsistentSearch(s);
    IntervalWorksSomewhere(s, a, b, k, regs);
    var x :| 0 <= x < s.c.vfifoSize && WorksWith(s.c, s.mem, s.base, x, regs.enPhase, regs.enDelay);
    assert regs.(vfifo := x) == s.base.(vfifo := x, enPhase := regs.enPhase, enDelay := regs.enDelay);
    assert WorksAtPointer(s.c, s.mem, regs, x);
  }

  /** A read test since test number t passed at the present settings. */
  ghost predicate PassedOnce(g: DqsGroup, t: nat)
    reads g
  {
    exists u: nat :: t <= u < g.tests && AnyBit(g.c, g.mem, u, g.regs)
  }

  /** The position a phase before the window's end, with the setting finally programmed. */
  ghost function AfterMeasuring(c: Config, k: Centre, regs: Settings): Pos {
    Before(c, k.w.end.steps, k.w.end.phase).(phase := regs.enPhase, dtap := regs.enDelay)
  }

  /** Some VFIFO position works with the present phase and delay. */
  ghost predicate WorksSomewhere(g: DqsGroup)
    reads g
  {
    exists x :: 0 <= x < g.c.vfifoSize && WorksAtPointer(g.c, g.mem, g.regs, x)
  }

  ghost function NoCentre(): Centre {
    var p := Pos(0, 0, 0);
    Centre(Ends(p, p, p, false), 0, 0, 0, 0, 0, 0)
  }

  /** Steps 2 to 6, from the VFIFO position with the second failing read. */
  method FindFromFailing(g: DqsGroup, nominal: nat, v: nat, ghost s: Search, ghost entry: int)
    returns (found: bool, measured: bool, dtaps: int, v': nat, ghost k: Centre)
    requires g.Valid() && s.c == g.c && s.mem == g.mem && g.regs == s.At(Pos(0, 1, 0))
    requires Tracks(g.c, entry, v, g.regs) && 1 <= nominal <= g.c.dqsEnDelayMax && IsNominal(g.c, nominal)
    requires s.Deterministic() ==> !s.Accepts(Pos(0, 1, 0))
    modifies g
    ensures g.Stepped() && g.phaseZeroStores == old(g.phaseZeroStores) && Tracks(g.c, entry, v', g.regs)
    ensures OnlyEnableMoved(s.base, g.regs)
    ensures measured ==> 1 <= dtaps <= g.c.dqsEnDelayMax && Centred(s, k, g.regs)
    ensures measured ==> PassedTries(s, k.w.first, SEARCH_TRIES)
    ensures s.Deterministic() && measured ==> TapsForTracking(s, k.w.end, dtaps)
    ensures found ==> measured && PassedOnce(g, old(g.tests))
    ensures s.Deterministic() ==> measured == !RejectsTaps(s, nominal + 1)
    ensures s.Deterministic() ==> found == (measured && WorksSomewhere(g))
    ensures s.Deterministic() && found ==> WorksAtPointer(g.c, g.mem, g.regs, g.regs.vfifo)
    ensures s.Deterministic() && found ==> PushedLeast(s, AfterMeasuring(s.c, k, g.regs), g.regs)
  {
    k, dtaps, measured := NoCentre(), 0, false;
    var p, d, workBgn, workEnd;
    ghost var w, here;
    found, p, d, workBgn, workEnd, v', w := FindWindow(g, nominal, v, s, Pos(0, 1, 0), entry);
    if !found {
      return;
    }
    here := w.end.(dtap := if d <= g.c.dqsEnDelayMax then d else g.c.dqsEnDelayMax);
    measured := true;
    dtaps, v', here := MeasureDtaps(g, p, d, nominal, v', s, here, entry);
    assert s.Deterministic() ==> TapsForTracking(s, w.end, dtaps);
    found, v', k := CentreAndPush(g, workBgn, workEnd, v', s, here, w, entry);
  }

  /** Step 6 and the final push. */
  method CentreAndPush(g: DqsGroup, workBgn: int, workEnd: int, v: nat, ghost s: Search, ghost here: Pos, ghost w: Ends,
                       ghost entry: int)
    returns (found: bool, v': nat, ghost k: Centre)
    requires g.Valid() && s.c == g.c && s.mem == g.mem && Tracks(g.c, entry, v, g.regs) && g.regs == s.At(here)
    requires Denotes(g.c, w, workBgn, workEnd)
    requires s.Deterministic() ==> IsWindow(s, w) && !s.Accepts(Pos(0, 1, 0))
    modifies g
    ensures g.Stepped() && g.phaseZeroStores == old(g.phaseZeroStores) && Tracks(g.c, entry, v', g.regs)
    ensures OnlyEnableMoved(s.base, g.regs)
    ensures Centred(s, k, g.regs) && k.w == w
    ensures found ==> PassedOnce(g, old(g.tests))
    ensures s.Deterministic() ==> found == WorksSomewhere(g)
    ensures s.Deterministic() && found ==> WorksAtPointer(g.c, g.mem, g.regs, g.regs.vfifo)
    ensures s.Deterministic() && found ==>
      PushedLeast(s, here.(phase := g.regs.enPhase, dtap := g.regs.enDelay), g.regs)
  {
    var mid, turns := ReduceMid(g.c, workBgn, workEnd);
    var phase, delay, p, d := Quantise(g.c, mid);
    k := Centre(w, workBgn, workEnd, mid, turns, p, d);
    g.SetDqsEnPhase(phase);
    g.SetDqsEnDelay(delay);
    found, v' := PushToWorking(g, v, s, here.(phase := phase, dtap := delay), entry);
  }
}
