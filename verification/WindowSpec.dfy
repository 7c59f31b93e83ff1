/** The DQS-enable window as the memory alone determines it. */
module WindowSpec {
  import opened Hardware
  import opened DqsEnable

  // ---------- the first working point ----------

  ghost predicate RejectsPhases(s: Search, steps: int, d: int, end: int)
    requires s.c.vfifoSize > 0
  {
    forall q | 1 <= q < end :: !s.Accepts(Pos(steps, q, d))
  }

  ghost predicate RejectsAllPhases(s: Search, steps: int, d: int)
    requires s.c.vfifoSize > 0
  {
    RejectsPhases(s, steps, d, s.c.dqsEnPhaseMax + 1)
  }

  /** No phase works at any of the first n VFIFO positions with delay tap d. */
  ghost predicate RejectsVfifos(s: Search, n: int, d: int)
    requires s.c.vfifoSize > 0
  {
    forall k | 0 <= k < n :: RejectsAllPhases(s, k, d)
  }

  ghost predicate RejectsTaps(s: Search, n: int)
    requires s.c.vfifoSize > 0
  {
    forall e | 0 <= e < n :: RejectsVfifos(s, s.c.vfifoSize, e)
  }

  /** A position within the chains, not before the home VFIFO position. */
  predicate Settable(c: Config, p: Pos) {
    0 <= p.steps && 1 <= p.phase <= c.dqsEnPhaseMax && 0 <= p.dtap <= c.dqsEnDelayMax
  }

  /** The first working point in the order delay tap, VFIFO position, phase. */
  ghost predicate IsFirst(s: Search, p: Pos)
    requires s.c.vfifoSize > 0
  {
    && Settable(s.c, p) && p.steps < s.c.vfifoSize && s.Accepts(p)
    && RejectsTaps(s, p.dtap) && RejectsVfifos(s, p.steps, p.dtap) && RejectsPhases(s, p.steps, p.dtap, p.phase)
  }

  // ---------- the beginning ----------

  /** One phase before `first`, with delay tap e. */
  function Back(first: Pos, e: int): Pos {
    first.(phase := first.phase - 1, dtap := e)
  }

  /** Delay tap e of the phase before `first` is earlier than `first` and works. Phase 0 cannot
      be set, so phase 1 has no phase before it. */
  predicate EarlyTap(s: Search, first: Pos, e: int)
    requires s.c.vfifoSize > 0
  {
    && first.dtap == 0 && 2 <= first.phase && 0 <= e <= s.c.dqsEnDelayMax
    && Ps(s.c, Back(first, e)) < Ps(s.c, first) && s.Accepts(Back(first, e))
  }

  ghost predicate NoEarlyTap(s: Search, first: Pos, n: int)
    requires s.c.vfifoSize > 0
  {
    forall e | e < n :: !EarlyTap(s, first, e)
  }

  /** The least working tap of the phase before `first`, or `first` if there is none. */
  ghost predicate ExtendsTo(s: Search, first: Pos, bgn: Pos)
    requires s.c.vfifoSize > 0
  {
    if bgn == first then NoEarlyTap(s, first, s.c.dqsEnDelayMax + 1)
    else bgn == Back(first, bgn.dtap) && EarlyTap(s, first, bgn.dtap) && NoEarlyTap(s, first, bgn.dtap)
  }

  /** The phase that the forward search tries first: after phase 1 it passes over phase 2. */
  function FirstTried(first: Pos): Pos {
    first.(phase := if first.phase == 1 then 3 else first.phase + 1)
  }

  /** The first phase tried is at the same VFIFO position, and fails: the working point seen
      was a fuzzy edge. */
  predicate EdgeIsFuzzy(s: Search, first: Pos)
    requires s.c.vfifoSize > 0
  {
    first.dtap == 0 && FirstTried(first).phase <= s.c.dqsEnPhaseMax && !s.Accepts(FirstTried(first))
  }

  /** Where the window begins. A fuzzy edge moves the beginning to the failing phase. */
  ghost predicate BeginsAt(s: Search, first: Pos, bgn: Pos)
    requires s.c.vfifoSize > 0
  {
    if EdgeIsFuzzy(s, first) then bgn == FirstTried(first) else ExtendsTo(s, first, bgn)
  }

  // ---------- the end ----------

  predicate Earlier(q: Pos, steps: int, p: int) {
    q.steps < steps || (q.steps == steps && q.phase < p)
  }

  /** The position tested before phase p, and the one tested after q, given that phase 0 is
      never tested. */
  function Before(c: Config, steps: int, p: int): Pos {
    if p <= 1 then Pos(steps - 1, c.dqsEnPhaseMax, 0) else Pos(steps, p - 1, 0)
  }

  function After(c: Config, q: Pos): Pos {
    if q.phase >= c.dqsEnPhaseMax then Pos(q.steps + 1, 1, 0) else Pos(q.steps, q.phase + 1, 0)
  }

  /** q is a phase that the forward search from `first` tries, before phase p at `steps`. */
  predicate Tried(c: Config, first: Pos, steps: int, p: int, q: Pos) {
    && q.dtap == 0 && 1 <= q.phase <= c.dqsEnPhaseMax && Earlier(q, steps, p)
    && !Earlier(q, first.steps, FirstTried(first).phase)
  }

  /** Every phase tried before phase p at `steps` works, but possibly the first. */
  ghost predicate WorksBetween(s: Search, first: Pos, steps: int, p: int)
    requires s.c.vfifoSize > 0
  {
    forall q: Pos | Tried(s.c, first, steps, p, q) && q != FirstTried(first) :: s.Accepts(q)
  }

  /** The last phase before the first failing one after the first tried; if that is the next
      position's first phase, it may be `first` itself. */
  ghost predicate LastPhase(s: Search, first: Pos, q: Pos)
    requires s.c.vfifoSize > 0
  {
    && q.dtap == 0 && 1 <= q.phase <= s.c.dqsEnPhaseMax
    && (Tried(s.c, first, q.steps, q.phase + 1, q) || (q == first && first.phase == s.c.dqsEnPhaseMax))
    && WorksBetween(s, first, q.steps, q.phase + 1) && !s.Accepts(After(s.c, q))
  }

  /** The last tap of q from d0 on before the first failing one; d0 itself if q does not work. */
  ghost predicate LastTap(s: Search, q: Pos, d0: int, d: int)
    requires s.c.vfifoSize > 0
  {
    && d0 <= d <= s.c.dqsEnDelayMax
    && (forall e | d0 <= e <= d :: s.Accepts(q.(dtap := e)) || e == d0 == d)
    && (s.Accepts(q.(dtap := d0)) && d < s.c.dqsEnDelayMax ==> !s.Accepts(q.(dtap := d + 1)))
    && (!s.Accepts(q.(dtap := d0)) ==> d == d0)
  }

  /** Where the window ends. */
  ghost predicate EndsAt(s: Search, first: Pos, end: Pos)
    requires s.c.vfifoSize > 0
  {
    && (if first.dtap == 0 then LastPhase(s, first, end.(dtap := 0)) else end == first.(dtap := end.dtap))
    && LastTap(s, end, first.dtap, end.dtap)
  }

  // ---------- the window ----------

  /** The ends of a window, and whether its beginning is a fuzzy edge. */
  datatype Ends = Ends(first: Pos, bgn: Pos, end: Pos, fuzzy: bool)

  ghost predicate IsWindow(s: Search, w: Ends)
    requires s.c.vfifoSize > 0
  {
    && IsFirst(s, w.first) && w.fuzzy == EdgeIsFuzzy(s, w.first)
    && BeginsAt(s, w.first, w.bgn) && EndsAt(s, w.first, w.end)
  }

  predicate Precedes(p: Pos, q: Pos) {
    || p.dtap < q.dtap
    || (p.dtap == q.dtap && p.steps < q.steps)
    || (p.dtap == q.dtap && p.steps == q.steps && p.phase < q.phase)
  }

  lemma {:induction false} NothingPrecedes(s: Search, first: Pos, q: Pos)
    requires s.c.Valid() && IsFirst(s, first)
    requires Settable(s.c, q) && q.steps < s.c.vfifoSize && s.Accepts(q)
    ensures !Precedes(q, first)
  {
    assert q == Pos(q.steps, q.phase, q.dtap);
    assert !RejectsAllPhases(s, q.steps, q.dtap);
    assert !RejectsVfifos(s, s.c.vfifoSize, q.dtap);
  }

  lemma {:induction false} NoLaterEnd(s: Search, first: Pos, p: Pos, q: Pos)
    requires s.c.Valid() && 1 <= first.phase && LastPhase(s, first, p) && LastPhase(s, first, q)
    ensures !Earlier(p, q.steps, q.phase)
  {
    var next := After(s.c, p);
    assert Earlier(p, q.steps, q.phase) ==>
      Tried(s.c, first, q.steps, q.phase + 1, next) && next != FirstTried(first);
  }

  lemma {:induction false} NoLaterTap(s: Search, q: Pos, d0: int, d: int, e: int)
    requires s.c.Valid() && LastTap(s, q, d0, d) && LastTap(s, q, d0, e)
    ensures !(d < e)
  {
    assert d < s.c.dqsEnDelayMax && s.Accepts(q.(dtap := d0)) ==> !s.Accepts(q.(dtap := d + 1));
  }

  /** A memory has at most one window: its ends, and so the accumulators that stand for them,
      are determined by what the read test accepts. */
  lemma {:induction false} WindowIsUnique(s: Search, v: Ends, w: Ends)
    requires s.c.Valid() && IsWindow(s, v) && IsWindow(s, w)
    ensures v == w
  {
    NothingPrecedes(s, v.first, w.first);
    NothingPrecedes(s, w.first, v.first);
    assert v.first == w.first;
    if !v.fuzzy {
      assert NoEarlyTap(s, v.first, v.bgn.dtap) || v.bgn == v.first;
      BeginningIsUnique(s, v.first, v.bgn, w.bgn);
    }
    if v.first.dtap == 0 {
      NoLaterEnd(s, v.first, v.end.(dtap := 0), w.end.(dtap := 0));
      NoLaterEnd(s, v.first, w.end.(dtap := 0), v.end.(dtap := 0));
    }
    assert v.end.(dtap := 0) == w.end.(dtap := 0);
    SameTaps(s, v.end, w.end, v.first.dtap, w.end.dtap);
    NoLaterTap(s, v.end, v.first.dtap, v.end.dtap, w.end.dtap);
    NoLaterTap(s, v.end, v.first.dtap, w.end.dtap, v.end.dtap);
  }

  lemma {:induction false} BeginningIsUnique(s: Search, first: Pos, b: Pos, e: Pos)
    requires s.c.Valid() && ExtendsTo(s, first, b) && ExtendsTo(s, first, e)
    ensures b == e
  {
    assert b != first ==> EarlyTap(s, first, b.dtap);
    assert e != first ==> EarlyTap(s, first, e.dtap);
  }

  /** The last tap depends on phase and VFIFO position only. */
  lemma {:induction false} SameTaps(s: Search, p: Pos, q: Pos, d0: int, d: int)
    requires s.c.Valid() && p.(dtap := 0) == q.(dtap := 0) && LastTap(s, q, d0, d)
    ensures LastTap(s, p, d0, d)
  {
    assert forall e :: p.(dtap := e) == q.(dtap := e);
  }

  /** The ends of a window work, but for a fuzzy beginning, where the end may be the same
      failing phase. */
  lemma {:induction false} EndsWork(s: Search, w: Ends)
    requires s.c.Valid() && IsWindow(s, w)
    ensures s.Accepts(w.bgn) <==> !w.fuzzy
    ensures s.Accepts(w.end) <==> !(w.fuzzy && w.end == w.bgn)
  {
    var q := w.end.(dtap := w.first.dtap);
    assert w.end == w.end.(dtap := w.end.dtap);
    if w.first.dtap == 0 {
      assert q == w.first || q == FirstTried(w.first) || s.Accepts(q);
    } else {
      assert q == w.first;
    }
  }
}
