/** What a calibration run does to each group of an interface, and what it adds up to. */
module RunSpec {
  import opened Arith
  import opened Hardware
  import opened AttemptSpec
  import opened GroupSpec
  import opened Groups

  // ---------- one group ----------

  /** A group's registers after the reset of its strobe, enable and output-phase settings; of
      the output strobe delays only the termination's is reset. */
  function StrobesReset(c: Config, s: Settings): Settings {
    s.(dqsIn := c.dqsInReserve, enPhase := 0, enDelay := 0, outPhase := 0, octOut := c.dqsOutReserve)
  }

  /** The registers of a group after its own reset, with which its calibration begins. */
  function GroupReset(c: Config, s: Settings): Settings {
    OutputsReset(c, s).(dqIn := Uniform(c.dqPerDqs, 0))
  }

  /** The registers with which every visit of a run begins: nothing is left of what was there
      before, but the position of the read-valid FIFO. */
  lemma StartIsClean(c: Config, before: Settings)
    ensures var s := GroupReset(c, StrobesReset(c, before));
      && s.dqIn == s.dqOut == Uniform(c.dqPerDqs, 0) && s.dmOut == 0
      && s.dqsIn == c.dqsInReserve && s.dqsOut == s.octOut == c.dqsOutReserve
      && s.enPhase == s.enDelay == s.outPhase == 0 && s.vfifo == before.vfifo
  {
  }

  /** A group is passed over, or visited with some outcome. */
  datatype Visit = PassedOver | Visited(outcome: Outcome) {
    ghost predicate Succeeds() {
      Visited? ==> outcome.Succeeds()
    }

    ghost function InMargins(): int {
      if Visited? then outcome.InMargins() else 0
    }

    ghost function OutMargins(): int {
      if Visited? then outcome.OutMargins() else 0
    }
  }

  /** The registers of a group when the run comes to it, what the run does, and its registers
      when the run has left it. */
  datatype Entry = Entry(before: Settings, visit: Visit, after: Settings)

  ghost predicate Tells(c: Config, mem: Memory, m: Mode, e: Entry)
    requires c.Valid()
  {
    if e.visit.Visited? then Explains(c, mem, m, GroupReset(c, e.before), e.visit.outcome, e.after)
    else e.after == e.before
  }

  /** A group is attempted unless its bit of the skip mask is set. With as many read as write
      groups there is one bit per group. */
  ghost predicate Attempted(skipGroups: nat, g: nat) {
    NotAllSkipped(skipGroups, 1, g)
  }

  // ---------- all groups ----------

  /** The groups of an interface: distinct, all of one configuration. */
  ghost predicate Interface(groups: seq<DqsGroup>, c: Config) {
    && (forall i: nat, j: nat | i < j < |groups| :: groups[i] != groups[j])
    && (forall i: nat | i < |groups| :: groups[i].c == c)
  }

  /** The groups are well formed and their registers are those in s; with `safe`, every setting
      ever stored in any of them is one its chain can take. */
  ghost predicate Stand(groups: seq<DqsGroup>, safe: bool, s: seq<Settings>)
    reads groups
  {
    && |s| == |groups|
    && forall i: nat | i < |groups| :: groups[i].Valid() && groups[i].regs == s[i] && (safe ==> groups[i].safe)
  }

  function AllReset(c: Config, s: seq<Settings>): (r: seq<Settings>)
    ensures |r| == |s| && forall i: nat | i < |s| :: r[i] == StrobesReset(c, s[i])
  {
    seq(|s|, i requires 0 <= i < |s| => StrobesReset(c, s[i]))
  }

  /** The registers of all groups after the run, if it found them at `before`: it has one entry
      for each group it came to. */
  function AfterRun(before: seq<Settings>, log: seq<Entry>): (s: seq<Settings>)
    ensures |s| == |before|
    ensures forall i: nat | i < |s| :: s[i] == if i < |log| then log[i].after else before[i]
  {
    seq(|before|, i requires 0 <= i < |before| => if i < |log| then log[i].after else before[i])
  }

  /** The entries are about these groups, found at `before`, and tell how the registers of each
      came to be what they are. */
  ghost predicate AllTell(groups: seq<DqsGroup>, c: Config, m: Mode, before: seq<Settings>, log: seq<Entry>)
    requires c.Valid()
  {
    && |log| <= |groups| == |before|
    && forall i: nat {:trigger Tells(c, groups[i].mem, m, log[i])} | i < |log| ::
         log[i].before == before[i] && Tells(c, groups[i].mem, m, log[i])
  }

  ghost predicate VisitsAttempted(log: seq<Entry>, skipGroups: nat) {
    forall i: nat | i < |log| :: log[i].visit.Visited? <==> Attempted(skipGroups, i)
  }

  ghost predicate AllSucceed(log: seq<Entry>) {
    forall i: nat | i < |log| :: log[i].visit.Succeeds()
  }

  /** The run visits the attempted groups in order. It comes to all n groups, unless one fails
      and not all are to be swept; then it ends with the first that fails. */
  ghost predicate Covers(log: seq<Entry>, n: nat, skipGroups: nat, sweepAll: bool) {
    && |log| <= n && VisitsAttempted(log, skipGroups)
    && (sweepAll || AllSucceed(log) ==> |log| == n)
    && (!sweepAll && log != [] ==> AllSucceed(log[..|log| - 1]))
  }

  /** The figure of merit of the inputs of a run: the sum of the margins of its visits. */
  ghost function InSum(log: seq<Entry>): int {
    if log == [] then 0
    else
      var n := |log| - 1;
      InSum(log[..n]) + log[n].visit.InMargins()
  }

  ghost function OutSum(log: seq<Entry>): int {
    if log == [] then 0
    else
      var n := |log| - 1;
      OutSum(log[..n]) + log[n].visit.OutMargins()
  }

  // ---------- one more entry ----------

  lemma SumsAdd(log: seq<Entry>, e: Entry)
    ensures InSum(log + [e]) == InSum(log) + e.visit.InMargins()
    ensures OutSum(log + [e]) == OutSum(log) + e.visit.OutMargins()
  {
    assert (log + [e])[..|log|] == log;
  }

  lemma {:induction false} OneMoreTells(groups: seq<DqsGroup>, c: Config, m: Mode, before: seq<Settings>,
                                        log: seq<Entry>, e: Entry)
    requires c.Valid() && AllTell(groups, c, m, before, log) && |log| < |groups|
    requires e.before == before[|log|] && Tells(c, groups[|log|].mem, m, e)
    ensures AllTell(groups, c, m, before, log + [e])
  {
    forall i: nat | i <= |log|
      ensures (log + [e])[i].before == before[i] && Tells(c, groups[i].mem, m, (log + [e])[i])
    {
      if i < |log| {
        assert (log + [e])[i] == log[i] && Tells(c, groups[i].mem, m, log[i]);
      }
    }
  }

  /** How far the run has come: one entry for each of the first k groups, all successful unless
      all groups are to be swept. */
  ghost predicate Reaches(log: seq<Entry>, k: nat, skipGroups: nat, sweepAll: bool) {
    |log| == k && VisitsAttempted(log, skipGroups) && (sweepAll || AllSucceed(log))
  }

  lemma {:induction false} OneMoreReached(log: seq<Entry>, k: nat, skipGroups: nat, sweepAll: bool, e: Entry)
    requires Reaches(log, k, skipGroups, sweepAll) && (e.visit.Visited? <==> Attempted(skipGroups, k))
    ensures AllSucceed(log + [e]) == (AllSucceed(log) && e.visit.Succeeds())
    ensures sweepAll || e.visit.Succeeds() ==> Reaches(log + [e], k + 1, skipGroups, sweepAll)
    ensures !(sweepAll || e.visit.Succeeds()) ==>
      forall n: nat | k < n :: Covers(log + [e], n, skipGroups, sweepAll)
  {
    var more := log + [e];
    assert more[..k] == log && more[k] == e;
    assert forall i: nat | i < k :: more[i] == log[i];
    assert AllSucceed(more) ==> AllSucceed(log) by {
      assert AllSucceed(more) ==> forall i: nat | i < k :: more[i].visit.Succeeds();
    }
  }

  lemma AllReached(log: seq<Entry>, n: nat, skipGroups: nat, sweepAll: bool)
    requires Reaches(log, n, skipGroups, sweepAll)
    ensures Covers(log, n, skipGroups, sweepAll)
  {
  }

  // ---------- what a run means ----------

  /** Every attempted group is calibrated at the registers in `after`. */
  ghost predicate AllCalibrated(groups: seq<DqsGroup>, c: Config, skipGroups: nat, after: seq<Settings>) {
    |after| == |groups| &&
    forall i: nat | i < |groups| && Attempted(skipGroups, i) :: Calibrated(c, groups[i].mem, after[i])
  }

  /** The memories behind all attempted groups fit when the run comes to them. */
  ghost predicate AllFit(groups: seq<DqsGroup>, c: Config, skipGroups: nat, m: Mode, before: seq<Settings>)
    requires c.Valid() && |before| == |groups|
  {
    forall i: nat | i < |groups| && Attempted(skipGroups, i) ::
      GroupFits(c, groups[i].mem, m, GroupReset(c, before[i]))
  }

  ghost predicate AddsWithin(c: Config, v: Visit) {
    0 <= v.InMargins() <= FomLimit(c) && 0 <= v.OutMargins() <= FomLimit(c)
  }

  /** A successful visit adds to the figures of merit what is not negative, and bounded. */
  lemma {:induction false} EntryAddsWithin(c: Config, mem: Memory, m: Mode, e: Entry)
    requires c.Valid() && Tells(c, mem, m, e) && e.visit.Succeeds()
    ensures AddsWithin(c, e.visit)
  {
    if e.visit.Visited? {
      MarginsWithin(c, mem, m, GroupReset(c, e.before), e.visit.outcome, e.after);
    }
  }

  /** The figures of merit of a passing run are not negative, and bounded. */
  lemma {:induction false} SumsWithin(c: Config, log: seq<Entry>)
    requires forall i: nat | i < |log| :: AddsWithin(c, log[i].visit)
    ensures 0 <= InSum(log) <= Times(|log|, FomLimit(c))
    ensures 0 <= OutSum(log) <= Times(|log|, FomLimit(c))
  {
    if log != [] {
      var n := |log| - 1;
      assert AddsWithin(c, log[n].visit);
      SumsWithin(c, log[..n]);
    }
  }

  lemma {:induction false} PassingSumsWithin(groups: seq<DqsGroup>, c: Config, m: Mode, before: seq<Settings>,
                                             log: seq<Entry>)
    requires c.Valid() && AllTell(groups, c, m, before, log) && AllSucceed(log)
    ensures 0 <= InSum(log) <= Times(|log|, FomLimit(c))
    ensures 0 <= OutSum(log) <= Times(|log|, FomLimit(c))
  {
    forall i: nat | i < |log| ensures AddsWithin(c, log[i].visit) {
      assert Tells(c, groups[i].mem, m, log[i]);
      EntryAddsWithin(c, groups[i].mem, m, log[i]);
    }
    SumsWithin(c, log);
  }

  /** A run in which every visit succeeds calibrates every attempted group. */
  lemma {:induction false} PassingCalibrates(groups: seq<DqsGroup>, c: Config, skipGroups: nat, m: Mode,
                                             sweepAll: bool, before: seq<Settings>, log: seq<Entry>)
    requires c.Valid() && AllTell(groups, c, m, before, log) && AllSucceed(log) && !m.skip
    requires Covers(log, |groups|, skipGroups, sweepAll)
    ensures AllCalibrated(groups, c, skipGroups, AfterRun(before, log))
  {
    forall i: nat | i < |groups| && Attempted(skipGroups, i)
      ensures Calibrated(c, groups[i].mem, AfterRun(before, log)[i])
    {
      var e := log[i];
      assert e.visit.Visited? && Tells(c, groups[i].mem, m, e) && e.visit.Succeeds();
      DoneIsCalibrated(c, groups[i].mem, m, GroupReset(c, e.before), e.visit.outcome, e.after);
    }
  }

  /** A run over memories that fit succeeds. */
  lemma {:induction false} FittingRunSucceeds(groups: seq<DqsGroup>, c: Config, skipGroups: nat, m: Mode,
                                              sweepAll: bool, before: seq<Settings>, log: seq<Entry>)
    requires c.Valid() && AllTell(groups, c, m, before, log) && AllFit(groups, c, skipGroups, m, before)
    requires Covers(log, |groups|, skipGroups, sweepAll)
    ensures AllSucceed(log)
  {
    forall i: nat | i < |log| ensures log[i].visit.Succeeds() {
      var e := log[i];
      assert Tells(c, groups[i].mem, m, e) && e.before == before[i];
      if e.visit.Visited? {
        FittingGroupSucceeds(c, groups[i].mem, m, GroupReset(c, e.before), e.visit.outcome, e.after);
      }
    }
  }
}
