/** The failures that a calibration run records, as told by what happened to each group. */
module RecordSpec {
  import opened Hardware
  import opened Sweep
  import opened Globals
  import opened ReadDeskew
  import opened AttemptSpec
  import opened GroupSpec
  import opened RunSpec
  import opened Latency

  // ---------- one group ----------

  /** A deskew records the pin of the first bit without a window; its first pin is `first`. */
  ghost function SweepRecords(first: nat, w: Sweeps): seq<Failure> {
    if AllHaveWindow(w.run, w.es) then []
    else [MissingWindow(first, FirstMissingBit(w.run, w.es), w.run.side)]
  }

  lemma RecordsMissing(first: nat, w: Sweeps, missing: nat)
    requires FirstWithoutWindow(w.run, w.es, missing)
    ensures SweepRecords(first, w) == [MissingWindow(first, missing, w.run.side)]
  {
    FirstMissingIsUnique(w.run, w.es, missing);
  }

  function AttemptRecords(c: Config, group: nat, a: Attempt): seq<Failure> {
    if a.NotSeen? then [MissingWindow(FirstPin(c, group), a.bit, Read)] else []
  }

  function StrobeRecords(c: Config, group: nat, fails: seq<Attempt>): seq<Failure> {
    if fails == [] then []
    else StrobeRecords(c, group, fails[..|fails| - 1]) + AttemptRecords(c, group, fails[|fails| - 1])
  }

  function PhaseRecords(c: Config, group: nat, h: seq<PhaseTry>): seq<Failure> {
    if h == [] then []
    else PhaseRecords(c, group, h[..|h| - 1]) + StrobeRecords(c, group, h[|h| - 1].fails)
  }

  /** What a read calibration records on its way: the attempts that failed, whether or not one
      succeeded in the end. */
  function ReadRecords(c: Config, group: nat, h: seq<seq<PhaseTry>>): seq<Failure> {
    if h == [] then []
    else ReadRecords(c, group, h[..|h| - 1]) + PhaseRecords(c, group, h[|h| - 1])
  }

  lemma StrobeRecordsAdd(c: Config, group: nat, before: seq<Failure>, fails: seq<Attempt>, a: Attempt)
    ensures before + StrobeRecords(c, group, fails + [a]) ==
            before + StrobeRecords(c, group, fails) + AttemptRecords(c, group, a)
  {
    assert (fails + [a])[..|fails|] == fails;
  }

  lemma PhaseRecordsAdd(c: Config, group: nat, before: seq<Failure>, h: seq<PhaseTry>, t: PhaseTry)
    ensures before + PhaseRecords(c, group, h + [t]) ==
            before + PhaseRecords(c, group, h) + StrobeRecords(c, group, t.fails)
  {
    assert (h + [t])[..|h|] == h;
  }

  lemma ReadRecordsAdd(c: Config, group: nat, before: seq<Failure>, h: seq<seq<PhaseTry>>, t: seq<PhaseTry>)
    ensures before + ReadRecords(c, group, h + [t]) ==
            before + ReadRecords(c, group, h) + PhaseRecords(c, group, t)
  {
    assert (h + [t])[..|h|] == h;
  }

  /** What the calibration of a group records, if it ends like this. */
  ghost function Records(c: Config, group: nat, o: Outcome): seq<Failure> {
    ReadRecords(c, group, o.tried) + OutputRecords(group, o) + if o.Succeeds() then [] else [o.Reported(group)]
  }

  /** What it records after its read calibration, before its own failure. */
  ghost function OutputRecords(group: nat, o: Outcome): seq<Failure> {
    match o
    case WriteFailed(_, w, _) => SweepRecords(FirstPin(w.run.c, group), w)
    case ReadAgainFailed(_, _, _, r) => SweepRecords(FirstPin(r.run.c, group), r)
    case _ => []
  }

  lemma RecordsAdd(c: Config, group: nat, before: seq<Failure>, o: Outcome)
    ensures o.RankSkipped? || o.Done? ==>
      before + Records(c, group, o) == before + ReadRecords(c, group, o.tried)
    ensures o.ReadFailed? ==>
      before + Records(c, group, o) == before + ReadRecords(c, group, o.tried) + [o.Reported(group)]
    ensures o.WriteFailed? || o.ReadAgainFailed? ==>
      before + Records(c, group, o) ==
      before + ReadRecords(c, group, o.tried) + OutputRecords(group, o) + [o.Reported(group)]
  {
    if !o.Succeeds() {
      assert OutputRecords(group, ReadFailed(o.tried)) == [];
    }
  }

  /** A group whose guaranteed read is made and never passes records that and nothing else. */
  lemma {:induction false} PatternsRecorded(c: Config, mem: Memory, m: Mode, start: Settings, o: Outcome, s: Settings,
                                            group: nat)
    requires c.Valid() && Explains(c, mem, m, start, o, s) && m.guaranteed && NeverPatterns(mem)
    ensures Records(c, group, o) == [Failure(group, CAL_STAGE_VFIFO, CAL_SUBSTAGE_GUARANTEED_READ)]
  {
    PatternsNeeded(c, mem, m, start, o, s, group);
    NothingAttempted(c, mem, start, m, o.tried);
    EmptyRecords(c, group, o.tried);
  }

  lemma {:induction false} EmptyRecords(c: Config, group: nat, h: seq<seq<PhaseTry>>)
    requires AllEmpty(h)
    ensures ReadRecords(c, group, h) == []
  {
    if h != [] {
      EmptyRecords(c, group, h[..|h| - 1]);
    }
  }

  // ---------- a run ----------

  ghost function RunRecords(c: Config, log: seq<Entry>): seq<Failure> {
    if log == [] then []
    else
      var k := |log| - 1;
      RunRecords(c, log[..k]) + VisitRecords(c, k, log[k].visit)
  }

  ghost function VisitRecords(c: Config, k: nat, v: Visit): seq<Failure> {
    if v.Visited? then Records(c, k, v.outcome) else []
  }

  lemma RunRecordsAdd(c: Config, before: seq<Failure>, log: seq<Entry>, e: Entry)
    ensures before + RunRecords(c, log + [e]) == before + RunRecords(c, log) + VisitRecords(c, |log|, e.visit)
  {
    assert (log + [e])[..|log|] == log;
  }

  /** A run with a failing visit has recorded something. */
  lemma {:induction false} FailingRunRecords(c: Config, log: seq<Entry>)
    requires !AllSucceed(log)
    ensures RunRecords(c, log) != []
  {
    var k := |log| - 1;
    if log[k].visit.Succeeds() {
      assert !AllSucceed(log[..k]);
      FailingRunRecords(c, log[..k]);
    }
  }

  /** What a failing run reports: its first record, which is the latency's if the visits have
      none. */
  ghost function FirstFailure(c: Config, log: seq<Entry>): Failure {
    (RunRecords(c, log) + [LATENCY_FAILURE])[0]
  }

  /** It is the first record of the first group that has any. */
  lemma {:induction false} FirstRecorded(c: Config, log: seq<Entry>, k: nat)
    requires k < |log| && VisitRecords(c, k, log[k].visit) != []
    requires forall i: nat | i < k :: VisitRecords(c, i, log[i].visit) == []
    ensures FirstFailure(c, log) == VisitRecords(c, k, log[k].visit)[0]
  {
    assert log[..k + 1][..k] == log[..k];
    NothingRecorded(c, log[..k]);
    MoreRecorded(c, log, k + 1);
  }

  /** What a run has recorded stays at the head of what it records. */
  lemma {:induction false} MoreRecorded(c: Config, log: seq<Entry>, k: nat)
    requires k <= |log|
    ensures RunRecords(c, log[..k]) <= RunRecords(c, log)
    decreases |log| - k
  {
    if k < |log| {
      assert log[..k + 1][..k] == log[..k];
      MoreRecorded(c, log, k + 1);
    } else {
      assert log[..k] == log;
    }
  }

  lemma {:induction false} NothingRecorded(c: Config, log: seq<Entry>)
    requires forall i: nat | i < |log| :: VisitRecords(c, i, log[i].visit) == []
    ensures RunRecords(c, log) == []
  {
    if log != [] {
      NothingRecorded(c, log[..|log| - 1]);
    }
  }

  // ---------- the running totals of a run ----------

  /** The totals have grown by what the entries of the log add. */
  ghost predicate Added(c: Config, log: seq<Entry>, fomIn0: int, fomIn: int, fomOut0: int, fomOut: int,
                        failures0: seq<Failure>, failures: seq<Failure>) {
    && fomIn == fomIn0 + InSum(log) && fomOut == fomOut0 + OutSum(log)
    && failures == failures0 + RunRecords(c, log)
  }

  lemma OneMoreAdded(c: Config, log: seq<Entry>, e: Entry, fomIn0: int, fomIn: int, fomOut0: int, fomOut: int,
                     failures0: seq<Failure>, failures: seq<Failure>)
    requires Added(c, log, fomIn0, fomIn, fomOut0, fomOut, failures0, failures)
    ensures Added(c, log + [e], fomIn0, fomIn + e.visit.InMargins(), fomOut0, fomOut + e.visit.OutMargins(),
                  failures0, failures + VisitRecords(c, |log|, e.visit))
  {
    SumsAdd(log, e);
    RunRecordsAdd(c, failures0, log, e);
  }
}
