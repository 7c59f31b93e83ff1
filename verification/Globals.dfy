/** The sequencer's global record: error report, figures of merit, debug flags. */
module Globals {
  import opened Arith

  const CAL_STAGE_NIL: nat := 0
  const CAL_STAGE_VFIFO: nat := 1
  const CAL_STAGE_LFIFO: nat := 3
  const CAL_STAGE_WRITES: nat := 4
  const CAL_STAGE_VFIFO_AFTER_WRITES: nat := 9

  const CAL_SUBSTAGE_NIL: nat := 0
  const CAL_SUBSTAGE_GUARANTEED_READ: nat := 1
  const CAL_SUBSTAGE_DQS_EN_PHASE: nat := 2
  const CAL_SUBSTAGE_VFIFO_CENTER: nat := 3
  const CAL_SUBSTAGE_WRITES_CENTER: nat := 1
  const CAL_SUBSTAGE_READ_LATENCY: nat := 1

  const NO_GROUP: nat := 0xff

  datatype Failure = Failure(group: nat, stage: nat, substage: nat)

  class Gbl {
    var sweepAllGroups: bool
    var disableGuaranteedRead: bool
    var inDebugMode: bool

    var errorSubstage: nat
    var errorStage: nat
    var errorGroup: nat

    var fomIn: int
    var fomOut: int

    var currReadLat: nat
    var currWriteLat: nat
    /** Idle cycles between a write command and its data, as an unsigned word: -1 is stored
        as the largest value. */
    var rwWlNopCycles: nat

    /** Every failure recorded in the current run, oldest first. */
    ghost var failures: seq<Failure>
    /** The figures of merit as unbounded sums. */
    ghost var fomInSum: int
    ghost var fomOutSum: int

    constructor ()
      ensures Valid() && failures == [] && fomInSum == fomOutSum == 0
      ensures !sweepAllGroups && !disableGuaranteedRead && !inDebugMode
    {
      sweepAllGroups, disableGuaranteedRead, inDebugMode := false, false, false;
      errorSubstage, errorStage, errorGroup := CAL_SUBSTAGE_NIL, CAL_STAGE_NIL, NO_GROUP;
      fomIn, fomOut := 0, 0;
      currReadLat, currWriteLat, rwWlNopCycles := 0, 0, 0;
      failures, fomInSum, fomOutSum := [], 0, 0;
    }

    /** The error report is that of the first failure, or blank if there is none. */
    ghost predicate Valid()
      reads this
    {
      && (forall f | f in failures :: f.stage != CAL_STAGE_NIL)
      && Failure(errorGroup, errorStage, errorSubstage) ==
         (if failures == [] then Failure(NO_GROUP, CAL_STAGE_NIL, CAL_SUBSTAGE_NIL) else failures[0])
      && fomIn == Wrap32(fomInSum) && fomOut == Wrap32(fomOutSum)
    }

    /** The record stays consistent, failures are only added, the debug flags stand. */
    twostate predicate Recorded()
      reads this
    {
      && Valid()
      && old(failures) <= failures
      && sweepAllGroups == old(sweepAllGroups)
      && disableGuaranteedRead == old(disableGuaranteedRead)
      && inDebugMode == old(inDebugMode)
    }

    /** What the calibration of a group keeps: the latencies stand, too. */
    twostate predicate Stepped()
      reads this
    {
      && Recorded()
      && currReadLat == old(currReadLat)
      && currWriteLat == old(currWriteLat)
      && rwWlNopCycles == old(rwWlNopCycles)
    }

    twostate predicate SameFom()
      reads this
    {
      fomInSum == old(fomInSum) && fomOutSum == old(fomOutSum)
    }

    /** Starts the error report and the figures of merit of a run afresh. */
    method StartRun()
      modifies this
      ensures Valid() && failures == [] && fomInSum == fomOutSum == 0
      ensures sweepAllGroups == old(sweepAllGroups)
      ensures disableGuaranteedRead == old(disableGuaranteedRead) && inDebugMode == old(inDebugMode)
    {
      errorSubstage := CAL_SUBSTAGE_NIL;
      errorStage := CAL_STAGE_NIL;
      errorGroup := NO_GROUP;
      fomIn, fomOut := 0, 0;
      failures, fomInSum, fomOutSum := [], 0, 0;
    }

    method SetFailingGroupStage(group: nat, stage: nat, substage: nat)
      requires Valid() && stage != CAL_STAGE_NIL
      modifies this
      ensures Stepped() && SameFom()
      ensures failures == old(failures) + [Failure(group, stage, substage)]
    {
      if errorStage == CAL_STAGE_NIL {
        errorSubstage := substage;
        errorStage := stage;
        errorGroup := group;
      }
      failures := failures + [Failure(group, stage, substage)];
    }

    /** The stored sum is unsigned, so a negative margin wraps it. */
    method AddFomIn(margin: int)
      requires Valid()
      modifies this
      ensures Stepped() && failures == old(failures)
      ensures fomInSum == old(fomInSum) + margin && fomOutSum == old(fomOutSum)
    {
      fomIn := Wrap32(fomIn + margin);
      fomInSum := fomInSum + margin;
    }

    method AddFomOut(margin: int)
      requires Valid()
      modifies this
      ensures Stepped() && failures == old(failures)
      ensures fomOutSum == old(fomOutSum) + margin && fomInSum == old(fomInSum)
    {
      fomOut := Wrap32(fomOut + margin);
      fomOutSum := fomOutSum + margin;
    }
  }
}
