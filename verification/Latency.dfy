/** Write and read latency: the initial configuration and the final read-latency search. */
module Latency {
  import opened Arith
  import opened Globals

  /** The PHY manager's and the register file's registers. */
  class Registers {
    var afiWlat: nat
    var phyRlat: nat
    var calStatus: nat
    var calDebugInfo: nat
    var fom: nat
    var failingStage: nat
    var muxSel: nat

    constructor ()
    {
      afiWlat, phyRlat, calStatus, calDebugInfo, fom, failingStage, muxSel := 0, 0, 0, 0, 0, 0, 0;
    }
  }

  /** The longest latency a five-bit count can hold. */
  const MAX_LATENCY: nat := 31

  /** The write latency told to the PHY, and the idle cycles of the write tests, one less: -1 is
      stored as a wrapped word. */
  predicate Advertised(afiWlat: nat, idle: nat, latency: nat) {
    afiWlat == Wrap32(idle + 1) == latency
  }

  /** Sets the latencies from the memory's write latency, additive latency and read latency. */
  method MemConfig(gbl: Gbl, regs: Registers, tWl: nat, tAdd: nat, tRl: nat)
    requires gbl.Valid() && tWl + tAdd + 2 < 0x1_0000_0000
    modifies gbl, regs`phyRlat, regs`afiWlat
    ensures gbl.Recorded() && gbl.SameFom() && gbl.failures == old(gbl.failures)
    ensures Advertised(regs.afiWlat, gbl.rwWlNopCycles, tWl + tAdd)
    ensures 1 <= gbl.currReadLat <= MAX_LATENCY
    ensures gbl.currReadLat == Min(tRl + 16, MAX_LATENCY) && regs.phyRlat == gbl.currReadLat
    ensures gbl.currWriteLat == tWl + tAdd + 2
  {
    var wlat := tWl + tAdd + 1;
    gbl.rwWlNopCycles := Wrap32(wlat - 2);
    wlat := wlat + 1;
    gbl.currReadLat := tRl + 16;
    if gbl.currReadLat > MAX_LATENCY {
      gbl.currReadLat := MAX_LATENCY;
    }
    regs.phyRlat := gbl.currReadLat;
    gbl.currWriteLat := wlat;
    regs.afiWlat := wlat - 2;
  }

  const LATENCY_FAILURE := Failure(NO_GROUP, CAL_STAGE_LFIFO, CAL_SUBSTAGE_READ_LATENCY)

  /** The search for the smallest read latency. `passes` is the verdict at each latency; the
      latency kept is two more than the first failing one, or than 0. */
  method CalibrateLfifo(gbl: Gbl, regs: Registers, passes: nat -> bool) returns (ok: bool)
    requires gbl.Valid() && 1 <= gbl.currReadLat
    modifies gbl, regs`phyRlat
    ensures gbl.Recorded() && gbl.SameFom() && gbl.rwWlNopCycles == old(gbl.rwWlNopCycles)
    ensures ok == passes(old(gbl.currReadLat))
    ensures ok ==> 2 <= gbl.currReadLat <= old(gbl.currReadLat) + 1 && regs.phyRlat == gbl.currReadLat
    ensures ok ==> forall l | gbl.currReadLat - 1 <= l <= old(gbl.currReadLat) :: passes(l)
    ensures ok ==> gbl.currReadLat == 2 || !passes(gbl.currReadLat - 2)
    ensures ok ==> gbl.failures == old(gbl.failures)
    ensures !ok ==> gbl.currReadLat == old(gbl.currReadLat) && regs.phyRlat == gbl.currReadLat
    ensures !ok ==> gbl.failures == old(gbl.failures) + [LATENCY_FAILURE]
  {
    var foundOne := false;
    regs.phyRlat := gbl.currReadLat;
    while passes(regs.phyRlat)
      invariant gbl.Recorded() && gbl.SameFom() && gbl.failures == old(gbl.failures)
      invariant gbl.rwWlNopCycles == old(gbl.rwWlNopCycles)
      invariant 1 <= gbl.currReadLat == regs.phyRlat <= old(gbl.currReadLat)
      invariant foundOne == (gbl.currReadLat < old(gbl.currReadLat))
      invariant forall l | gbl.currReadLat < l <= old(gbl.currReadLat) :: passes(l)
      decreases gbl.currReadLat
    {
      foundOne := true;
      gbl.currReadLat := gbl.currReadLat - 1;
      if gbl.currReadLat == 0 {
        break;
      }
      regs.phyRlat := gbl.currReadLat;
    }
    if foundOne {
      gbl.currReadLat := gbl.currReadLat + 2;
      regs.phyRlat := gbl.currReadLat;
      ok := true;
    } else {
      gbl.SetFailingGroupStage(NO_GROUP, CAL_STAGE_LFIFO, CAL_SUBSTAGE_READ_LATENCY);
      ok := false;
    }
  }
}
