# Calibration sequencer: model and proofs

This project models the DDR3 calibration firmware of the hard memory controller in
`hps_isw_handoff/reverbFPGA_Qsys_hps_0` and proves what it promises. The firmware drives the
delay and phase settings of each strobe group through a scan-chain register file, runs read and
write tests at the settings, and has to end with settings at which every test passes with margin
on both sides.

## How it is modelled

The configuration is the shipped one (Cyclone V hard PHY, full rate, DDR3, phase 0 of the strobe
enable not usable, DQS tracking, read deskew repeated after the writes, write strobes not moved),
with one exception: the host handshake and the skip flags of `tclrpt.c`, modelled in `Handshake`
and `RankMask`, are only compiled with `ENABLE_TCL_DEBUG`, and the command loop only for soft
processors (`!HPS_HW`). The shipped headers (`sequencer_defines.h:74` and `:86`) select neither, so
what is proved about them concerns the debug build.
Chain lengths, tap sizes, widths and reserves stay parameters (`Hardware.Config`); its `Valid`
says what the code relies on, and the shipped values satisfy it.

A strobe group is a class, `Hardware.DqsGroup`, with its registers as fields. The memory behind it
is an uninterpreted function of the settings *and of the number of the test*, so the memory may be
marginal and answer the same settings differently each time. What holds for any memory is stated
without further conditions; what needs a memory that answers consistently says so. A ghost flag
records whether every store so far was in range, so range safety speaks of every value ever
stored, not only of the last ones.

Everything that the firmware computes step by step is a method with loops, proved against
independent definitions; the main results are these.

* **Deskew** (`Sweep`, `Placement`, `Deskew`, `ReadDeskew`, `WriteDeskew`). Data delay d is offset
  -d, strobe delay d offset +d. The two sweeps, with early stops, sentinels and the reset between
  them, recover each bit's interval of passing offsets exactly, with one exception (see below).
  Centring is within one tap unless a clamp fires, and then as near as the chain allows. Success of
  the whole deskew means that every bit passes at the settings left behind; conversely, windows
  that fit make it succeed.
* **Mask search** (`DmSearch`). For any consistent memory, with one window or several, the result
  is the earliest longest passing run over the two joined axes.
* **Strobe-enable search** (`DqsEnable`, `WindowSpec`, `DqsWindow`, `DqsCentre`, `EnableSpec`,
  `FindDqsEn`). `WindowSpec` defines the window by the memory alone, and shows that there is at
  most one. For any consistent memory the search finds that window, and the picosecond
  accumulators stand for its ends; where they do not, by how much is stated. It is refused exactly
  if at most one FIFO position fails or nothing works with less than a phase of delay.
* **The memory that the search is made for** (`IntervalWindow`): one interval of working delays in
  a turn of the FIFO, at least four phase taps wide, with a gap of more than two positions. There
  the search always succeeds, and the setting programmed works and is within two phase taps of the
  centre of the interval. Each end is found to within one delay tap, unless phase 0 or the end of
  the delay chain is in the way.
* **Calibration of a group** (`AttemptSpec`, `GroupSpec`, `VfifoCalibrate`). Failure of the read side
  means that every attempt, at every output delay, output phase and strobe delay, failed for a
  stated reason; success means that every earlier attempt did, and that the guaranteed read passed.
  Whatever the outcome of a group, it explains the final registers and the figures of merit by the
  sweeps and searches they are due to, and tells every failure recorded on the way (`RecordSpec`).
* **Memories that calibrate** (`WindowMemory`). Memories that fit are never refused, by a group or by
  a whole run. A memory made of windows, one for the strobe enable, one for every bit in either
  direction and one for the mask, in which nothing can be written or masked that is not also read
  back, is shown to fit; in the shipped configuration a whole family of them.
* **Microcode** (`Microcode`, `WriteTest`, `DelayLoop`, `ResetLoop`). A machine for the instruction
  memory runs the write test, the delay loops and the reset delays from the ROM words themselves.
* **A whole run** (`Latency`, `Groups`, `RunSpec`, `Calibration`, `RunCalibration`, `Globals`), from
  the reset to the report words: which groups are visited, when it passes, that the reported
  figures of merit are the halved sums of the margins that the sweeps of its groups found, and that
  a failure reported is the first that happened in the run, a pin without a window included.
* **Result words** (`ResultWord`, on the bit operations of `Words`).
* **Host handshake** (`Handshake`, `RankMask`). Host and sequencer take turns at any point between
  loads and stores of the shared words. Successive loads by the sequencer of the status word, which
  only the sequencer writes, are one step; every other load or store is a step of its own.

## Findings

Properties one might expect that do not hold of the code are stated with their exact condition, and
with an input for which they fail.

* *The sweeps find every window.* A window that ends exactly at the sentinel reads as missing:
  `Sweep.SweptExact`. This needs a strobe chain longer than the data chain. With data delays up to 15
  and strobe delays up to 31, a bit that passes at offsets 0 to 16 is reported as never passing
  (`ReadDeskew.SeventeenTapsMissed`).
* *Both accumulators stand for settings that work.* If the first phase tried after the first working
  point fails, the beginning is moved to that failing phase, and if the search then stops at once,
  the end is left there too: `EnableSpec.AccumulatorsDenote`, `EnableSpec.EndsWorkExactly`. With only
  phase 3 working at one FIFO position, both ends are phase 4 (`EnableSpec.FuzzyWindow`).
* *The end accumulator is the delay of the end.* If the first working point is at tap 0 of phase 1,
  the phase counter runs one phase ahead of the accumulator, and only then:
  `EnableSpec.EndDenotesExactly`. With phases 1 to 4 working it is 416 ps behind
  (`EnableSpec.LaggingEnd`).
* *The write test runs at the latency told to the PHY.* It does up to a latency of 257:
  `WriteTest.GapIsWriteLatency`. At 258 the data come after 2 cycles (`WriteTest.LatencyTooLong`).
* *Active ranks are counted right.* Skipped ranks are taken off once per word of the rank mask:
  `RankMask.ActiveRanksExactly`. With only the last of 33 ranks skipped the count is one too low
  (`RankMask.LastOf33`). The shipped interface has a single rank, so more than 32 cannot arise there.
* *The host always gets its response.* A host that sends the waiting or the acknowledging command
  as a request waits forever: `Handshake.NeverStuck`, `Handshake.ImproperCommandSticks`.

A comment in the source says that the rounding of the reference is always biased to the right; it is
the ceiling for either sign.

Two facts are taken from the source's constants rather than from a description of the hardware: the
fields of an instruction word (flow bits, bits 12 to 7 as the command that `sequencer_auto.h` names,
and bits 17 and 16, in which the two variants of the write test differ, as data and masks), and
counters of eight bits, as the 0xFF "large number" and the 8-bit variables suggest.

## Model

| member | source | states |
|---|---|---|
| `Hardware.DqsGroup.SetDqsBusInDelay` | hps_isw_handoff/reverbFPGA_Qsys_hps_0/sequencer.c:1177-1187 | the strobe input delay alone changes, and the group stays safe exactly if the value fits its chain |
| `Hardware.DqsGroup.SetDqsEnPhase` | hps_isw_handoff/reverbFPGA_Qsys_hps_0/sequencer.c:1201-1233 | the enable phase alone changes; stores of phase 0, which this PHY cannot take, are counted |
| `Hardware.DqsGroup.SetDqsIoAndOctOut1` | hps_isw_handoff/reverbFPGA_Qsys_hps_0/sequencer.c:1783-1790 | strobe output and termination delay always move together, whatever they were |
| `Hardware.DqsGroup.PulseVfifo` | hps_isw_handoff/reverbFPGA_Qsys_hps_0/sequencer.c:3876-3877 | one pulse moves the read-valid FIFO pointer on by one, back to 0 at its size |
| `Deskew.DataSweep` | hps_isw_handoff/reverbFPGA_Qsys_hps_0/sequencer.c:5138-5177 | the data sweep leaves for every bit the edges that folding the outcomes of its steps gives; it stops at the first step that fails on every bit after each has passed, and at no other; all data delays are back at 0 |
| `Deskew.ResetEdges` | hps_isw_handoff/reverbFPGA_Qsys_hps_0/sequencer.c:5178-5200 | a right edge without a left edge behind it is cleared, and a bit counts as done exactly if its edges are known |
| `Deskew.StrobeSweep` | hps_isw_handoff/reverbFPGA_Qsys_hps_0/sequencer.c:7331-7388 | the strobe sweep, with the marginal marking at step 0, leaves the edges that folding its outcomes onto the earlier edges gives; it stops at the first step that fails on every bit after each was seen, and the strobe stays there |
| `Deskew.FindEdges` | hps_isw_handoff/reverbFPGA_Qsys_hps_0/sequencer.c:5130-5260 | both sweeps together leave swept edges, every data delay 0, the strobe where its sweep stopped and nothing else changed |
| `Sweep.LeftFoldExact` | hps_isw_handoff/reverbFPGA_Qsys_hps_0/sequencer.c:5138-5174 | after any number of steps of the data sweep the edges of a bit that passes on one interval are known in closed form |
| `Sweep.LeftStopExact` | hps_isw_handoff/reverbFPGA_Qsys_hps_0/sequencer.c:5145-5158 | stopping the data sweep early and then clearing loose right edges gives the same edges as sweeping to the end of the chain |
| `Sweep.RightFoldExact` | hps_isw_handoff/reverbFPGA_Qsys_hps_0/sequencer.c:5202-5260 | the same closed form for the strobe sweep, including a window that ends exactly at the illegal value and is forgotten again |
| `Sweep.ExactWindow` | hps_isw_handoff/reverbFPGA_Qsys_hps_0/sequencer.c:5130-5260 | for every bit whose passing offsets are one interval [a,b], left of, across or right of 0, the two sweeps end with left edge -a and right edge b |
| `Sweep.SweptExact` | hps_isw_handoff/reverbFPGA_Qsys_hps_0/sequencer.c:5130-5298 | a bit has a window after the sweeps if and only if it passes somewhere and its last passing offset is not exactly the illegal value; then the edges are those of its interval |
| `Sweep.SweptExactWithinChain` | hps_isw_handoff/reverbFPGA_Qsys_hps_0/sequencer.c:5130-5298 | where the strobe cannot reach the illegal value, as in the shipped configuration, a window is missing exactly if the bit never passes |
| `Deskew.FirstMissing` | hps_isw_handoff/reverbFPGA_Qsys_hps_0/sequencer.c:5274-5298 | finds the first bit without a window, or that there is none |
| `Sweep.FirstMissingIsUnique` | hps_isw_handoff/reverbFPGA_Qsys_hps_0/sequencer.c:5274-5298 | the pin reported is determined by the edges |
| `Deskew.FindMinMid` | hps_isw_handoff/reverbFPGA_Qsys_hps_0/sequencer.c:5300-5309 | the reference is the least difference of edges, and a bit that has it |
| `Deskew.ChooseDqs` | hps_isw_handoff/reverbFPGA_Qsys_hps_0/sequencer.c:5311-5343 | of all delays of its chain the strobe gets one that centres the reference best, up to the rounding, also where the wanted place lies outside the chain; on the write side it stays |
| `Deskew.PlaceBit` | hps_isw_handoff/reverbFPGA_Qsys_hps_0/sequencer.c:5353-5378 | of all delays of its chain the bit gets one that centres its window best, up to the rounding, given where the strobe is; the two margins are those at the delay programmed |
| `Deskew.PlaceData` | hps_isw_handoff/reverbFPGA_Qsys_hps_0/sequencer.c:5300-5379 | all bits go to their delays and the two returned margins are the least over all bits |
| `Placement.HalfIsCeiling` | hps_isw_handoff/reverbFPGA_Qsys_hps_0/sequencer.c:5311-5316 | adding one to a positive value before halving with truncation is the ceiling of the half for either sign |
| `Placement.MinMidIsLeast` | hps_isw_handoff/reverbFPGA_Qsys_hps_0/sequencer.c:5300-5309 | the reference difference is attained by a bit and exceeded by none |
| `Placement.MinLeftIsLeast` | hps_isw_handoff/reverbFPGA_Qsys_hps_0/sequencer.c:5372-5378 | the accumulated left margin is at least a bound exactly if every bit (and the initial value) is |
| `Placement.MinRightIsLeast` | hps_isw_handoff/reverbFPGA_Qsys_hps_0/sequencer.c:5372-5378 | the same for the right margin |
| `Placement.MarginsSum` | hps_isw_handoff/reverbFPGA_Qsys_hps_0/sequencer.c:5353-5379 | through both clamps the two margins of a bit always sum to the sum of its edges |
| `Placement.CentredWithinOneTap` | hps_isw_handoff/reverbFPGA_Qsys_hps_0/sequencer.c:5300-5379 | where no clamp fires, the two margins of every bit differ by at most one and the smaller is the floor of half the window; read data shifts are never negative |
| `Placement.CentringSucceeds` | hps_isw_handoff/reverbFPGA_Qsys_hps_0/sequencer.c:5300-5443 | hence a deskew that found windows fails only if a chain is too short |
| `Placement.PlacedInRange` | hps_isw_handoff/reverbFPGA_Qsys_hps_0/sequencer.c:5322-5366 | every delay programmed fits its chain, whatever the edges are |
| `Placement.NewDqsNearest` | hps_isw_handoff/reverbFPGA_Qsys_hps_0/sequencer.c:5311-5343 | no strobe delay of the chain centres the reference window better than the one chosen, by more than the rounding |
| `Placement.NewDqNearest` | hps_isw_handoff/reverbFPGA_Qsys_hps_0/sequencer.c:5353-5366 | nor does any data delay of the chain centre the window of a bit better |
| `Placement.PlacedIsNearest` | hps_isw_handoff/reverbFPGA_Qsys_hps_0/sequencer.c:5300-5379 | so a deskew leaves every window centred as well as the chains allow, whichever clamp fires |
| `Placement.MarginsMeanInside` | hps_isw_handoff/reverbFPGA_Qsys_hps_0/sequencer.c:5300-5443 | the deskew returns success exactly if the final offset of every bit lies in the window its sweeps saw |
| `Placement.VisibleWindows` | hps_isw_handoff/reverbFPGA_Qsys_hps_0/sequencer.c:5130-5260 | under the offset model what the sweeps see of a bit is one interval |
| `Placement.PlacedPasses` | hps_isw_handoff/reverbFPGA_Qsys_hps_0/sequencer.c:5300-5443 | edges of the visible windows and margins that are not negative mean that every bit passes at the delays finally programmed |
| `ReadDeskew.Centre` | hps_isw_handoff/reverbFPGA_Qsys_hps_0/sequencer.c:5300-5443 | success is returned exactly if both least margins are not negative; strobe and data end centred as well as the chains allow; the figure of merit grows by their shared sum if it is to be updated |
| `ReadDeskew.RestoreAndReport` | hps_isw_handoff/reverbFPGA_Qsys_hps_0/sequencer.c:5279-5297 | with a bit missing its window the strobe is back at its entry value and the failing pin is recorded |
| `ReadDeskew.RecordsPin` | hps_isw_handoff/reverbFPGA_Qsys_hps_0/sequencer.c:5290-5295 | the record of a bit without a window is its pin, in the stage and substage that the deskew belongs to |
| `ReadDeskew.VfifoCenter` | hps_isw_handoff/reverbFPGA_Qsys_hps_0/sequencer.c:5094-5444 | returns 1 exactly if every bit has a window and no margin is negative; every window is then centred as well as the chains allow; says what every register then holds, which pin is reported otherwise and in which stage, and what is added to the figure of merit |
| `ReadDeskew.SeparablePasses` | hps_isw_handoff/reverbFPGA_Qsys_hps_0/sequencer.c:5094-5444 | if passing depends only on strobe delay minus data delay lying in a window per bit, a return of 1 means that every bit passes at the delays programmed |
| `ReadDeskew.FittingSucceeds` | hps_isw_handoff/reverbFPGA_Qsys_hps_0/sequencer.c:5094-5444 | conversely, windows that can be seen and that the chains are long enough to centre make the deskew succeed |
| `ReadDeskew.FittingNeverFails` | hps_isw_handoff/reverbFPGA_Qsys_hps_0/sequencer.c:5094-5444 | so from such settings there are no failing sweeps, whatever the memory did at other settings |
| `ReadDeskew.SeventeenTapsMissed` | hps_isw_handoff/reverbFPGA_Qsys_hps_0/sequencer.c:5202-5298 | with a strobe chain longer than a data chain of 15 taps, a bit that passes at seventeen offsets is reported to have no window |
| `DmSearch.Extend` | hps_isw_handoff/reverbFPGA_Qsys_hps_0/sequencer.c:7661-7680 | one more offset: the run ending there replaces the best exactly if it is strictly longer, so the earliest longest run is kept |
| `DmSearch.ExitLosesNothing` | hps_isw_handoff/reverbFPGA_Qsys_hps_0/sequencer.c:7724-7727 | after the early exit no run that was not examined could have been longer |
| `DmSearch.MaskSweep` | hps_isw_handoff/reverbFPGA_Qsys_hps_0/sequencer.c:7656-7693 | after the mask offsets the best run is the earliest longest up to offset 0, and the current run is the one that reaches 0 |
| `DmSearch.StrobeSweep` | hps_isw_handoff/reverbFPGA_Qsys_hps_0/sequencer.c:7695-7730 | the result is the earliest longest run over both axes, offset 0 counted once, despite the early exit |
| `DmSearch.MaskPlacement` | hps_isw_handoff/reverbFPGA_Qsys_hps_0/sequencer.c:7732-7763 | the mask delay is within its chain; the margin is not negative exactly if there is a run and it does not begin after offset 0, and it is then the distance of the setting programmed from the start of the run |
| `DmSearch.MaskCentred` | hps_isw_handoff/reverbFPGA_Qsys_hps_0/sequencer.c:7745-7757 | unless the mask would need a negative delay, it is centred in the run to within one tap |
| `DmSearch.MaskDelayNearest` | hps_isw_handoff/reverbFPGA_Qsys_hps_0/sequencer.c:7745-7757 | no delay of the chain centres the mask in its run better than the one chosen, also where the centre would need a negative delay |
| `DmSearch.CenterMask` | hps_isw_handoff/reverbFPGA_Qsys_hps_0/sequencer.c:7645-7763 | search and placement: the strobe returns to its place, the mask is left at the delay of its chain that centres it best in the run found, and a margin that is not negative means that a consistent mask works at the setting now programmed |
| `WriteDeskew.CentreWrites` | hps_isw_handoff/reverbFPGA_Qsys_hps_0/sequencer.c:7413-7944 | write deskew after the edge check: strobe back at its start, data and mask centred as well as their chains allow, success exactly if all three margins are not negative |
| `WriteDeskew.WritesCenter` | hps_isw_handoff/reverbFPGA_Qsys_hps_0/sequencer.c:7228-7944 | the same for the whole function; with a bit without a window, its pin is recorded and the strobe stays where its sweep stopped |
| `DqsEnable.WrapIsMod` | hps_isw_handoff/reverbFPGA_Qsys_hps_0/sequencer.c:3900-3929 | the pointer after x increments is x modulo the FIFO size, also for decrements |
| `DqsEnable.WrapShift` | hps_isw_handoff/reverbFPGA_Qsys_hps_0/sequencer.c:3874-3905 | a full turn changes nothing and one increment moves on by one |
| `DqsEnable.DecrementUndoesIncrement` | hps_isw_handoff/reverbFPGA_Qsys_hps_0/sequencer.c:3922-3929 | one less than a full turn of increments undoes one increment, and is undone by one |
| `DqsEnable.IncrVfifo` | hps_isw_handoff/reverbFPGA_Qsys_hps_0/sequencer.c:3874-3905 | the pointer stays congruent to the count of increments, and the setting is one position further |
| `DqsEnable.DecrVfifo` | hps_isw_handoff/reverbFPGA_Qsys_hps_0/sequencer.c:3922-3929 | the pointer stays congruent to the count, and the setting is one position back |
| `DqsEnable.ReadTest` | hps_isw_handoff/reverbFPGA_Qsys_hps_0/sequencer.c:3839-3856 | passes exactly if each of the tries passes on some bit, and at least one try is made |
| `DqsEnable.StaticDtaps` | hps_isw_handoff/reverbFPGA_Qsys_hps_0/sequencer.c:4079-4091 | the nominal number of delay taps is the largest whose delay is less than a phase tap, and lies in [1, chain length] |
| `DqsEnable.PsIsProduct` | hps_isw_handoff/reverbFPGA_Qsys_hps_0/sequencer.c:4145-4154 | the delay a setting stands for is (phases per position * position + phase) phase taps plus its delay taps |
| `DqsWindow.PushToFailing` | hps_isw_handoff/reverbFPGA_Qsys_hps_0/sequencer.c:4120-4141 | for a consistent memory stops at the second position that fails: it fails, and exactly one before it does; gives up exactly if at most one of all positions fails |
| `DqsWindow.SecondIsUnique` | hps_isw_handoff/reverbFPGA_Qsys_hps_0/sequencer.c:4120-4141 | there is at most one such position |
| `DqsWindow.TryPhases` | hps_isw_handoff/reverbFPGA_Qsys_hps_0/sequencer.c:4154-4171 | the first working phase at a position, never phase 0, with the accumulator standing for it |
| `DqsWindow.TryVfifos` | hps_isw_handoff/reverbFPGA_Qsys_hps_0/sequencer.c:4153-4181 | the first working position and phase at a delay tap, with the pointer tracked |
| `DqsWindow.FindFirst` | hps_isw_handoff/reverbFPGA_Qsys_hps_0/sequencer.c:4145-4192 | finds the first working point in the order tap, position, phase; gives up exactly if nothing works up to the nominal number of taps |
| `DqsWindow.ExtendBegin` | hps_isw_handoff/reverbFPGA_Qsys_hps_0/sequencer.c:4200-4233 | for a consistent memory the beginning moves back to the least working tap of the phase before that is earlier, and stays at the first working point exactly if no such tap works; from phase 1 it stays; its accumulator stands for it |
| `DqsWindow.ShadowsOver` | hps_isw_handoff/reverbFPGA_Qsys_hps_0/sequencer.c:4334-4342 | passing over phase 0, or over a phase that works, keeps the accumulators standing for the hardware position |
| `DqsWindow.ShadowsFuzzy` | hps_isw_handoff/reverbFPGA_Qsys_hps_0/sequencer.c:4347-4352 | if the first phase tried fails the beginning moves there and the accumulators still stand for their positions |
| `DqsWindow.ShadowsStart` | hps_isw_handoff/reverbFPGA_Qsys_hps_0/sequencer.c:4311-4328 | the accumulators are right when the forward search begins, up to one phase if the first working phase was 1 |
| `DqsWindow.ShadowsWrap` | hps_isw_handoff/reverbFPGA_Qsys_hps_0/sequencer.c:4366-4370 | moving on to the next FIFO position keeps them right |
| `DqsWindow.HomeEndsSearch` | hps_isw_handoff/reverbFPGA_Qsys_hps_0/sequencer.c:4330-4377 | over the positions it covers, from that of the first working point to the last one, the forward search of a consistent memory cannot run out: it meets the home position again, where phase 1 fails |
| `DqsWindow.ForwardVfifos` | hps_isw_handoff/reverbFPGA_Qsys_hps_0/sequencer.c:4332-4377 | the forward search from a position on stops at a phase that fails, all it met before working |
| `DqsWindow.ForwardToFailing` | hps_isw_handoff/reverbFPGA_Qsys_hps_0/sequencer.c:4311-4377 | the same from the first working phase, with the hand-over of the phase counter |
| `DqsWindow.BackOff` | hps_isw_handoff/reverbFPGA_Qsys_hps_0/sequencer.c:4379-4398 | backs off over phase 0 and the position boundary to the phase tested before, accumulator and pointer with it |
| `DqsWindow.EndsBefore` | hps_isw_handoff/reverbFPGA_Qsys_hps_0/sequencer.c:4379-4398 | what it backs off to is the last phase before the first failing one |
| `DqsWindow.TapsToFailing` | hps_isw_handoff/reverbFPGA_Qsys_hps_0/sequencer.c:4427-4441 | raises the tap to the first that fails; the accumulator stands for the one before it |
| `DqsWindow.TapsEnd` | hps_isw_handoff/reverbFPGA_Qsys_hps_0/sequencer.c:4427-4441 | the tap before that is the last working one of the end phase, whatever tap the search began at |
| `DqsWindow.PhaseWindow` | hps_isw_handoff/reverbFPGA_Qsys_hps_0/sequencer.c:4194-4403 | both ends of a window found at tap 0: a consistent memory always has one, its beginning is a fuzzy edge exactly if the first phase tried fails, and both ends are those that the memory determines |
| `DqsWindow.FindWindow` | hps_isw_handoff/reverbFPGA_Qsys_hps_0/sequencer.c:4145-4469 | a consistent memory is refused exactly if nothing works at any position and phase up to the nominal tap; otherwise the window found is the one that the memory determines, and the accumulators stand for its ends, across phase wrap, skipping of phase 0 and back-off |
| `WindowSpec.NothingPrecedes` | hps_isw_handoff/reverbFPGA_Qsys_hps_0/sequencer.c:4145-4192 | no working setting of a turn comes before the first working point in the order tap, position, phase |
| `WindowSpec.WindowIsUnique` | hps_isw_handoff/reverbFPGA_Qsys_hps_0/sequencer.c:4145-4469 | a memory has at most one window: first working point, beginning, end and fuzziness are determined by what the read test accepts |
| `WindowSpec.EndsWork` | hps_isw_handoff/reverbFPGA_Qsys_hps_0/sequencer.c:4145-4469 | the beginning works exactly if the edge is not fuzzy; the end works unless it is that same fuzzy beginning |
| `DqsCentre.MeasureDtaps` | hps_isw_handoff/reverbFPGA_Qsys_hps_0/sequencer.c:4473-4546 | the number of taps written out for tracking is in [1, chain length]; a phase back it leads to the first failing tap after the first working one, and is the nominal number exactly if there is no such edge |
| `DqsCentre.ReduceMid` | hps_isw_handoff/reverbFPGA_Qsys_hps_0/sequencer.c:4552-4560 | the middle of the window is reduced by whole positions into one, and stays positive |
| `DqsCentre.Quantise` | hps_isw_handoff/reverbFPGA_Qsys_hps_0/sequencer.c:4561-4580 | phase and tap reach the middle by less than one tap; the phase programmed is in [1, last] and the tap within its chain, with the detour from phase 0 to phase 1 |
| `DqsCentre.PushToWorking` | hps_isw_handoff/reverbFPGA_Qsys_hps_0/sequencer.c:4582-4598 | visits each position at most once, for a consistent memory succeeds exactly if some position works at the centre, and stops at the first that does |
| `FindDqsEn.FindDqsEnPhase` | hps_isw_handoff/reverbFPGA_Qsys_hps_0/sequencer.c:4043-4616 | the whole search: only enable settings and pointer change, the pointer tracks its count, phase 0 is never stored, the setting quantises the middle of the window that the accumulators denote, seen from the second failing position after the entry; any memory has passed five tests at the first working point. A consistent memory is measured exactly if at least two positions fail at phase 1 and something works within a phase of delay; it is found exactly if, besides, the centre works at some position, at the first such one. The number for tracking is then the distance from the end of the window to the edge found again a phase back, or the nominal one if there is none. A memory that works in one wide enough interval is always found |
| `FindDqsEn.IntervalSuffices` | hps_isw_handoff/reverbFPGA_Qsys_hps_0/sequencer.c:4043-4616 | on a memory that works in one interval of delays per turn, wide enough, none of the three reasons to fail applies |
| `EnableSpec.FewExactly` | hps_isw_handoff/reverbFPGA_Qsys_hps_0/sequencer.c:4120-4141 | counted from any entry position, at most one failing position is the same as at most one failing pointer |
| `EnableSpec.NothingExactly` | hps_isw_handoff/reverbFPGA_Qsys_hps_0/sequencer.c:4145-4192 | refusing all taps up to the nominal one is the same as nothing working with less than a phase of delay |
| `EnableSpec.AccumulatorsDenote` | hps_isw_handoff/reverbFPGA_Qsys_hps_0/sequencer.c:4311-4377 | for a consistent memory whose first working point is at tap 0 of phase 2 or later, both accumulators stand for settings that the read test accepts if and only if the next phase at that position works, or there is none |
| `EnableSpec.EndsWorkExactly` | hps_isw_handoff/reverbFPGA_Qsys_hps_0/sequencer.c:4347-4352 | in general the beginning is rejected exactly if the edge is fuzzy, and is then the failing phase itself; the end is rejected exactly if it is that phase too |
| `EnableSpec.FuzzyWindow` | hps_isw_handoff/reverbFPGA_Qsys_hps_0/sequencer.c:4347-4352 | a concrete memory, phase 3 alone working, for which both ends of the window are phase 4, which fails |
| `EnableSpec.EndDenotesExactly` | hps_isw_handoff/reverbFPGA_Qsys_hps_0/sequencer.c:4311-4323 | the end accumulator equals the delay of its setting if and only if the first working point of the memory is not at tap 0 of phase 1 |
| `EnableSpec.LaggingEnd` | hps_isw_handoff/reverbFPGA_Qsys_hps_0/sequencer.c:4311-4323 | a concrete memory, phases 1 to 4 working, for which the end accumulator is one phase behind |
| `EnableSpec.ShippedAccumulatorsFit` | hps_isw_handoff/reverbFPGA_Qsys_hps_0/sequencer.c:4051-4053 | with the shipped tap sizes no accumulator comes near the limit of its 32 bits |
| `IntervalWindow.FirstInInterval` | hps_isw_handoff/reverbFPGA_Qsys_hps_0/sequencer.c:4145-4192 | on a memory that works exactly at delays in one interval, the first working point is at tap 0 within two phases of its start, and never a fuzzy edge |
| `IntervalWindow.EndInInterval` | hps_isw_handoff/reverbFPGA_Qsys_hps_0/sequencer.c:4332-4441 | the end found is inside the interval, within a phase of its end |
| `IntervalWindow.BeginWithinTap` | hps_isw_handoff/reverbFPGA_Qsys_hps_0/sequencer.c:4200-4233 | unless the first working point is at phase 1, the beginning is within one delay tap of the start of the interval |
| `IntervalWindow.EndWithinTap` | hps_isw_handoff/reverbFPGA_Qsys_hps_0/sequencer.c:4427-4441 | unless the delay chain is exhausted, the end is within one delay tap of the end of the interval |
| `IntervalWindow.CentreInInterval` | hps_isw_handoff/reverbFPGA_Qsys_hps_0/sequencer.c:4552-4580 | the setting programmed works, and is within two phase taps of the centre of the interval |
| `IntervalWindow.IntervalIsFound` | hps_isw_handoff/reverbFPGA_Qsys_hps_0/sequencer.c:4120-4192 | such a memory, seen from whatever pointer the FIFO started at, has two failing positions and a working setting |
| `IntervalWindow.IntervalWorksSomewhere` | hps_isw_handoff/reverbFPGA_Qsys_hps_0/sequencer.c:4582-4598 | and the setting programmed works at some position |
| `IntervalWindow.IntervalMemoryFits` | hps_isw_handoff/reverbFPGA_Qsys_hps_0/sequencer.c:4043-4616 | there is such a memory for every interval wide enough |
| `IntervalWindow.ShippedWidths` | hps_isw_handoff/reverbFPGA_Qsys_hps_0/sequencer_defines.h:82-94 | with the shipped tap sizes a window of one FIFO position, and half of one, is wide enough |
| `VfifoCalibrate.GuaranteedRead` | hps_isw_handoff/reverbFPGA_Qsys_hps_0/sequencer.c:3501-3522 | passes at once, or with the first enable phase with which the pattern test passes; fails only if it failed at the entry phase and with every enable phase; nothing but the enable phase moves |
| `VfifoCalibrate.SpreadInputs` | hps_isw_handoff/reverbFPGA_Qsys_hps_0/sequencer.c:5044-5070 | the data delays become equally spaced from 0 and reach the end of their chain but for the remainder of the division |
| `VfifoCalibrate.FindDqsEnSpread` | hps_isw_handoff/reverbFPGA_Qsys_hps_0/sequencer.c:5044-5085 | the search is made with the data delays spread: success is a passing test at them, failure of a consistent memory has its reason at them, the number for tracking is measured at them; they are back at 0 afterwards |
| `VfifoCalibrate.DeskewInputs` | hps_isw_handoff/reverbFPGA_Qsys_hps_0/sequencer.c:5944-5952 | under the offset model a successful deskew leaves every bit passing; a failing one shows sweeps from the entry settings that miss a window or end with a negative margin |
| `VfifoCalibrate.TryStrobe` | hps_isw_handoff/reverbFPGA_Qsys_hps_0/sequencer.c:5849-5985 | one strobe delay: the attempt fails in the enable search at that delay with the data spread, or in the deskew from the starting delay after an enable search that passed; success leaves the input side where sweeps from the starting delay that succeeded have put it, at an enable setting that passed a test at that strobe delay; only a bit without a window is recorded |
| `VfifoCalibrate.TryDeskew` | hps_isw_handoff/reverbFPGA_Qsys_hps_0/sequencer.c:5930-5957 | the deskew half of an attempt, from the starting delay |
| `VfifoCalibrate.SearchStrobe` | hps_isw_handoff/reverbFPGA_Qsys_hps_0/sequencer.c:5844-5985 | success means that the attempts at all earlier strobe delays failed and that the one at the next was ready; giving up means that the attempt failed at every strobe delay from the present one to the end of the chain, each in the way listed for it |
| `VfifoCalibrate.TryPhase` | hps_isw_handoff/reverbFPGA_Qsys_hps_0/sequencer.c:5815-5985 | one output phase: unless disabled, the guaranteed read is made from the entry settings, and either it passes there or with some enable phase, or this phase ends the loop; success means both that it passed and that some strobe delay was ready; otherwise all strobe delays fail |
| `VfifoCalibrate.SearchPhases` | hps_isw_handoff/reverbFPGA_Qsys_hps_0/sequencer.c:5806-5985 | success means that the guaranteed read passed at this and all earlier output phases, at which all strobe delays failed; giving up means that at all output phases all strobe delays failed, or that the guaranteed read failed at the phase reached |
| `VfifoCalibrate.TryDelay` | hps_isw_handoff/reverbFPGA_Qsys_hps_0/sequencer.c:5794-5985 | one output delay: what failed at it is added to the delays before, or it is where the search succeeded |
| `VfifoCalibrate.SearchDelays` | hps_isw_handoff/reverbFPGA_Qsys_hps_0/sequencer.c:5794-5985 | giving up means that this was so at every even output delay of less than a phase tap; success at one means that it was so at all before |
| `VfifoCalibrate.CalibrateVfifo` | hps_isw_handoff/reverbFPGA_Qsys_hps_0/sequencer.c:5748-6009 | success means that the guaranteed read, unless disabled, passed at the output delay and phase at which the search succeeded, that everything tried before failed, and that the registers are those that it found, with the outputs reset if they were delayed; failure means that every attempt at every output delay, phase and strobe delay failed, and records the substage of the last attempt, or the guaranteed read if there was none, after the pins of the bits without a window, in order; a memory that fits never fails |
| `AttemptSpec.SubstageMeans` | hps_isw_handoff/reverbFPGA_Qsys_hps_0/sequencer.c:5994-5998 | the substage recorded is the guaranteed read exactly if nothing else was attempted at any output delay; it then failed at the first output phase each time |
| `AttemptSpec.LastIsAttempt` | hps_isw_handoff/reverbFPGA_Qsys_hps_0/sequencer.c:5994-5998 | after an attempt the substage recorded is never the guaranteed read |
| `AttemptSpec.RecordedIsLast` | hps_isw_handoff/reverbFPGA_Qsys_hps_0/sequencer.c:5994-5998 | otherwise it is that of the last attempt of all |
| `AttemptSpec.NothingAttempted` | hps_isw_handoff/reverbFPGA_Qsys_hps_0/sequencer.c:5834-5838 | if the guaranteed read is made and never passes, nothing else is attempted, and it is what is recorded |
| `AttemptSpec.EveryPhaseAttempted` | hps_isw_handoff/reverbFPGA_Qsys_hps_0/sequencer.c:5834-5838 | if it is disabled, a failing search has attempted every output phase, and never records it |
| `AttemptSpec.FittingAttemptSucceeds` | hps_isw_handoff/reverbFPGA_Qsys_hps_0/sequencer.c:5849-5985 | if the enable search sees a wide enough interval, and the data windows fit wherever a test passes with the data spread, the first attempt does not fail |
| `AttemptSpec.FittingVfifoSucceeds` | hps_isw_handoff/reverbFPGA_Qsys_hps_0/sequencer.c:5748-6009 | if besides the guaranteed read passes at the entry settings, or with another enable phase, no read calibration fails |
| `GroupSpec.ReadyReads` | hps_isw_handoff/reverbFPGA_Qsys_hps_0/sequencer.c:5930-5985 | under the offset model every bit then reads correctly |
| `GroupSpec.AfterReadOutputs` | hps_isw_handoff/reverbFPGA_Qsys_hps_0/sequencer.c:5994-6009 | a successful read calibration leaves the output side as it was, but for its phase, or reset |
| `GroupSpec.AfterReadInputs` | hps_isw_handoff/reverbFPGA_Qsys_hps_0/sequencer.c:5930-6009 | and the input side, under the offset model, reading every bit |
| `GroupSpec.PatternsNeeded` | hps_isw_handoff/reverbFPGA_Qsys_hps_0/sequencer.c:5834-5838 | a group whose guaranteed read is made and never passes fails in that substage, however the rest of its memory answers |
| `GroupSpec.PatternsNotNeeded` | hps_isw_handoff/reverbFPGA_Qsys_hps_0/sequencer.c:5834-5838 | with the guaranteed read disabled no failure is due to it |
| `VfifoCalibrate.CalibrateVfifoEnd` | hps_isw_handoff/reverbFPGA_Qsys_hps_0/sequencer.c:6091-6137 | the read deskew through write tests: success is that of its sweeps, which put strobe and data where they are; their least margins are added to the figure of merit, and nothing else; failure is recorded after the pin without a window, if there is one |
| `VfifoCalibrate.CalibrateWrites` | hps_isw_handoff/reverbFPGA_Qsys_hps_0/sequencer.c:8133-8155 | success is that of the sweeps and the mask search, which put data and mask where they are, and their least margins are added to the figure of merit; under the offset model every written bit then passes and a consistent mask works; failure is recorded after the pin without a window, if there is one, and means that the sweeps miss a window or a margin is negative, or that the mask has no setting to use |
| `GroupSpec.WritesMean` | hps_isw_handoff/reverbFPGA_Qsys_hps_0/sequencer.c:8133-8155 | what success and failure of a write deskew mean, from its sweeps alone |
| `GroupSpec.MaskWorksAt` | hps_isw_handoff/reverbFPGA_Qsys_hps_0/sequencer.c:7732-7763 | a consistent mask works wherever a search with a margin that is not negative has put it |
| `GroupSpec.WhyWritesFail` | hps_isw_handoff/reverbFPGA_Qsys_hps_0/sequencer.c:7931-7943 | with all windows and both data margins there, the write deskew fails only for the mask |
| `VfifoCalibrate.ZeroGroup` | hps_isw_handoff/reverbFPGA_Qsys_hps_0/sequencer.c:1640-1703 | output delays go to 0 and the strobe to its reserve; the data inputs too unless only the output side is wanted |
| `GroupSpec.FomShareBounds` | hps_isw_handoff/reverbFPGA_Qsys_hps_0/sequencer.c:5419-5421 | one group adds between 0 and twice the chain length to the figure of merit |
| `GroupSpec.WholeShare` | hps_isw_handoff/reverbFPGA_Qsys_hps_0/sequencer.c:5419-5421 | with one read group to a write group the share is the whole sum of the two least margins |
| `Globals.Gbl.SetFailingGroupStage` | hps_isw_handoff/reverbFPGA_Qsys_hps_0/sequencer.c:591-611 | the record is extended, and the error report stays that of the first failure |
| `Globals.Gbl.AddFomIn` | hps_isw_handoff/reverbFPGA_Qsys_hps_0/sequencer.c:5421 | the unsigned sum is the true sum modulo 2^32 |
| `Latency.MemConfig` | hps_isw_handoff/reverbFPGA_Qsys_hps_0/sequencer.c:8636-8763 | the idle cycles plus one, also when -1 wraps, are the write latency told to the PHY; the read latency is limited to five bits |
| `Latency.CalibrateLfifo` | hps_isw_handoff/reverbFPGA_Qsys_hps_0/sequencer.c:6143-6219 | succeeds exactly if the initial latency passes; the latency kept, less one, and everything up to the initial one passes, and two less fails or is 0; failure is recorded |
| `Groups.ReadGroupsPartition` | hps_isw_handoff/reverbFPGA_Qsys_hps_0/sequencer.c:1632-1634 | the ranges of read groups of the write groups partition the read groups, whatever the two widths are |
| `Groups.ReadGroupsInRange` | hps_isw_handoff/reverbFPGA_Qsys_hps_0/sequencer.c:9239-9241 | no write group visits a read group that does not exist |
| `Groups.ShareIsEven` | hps_isw_handoff/reverbFPGA_Qsys_hps_0/sequencer.c:1632-1634 | every write group gets its even share of the read groups, to within one |
| `Groups.AttemptedExactly` | hps_isw_handoff/reverbFPGA_Qsys_hps_0/sequencer.c:9206-9232 | with k bits to a group, the shifting mask picks a group exactly if not all of its k bits are to be skipped |
| `Calibration.ZeroStrobes` | hps_isw_handoff/reverbFPGA_Qsys_hps_0/sequencer.c:1527-1570 | the reset of all groups puts the strobe to its reserve, enable phase, enable delay and output phase to 0, the termination to the output reserve, and moves nothing else |
| `RunSpec.StartIsClean` | hps_isw_handoff/reverbFPGA_Qsys_hps_0/sequencer.c:1527-1703 | nothing is left of the registers from before the run when a visit begins, but the position of the FIFO |
| `Calibration.CalibrateGroup` | hps_isw_handoff/reverbFPGA_Qsys_hps_0/sequencer.c:9243-9390 | the outcome explains the registers at the very end: which attempts failed, or by which sweeps and mask search they were put where they are, each from the registers the step before left; the figures of merit grow by the margins of exactly those sweeps; what is recorded is exactly what the outcome tells, in order: every pin without a window, and the failure of the group |
| `Calibration.CalibrateOutputs` | hps_isw_handoff/reverbFPGA_Qsys_hps_0/sequencer.c:9285-9390 | the same for the part after read calibration |
| `GroupSpec.DoneIsCalibrated` | hps_isw_handoff/reverbFPGA_Qsys_hps_0/sequencer.c:9243-9390 | a group calibrated so passes every bit of every write test under the offset model, and if its mask does not depend on the input delays as long as every bit is read back, the mask works |
| `GroupSpec.MaskSurvives` | hps_isw_handoff/reverbFPGA_Qsys_hps_0/sequencer.c:9359-9378 | the mask keeps working through the read deskew after the writes |
| `GroupSpec.MarginsWithin` | hps_isw_handoff/reverbFPGA_Qsys_hps_0/sequencer.c:9243-9390 | a calibrated group adds neither a negative nor an unbounded figure of merit |
| `GroupSpec.FittingMaskFound` | hps_isw_handoff/reverbFPGA_Qsys_hps_0/sequencer.c:7645-7763 | a mask that works at one interval of offsets beginning at or before 0 is found |
| `GroupSpec.FittingWrites` | hps_isw_handoff/reverbFPGA_Qsys_hps_0/sequencer.c:8133-8155 | the write calibration of a memory that fits succeeds, and leaves every bit written and the mask working |
| `GroupSpec.FittingGroupSucceeds` | hps_isw_handoff/reverbFPGA_Qsys_hps_0/sequencer.c:9243-9390 | no calibration of a group whose memory fits, wherever the steps before can end, fails |
| `RecordSpec.PatternsRecorded` | hps_isw_handoff/reverbFPGA_Qsys_hps_0/sequencer.c:5834-5838 | a group whose guaranteed read is made and never passes records that and nothing else |
| `Calibration.NextGroup` | hps_isw_handoff/reverbFPGA_Qsys_hps_0/sequencer.c:9206-9400 | a group is visited exactly if its bit of the skip mask is clear; the others keep their registers |
| `Calibration.CalibrateGroups` | hps_isw_handoff/reverbFPGA_Qsys_hps_0/sequencer.c:9206-9400 | visits the attempted groups in order, all of them if all succeed or all are to be swept, otherwise up to and with the first that fails; each visit explains the registers of its group, the others keep theirs; the figures of merit grow by the sums of the margins of the visits, and the records by theirs; succeeds exactly if every visit does |
| `RunSpec.OneMoreReached` | hps_isw_handoff/reverbFPGA_Qsys_hps_0/sequencer.c:9206-9400 | a failing group ends the run unless all groups are to be swept |
| `RunSpec.PassingCalibrates` | hps_isw_handoff/reverbFPGA_Qsys_hps_0/sequencer.c:9206-9437 | if every visit succeeds every attempted group is calibrated |
| `RunSpec.SumsWithin` | hps_isw_handoff/reverbFPGA_Qsys_hps_0/sequencer.c:9206-9437 | the sums of the margins of successful visits are neither negative nor above their bound |
| `RunSpec.FittingRunSucceeds` | hps_isw_handoff/reverbFPGA_Qsys_hps_0/sequencer.c:9206-9437 | every visit to groups whose memories fit succeeds |
| `RecordSpec.FailingRunRecords` | hps_isw_handoff/reverbFPGA_Qsys_hps_0/sequencer.c:591-611 | a run with a failing visit has recorded something |
| `RecordSpec.FirstRecorded` | hps_isw_handoff/reverbFPGA_Qsys_hps_0/sequencer.c:591-611 | the failure reported for a run is the first record of the first group that has any, whether or not that group succeeded in the end |
| `Calibration.MemCalibrate` | hps_isw_handoff/reverbFPGA_Qsys_hps_0/sequencer.c:9149-9437 | over a whole run, from the registers it finds: every setting ever stored stays in its chain; which groups are visited and what explains their registers; returns 1 exactly if every visit succeeds, and the initial read latency where it is tried; the figures of merit are the sums of the margins of the visits; the write latency told to the PHY and the idle cycles agree to the end; the failures recorded are exactly those that the visits tell of, or that of the latency; a return of 0 means an error stage that is not NIL and the report of the first of them |
| `RunCalibration.FomWordBytes` | hps_isw_handoff/reverbFPGA_Qsys_hps_0/sequencer.c:9612-9617 | both figures of merit can be read back from the report word |
| `RunCalibration.FailureWordFields` | hps_isw_handoff/reverbFPGA_Qsys_hps_0/sequencer.c:9624-9636 | stage, substage and group can be read back from the failure word |
| `RunCalibration.Reported` | hps_isw_handoff/reverbFPGA_Qsys_hps_0/sequencer.c:9594-9603 | the byte reported is half the sum, rounded down, up to its limit of 255 |
| `RunCalibration.Report` | hps_isw_handoff/reverbFPGA_Qsys_hps_0/sequencer.c:9587-9645 | status SUCCESS exactly if the run passed, and the matching report words |
| `RunCalibration.RunMemCalibrate` | hps_isw_handoff/reverbFPGA_Qsys_hps_0/sequencer.c:9442-9645 | the status ends SUCCESS exactly if every visit, and the latency where tried, succeeds; then every attempted group is calibrated and the two report bytes are min(255, sum / 2) of the sums of the margins of the visits, which never wrapped; otherwise the report word is the first failure that the visits tell of, or the latency; a run over memories that fit ends with SUCCESS |
| `RunCalibration.RunMeans` | hps_isw_handoff/reverbFPGA_Qsys_hps_0/sequencer.c:9442-9645 | what the log of a run means if it passes, and that it passes if its memories fit |
| `WindowMemory.ReadsBackModelled` | hps_isw_handoff/reverbFPGA_Qsys_hps_0/sequencer.c:5130-5260 | a memory made of windows, one for the enable and one for every bit, fits the offset model at any settings |
| `WindowMemory.MasksModelled` | hps_isw_handoff/reverbFPGA_Qsys_hps_0/sequencer.c:7645-7763 | and its mask does not depend on the input delays as long as every bit is read back, although it fails where reading does |
| `WindowMemory.ReadsFit` | hps_isw_handoff/reverbFPGA_Qsys_hps_0/sequencer.c:5748-6009 | its read calibration fits if its read windows do, the spread data meet one of them, and the guaranteed read, if made, passes |
| `WindowMemory.MaskSeen` | hps_isw_handoff/reverbFPGA_Qsys_hps_0/sequencer.c:7645-7763 | the offsets at which its mask works are one interval, which ends where the mask fails or the strobe leaves the data behind |
| `WindowMemory.WindowsCalibrate` | hps_isw_handoff/reverbFPGA_Qsys_hps_0/sequencer.c:9243-9390 | the calibration of its group fits if its write windows and mask do as well |
| `WindowMemory.ShippedCalibrates` | hps_isw_handoff/reverbFPGA_Qsys_hps_0/sequencer.c:9243-9390 | in the shipped configuration, so does every memory with read windows within the chain, write windows centred at or before the write strobe, and a mask window that reaches it |
| `WindowMemory.ShippedRunFits` | hps_isw_handoff/reverbFPGA_Qsys_hps_0/sequencer.c:9149-9437 | with such memories behind all groups, a whole run finds memories that fit, whatever the registers are before it |
| `ResultWord.ShiftIn` | hps_isw_handoff/reverbFPGA_Qsys_hps_0/sequencer.c:3797-3813 | shifting one more virtual group in from below keeps every earlier bit, pushed out of no word |
| `ResultWord.RankWord` | hps_isw_handoff/reverbFPGA_Qsys_hps_0/sequencer.c:6438-6456 | the word of a rank has exactly the bits no error was reported for |
| `ResultWord.RunTest` | hps_isw_handoff/reverbFPGA_Qsys_hps_0/sequencer.c:6417-6474 | bit vg*w+j of the result is set exactly if every rank not skipped reported no error on bit j of group vg, and the two verdicts are all and any of those bits |
| `ResultWord.PlaceIsProduct` | hps_isw_handoff/reverbFPGA_Qsys_hps_0/sequencer.c:3797-3813 | the place of bit j of group vg in the result word is vg*w+j |
| `Microcode.RunsAreUnique` | hps_isw_handoff/reverbFPGA_Qsys_hps_0/sequencer.c:2365-2369 | a program has at most one complete run from a state |
| `Microcode.Spin` | hps_isw_handoff/reverbFPGA_Qsys_hps_0/sequencer.c:2030-2031 | an instruction that jumps to itself runs once more than its counter says and leaves the counter reloaded |
| `Microcode.Execute` | hps_isw_handoff/reverbFPGA_Qsys_hps_0/sequencer.c:2072-2083 | running a program executes exactly its one complete run |
| `Microcode.RwManager.Run` | hps_isw_handoff/reverbFPGA_Qsys_hps_0/sequencer.c:6398 | the instructions executed are those of the complete run, and the counters are as it leaves them |
| `DelayLoop.ShippedIdleLoops` | hps_isw_handoff/reverbFPGA_Qsys_hps_0/sequencer_auto_inst_init.c:156-158 | the instruction memory holds the two idle loops at their addresses |
| `DelayLoop.RunsSingle` | hps_isw_handoff/reverbFPGA_Qsys_hps_0/sequencer.c:2062-2067 | the single loop runs its counter plus two instructions |
| `DelayLoop.RunsPasses` | hps_isw_handoff/reverbFPGA_Qsys_hps_0/sequencer.c:2044-2050 | every pass of the nested loop finds its inner counter reloaded |
| `DelayLoop.RunsNested` | hps_isw_handoff/reverbFPGA_Qsys_hps_0/sequencer.c:2069-2077 | the nested loop ends with both counters reloaded |
| `DelayLoop.NestedCycles` | hps_isw_handoff/reverbFPGA_Qsys_hps_0/sequencer.c:2030-2043 | with the counters loaded, cut to 8 and 16 bits, the loops take exactly the number of cycles of the closed form |
| `DelayLoop.Cycles` | hps_isw_handoff/reverbFPGA_Qsys_hps_0/sequencer.c:2026-2083 | that number is never too small, for any clock count, and too large by a stated bound |
| `DelayLoop.RunNestedLoops` | hps_isw_handoff/reverbFPGA_Qsys_hps_0/sequencer.c:2074-2082 | the repeated loop takes the same time in every run |
| `DelayLoop.DelayForMemClocks` | hps_isw_handoff/reverbFPGA_Qsys_hps_0/sequencer.c:2019-2088 | for every 32-bit clock count the delay executes that many instructions, all of them idle, unless delays are skipped |
| `ResetLoop.ShippedResets` | hps_isw_handoff/reverbFPGA_Qsys_hps_0/sequencer_auto_inst_init.c:145-154 | the instruction memory holds the two reset delays: one instruction, a jump on each of three counters, the end |
| `ResetLoop.RunsInner` | hps_isw_handoff/reverbFPGA_Qsys_hps_0/sequencer.c:2365-2369 | the innermost loop runs twice its counter plus two instructions and leaves the counter reloaded |
| `ResetLoop.RunsMiddle` | hps_isw_handoff/reverbFPGA_Qsys_hps_0/sequencer.c:2365-2369 | every pass of the middle loop finds the inner counter reloaded |
| `ResetLoop.RunsOuter` | hps_isw_handoff/reverbFPGA_Qsys_hps_0/sequencer.c:2365-2369 | and every pass of the outer loop both |
| `ResetLoop.RunsReset` | hps_isw_handoff/reverbFPGA_Qsys_hps_0/sequencer.c:2365-2369 | the whole reset delay takes exactly the number of cycles of the formula that the counter values were computed with, and the end |
| `WriteTest.ShippedVariant` | hps_isw_handoff/reverbFPGA_Qsys_hps_0/sequencer_auto_inst_init.c:67-106 | the instruction memory holds both variants of the write test: flow of every instruction, which ones write or send data, and data masks in exactly the variant with masks |
| `WriteTest.MaskBits` | hps_isw_handoff/reverbFPGA_Qsys_hps_0/sequencer_auto_inst_init.c:67-106 | the data words of the two variants differ in the mask bit |
| `WriteTest.LeadRuns` | hps_isw_handoff/reverbFPGA_Qsys_hps_0/sequencer.c:6281-6360 | from the write command the machine reaches the first data after exactly the lead instructions, in all three cases |
| `WriteTest.RoundRuns` | hps_isw_handoff/reverbFPGA_Qsys_hps_0/sequencer.c:6281-6398 | a round ends ready for the next with one repetition less, or at the end of the program |
| `WriteTest.TestRuns` | hps_isw_handoff/reverbFPGA_Qsys_hps_0/sequencer.c:6281-6398 | the program ends after all rounds |
| `WriteTest.RoundIsTimed` | hps_isw_handoff/reverbFPGA_Qsys_hps_0/sequencer.c:6258-6280 | each round has one write command, and its data come after exactly the lead |
| `WriteTest.RoundsAreTimed` | hps_isw_handoff/reverbFPGA_Qsys_hps_0/sequencer.c:6370-6398 | so do all rounds |
| `WriteTest.RoundsWithin` | hps_isw_handoff/reverbFPGA_Qsys_hps_0/sequencer.c:6281-6398 | no instruction outside the variant is executed |
| `WriteTest.GapIsUnique` | hps_isw_handoff/reverbFPGA_Qsys_hps_0/sequencer.c:6258-6280 | a trace with a write command has only one number of instructions between command and data |
| `WriteTest.GapIsWriteLatency` | hps_isw_handoff/reverbFPGA_Qsys_hps_0/sequencer.c:8649-8759 | the write test runs at the latency told to the PHY if and only if that latency is at most 257, the most the 8-bit counter can count |
| `WriteTest.LatencyTooLong` | hps_isw_handoff/reverbFPGA_Qsys_hps_0/sequencer.c:6352-6359 | for a latency of 258 the data come after 2 instructions |
| `WriteTest.LoadIdleCycles` | hps_isw_handoff/reverbFPGA_Qsys_hps_0/sequencer.c:6281-6366 | the counters and jumps of the three cases, for either variant |
| `WriteTest.WriteTestIssue` | hps_isw_handoff/reverbFPGA_Qsys_hps_0/sequencer.c:6256-6412 | 65 write commands, every one with its data after the same number of instructions, for both variants and every stored number of idle cycles; every data instruction uses data masks exactly if the mask is to be tested |
| `Handshake.SequencerKeepsInvariant` | hps_isw_handoff/reverbFPGA_Qsys_hps_0/tclrpt.c:613-1019 | each step of the sequencer keeps the invariant of the handshake |
| `Handshake.HostKeepsInvariant` | hps_isw_handoff/reverbFPGA_Qsys_hps_0/tclrpt.c:613-637 | each step of the host keeps it, if the host posts proper commands |
| `Handshake.HandledExactlyOnce` | hps_isw_handoff/reverbFPGA_Qsys_hps_0/tclrpt.c:639-1019 | in every state of every interleaving each request was handled at most once, in order and with its own parameter; at most the last is pending; WAIT_CMD overwrites nothing that is not handled and acknowledged |
| `Handshake.PendingIsHandled` | hps_isw_handoff/reverbFPGA_Qsys_hps_0/tclrpt.c:671-686 | a pending request is handled within three steps of the sequencer, whatever the host does |
| `Handshake.NeverStuck` | hps_isw_handoff/reverbFPGA_Qsys_hps_0/tclrpt.c:639-1019 | with proper commands the host never waits for a response that will not come |
| `Handshake.ImproperCommandSticks` | hps_isw_handoff/reverbFPGA_Qsys_hps_0/tclrpt.c:662-683 | each of the two improper commands has a run that leaves the host stuck |
| `Handshake.StuckForever` | hps_isw_handoff/reverbFPGA_Qsys_hps_0/tclrpt.c:662-683 | and stuck it stays |
| `RankMask.Parameters.CountGroups` | hps_isw_handoff/reverbFPGA_Qsys_hps_0/tclrpt.c:117-125 | the active groups are those whose bit is clear |
| `RankMask.Parameters.CountRanks` | hps_isw_handoff/reverbFPGA_Qsys_hps_0/tclrpt.c:127-138 | every skipped rank is taken off the count once for each word of the rank mask up to its own |
| `RankMask.ActiveRanksExactly` | hps_isw_handoff/reverbFPGA_Qsys_hps_0/tclrpt.c:127-138 | so the active ranks are counted right if and only if no rank from the 33rd on is skipped |
| `RankMask.LastOf33` | hps_isw_handoff/reverbFPGA_Qsys_hps_0/tclrpt.c:127-138 | with only the last of 33 ranks skipped the count is 31 instead of 32 |
| `RankMask.Parameters.UpdateShadowRegs` | hps_isw_handoff/reverbFPGA_Qsys_hps_0/tclrpt.c:140-153 | a shadow register is skipped exactly if all of its ranks are |
| `RankMask.Parameters.Handle` | hps_isw_handoff/reverbFPGA_Qsys_hps_0/tclrpt.c:715-753 | every command leaves the derived flags in agreement with the flags set, changes exactly what it names, and is legal exactly if its parameter is in range |

## Left out

- The update strobes of the scan chain: settings take effect when stored, so an omitted enable or update is not modelled.
- Register addresses and bus accesses; debug reports, prints, simulation code and coverage marks, including the count of working phases that only a report shows.
- Other memory types and protocol variants, shadow registers, quick calibration, the versions of the searches that are not compiled, and write levelling, which this family does not call.
- Initialisation, mode-register, refresh and hand-over command sequences and termination masks: fixed lists, of which only the reset delays are modelled. Recovery of the memory after a clock violation is one of them.
- One rank. The integrated run has as many read as write groups, as in the shipped interface; `Groups` treats any widths.
- Calibration.MemCalibrate: the instant-on settings used when all calibration is skipped, and the repeat count, which is 1, are not modelled.
- Deskew words are sequences of bits; `ResultWord` shows that the words of the tests are those bits. Only the first pass of a read or write test is modelled there, not the several tries.
- Hardware.DqsGroup.PulseVfifo: the FIFO pointer is modelled as if it could be read; the firmware only counts its pulses.
- The case of a phase counter of 0 in the back-off and in the tracking measurement cannot occur, since phase 0 is never tried, and is not modelled.
- FindDqsEn.FindDqsEnPhase: at least four enable phases are assumed, as phase 1 hands over phase 3; the code was not written for fewer. When it fails is stated for consistent memories only; a marginal one may fail at any point.
- GroupSpec.FittingGroupSucceeds: that a memory fits is sufficient, not necessary; what every failure means is stated for any memory.
- IntervalWindow.CentreInInterval: the bound of two phase taps allows for an end at phase 0 or at the end of the delay chain; away from those, only the ends are shown to be within one delay tap.
- IntervalWindow.IntervalIsFound: intervals narrower than four phase taps, half a FIFO position in the shipped configuration, are covered by the exact conditions for any consistent memory only.
- VfifoCalibrate.CalibrateVfifo: the strobe's input delay is not restored between output delays, so each search over the strobe delays starts where the last one left it; for all but the first, only the range of that delay is promised. Why the enable search failed is stated where the memory is consistent.
- VfifoCalibrate.GuaranteedRead: its retry stores every enable phase, phase 0 too; that no phase 0 is stored is promised of the enable search only.
- RunCalibration.CloseFom: the halved figures of merit are local values; the source overwrites its record with them.
- Latency.CalibrateLfifo: a latency passes or fails by itself, so the memory is consistent here.
- Microcode.Step: one instruction takes one cycle, as the formulas in the source's comments count.
- DelayLoop.DelayForMemClocks: the clock ratio is 1, so that scaling the clocks cannot overflow.
- Handshake.PendingIsHandled: the work of a command is one step; that each command ends is not part of this protocol. Answers of commands other than those in `RankMask` are free.
- RankMask.Parameters.CountRanks: counts are unbounded, and the words of the rank mask, which are only ever set, are not modelled.
- The application in `software/app`, boot code and generated headers.
