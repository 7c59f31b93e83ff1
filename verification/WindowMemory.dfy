/** A memory made of windows: one for the strobe enable, one for every bit in either direction,
    and one for the mask. With windows that fit, no calibration of its group fails. */
module WindowMemory {
  import opened Arith
  import opened Hardware
  import opened Sweep
  import opened Placement
  import opened ReadDeskew
  import opened DqsEnable
  import opened IntervalWindow
  import opened AttemptSpec
  import opened GroupSpec
  import opened RunSpec
  import DmSearch

  /** Reads are enabled at delays in [a, b], give or take whole turns of the FIFO. Bit i is read
      where read strobe minus data delay lies in rs[i], and written where write strobe minus data
      delay lies in ws[i]. The mask works where write strobe minus mask delay lies in m. */
  datatype Windows = Windows(a: int, b: int, rs: seq<Window>, ws: seq<Window>, m: Window)

  predicate Enabled(c: Config, v: Windows, s: Settings)
    requires Turn(c) > 0
  {
    Wrap(Ps(c, Pos(s.vfifo, s.enPhase, s.enDelay)) - v.a, Turn(c)) <= v.b - v.a
  }

  predicate Reads(c: Config, v: Windows, s: Settings, i: nat)
    requires Turn(c) > 0
  {
    Enabled(c, v, s) && i < |v.rs| && i < |s.dqIn| && v.rs[i].Has(s.dqsIn - s.dqIn[i])
  }

  /** What is written can only be seen by reading it back. */
  predicate Writes(c: Config, v: Windows, s: Settings, i: nat)
    requires Turn(c) > 0
  {
    Reads(c, v, s, i) && i < |v.ws| && i < |s.dqOut| && v.ws[i].Has(s.dqsOut - s.dqOut[i])
  }

  predicate Masks(c: Config, v: Windows, s: Settings)
    requires Turn(c) > 0
  {
    (forall i: nat | i < c.dqPerDqs :: Writes(c, v, s, i)) && v.m.Has(s.dqsOut - s.dmOut)
  }

  /** The memory with these windows; the guaranteed read, which needs no enable, is given. */
  function MemoryOf(c: Config, v: Windows, patterns: (nat, Settings) -> bool): Memory
    requires Turn(c) > 0
  {
    Memory((t, s, i: nat) => Reads(c, v, s, i), (t, s, i: nat) => Writes(c, v, s, i), (t, s) => Masks(c, v, s),
           patterns)
  }

  ghost predicate IsMemory(c: Config, v: Windows, mem: Memory) {
    && c.Valid() && Turn(c) > 0 && |v.rs| == |v.ws| == c.dqPerDqs
    && mem == MemoryOf(c, v, mem.patterns)
  }

  // ---------- the assumptions of the other proofs hold of it ----------

  /** The offset model, at any settings: a bit that cannot be read at all has an empty window. */
  lemma {:induction false} ReadsBackModelled(c: Config, v: Windows, mem: Memory)
    requires IsMemory(c, v, mem)
    ensures Modelled(c, mem, ReadAfterWrite) && Modelled(c, mem, Read)
  {
    forall base: Settings ensures Separable(c, mem, ReadAfterWrite, base) && Separable(c, mem, Read, base) {
      var on := Enabled(c, v, base);
      var ws := seq(c.dqPerDqs, i requires 0 <= i < c.dqPerDqs =>
        if on && i < |base.dqOut| && v.ws[i].Has(base.dqsOut - base.dqOut[i]) then v.rs[i] else Window(1, 0));
      var rs := seq(c.dqPerDqs, i requires 0 <= i < c.dqPerDqs => if on then v.rs[i] else Window(1, 0));
      assert OffsetModel(c, mem, ReadAfterWrite, base, ws);
      assert OffsetModel(c, mem, Read, base, rs);
    }
  }

  lemma {:induction false} MasksModelled(c: Config, v: Windows, mem: Memory)
    requires IsMemory(c, v, mem)
    ensures MaskModelled(c, mem)
  {
    forall s: Settings, x: int, q: seq<int> |
      mem.dmBits(0, s) && AllPass(c, mem, ReadAfterWrite, s.(dqsIn := x, dqIn := q))
      ensures mem.dmBits(0, s.(dqsIn := x, dqIn := q))
    {
      forall i: nat | i < c.dqPerDqs ensures Writes(c, v, s.(dqsIn := x, dqIn := q), i) {
        assert Bit(mem, ReadAfterWrite, 0, s.(dqsIn := x, dqIn := q), i);
      }
    }
  }

  // ---------- read calibration ----------

  /** Whether windows fit depends on the chains and the strobe only. */
  lemma {:induction false} SameFit(run: Run, other: Run, ws: seq<Window>)
    requires other.c == run.c && other.side == run.side && Dqs(run.side, other.base) == Dqs(run.side, run.base)
    requires WindowsFit(run, ws)
    ensures WindowsFit(other, ws)
  {
    var es := VisibleEdges(run, ws);
    assert VisibleEdges(other, ws) == es;
    forall i: nat | i < |es| ensures Shift(other, es, i) == Shift(run, es, i) {
    }
  }

  /** With reads enabled the read windows are those of the memory. */
  lemma {:induction false} EnabledReads(c: Config, v: Windows, mem: Memory, s: Settings)
    requires IsMemory(c, v, mem) && Enabled(c, v, s)
    ensures OffsetModel(c, mem, Read, s, v.rs)
  {
  }

  /** A passing test shows that reads are enabled. */
  lemma {:induction false} PassingIsEnabled(c: Config, v: Windows, mem: Memory, s: Settings)
    requires IsMemory(c, v, mem) && EnablePasses(c, mem, s)
    ensures Enabled(c, v, s)
  {
    var t: nat :| AnyBit(c, mem, t, s);
    var i: nat :| i < c.dqPerDqs && Bit(mem, Read, t, s, i);
    assert Reads(c, v, s, i);
  }

  /** With the data spread, some bit is within its window at the strobe delay `start`. */
  ghost predicate Catches(c: Config, v: Windows, start: int)
    requires c.Valid()
  {
    exists i: nat :: i < |v.rs| && i < |Spread(c)| && v.rs[i].Has(start - Spread(c)[i])
  }

  /** The enable search sees the interval. */
  lemma {:induction false} SearchSeesInterval(c: Config, v: Windows, mem: Memory, s: Settings)
    requires IsMemory(c, v, mem) && Wide(c, v.a, v.b) && s.dqIn == Spread(c) && Catches(c, v, s.dqsIn)
    ensures FitsInterval(c, mem, s)
  {
    var i: nat :| i < |v.rs| && i < |Spread(c)| && v.rs[i].Has(s.dqsIn - Spread(c)[i]);
    forall t: nat, x: int, q: int, e: int
      ensures AnyBit(c, mem, t, s.(vfifo := x, enPhase := q, enDelay := e)) <==>
              Wrap(Ps(c, Pos(x, q, e)) - v.a, Turn(c)) <= v.b - v.a
    {
      var r := s.(vfifo := x, enPhase := q, enDelay := e);
      if Enabled(c, v, r) {
        assert Bit(mem, Read, t, r, i);
      } else {
        assert forall j: nat :: !Bit(mem, Read, t, r, j);
      }
    }
    assert WorksInInterval(c, mem, s, v.a, v.b);
  }

  /** Read calibration of such a memory fits, if its read windows do, the data spread meets one
      of them, and the guaranteed read passes. */
  lemma {:induction false} ReadsFit(c: Config, v: Windows, mem: Memory, start: Settings, m: Mode)
    requires IsMemory(c, v, mem) && Wide(c, v.a, v.b) && Catches(c, v, start.dqsIn)
    requires WindowsFit(Run(c, mem, Read, start, 0), v.rs)
    requires m.guaranteed ==> forall t: nat :: mem.patterns(t, start.(outPhase := 0))
    ensures VfifoFits(c, mem, start, m)
  {
    var base := start.(outPhase := 0);
    SearchSeesInterval(c, v, mem, base.(dqsIn := start.dqsIn, dqIn := Spread(c)));
    forall r: Settings |
      && SameOutputs(base, r) && r.dqsIn == start.dqsIn && r.dqIn == Uniform(c.dqPerDqs, 0)
      && EnablePasses(c, mem, r.(dqIn := Spread(c)))
      ensures DeskewFits(c, mem, Read, r)
    {
      PassingIsEnabled(c, v, mem, r.(dqIn := Spread(c)));
      EnabledReads(c, v, mem, r);
      SameFit(Run(c, mem, Read, start, 0), Run(c, mem, Read, r, 0), v.rs);
    }
  }

  // ---------- write calibration and the read deskew after it ----------

  ghost predicate ReadsAll(c: Config, v: Windows, s: Settings)
    requires Turn(c) > 0
  {
    forall i: nat | i < c.dqPerDqs :: Reads(c, v, s, i)
  }

  lemma {:induction false} PassingReads(c: Config, v: Windows, mem: Memory, ready: Settings, s: Settings)
    requires IsMemory(c, v, mem) && AllPass(c, mem, Read, ready) && SameInputSide(ready, s)
    ensures ReadsAll(c, v, s)
  {
    forall i: nat | i < c.dqPerDqs ensures Reads(c, v, s, i) {
      assert Bit(mem, Read, 0, ready, i);
    }
  }

  /** After read calibration every bit is read. */
  lemma {:induction false} AfterReadReads(c: Config, v: Windows, mem: Memory, start: Settings, m: Mode, s: Settings)
    requires IsMemory(c, v, mem) && AfterRead(c, mem, start, m, s) && !m.skip
    ensures ReadsAll(c, v, s)
  {
    ReadsBackModelled(c, v, mem);
    var ready := AfterReadInputs(c, mem, start, m, s);
    PassingReads(c, v, mem, ready, s);
  }

  /** Then the write windows are those of the memory. */
  lemma {:induction false} WritesSeen(c: Config, v: Windows, mem: Memory, s: Settings)
    requires IsMemory(c, v, mem) && ReadsAll(c, v, s)
    ensures OffsetModel(c, mem, Write, s, v.ws)
  {
    forall t: nat, strobe: int, data: seq<int>, i: nat | |data| == c.dqPerDqs && i < |v.ws|
      ensures Bit(mem, Write, t, WithDqs(Write, WithDq(Write, s, data), strobe), i) == v.ws[i].Has(strobe - data[i])
    {
      assert Reads(c, v, s, i);
    }
  }

  /** The last offset at which all of the first k bits are still written, with data delays q. */
  function LastWritten(ws: seq<Window>, q: seq<int>, k: nat): int
    requires 0 < k <= |ws| && k <= |q|
  {
    var last := ws[k - 1].b + q[k - 1];
    if k == 1 then last else Min(LastWritten(ws, q, k - 1), last)
  }

  lemma {:induction false} LastWrittenIsLast(ws: seq<Window>, q: seq<int>, k: nat, x: int)
    requires 0 < k <= |ws| && k <= |q|
    ensures x <= LastWritten(ws, q, k) <==> forall i: nat | i < k :: x - q[i] <= ws[i].b
  {
    if k > 1 {
      LastWrittenIsLast(ws, q, k - 1, x);
    }
  }

  /** The mask window reaches from at or before the place of the write strobe back to within the
      chain. */
  predicate MaskReaches(c: Config, v: Windows, dqsOut: int) {
    !v.m.Empty() && v.m.a <= dqsOut && dqsOut - c.ioOut1DelayMax <= v.m.b
  }

  /** With every bit written, the offsets at which the mask works are one interval: it ends
      where the mask fails, or where the strobe leaves the data behind. */
  lemma {:induction false} MaskSeen(c: Config, v: Windows, mem: Memory, s: Settings, q: seq<int>)
    requires IsMemory(c, v, mem) && ReadsAll(c, v, s) && Orderly(c, s) && MaskReaches(c, v, s.dqsOut)
    requires |q| == c.dqPerDqs && AllPass(c, mem, Write, s.(dqOut := q))
    ensures exists m :: MaskWindow(DmSearch.Search(c, mem, s.(dqOut := q)), m)
  {
    var search := DmSearch.Search(c, mem, s.(dqOut := q));
    var last := LastWritten(v.ws, q, c.dqPerDqs);
    var m := Window(v.m.a - s.dqsOut, Min(v.m.b, last) - s.dqsOut);
    forall i: nat | i < c.dqPerDqs ensures Reads(c, v, s, i) && v.ws[i].Has(s.dqsOut - q[i]) {
      assert Bit(mem, Write, 0, s.(dqOut := q), i);
    }
    LastWrittenIsLast(v.ws, q, c.dqPerDqs, s.dqsOut);
    forall t: nat, x: int | search.First() <= x <= search.Last() ensures mem.dmBits(t, search.At(x)) == m.Has(x) {
      MaskAt(c, v, s, q, x, search.At(x));
    }
    assert MaskWindow(search, m);
  }

  lemma {:induction false} MaskAt(c: Config, v: Windows, s: Settings, q: seq<int>, x: int, r: Settings)
    requires c.Valid() && Turn(c) > 0 && |v.rs| == |v.ws| == |q| == c.dqPerDqs && ReadsAll(c, v, s)
    requires forall i: nat | i < c.dqPerDqs :: v.ws[i].Has(s.dqsOut - q[i])
    requires r == if x <= 0 then s.(dqOut := q, dmOut := -x)
                  else s.(dqOut := q, dmOut := 0, dqsOut := s.dqsOut + x, octOut := s.dqsOut + x)
    ensures Masks(c, v, r) <==> v.m.a <= s.dqsOut + x <= Min(v.m.b, LastWritten(v.ws, q, c.dqPerDqs))
  {
    LastWrittenIsLast(v.ws, q, c.dqPerDqs, s.dqsOut);
    LastWrittenIsLast(v.ws, q, c.dqPerDqs, s.dqsOut + x);
    forall i: nat | i < c.dqPerDqs
      ensures Writes(c, v, r, i) <==> x <= 0 || s.dqsOut + x - q[i] <= v.ws[i].b
    {
      assert Reads(c, v, s, i) && Reads(c, v, r, i);
    }
  }

  /** After the writes the read windows are seen through them. */
  lemma {:induction false} ReadsBackSeen(c: Config, v: Windows, mem: Memory, start: Settings, m: Mode, s: Settings)
    requires IsMemory(c, v, mem) && AfterWrites(c, mem, start, m, s) && !m.skip
    ensures OffsetModel(c, mem, ReadAfterWrite, s, v.rs) && 0 <= s.dqsIn <= c.dqsInDelayMax
  {
    var base :| WrittenFrom(c, mem, start, m, base, s);
    AfterReadReads(c, v, mem, start, m, base);
    WrittenReadsBack(c, v, mem, base, s);
  }

  lemma {:induction false} WrittenReadsBack(c: Config, v: Windows, mem: Memory, base: Settings, s: Settings)
    requires IsMemory(c, v, mem) && ReadsAll(c, v, base) && s == base.(dqOut := s.dqOut, dmOut := s.dmOut)
    requires |s.dqOut| == c.dqPerDqs && AllPass(c, mem, Write, base.(dqOut := s.dqOut))
    ensures OffsetModel(c, mem, ReadAfterWrite, s, v.rs)
  {
    forall i: nat | i < c.dqPerDqs
      ensures Enabled(c, v, base) && v.ws[i].Has(s.dqsOut - s.dqOut[i])
    {
      assert Reads(c, v, base, i) && Bit(mem, Write, 0, base.(dqOut := s.dqOut), i);
    }
    assert Reads(c, v, base, 0);
    forall t: nat, strobe: int, data: seq<int>, i: nat | |data| == c.dqPerDqs && i < c.dqPerDqs
      ensures Bit(mem, ReadAfterWrite, t, s.(dqIn := data, dqsIn := strobe), i) == v.rs[i].Has(strobe - data[i])
    {
      assert Enabled(c, v, s.(dqIn := data, dqsIn := strobe)) && v.ws[i].Has(s.dqsOut - s.dqOut[i]);
    }
  }

  /** The calibration of a group in front of such a memory fits, if besides its write windows do
      and its mask's reaches, and its read windows fit from wherever the strobe is put. */
  lemma {:induction false} WindowsCalibrate(c: Config, v: Windows, mem: Memory, start: Settings, m: Mode)
    requires IsMemory(c, v, mem) && Wide(c, v.a, v.b) && Catches(c, v, start.dqsIn)
    requires m.guaranteed ==> forall t: nat :: mem.patterns(t, start.(outPhase := 0))
    requires start.dqsOut == start.octOut == c.dqsOutReserve && 0 <= start.dqsIn <= c.dqsInDelayMax
    requires forall x | 0 <= x <= c.dqsInDelayMax :: ReadsFitFrom(c, v, mem, start, x)
    requires WindowsFit(Run(c, mem, Write, start, 0), v.ws) && MaskReaches(c, v, start.dqsOut)
    ensures GroupFits(c, mem, m, start)
  {
    assert ReadsFitFrom(c, v, mem, start, start.dqsIn);
    SameFit(Run(c, mem, ReadAfterWrite, start.(dqsIn := start.dqsIn), 0), Run(c, mem, ReadAfterWrite, start, 0), v.rs);
    SameSideFit(Run(c, mem, ReadAfterWrite, start, 0), Run(c, mem, Read, start, 0), v.rs);
    ReadsFit(c, v, mem, start, m);
    forall s: Settings | AfterRead(c, mem, start, m, s) && !m.skip
      ensures DeskewFits(c, mem, Write, s) && MaskFits(c, mem, s)
    {
      AfterReadReads(c, v, mem, start, m, s);
      AfterReadOutputs(c, mem, start, m, s);
      WritesSeen(c, v, mem, s);
      SameFit(Run(c, mem, Write, start, 0), Run(c, mem, Write, s, 0), v.ws);
      forall q: seq<int> | |q| == c.dqPerDqs && AllPass(c, mem, Write, s.(dqOut := q))
        ensures exists w :: MaskWindow(DmSearch.Search(c, mem, s.(dqOut := q)), w)
      {
        MaskSeen(c, v, mem, s, q);
      }
    }
    forall s: Settings | AfterWrites(c, mem, start, m, s) && !m.skip ensures DeskewFits(c, mem, ReadAfterWrite, s) {
      ReadsBackSeen(c, v, mem, start, m, s);
      assert ReadsFitFrom(c, v, mem, start, s.dqsIn);
      SameFit(Run(c, mem, ReadAfterWrite, start.(dqsIn := s.dqsIn), 0), Run(c, mem, ReadAfterWrite, s, 0), v.rs);
    }
  }

  ghost predicate ReadsFitFrom(c: Config, v: Windows, mem: Memory, start: Settings, x: int) {
    WindowsFit(Run(c, mem, ReadAfterWrite, start.(dqsIn := x), 0), v.rs)
  }

  /** The two read deskews have the same chains. */
  lemma {:induction false} SameSideFit(run: Run, other: Run, ws: seq<Window>)
    requires other == run.(side := Read) && run.side == ReadAfterWrite && WindowsFit(run, ws)
    ensures WindowsFit(other, ws)
  {
    var es := VisibleEdges(run, ws);
    assert VisibleEdges(other, ws) == es;
    forall i: nat | i < |es| ensures Shift(other, es, i) == Shift(run, es, i) {
    }
  }

  // ---------- in the shipped configuration ----------

  /** Windows that the shipped chains can centre: read windows within the strobe chain, write
      windows centred at or before the place of the write strobe. */
  predicate ShippedWindows(v: Windows) {
    && |v.rs| == |v.ws| == 8 && Wide(SHIPPED, v.a, v.b)
    && (forall i: nat | i < 8 :: 0 <= v.rs[i].a <= v.rs[i].b <= 31) && v.rs[0].Has(4)
    && (forall i: nat | i < 8 :: -27 <= v.ws[i].a <= v.ws[i].b <= 31 && 0 <= v.ws[i].b && v.ws[i].a + v.ws[i].b <= 8)
    && !v.m.Empty() && v.m.a <= 4 && -27 <= v.m.b
  }

  /** The reads fit from every strobe delay. */
  lemma {:induction false} ShippedReadsFit(run: Run, v: Windows)
    requires ShippedWindows(v) && run.c == SHIPPED && run.side == ReadAfterWrite && 0 <= run.base.dqsIn <= 31
    ensures WindowsFit(run, v.rs)
  {
    var es := VisibleEdges(run, v.rs);
    var x := run.base.dqsIn;
    MinMidIsLeast(es);
    HalfIsCeiling(MinMid(es));
    forall i: nat | i < 8
      ensures es[i] == Edges(x - v.rs[i].a, v.rs[i].b - x) && DataFits(run, es, i)
    {
      assert Mid(es[i]) >= MinMid(es);
    }
  }

  lemma {:induction false} ShippedWritesFit(run: Run, v: Windows)
    requires ShippedWindows(v) && run.c == SHIPPED && run.side == Write && run.base.dqsOut == 4
    ensures WindowsFit(run, v.ws)
  {
    var es := VisibleEdges(run, v.ws);
    MinMidIsLeast(es);
    HalfIsCeiling(MinMid(es));
    forall i: nat | i < 8 ensures DataFits(run, es, i) && es[i].left + es[i].right >= 0 && es[i].right != 32 {
      assert Mid(es[i]) >= MinMid(es);
    }
  }

  /** From the settings after the reset, a memory with such windows calibrates. */
  lemma {:induction false} ShippedCalibrates(v: Windows, mem: Memory, start: Settings, m: Mode)
    requires IsMemory(SHIPPED, v, mem) && ShippedWindows(v)
    requires m.guaranteed ==> forall t: nat :: mem.patterns(t, start.(outPhase := 0))
    requires start.dqsIn == start.dqsOut == start.octOut == 4
    ensures GroupFits(SHIPPED, mem, m, start)
  {
    assert Catches(SHIPPED, v, 4) by {
      assert v.rs[0].Has(4 - Spread(SHIPPED)[0]);
    }
    forall x | 0 <= x <= 31 ensures ReadsFitFrom(SHIPPED, v, mem, start, x) {
      ShippedReadsFit(Run(SHIPPED, mem, ReadAfterWrite, start.(dqsIn := x), 0), v);
    }
    ShippedWritesFit(Run(SHIPPED, mem, Write, start, 0), v);
    WindowsCalibrate(SHIPPED, v, mem, start, m);
  }

  /** Whatever the registers of an interface are before a run, if there are such memories behind
      all its groups, the run finds memories that fit. */
  lemma {:induction false} ShippedRunFits(groups: seq<DqsGroup>, vs: seq<Windows>, skipGroups: nat, m: Mode,
                                          before: seq<Settings>)
    requires |vs| == |groups| == |before|
    requires forall i: nat | i < |groups| :: IsMemory(SHIPPED, vs[i], groups[i].mem) && ShippedWindows(vs[i])
    requires m.guaranteed ==> forall i: nat, t: nat, r: Settings | i < |groups| :: groups[i].mem.patterns(t, r)
    ensures AllFit(groups, SHIPPED, skipGroups, m, AllReset(SHIPPED, before))
  {
    forall i: nat | i < |groups|
      ensures GroupFits(SHIPPED, groups[i].mem, m, GroupReset(SHIPPED, AllReset(SHIPPED, before)[i]))
    {
      ShippedCalibrates(vs[i], groups[i].mem, GroupReset(SHIPPED, AllReset(SHIPPED, before)[i]), m);
    }
  }
}
