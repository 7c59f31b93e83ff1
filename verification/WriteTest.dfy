/** The write test as the read/write manager runs it. */
module WriteTest {
  import opened Arith
  import opened Globals
  import opened Microcode

  /** The two variants of the write test, by the address of their first instruction. */
  const LFSR_WR_RD_BANK_0_WL_1: nat := 0x21
  const LFSR_WR_RD_DM_BANK_0_WL_1: nat := 0x35

  /** Addresses of a variant relative to its first. */
  const MAIN: nat := 1
  const NOP: nat := 2
  const DQS: nat := 3
  const DATA: nat := 4
  const WAIT: nat := 17
  const AGAIN: nat := 18
  const STOP: nat := 19

  /** How many instructions carry the data of one write. */
  const BURST: nat := 4

  const REPEATS: nat := 0x40
  const READ_WAIT: nat := 0x30
  const MINUS_ONE: nat := 0xffff_ffff

  predicate IsWrite(command: nat) {
    command == AC_WRITE_NODATA || command == AC_WRITE_NODATA_WL_1
  }

  predicate IsData(command: nat) {
    command == AC_WRITE_DATA
  }

  /** The shape of a write-test variant that starts at b. */
  ghost predicate Variant(code: seq<Instruction>, b: nat) {
    && b + STOP < |code|
    && code[b].flow == code[b + MAIN].flow == JumpUnlessZero(2)
    && code[b + NOP].flow == JumpUnlessZero(3)
    && (forall a: nat | b + DQS <= a < b + WAIT :: code[a].flow == Next)
    && code[b + WAIT].flow == JumpUnlessZero(1)
    && code[b + AGAIN].flow == JumpUnlessZero(0)
    && code[b + STOP].flow == End
    && (forall a: nat | b <= a <= b + STOP :: IsWrite(code[a].command) <==> a <= b + MAIN)
    && (forall a: nat | b <= a <= b + STOP :: IsData(code[a].command) <==> b + DATA <= a < b + DATA + BURST)
  }

  /** Every data instruction of a variant uses data, and whatever uses data uses masks exactly
      in the variant `dm`. */
  ghost predicate Masking(code: seq<Instruction>, b: nat, dm: bool) {
    && b + STOP < |code|
    && forall a: nat | b <= a <= b + STOP ::
         code[a].useMask == (dm && code[a].useData) && (IsData(code[a].command) ==> code[a].useData)
  }

  /** The words of both variants; they differ only in the bits above the jump flag. */
  function Word(k: nat, dm: bool): nat {
    if k == 0 then 0xce00
    else if k == MAIN then 0xcd80
    else if k == NOP then 0xe700
    else if k == DQS then 0xc00
    else if k < DATA + BURST then (if dm then 0x30ce0 else 0x20ce0)
    else if k == 8 then 0xd00
    else if k < 13 then 0x680
    else if k == 13 then (if dm then 0x70e80 else 0x60e80)
    else if k < WAIT then (if dm then 0x71080 else 0x61080)
    else if k == WAIT then 0xa680
    else if k == AGAIN then 0x8680
    else 0x80680
  }

  lemma RomHas(k: nat)
    requires k <= STOP
    ensures ROM[LFSR_WR_RD_BANK_0_WL_1 + k] == Word(k, false)
    ensures ROM[LFSR_WR_RD_DM_BANK_0_WL_1 + k] == Word(k, true)
  {
    assert ROM[LFSR_WR_RD_BANK_0_WL_1 + k] == WRITE_WORDS[k] == Word(k, false);
    assert ROM[LFSR_WR_RD_DM_BANK_0_WL_1 + k] == WRITE_DM_WORDS[k] == Word(k, true);
  }

  function Base(testDm: bool): nat {
    if testDm then LFSR_WR_RD_DM_BANK_0_WL_1 else LFSR_WR_RD_BANK_0_WL_1
  }

  /** What instruction k of a variant does. */
  lemma WordMeans(k: nat, dm: bool)
    requires k <= STOP
    ensures var i := Decode(Word(k, dm));
      && i.flow == (if k <= MAIN then JumpUnlessZero(2)
                    else if k == NOP then JumpUnlessZero(3)
                    else if k < WAIT then Next
                    else if k == WAIT then JumpUnlessZero(1)
                    else if k == AGAIN then JumpUnlessZero(0)
                    else End)
      && (IsWrite(i.command) <==> k <= MAIN)
      && (IsData(i.command) <==> DATA <= k < DATA + BURST)
      && i.useMask == (dm && i.useData) && (IsData(i.command) ==> i.useData)
  {
  }

  lemma {:induction false} VariantOf(code: seq<Instruction>, b: nat, dm: bool)
    requires b + STOP < |code|
    requires forall a: nat | b <= a <= b + STOP :: code[a] == Decode(Word(a - b, dm))
    ensures Variant(code, b) && Masking(code, b, dm)
  {
    WordMeans(0, dm);
    WordMeans(MAIN, dm);
    WordMeans(NOP, dm);
    WordMeans(WAIT, dm);
    WordMeans(AGAIN, dm);
    WordMeans(STOP, dm);
    forall a: nat | b + DQS <= a < b + WAIT ensures code[a].flow == Next {
      WordMeans(a - b, dm);
    }
    forall a: nat | b <= a <= b + STOP
      ensures IsWrite(code[a].command) <==> a <= b + MAIN
      ensures IsData(code[a].command) <==> b + DATA <= a < b + DATA + BURST
      ensures code[a].useMask == (dm && code[a].useData) && (IsData(code[a].command) ==> code[a].useData)
    {
      WordMeans(a - b, dm);
    }
  }

  lemma {:induction false} CodeHas(a: nat, testDm: bool)
    requires Base(testDm) <= a <= Base(testDm) + STOP
    ensures a < |DecodeAll(ROM)| && DecodeAll(ROM)[a] == Decode(Word(a - Base(testDm), testDm))
  {
    RomHas(a - Base(testDm));
  }

  /** The instruction memory holds both variants, one with masks and one without. */
  lemma {:induction false} ShippedVariant(testDm: bool)
    ensures Variant(DecodeAll(ROM), Base(testDm)) && Masking(DecodeAll(ROM), Base(testDm), testDm)
  {
    var code, b := DecodeAll(ROM), Base(testDm);
    forall a: nat | b <= a <= b + STOP ensures a < |code| && code[a] == Decode(Word(a - b, testDm)) {
      CodeHas(a, testDm);
    }
    assert b + STOP < |code|;
    VariantOf(code, b, testDm);
  }

  /** The instructions between a write command and its data, for a stored number of idle
      cycles; the counter keeps its low eight bits. */
  function Lead(b: nat, nop: nat): seq<nat> {
    if nop == MINUS_ONE then []
    else if nop == 0 then [b + DQS]
    else Stay(b + NOP, (nop - 1) % 0x100 + 1) + [b + DQS]
  }

  function Entry(b: nat, nop: nat): nat {
    if nop == MINUS_ONE then b else b + MAIN
  }

  /** The data, the read back, and the wait for what is read. */
  function Tail(b: nat): seq<nat> {
    Range(b + DATA, WAIT - DATA) + Stay(b + WAIT, READ_WAIT + 1) + [b + AGAIN]
  }

  /** One write and read back. */
  function Round(b: nat, nop: nat): seq<nat> {
    [Entry(b, nop)] + Lead(b, nop) + Tail(b)
  }

  /** The counters and jump addresses for a write test. */
  ghost predicate Loaded(m: Machine, b: nat, nop: nat) {
    && m.Valid() && Variant(m.code, b)
    && m.load[0] == REPEATS && m.target[0] == Entry(b, nop)
    && m.load[1] == READ_WAIT && m.target[1] == b + WAIT
    && (nop == MINUS_ONE ==> m.target[2] == b + DATA)
    && (nop == 0 ==> m.target[2] == b + DQS)
    && (nop != MINUS_ONE && nop != 0 ==>
        m.load[2] == 0 && m.load[3] == (nop - 1) % 0x100 && m.target[3] == b + NOP)
  }

  /** The counters at the start of a round that is followed by `left` more. */
  predicate Ready(m: Machine, nop: nat, left: nat, count: seq<nat>)
    requires m.Valid()
  {
    && |count| == COUNTERS
    && count[0] == left && count[1] == m.load[1]
    && (if nop == MINUS_ONE || nop == 0 then left < count[2]
        else count[2] == m.load[2] && count[3] == m.load[3])
  }

  /** From the write command to the first data. */
  lemma {:induction false} LeadRuns(m: Machine, b: nat, nop: nat, left: nat, s: State) returns (t: State)
    requires Loaded(m, b, nop) && Ready(m, nop, left, s.count) && s.pc == Entry(b, nop) && !s.halted
    ensures Goes(m, s, [Entry(b, nop)] + Lead(b, nop), t)
    ensures !t.halted && t.pc == b + DATA && |t.count| == COUNTERS
    ensures t.count[0] == left && t.count[1] == m.load[1]
    ensures if nop == MINUS_ONE || nop == 0 then left <= t.count[2]
            else t.count[2] == m.load[2] && t.count[3] == m.load[3]
  {
    OneStep(m, s);
    var u := Step(m, s);
    if nop == MINUS_ONE {
      t := u;
      assert [Entry(b, nop)] + Lead(b, nop) == [s.pc];
    } else {
      var v := u;
      if nop != 0 {
        Spin(m, u, 3);
        v := u.(pc := b + DQS, count := u.count[3 := m.load[3]]);
        Compose(m, s, [s.pc], u, Stay(b + NOP, u.count[3] + 1), v);
      }
      OneStep(m, v);
      t := Step(m, v);
      ghost var before := [s.pc] + if nop == 0 then [] else Stay(b + NOP, (nop - 1) % 0x100 + 1);
      assert Goes(m, s, before, v) by { assert [s.pc] + [] == [s.pc]; }
      Compose(m, s, before, v, [b + DQS], t);
      assert before + [b + DQS] == [Entry(b, nop)] + Lead(b, nop);
    }
  }

  /** From the first data to the end of the round. */
  lemma {:induction false} TailRuns(m: Machine, b: nat, nop: nat, s: State) returns (t: State)
    requires Loaded(m, b, nop) && |s.count| == COUNTERS && s.count[1] == m.load[1]
    requires s.pc == b + DATA && !s.halted
    ensures Goes(m, s, Tail(b), t)
    ensures t == Step(m, s.(pc := b + AGAIN))
  {
    Straight(m, s, WAIT - DATA);
    var v := s.(pc := b + WAIT);
    Spin(m, v, 1);
    var w := s.(pc := b + AGAIN);
    assert v.count[1 := m.load[1]] == s.count;
    Compose(m, s, Range(b + DATA, WAIT - DATA), v, Stay(b + WAIT, READ_WAIT + 1), w);
    OneStep(m, w);
    t := Step(m, w);
    Compose(m, s, Range(b + DATA, WAIT - DATA) + Stay(b + WAIT, READ_WAIT + 1), w, [b + AGAIN], t);
  }

  /** One round: ready for the next, or at the end of the program. */
  lemma {:induction false} RoundRuns(m: Machine, b: nat, nop: nat, left: nat, s: State) returns (t: State)
    requires Loaded(m, b, nop) && Ready(m, nop, left, s.count) && s.pc == Entry(b, nop) && !s.halted
    ensures Goes(m, s, Round(b, nop), t) && !t.halted && |t.count| == COUNTERS
    ensures if left == 0 then t.pc == b + STOP
            else t.pc == Entry(b, nop) && Ready(m, nop, left - 1, t.count)
  {
    var u := LeadRuns(m, b, nop, left, s);
    t := TailRuns(m, b, nop, u);
    Compose(m, s, [Entry(b, nop)] + Lead(b, nop), u, Tail(b), t);
  }

  /** All rounds and the end. */
  lemma {:induction false} TestRuns(m: Machine, b: nat, nop: nat, left: nat, s: State) returns (t: State)
    requires Loaded(m, b, nop) && Ready(m, nop, left, s.count) && s.pc == Entry(b, nop) && !s.halted
    ensures Goes(m, s, Repeat(Round(b, nop), left + 1) + [b + STOP], t)
    ensures t.halted && |t.count| == COUNTERS
    decreases left
  {
    var u := RoundRuns(m, b, nop, left, s);
    var round := Round(b, nop);
    if left == 0 {
      OneStep(m, u);
      t := Step(m, u);
      Compose(m, s, round, u, [b + STOP], t);
      assert Repeat(round, 1) == round + [] == round;
    } else {
      t := TestRuns(m, b, nop, left - 1, u);
      Compose(m, s, round, u, Repeat(round, left) + [b + STOP], t);
      assert Repeat(round, left + 1) + [b + STOP] == round + (Repeat(round, left) + [b + STOP]);
    }
  }

  predicate WriteAt(code: seq<Instruction>, a: nat) {
    a < |code| && IsWrite(code[a].command)
  }

  predicate DataAt(code: seq<Instruction>, a: nat) {
    a < |code| && IsData(code[a].command)
  }

  /** After instruction i of a trace come `gap` others and then a burst of data. */
  ghost predicate DataAfter(code: seq<Instruction>, trace: seq<nat>, i: nat, gap: nat) {
    && i + gap + BURST < |trace|
    && (forall j | i < j <= i + gap :: !DataAt(code, trace[j]))
    && (forall j | i + gap < j <= i + gap + BURST :: DataAt(code, trace[j]))
  }

  /** Every write command of a trace gets its data after exactly `gap` instructions. */
  ghost predicate Timed(code: seq<Instruction>, trace: seq<nat>, gap: nat) {
    forall i: nat | i < |trace| && WriteAt(code, trace[i]) :: DataAfter(code, trace, i, gap)
  }

  /** How many write commands a trace has. */
  function Writes(code: seq<Instruction>, trace: seq<nat>): nat {
    if trace == [] then 0 else (if WriteAt(code, trace[0]) then 1 else 0) + Writes(code, trace[1..])
  }

  lemma {:induction false} WritesAdd(code: seq<Instruction>, a: seq<nat>, b: seq<nat>)
    ensures Writes(code, a + b) == Writes(code, a) + Writes(code, b)
    decreases |a|
  {
    if a == [] {
      assert a + b == b;
    } else {
      WritesAdd(code, a[1..], b);
      assert (a + b)[1..] == a[1..] + b;
    }
  }

  lemma {:induction false} NoWrites(code: seq<Instruction>, a: seq<nat>)
    requires forall i: nat | i < |a| :: !WriteAt(code, a[i])
    ensures Writes(code, a) == 0
  {
    if a != [] {
      NoWrites(code, a[1..]);
    }
  }

  lemma {:induction false} TimedAdd(code: seq<Instruction>, a: seq<nat>, b: seq<nat>, gap: nat)
    requires Timed(code, a, gap) && Timed(code, b, gap)
    ensures Timed(code, a + b, gap)
  {
    forall i: nat | i < |a + b| && WriteAt(code, (a + b)[i]) ensures DataAfter(code, a + b, i, gap) {
      if i < |a| {
        assert DataAfter(code, a, i, gap);
      } else {
        assert DataAfter(code, b, i - |a|, gap);
        assert forall j | i - |a| < j < |b| :: (a + b)[j + |a|] == b[j];
      }
    }
  }

  /** The instructions between a write command and its data. A number of idle cycles that does
      not fit the counter is cut to its low eight bits. */
  function Gap(nop: nat): nat {
    if nop == MINUS_ONE then 0
    else if nop == 0 then 1
    else (nop - 1) % 0x100 + 2
  }

  lemma {:induction false} StayAt(a: nat, n: nat, k: nat)
    requires k < n
    ensures Stay(a, n)[k] == a
  {
    if k > 0 {
      StayAt(a, n - 1, k - 1);
    }
  }

  lemma {:induction false} RangeAt(a: nat, n: nat, k: nat)
    requires k < n
    ensures Range(a, n)[k] == a + k
    decreases n
  {
    if k > 0 {
      RangeAt(a + 1, n - 1, k - 1);
    }
  }

  /** The lead holds neither write command nor data. */
  lemma LeadIsIdle(code: seq<Instruction>, b: nat, nop: nat, i: nat)
    requires Variant(code, b) && i < |Lead(b, nop)|
    ensures !WriteAt(code, Lead(b, nop)[i]) && !DataAt(code, Lead(b, nop)[i])
  {
    if nop != 0 && i < |Lead(b, nop)| - 1 {
      StayAt(b + NOP, |Lead(b, nop)| - 1, i);
    }
  }

  /** The tail starts with the data and holds no write command. */
  lemma TailStartsWithData(code: seq<Instruction>, b: nat, i: nat)
    requires Variant(code, b) && i < |Tail(b)|
    ensures !WriteAt(code, Tail(b)[i])
    ensures i < BURST ==> DataAt(code, Tail(b)[i])
  {
    var n := WAIT - DATA;
    if i < n {
      RangeAt(b + DATA, n, i);
    } else if i < n + READ_WAIT + 1 {
      StayAt(b + WAIT, READ_WAIT + 1, i - n);
    }
  }

  lemma {:induction false} RoundIsTimed(code: seq<Instruction>, b: nat, nop: nat)
    requires Variant(code, b)
    ensures Timed(code, Round(b, nop), |Lead(b, nop)|) && Writes(code, Round(b, nop)) == 1
  {
    var round, lead, tail := Round(b, nop), Lead(b, nop), Tail(b);
    forall i: nat | i < |lead| ensures !WriteAt(code, lead[i]) && !DataAt(code, lead[i]) {
      LeadIsIdle(code, b, nop, i);
    }
    forall i: nat | i < |tail| ensures !WriteAt(code, tail[i]) && (i < BURST ==> DataAt(code, tail[i])) {
      TailStartsWithData(code, b, i);
    }
    assert round == [Entry(b, nop)] + (lead + tail);
    WritesAdd(code, [Entry(b, nop)], lead + tail);
    NoWrites(code, lead + tail);
    assert DataAfter(code, round, 0, |lead|);
  }

  lemma {:induction false} RoundsAreTimed(code: seq<Instruction>, b: nat, nop: nat, n: nat)
    requires Variant(code, b)
    ensures Timed(code, Repeat(Round(b, nop), n) + [b + STOP], |Lead(b, nop)|)
    ensures Writes(code, Repeat(Round(b, nop), n) + [b + STOP]) == n
  {
    var round := Round(b, nop);
    if n == 0 {
      assert Repeat(round, 0) + [b + STOP] == [b + STOP];
    } else {
      RoundIsTimed(code, b, nop);
      RoundsAreTimed(code, b, nop, n - 1);
      var rest := Repeat(round, n - 1) + [b + STOP];
      assert Repeat(round, n) + [b + STOP] == round + rest;
      TimedAdd(code, round, rest, |Lead(b, nop)|);
      WritesAdd(code, round, rest);
    }
  }

  /** A trace with a write command is timed for one gap only. */
  lemma GapIsUnique(code: seq<Instruction>, trace: seq<nat>, gap: nat, other: nat)
    requires Timed(code, trace, gap) && Timed(code, trace, other) && Writes(code, trace) > 0
    ensures gap == other
  {
    if forall i: nat | i < |trace| :: !WriteAt(code, trace[i]) {
      NoWrites(code, trace);
    } else {
      var i: nat :| i < |trace| && WriteAt(code, trace[i]);
      assert DataAfter(code, trace, i, gap) && DataAfter(code, trace, i, other);
      assert DataAt(code, trace[i + gap + 1]) && DataAt(code, trace[i + other + 1]);
    }
  }

  /** The write test runs at the write latency set up for the PHY, the stored number of idle
      cycles plus one, exactly if that latency is at most 257. */
  lemma GapIsWriteLatency(nop: nat, afiWlat: nat)
    requires nop <= MINUS_ONE && afiWlat == Wrap32(nop + 1)
    ensures Gap(nop) == afiWlat <==> afiWlat <= 257
  {
  }

  /** A write latency of 258 is stored as 257 idle cycles, which the counter cuts to 1: the data
      come after 2 instructions. */
  lemma LatencyTooLong()
    ensures Wrap32(257 + 1) == 258 && Gap(257) == 2
  {
  }

  /** All instructions of a run are those of the variant at b. */
  ghost predicate Within(run: seq<nat>, b: nat) {
    forall i: nat | i < |run| :: b <= run[i] <= b + STOP
  }

  lemma {:induction false} RoundWithin(b: nat, nop: nat)
    ensures Within(Round(b, nop), b)
  {
    var lead, tail := Lead(b, nop), Tail(b);
    forall i: nat | i < |lead| ensures b <= lead[i] <= b + STOP {
      if nop != 0 && i < |lead| - 1 {
        StayAt(b + NOP, |lead| - 1, i);
      }
    }
    var n := WAIT - DATA;
    forall i: nat | i < |tail| ensures b <= tail[i] <= b + STOP {
      if i < n {
        RangeAt(b + DATA, n, i);
      } else if i < n + READ_WAIT + 1 {
        StayAt(b + WAIT, READ_WAIT + 1, i - n);
      }
    }
  }

  lemma {:induction false} RoundsWithin(b: nat, nop: nat, n: nat)
    ensures Within(Repeat(Round(b, nop), n) + [b + STOP], b)
  {
    if n > 0 {
      RoundWithin(b, nop);
      RoundsWithin(b, nop, n - 1);
      assert Repeat(Round(b, nop), n) + [b + STOP] == Round(b, nop) + (Repeat(Round(b, nop), n - 1) + [b + STOP]);
    }
  }

  /** Every data instruction of a trace uses data, and whatever uses data uses masks exactly if
      they are to be tested. */
  ghost predicate Masked(code: seq<Instruction>, trace: seq<nat>, testDm: bool) {
    forall i: nat | i < |trace| && trace[i] < |code| ::
      && code[trace[i]].useMask == (testDm && code[trace[i]].useData)
      && (DataAt(code, trace[i]) ==> code[trace[i]].useData)
  }

  /** The data word of the masked variant has both bits, that of the other one only bit 17. */
  lemma MaskBits()
    ensures Decode(0x30ce0).useData && Decode(0x30ce0).useMask
    ensures Decode(0x20ce0).useData && !Decode(0x20ce0).useMask
  {
  }

  /** Sets up the counters and jumps that place the data after the write command. */
  method LoadIdleCycles(m: RwManager, nop: nat, b: nat) returns (entry: nat)
    requires m.Valid()
    modifies m
    ensures m.Valid() && m.trace == old(m.trace)
    ensures entry == Entry(b, nop)
    ensures nop == MINUS_ONE ==>
      m.target == old(m.target)[2 := b + DATA][3 := b + NOP] && m.count == old(m.count)[2 := 0xff]
    ensures nop == 0 ==> m.target == old(m.target)[2 := b + DQS] && m.count == old(m.count)[2 := 0xff]
    ensures nop != MINUS_ONE && nop != 0 ==>
      && m.target == old(m.target)[2 := 0][3 := b + NOP]
      && m.load == old(m.load)[2 := 0][3 := (nop - 1) % 0x100]
      && m.count == old(m.count)[2 := 0][3 := (nop - 1) % 0x100]
  {
    if nop == MINUS_ONE {
      m.LoadCounter(2, 0xff);
      entry := b;
      m.LoadJump(2, b + DATA);
      m.LoadJump(3, b + NOP);
    } else if nop == 0 {
      m.LoadCounter(2, 0xff);
      entry := b + MAIN;
      m.LoadJump(2, b + DQS);
    } else {
      m.LoadCounter(2, 0);
      m.LoadJump(2, 0);
      m.LoadCounter(3, nop - 1);
      entry := b + MAIN;
      m.LoadJump(3, b + NOP);
    }
  }

  /** Sets up the counters and jumps that repeat the test and wait for its reads. */
  method LoadRepeats(m: RwManager, entry: nat, b: nat)
    requires m.Valid()
    modifies m
    ensures m.Valid() && m.trace == old(m.trace)
    ensures m.load == old(m.load)[0 := REPEATS][1 := READ_WAIT]
    ensures m.count == old(m.count)[0 := REPEATS][1 := READ_WAIT]
    ensures m.target == old(m.target)[0 := entry][1 := b + WAIT]
  {
    m.LoadCounter(0, REPEATS);
    m.LoadJump(0, entry);
    m.LoadCounter(1, READ_WAIT);
    m.LoadJump(1, b + WAIT);
  }

  /** Runs the write test that is set up. */
  method RunWriteTest(m: RwManager, entry: nat, ghost nop: nat, ghost b: nat) returns (ghost run: seq<nat>)
    requires m.Valid() && Loaded(m.Now(), b, nop) && Ready(m.Now(), nop, REPEATS, m.count) && entry == Entry(b, nop)
    modifies m
    ensures m.Valid() && m.trace == old(m.trace) + run
    ensures Writes(m.code, run) == REPEATS + 1
    ensures Timed(m.code, run, Gap(nop)) && Within(run, b)
  {
    ghost var end := TestRuns(m.Now(), b, nop, REPEATS, State(entry, m.count, false));
    run := Repeat(Round(b, nop), REPEATS + 1) + [b + STOP];
    RoundsAreTimed(m.code, b, nop, REPEATS + 1);
    RoundsWithin(b, nop, REPEATS + 1);
    m.Run(entry, run, end);
  }

  /** Sets up and runs the write test of a group: 65 writes, all with their data after the same
      number of instructions, and with data masks exactly if they are to be tested. */
  method WriteTestIssue(m: RwManager, gbl: Gbl, testDm: bool) returns (ghost run: seq<nat>)
    requires m.Valid() && Variant(m.code, Base(testDm)) && Masking(m.code, Base(testDm), testDm)
    requires gbl.rwWlNopCycles <= MINUS_ONE
    modifies m
    ensures m.Valid() && m.trace == old(m.trace) + run
    ensures Writes(m.code, run) == REPEATS + 1
    ensures Timed(m.code, run, Gap(gbl.rwWlNopCycles)) && Masked(m.code, run, testDm)
  {
    var entry := LoadIdleCycles(m, gbl.rwWlNopCycles, Base(testDm));
    LoadRepeats(m, entry, Base(testDm));
    run := RunWriteTest(m, entry, gbl.rwWlNopCycles, Base(testDm));
  }
}
