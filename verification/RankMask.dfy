/** The skip flags that the debug host sets, and what is derived from them. */
module RankMask {
  import opened Arith
  import opened Words

  const GROUP_BITS: nat := 32
  const RANKS_PER_WORD: nat := 32

  /** How many of the first n bits of x are set. */
  function SetBits(x: nat, n: nat): (r: nat)
    ensures r <= n
  {
    if n == 0 then 0 else SetBits(x, n - 1) + if Bit(x, n - 1) then 1 else 0
  }

  /** How many of the first n ranks are to be skipped. */
  function Skipped(ranks: seq<bool>, n: nat): (r: nat)
    requires n <= |ranks|
    ensures r <= n
  {
    if n == 0 then 0 else Skipped(ranks, n - 1) + if ranks[n - 1] then 1 else 0
  }

  lemma {:induction false} NoHigherBits(x: nat, w: nat, n: nat)
    requires w <= n && forall i: nat | w <= i :: !Bit(x, i)
    ensures SetBits(x, n) == SetBits(x, w)
  {
    if w < n {
      NoHigherBits(x, w, n - 1);
    }
  }

  /** The k ranks from `first` on are all to be skipped. */
  ghost predicate AllSkipped(ranks: seq<bool>, first: int, k: nat) {
    forall r | 0 <= first <= r < first + k && r < |ranks| :: ranks[r]
  }

  /** No rank from the 33rd on is to be skipped. */
  ghost predicate FirstWordOnly(ranks: seq<bool>) {
    forall r | RANKS_PER_WORD <= r < |ranks| :: !ranks[r]
  }

  lemma {:induction false} NoneSkipped(ranks: seq<bool>, m: nat, n: nat)
    requires m <= n <= |ranks|
    ensures Skipped(ranks, m) <= Skipped(ranks, n)
    ensures Skipped(ranks, m) == Skipped(ranks, n) <==> forall r | m <= r < n :: !ranks[r]
  {
    if m < n {
      NoneSkipped(ranks, m, n - 1);
    }
  }

  /** The words of the rank mask for n ranks. */
  function MaskWords(n: nat): (w: nat)
    ensures n <= w * RANKS_PER_WORD < n + RANKS_PER_WORD
  {
    (n + RANKS_PER_WORD - 1) / RANKS_PER_WORD
  }

  /** What the first w words of the mask take off the count: each all skipped ranks from its own
      first on. */
  function Discounted(ranks: seq<bool>, w: nat): int
    requires w <= MaskWords(|ranks|)
  {
    if w == 0 then 0
    else Discounted(ranks, w - 1) + Skipped(ranks, |ranks|) - Skipped(ranks, (w - 1) * RANKS_PER_WORD)
  }

  /** The count of active ranks: every skipped rank is taken off once for each word of the rank
      mask up to its own. */
  function CountedRanks(ranks: seq<bool>): int {
    |ranks| - Discounted(ranks, MaskWords(|ranks|))
  }

  lemma {:induction false} DiscountedExactly(ranks: seq<bool>, w: nat)
    requires 0 < w <= MaskWords(|ranks|)
    ensures Discounted(ranks, w) >= Skipped(ranks, |ranks|)
    ensures w == 1 ==> Discounted(ranks, w) == Skipped(ranks, |ranks|)
    ensures w >= 2 ==> (Discounted(ranks, w) == Skipped(ranks, |ranks|) <==> FirstWordOnly(ranks))
    decreases w
  {
    if w > 1 {
      DiscountedExactly(ranks, w - 1);
      NoneSkipped(ranks, (w - 1) * RANKS_PER_WORD, |ranks|);
      NoneSkipped(ranks, RANKS_PER_WORD, |ranks|);
    }
  }

  /** The count is that of the ranks not to be skipped if and only if all skipped ranks are in
      the first word. */
  lemma {:induction false} ActiveRanksExactly(ranks: seq<bool>)
    ensures CountedRanks(ranks) == |ranks| - Skipped(ranks, |ranks|) <==> FirstWordOnly(ranks)
  {
    if |ranks| > 0 {
      DiscountedExactly(ranks, MaskWords(|ranks|));
    }
  }

  /** With only the last of 33 ranks skipped, 31 are counted as active instead of 32. */
  lemma {:induction false} LastOf33(ranks: seq<bool>)
    requires |ranks| == 33 && ranks[32] && forall r | 0 <= r < 32 :: !ranks[r]
    ensures CountedRanks(ranks) == 31 && |ranks| - Skipped(ranks, |ranks|) == 32
  {
    NoneSkipped(ranks, 0, 32);
    assert Skipped(ranks, 33) == Skipped(ranks, 32) + 1;
    assert MaskWords(33) == 2;
    assert Discounted(ranks, 1) == Discounted(ranks, 0) + Skipped(ranks, 33) - Skipped(ranks, 0);
    assert Discounted(ranks, 2) == Discounted(ranks, 1) + Skipped(ranks, 33) - Skipped(ranks, 32);
  }

  datatype Command =
    | Nop
    | MarkAllGroupsValid
    | MarkGroupSkip(group: nat)
    | MarkAllRanksValid
    | MarkRankSkip(rank: nat)
    | Unknown

  class Parameters {
    const writeGroups: nat
    /** Ranks to a shadow register. */
    const share: nat
    var skipGroups: nat
    var skipRanks: seq<bool>
    var skipShadowRegs: seq<bool>
    var activeGroups: int
    var activeRanks: int

    constructor (writeGroups: nat, shadowRegs: nat, share: nat)
      requires writeGroups <= GROUP_BITS && share > 0
      ensures Valid() && Consistent()
    {
      this.writeGroups, this.share := writeGroups, share;
      skipGroups := 0;
      TimesGrows(shadowRegs, share);
      skipRanks := seq(Times(shadowRegs, share), _ => false);
      skipShadowRegs := seq(shadowRegs, _ => false);
      activeGroups, activeRanks := writeGroups, Times(shadowRegs, share);
      new;
      forall i: nat ensures !Bit(skipGroups, i) {
        BitZero(i);
      }
      NoHigherBits(skipGroups, 0, writeGroups);
      forall s: nat | s < |skipShadowRegs| ensures !AllSkipped(skipRanks, Times(s, share), share) {
        ShadowInRange(s, shadowRegs, share);
        assert !skipRanks[Times(s, share)];
      }
    }

    ghost predicate Valid()
      reads this
    {
      && writeGroups <= GROUP_BITS && share > 0
      && |skipRanks| == Times(|skipShadowRegs|, share)
      && forall i: nat | writeGroups <= i :: !Bit(skipGroups, i)
    }

    /** A shadow register is skipped exactly if all of its ranks are, and the active groups are
        those not to be skipped. */
    ghost predicate Consistent()
      reads this
    {
      && (forall s: nat | s < |skipShadowRegs| ::
            skipShadowRegs[s] <==> AllSkipped(skipRanks, Times(s, share), share))
      && activeGroups == writeGroups - SetBits(skipGroups, writeGroups)
    }

    method CountGroups()
      requires Valid()
      modifies `activeGroups
      ensures activeGroups == writeGroups - SetBits(skipGroups, writeGroups)
    {
      activeGroups := writeGroups;
      for i := 0 to GROUP_BITS
        invariant activeGroups == writeGroups - SetBits(skipGroups, i)
      {
        if Bit(skipGroups, i) {
          activeGroups := activeGroups - 1;
        }
      }
      NoHigherBits(skipGroups, writeGroups, GROUP_BITS);
    }

    method CountRanks()
      requires Valid()
      modifies `activeRanks
      ensures activeRanks == CountedRanks(skipRanks)
    {
      var n := |skipRanks|;
      activeRanks := n;
      for w := 0 to MaskWords(n)
        invariant activeRanks == n - Discounted(skipRanks, w)
      {
        var first := w * RANKS_PER_WORD;
        ghost var before := activeRanks;
        for r := first to n
          invariant activeRanks == before - (Skipped(skipRanks, r) - Skipped(skipRanks, first))
        {
          if skipRanks[r] {
            activeRanks := activeRanks - 1;
          }
        }
      }
    }

    /** Whether all ranks of the shadow register that begins at `rank` are to be skipped. */
    method AllToSkip(rank: int) returns (skip: bool)
      requires 0 <= rank <= rank + share <= |skipRanks|
      ensures skip == AllSkipped(skipRanks, rank, share)
    {
      skip := true;
      for i := 0 to share
        invariant skip && forall r | rank <= r < rank + i :: skipRanks[r]
      {
        if !skipRanks[rank + i] {
          skip := false;
          break;
        }
      }
    }

    method UpdateShadowRegs()
      requires Valid()
      modifies `skipShadowRegs
      ensures |skipShadowRegs| == |old(skipShadowRegs)|
      ensures forall s: nat | s < |skipShadowRegs| ::
                skipShadowRegs[s] <==> AllSkipped(skipRanks, Times(s, share), share)
    {
      var rank := 0;
      var count := |skipShadowRegs|;
      for s := 0 to count
        invariant |skipShadowRegs| == count && rank == Times(s, share)
        invariant forall q: nat | q < s :: skipShadowRegs[q] <==> AllSkipped(skipRanks, Times(q, share), share)
      {
        ShadowInRange(s, count, share);
        var skip := AllToSkip(rank);
        skipShadowRegs := skipShadowRegs[s := skip];
        rank := rank + share;
      }
    }

    method UpdateRankGroupMask()
      requires Valid()
      modifies `activeGroups, `activeRanks, `skipShadowRegs
      ensures Valid() && Consistent()
      ensures activeRanks == CountedRanks(skipRanks)
    {
      CountGroups();
      CountRanks();
      UpdateShadowRegs();
    }

    /** Handles one command of the debug host. Between commands the derived flags always agree
        with the flags set. */
    method Handle(c: Command) returns (legal: bool)
      requires Valid() && Consistent()
      modifies this
      ensures Valid() && Consistent()
      ensures legal <==> match c
                         case MarkGroupSkip(g) => g < writeGroups
                         case MarkRankSkip(r) => r < |old(skipRanks)|
                         case Unknown => false
                         case _ => true
      ensures skipRanks == match c
                           case MarkAllRanksValid => seq(|old(skipRanks)|, _ => false)
                           case MarkRankSkip(r) => if legal then old(skipRanks)[r := true] else old(skipRanks)
                           case _ => old(skipRanks)
      ensures forall i: nat :: Bit(skipGroups, i) <==>
                (c != MarkAllGroupsValid && Bit(old(skipGroups), i)) || (c == MarkGroupSkip(i) && legal)
    {
      match c
      case Nop =>
        legal := true;
      case MarkAllGroupsValid =>
        skipGroups := 0;
        forall i: nat ensures !Bit(skipGroups, i) {
          BitZero(i);
        }
        UpdateRankGroupMask();
        legal := true;
      case MarkGroupSkip(g) =>
        legal := g < writeGroups;
        if legal {
          forall i: nat ensures Bit(Or(skipGroups, Shl(1, g)), i) <==> Bit(skipGroups, i) || i == g {
            OneBit(g, i);
            BitOr(skipGroups, Shl(1, g), i);
          }
          skipGroups := Or(skipGroups, Shl(1, g));
          UpdateRankGroupMask();
        }
      case MarkAllRanksValid =>
        skipRanks := seq(|skipRanks|, _ => false);
        UpdateRankGroupMask();
        legal := true;
      case MarkRankSkip(r) =>
        legal := r < |skipRanks|;
        if legal {
          skipRanks := skipRanks[r := true];
          UpdateRankGroupMask();
        }
      case Unknown =>
        legal := false;
    }
  }

  lemma OneBit(g: nat, i: nat)
    ensures Bit(Shl(1, g), i) <==> i == g
  {
    BitShl(1, g, i);
    if i > g {
      BitZero(i - g - 1);
    }
  }

  /** The ranks of shadow register s are among the ranks. */
  lemma {:induction false} ShadowInRange(s: nat, n: nat, k: nat)
    requires s < n
    ensures 0 <= Times(s, k) && Times(s, k) + k <= Times(n, k)
  {
    TimesGrows(s, k);
    TimesMonotone(s + 1, n, k);
  }
}
