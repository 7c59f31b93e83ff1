/** Which groups a calibration run visits. */
module Groups {
  import opened Arith
  import opened Words
  import opened DqsEnable

  const WORD: nat := 32

  /** The first read group of write group g, when W write groups share R read groups. */
  function FirstRead(g: nat, R: nat, W: nat): nat
    requires W > 0
  {
    g * R / W
  }

  lemma {:induction false} DivMonotone(x: nat, y: nat, m: nat)
    requires m > 0 && x <= y
    ensures x / m <= y / m
  {
    assert x == x / m * m + x % m && y == y / m * m + y % m;
    Cancel(x / m, y / m + 1, m);
  }

  lemma {:induction false} FirstReadMonotone(g: nat, h: nat, R: nat, W: nat)
    requires W > 0 && g <= h
    ensures FirstRead(g, R, W) <= FirstRead(h, R, W)
  {
    assert (h - g) * R >= 0;
    DivMonotone(g * R, h * R, W);
  }

  predicate ReadGroupOf(r: nat, g: nat, R: nat, W: nat)
    requires W > 0
  {
    FirstRead(g, R, W) <= r < FirstRead(g + 1, R, W)
  }

  /** The ranges of read groups of the write groups partition the read groups, even if W does
      not divide R. */
  lemma ReadGroupsPartition(R: nat, W: nat, r: nat) returns (g: nat)
    requires W > 0 && r < R
    ensures g < W && ReadGroupOf(r, g, R, W)
    ensures forall h: nat | h < W && ReadGroupOf(r, h, R, W) :: h == g
  {
    assert FirstRead(0, R, W) == 0;
    assert FirstRead(W, R, W) == R by { ModUnique(W * R, W, R, 0); }
    g := 0;
    while FirstRead(g + 1, R, W) <= r
      invariant g < W && FirstRead(g, R, W) <= r
      decreases W - g
    {
      g := g + 1;
    }
    forall h: nat | h < W && ReadGroupOf(r, h, R, W) ensures h == g {
      if h < g {
        FirstReadMonotone(h + 1, g, R, W);
      } else if g < h {
        FirstReadMonotone(g + 1, h, R, W);
      }
    }
  }

  /** No read group beyond the last is visited. */
  lemma {:induction false} ReadGroupsInRange(R: nat, W: nat, r: nat, g: nat)
    requires W > 0 && g < W && ReadGroupOf(r, g, R, W)
    ensures r < R
  {
    assert FirstRead(W, R, W) == R by { ModUnique(W * R, W, R, 0); }
    FirstReadMonotone(g + 1, W, R, W);
  }

  /** Every write group gets its share of the read groups, to within one. */
  lemma {:induction false} ShareIsEven(g: nat, R: nat, W: nat)
    requires W > 0
    ensures R / W <= FirstRead(g + 1, R, W) - FirstRead(g, R, W) <= R / W + 1
  {
    var x := g * R;
    assert (g + 1) * R == x + R;
    var q := x / W + R / W;
    var rest := x % W + R % W;
    assert x + R == q * W + rest by { DivSplit(x, W); DivSplit(R, W); Distributes(x / W, R / W, W); }
    if rest < W {
      ModUnique(x + R, W, q, rest);
    } else {
      assert q * W + rest == (q + 1) * W + (rest - W) by { Distributes(q, 1, W); }
      ModUnique(x + R, W, q + 1, rest - W);
    }
  }

  lemma DivSplit(x: nat, m: nat)
    requires m > 0
    ensures x == x / m * m + x % m && 0 <= x % m < m
  {
  }

  lemma Distributes(x: int, y: int, m: int)
    ensures (x + y) * m == x * m + y * m
  {
  }

  /** The run mask when write group g is reached: the complement of the skip mask, shifted
      once for each group before. */
  function RunMask(skip: nat, k: nat, g: nat): nat {
    if g == 0 then Not(skip, WORD) else Shr(RunMask(skip, k, g - 1), k)
  }

  /** Some of the k bits of group g in the skip mask is clear. */
  ghost predicate NotAllSkipped(skip: nat, k: nat, g: nat) {
    exists j: nat :: j < k && ClearIn(skip, k, g, j)
  }

  /** Bit j of group g in the skip mask is clear. */
  predicate ClearIn(skip: nat, k: nat, g: nat, j: nat) {
    ClearAt(skip, Times(g, k) + j)
  }

  predicate ClearAt(skip: nat, i: int) {
    0 <= i < WORD && !Bit(skip, i)
  }

  lemma {:induction false} RunMaskBit(skip: nat, k: nat, g: nat, i: nat)
    ensures Times(g, k) >= 0 && Bit(RunMask(skip, k, g), i) == ClearAt(skip, Times(g, k) + i)
  {
    if g == 0 {
      BitNot(skip, WORD, i);
    } else {
      BitShr(RunMask(skip, k, g - 1), k, i);
      RunMaskBit(skip, k, g - 1, i + k);
    }
  }

  /** The masking picks a group exactly if not all of its bits are to be skipped. */
  lemma AttemptedExactly(skip: nat, k: nat, g: nat)
    ensures And(RunMask(skip, k, g), Ones(k)) != 0 <==> NotAllSkipped(skip, k, g)
  {
    var current := And(RunMask(skip, k, g), Ones(k));
    forall i: nat ensures Bit(current, i) == (i < k && ClearIn(skip, k, g, i)) {
      BitAnd(RunMask(skip, k, g), Ones(k), i);
      BitOnes(k, i);
      RunMaskBit(skip, k, g, i);
    }
    if current != 0 {
      var i := NonzeroHasBit(current);
    } else {
      forall j: nat ensures !Bit(current, j) {
        BitZero(j);
      }
    }
  }
}
