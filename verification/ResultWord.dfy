/** Assembling the result word of a read or write test from the error words of the virtual
    groups and ranks. */
module ResultWord {
  import opened Arith
  import opened Words

  /** The error word that the read-write manager holds after the run for a rank and a virtual
      group; bit j set means that data bit j was wrong. */
  type Errors = (nat, nat) -> nat

  const WORD: nat := 32

  /** Where bit j of virtual group vg goes. */
  function Place(vg: nat, w: nat, j: nat): int {
    Times(vg, w) + j
  }

  lemma PlaceIsProduct(vg: nat, w: nat, j: nat)
    ensures Place(vg, w, j) == vg * w + j
  {
    TimesIsProduct(vg, w);
  }

  lemma PlaceNat(vg: nat, w: nat, j: nat, vgs: nat)
    requires vg < vgs && j < w
    ensures 0 <= Place(vg, w, j) < Times(vgs, w)
  {
    TimesGrows(vg, w);
    TimesMonotone(vg + 1, vgs, w);
  }

  /** Every position below vgs * w belongs to one bit of one virtual group. */
  lemma {:induction false} Locate(i: nat, w: nat, vgs: nat) returns (vg: nat, j: nat)
    requires w > 0 && i < Times(vgs, w)
    ensures vg < vgs && j < w && Place(vg, w, j) == i
  {
    if i >= Times(vgs - 1, w) {
      vg, j := vgs - 1, i - Times(vgs - 1, w);
    } else {
      vg, j := Locate(i, w, vgs - 1);
    }
  }

  /** The word of one rank has exactly the bits that no error was reported for; virtual
      groups from v on have been shifted in, group v lowest. */
  ghost predicate Assembled(err: Errors, r: nat, w: nat, vgs: nat, v: nat, word: nat)
    requires v <= vgs
  {
    && (forall u: nat, j: nat | v <= u < vgs && j < w :: BitAt(word, u - v, w, j) == !Bit(err(r, u), j))
    && (forall i: nat | Bit(word, i) :: i < Times(vgs - v, w))
  }

  predicate BitAt(word: nat, vg: nat, w: nat, j: nat) {
    Place(vg, w, j) >= 0 && Bit(word, Place(vg, w, j))
  }

  /** The word with one more virtual group's correct bits shifted in from below. */
  function ShiftedIn(word: nat, w: nat, errors: nat): nat {
    Or(Low(Shl(word, w), WORD), And(Ones(w), Not(errors, WORD)))
  }

  lemma ShiftedInBit(word: nat, w: nat, errors: nat, i: nat)
    requires w <= WORD
    ensures Bit(ShiftedIn(word, w, errors), i) == if i < w then !Bit(errors, i) else i < WORD && Bit(word, i - w)
  {
    BitOr(Low(Shl(word, w), WORD), And(Ones(w), Not(errors, WORD)), i);
    BitLow(Shl(word, w), WORD, i);
    BitShl(word, w, i);
    BitAnd(Ones(w), Not(errors, WORD), i);
    BitOnes(w, i);
    BitNot(errors, WORD, i);
  }

  /** One bit of the word after a shift: that of the group shifted in, or one that was there. */
  lemma ShiftKeepsBit(err: Errors, r: nat, w: nat, vgs: nat, v: nat, word: nat, next: nat, u: nat, j: nat)
    requires 0 < v <= vgs && Times(vgs, w) < WORD && Assembled(err, r, w, vgs, v, word)
    requires forall i: nat :: Bit(next, i) == if i < w then !Bit(err(r, v - 1), i) else i < WORD && Bit(word, i - w)
    requires v - 1 <= u < vgs && j < w
    ensures BitAt(next, u - (v - 1), w, j) == !Bit(err(r, u), j)
  {
    PlaceNat(u - (v - 1), w, j, vgs - v + 1);
    TimesMonotone(vgs - v + 1, vgs, w);
    if u >= v {
      PlaceNat(u - v, w, j, vgs - v);
      assert Place(u - (v - 1), w, j) == Place(u - v, w, j) + w;
      assert BitAt(word, u - v, w, j) == !Bit(err(r, u), j);
    }
  }

  /** Shifting one more virtual group in keeps the word assembled: nothing is pushed out of
      the machine word. */
  lemma ShiftIn(err: Errors, r: nat, w: nat, vgs: nat, v: nat, word: nat, next: nat)
    requires 0 < v <= vgs && Times(vgs, w) < WORD && Assembled(err, r, w, vgs, v, word)
    requires forall i: nat :: Bit(next, i) == if i < w then !Bit(err(r, v - 1), i) else i < WORD && Bit(word, i - w)
    ensures Assembled(err, r, w, vgs, v - 1, next)
  {
    TimesGrows(vgs - v, w);
    assert Times(vgs - v + 1, w) == Times(vgs - v, w) + w;
    forall u: nat, j: nat | v - 1 <= u < vgs && j < w
      ensures BitAt(next, u - (v - 1), w, j) == !Bit(err(r, u), j)
    {
      ShiftKeepsBit(err, r, w, vgs, v, word, next, u, j);
    }
  }

  /** The word of one rank, assembled from the highest virtual group down. */
  method RankWord(err: Errors, r: nat, w: nat, vgs: nat) returns (word: nat)
    requires vgs > 0 && Times(vgs, w) < WORD
    ensures Assembled(err, r, w, vgs, 0, word)
  {
    word := 0;
    var vg := vgs;
    forall i: nat ensures !Bit(0, i) {
      BitZero(i);
    }
    while vg > 0
      invariant vg <= vgs && Assembled(err, r, w, vgs, vg, word)
    {
      TimesMonotone(1, vgs, w);
      var next := ShiftedIn(word, w, err(r, vg - 1));
      forall i: nat
        ensures Bit(next, i) == if i < w then !Bit(err(r, vg - 1), i) else i < WORD && Bit(word, i - w)
      {
        ShiftedInBit(word, w, err(r, vg - 1), i);
      }
      ShiftIn(err, r, w, vgs, vg, word, next);
      vg, word := vg - 1, next;
    }
  }

  /** No rank from bgn to end that is not skipped reported an error on bit j of group vg. */
  predicate Clean(err: Errors, skip: seq<bool>, bgn: nat, end: nat, vg: nat, j: nat)
    requires end <= |skip|
  {
    forall r: nat | bgn <= r < end && !skip[r] :: !Bit(err(r, vg), j)
  }

  /** The whole test. Bit vg * w + j of the result is set exactly when no tested rank
      reported an error on bit j of virtual group vg, and the verdict is that all, or any, of
      those bits are set. */
  method RunTest(err: Errors, skip: seq<bool>, bgn: nat, end: nat, w: nat, vgs: nat, allCorrect: bool)
    returns (pass: bool, bitChk: nat)
    requires bgn <= end <= |skip| && 0 < w && 0 < vgs && Times(vgs, w) < WORD
    ensures forall vg: nat, j: nat | vg < vgs && j < w :: BitAt(bitChk, vg, w, j) == Clean(err, skip, bgn, end, vg, j)
    ensures forall i: nat | Bit(bitChk, i) :: i < Times(vgs, w)
    ensures allCorrect ==>
      (pass <==> forall vg: nat, j: nat | vg < vgs && j < w :: Clean(err, skip, bgn, end, vg, j))
    ensures !allCorrect ==>
      (pass <==> exists vg: nat, j: nat :: vg < vgs && j < w && Clean(err, skip, bgn, end, vg, j))
  {
    TimesGrows(vgs, w);
    var n := Times(vgs, w);
    bitChk := Ones(n);
    forall i: nat ensures Bit(bitChk, i) == (i < n) {
      BitOnes(n, i);
    }
    forall vg: nat, j: nat | vg < vgs && j < w ensures BitAt(bitChk, vg, w, j) {
      PlaceNat(vg, w, j, vgs);
    }
    for r := bgn to end
      invariant forall i: nat | Bit(bitChk, i) :: i < n
      invariant forall vg: nat, j: nat | vg < vgs && j < w :: BitAt(bitChk, vg, w, j) == Clean(err, skip, bgn, r, vg, j)
    {
      if !skip[r] {
        var word := RankWord(err, r, w, vgs);
        ghost var before := bitChk;
        bitChk := And(bitChk, word);
        forall i: nat ensures Bit(bitChk, i) == (Bit(before, i) && Bit(word, i)) {
          BitAnd(before, word, i);
        }
        forall vg: nat, j: nat | vg < vgs && j < w
          ensures BitAt(bitChk, vg, w, j) == Clean(err, skip, bgn, r + 1, vg, j)
        {
          assert BitAt(word, vg - 0, w, j) == !Bit(err(r, vg), j);
          assert BitAt(bitChk, vg, w, j) == (BitAt(before, vg, w, j) && BitAt(word, vg, w, j));
        }
      }
    }
    if allCorrect {
      pass := bitChk == Ones(n);
      AllOnes(bitChk, w, vgs);
    } else {
      pass := bitChk != 0;
      AnyOne(bitChk, w, vgs);
    }
  }

  lemma AllOnes(x: nat, w: nat, vgs: nat)
    requires w > 0 && Times(vgs, w) >= 0 && forall i: nat | Bit(x, i) :: i < Times(vgs, w)
    ensures x == Ones(Times(vgs, w)) <==> forall vg: nat, j: nat | vg < vgs && j < w :: BitAt(x, vg, w, j)
  {
    var n := Times(vgs, w);
    forall i: nat ensures Bit(Ones(n), i) == (i < n) {
      BitOnes(n, i);
    }
    if x == Ones(n) {
      forall vg: nat, j: nat | vg < vgs && j < w ensures BitAt(x, vg, w, j) {
        PlaceNat(vg, w, j, vgs);
      }
    } else if forall vg: nat, j: nat | vg < vgs && j < w :: BitAt(x, vg, w, j) {
      forall i: nat ensures Bit(x, i) == Bit(Ones(n), i) {
        if i < n {
          var vg, j := Locate(i, w, vgs);
          assert BitAt(x, vg, w, j);
        }
      }
      SameBits(x, Ones(n));
    }
  }

  lemma AnyOne(x: nat, w: nat, vgs: nat)
    requires w > 0 && forall i: nat | Bit(x, i) :: i < Times(vgs, w)
    ensures x != 0 <==> exists vg: nat, j: nat :: vg < vgs && j < w && BitAt(x, vg, w, j)
  {
    if x != 0 {
      var i := NonzeroHasBit(x);
      var vg, j := Locate(i, w, vgs);
      assert BitAt(x, vg, w, j);
    } else {
      forall vg: nat, j: nat ensures !BitAt(x, vg, w, j) {
        if Place(vg, w, j) >= 0 {
          BitZero(Place(vg, w, j));
        }
      }
    }
  }
}
