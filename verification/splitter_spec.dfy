/**
 * What one splitter tick does to the values and stamps of its three stores,
 * as a function (`Splitter::tick`, `emulator/src/device/connectable/splitter.rs`).
 *
 * The combined store is n + m bits wide, the low store n bits, the high store
 * m bits. The low side is reconciled first, then the high side; the high
 * side's comparison reads the combined stamp as the low side left it.
 */
module SplitterSpec {
  import opened FixedWidth

  /** A store's content: its value and the tick of its last write. */
  datatype Stamped = Stamped(value: nat, tick: nat)

  /** The three stores a splitter holds. */
  datatype Wires = Wires(combined: Stamped, low: Stamped, high: Stamped)

  /** Every value fits its store's width. */
  predicate InRange(w: Wires, n: nat, m: nat)
  {
    w.combined.value < Pow2(n + m) && w.low.value < Pow2(n) && w.high.value < Pow2(m)
  }

  /** The value whose bits above n are `hi` and whose low n bits are `lo`. */
  function Join(hi: nat, lo: nat, n: nat): nat
  {
    hi * Pow2(n) + lo
  }

  /** The bits of `c` above the low n. */
  function HighPart(c: nat, n: nat): nat
  {
    DivBounds(c, Pow2(n));
    c / Pow2(n)
  }

  /** The low n bits of `c`. */
  function LowPart(c: nat, n: nat): nat
  {
    c % Pow2(n)
  }

  /** The narrow stores are the low and high bits of the wide one. */
  predicate Agree(w: Wires, n: nat, m: nat)
  {
    InRange(w, n, m) && w.combined.value == Join(w.high.value, w.low.value, n)
  }

  /** The values alone, without stamps. */
  function Values(w: Wires): (nat, nat, nat)
  {
    (w.combined.value, w.low.value, w.high.value)
  }

  /** The low side: the newer of combined and low wins; a tie goes to low. */
  function LowSide(w: Wires, n: nat, m: nat, t: nat): Wires
  {
    if w.combined.tick > w.low.tick then
      w.(low := Stamped(Truncate(w.combined.value, n), t))
    else
      var bottomZeroed := And(w.combined.value, Shl(Max(n + m), n, n + m));
      w.(combined := Stamped(Or(bottomZeroed, Truncate(w.low.value, n + m)), t))
  }

  /** The high side: the newer of combined and high wins; a tie goes to high. */
  function HighSide(w: Wires, n: nat, m: nat, t: nat): Wires
  {
    if w.combined.tick > w.high.tick then
      w.(high := Stamped(Truncate(Shr(w.combined.value, n), m), t))
    else
      var topZeroed := And(w.combined.value, Shr(Max(n + m), m));
      var highShifted := Shl(Truncate(w.high.value, n + m), n, n + m);
      w.(combined := Stamped(Or(topZeroed, highShifted), t))
  }

  /** One tick at time t: the low side, then the high side on what the low side left. */
  function Reconcile(w: Wires, n: nat, m: nat, t: nat): Wires
  {
    HighSide(LowSide(w, n, m, t), n, m, t)
  }

  // ---------------------------------------------------------------------
  // What the masks and shifts amount to
  // ---------------------------------------------------------------------

  /** Combined's high bits kept, low's value as the low bits. */
  lemma KeepHighTakeLow(c: nat, l: nat, n: nat, m: nat)
    requires c < Pow2(n + m) && l < Pow2(n)
    ensures Or(And(c, Shl(Max(n + m), n, n + m)), Truncate(l, n + m)) == Join(HighPart(c, n), l, n)
    ensures Join(HighPart(c, n), l, n) < Pow2(n + m)
  {
    var hi := HighPart(c, n);
    assert And(c, Shl(Max(n + m), n, n + m)) == hi * Pow2(n) by {
      ShlMaxIsHighMask(n, n + m);
      AndHighMask(c, n, n + m);
    }
    assert Truncate(l, n + m) == l by {
      Pow2Monotone(n, n + m);
    }
    assert Or(hi * Pow2(n), l) == Join(hi, l, n) by {
      OrDisjoint(hi, l, n);
    }
    assert Join(hi, l, n) < Pow2(n + m) by {
      DivBelow(c, n, m);
      JoinBelow(hi, l, n, m);
    }
  }

  /** Combined's low bits kept, high's value as the high bits. */
  lemma KeepLowTakeHigh(c: nat, h: nat, n: nat, m: nat)
    requires c < Pow2(n + m) && h < Pow2(m)
    ensures Or(And(c, Shr(Max(n + m), m)), Shl(Truncate(h, n + m), n, n + m)) == Join(h, LowPart(c, n), n)
    ensures Join(h, LowPart(c, n), n) < Pow2(n + m)
  {
    var lo := LowPart(c, n);
    assert And(c, Shr(Max(n + m), m)) == lo by {
      ShrMaxIsLowMask(n, m);
      AndLowMask(c, n);
    }
    assert Shl(Truncate(h, n + m), n, n + m) == h * Pow2(n) by {
      Pow2Monotone(m, n + m);
      JoinBelow(h, 0, n, m);
    }
    assert Or(lo, h * Pow2(n)) == Join(h, lo, n) by {
      OrCommutes(lo, h * Pow2(n));
      OrDisjoint(h, lo, n);
    }
    assert Join(h, lo, n) < Pow2(n + m) by {
      JoinBelow(h, lo, n, m);
    }
  }

  /**
   * If combined is newer, low gets combined's low n bits; otherwise combined
   * keeps its high bits and takes low as its low bits.
   */
  lemma LowSideMeaning(w: Wires, n: nat, m: nat, t: nat)
    requires InRange(w, n, m)
    ensures w.combined.tick > w.low.tick ==>
      LowSide(w, n, m, t) == w.(low := Stamped(LowPart(w.combined.value, n), t))
    ensures w.combined.tick <= w.low.tick ==>
      LowSide(w, n, m, t) == w.(combined := Stamped(Join(HighPart(w.combined.value, n), w.low.value, n), t))
    ensures InRange(LowSide(w, n, m, t), n, m)
  {
    if w.combined.tick <= w.low.tick {
      KeepHighTakeLow(w.combined.value, w.low.value, n, m);
    }
  }

  /**
   * If combined is newer, high gets combined's bits above n; otherwise
   * combined keeps its low n bits and takes high as its high bits.
   */
  lemma HighSideMeaning(w: Wires, n: nat, m: nat, t: nat)
    requires InRange(w, n, m)
    ensures w.combined.tick > w.high.tick ==>
      HighSide(w, n, m, t) == w.(high := Stamped(HighPart(w.combined.value, n), t))
    ensures w.combined.tick <= w.high.tick ==>
      HighSide(w, n, m, t) == w.(combined := Stamped(Join(w.high.value, LowPart(w.combined.value, n), n), t))
    ensures InRange(HighSide(w, n, m, t), n, m)
  {
    if w.combined.tick > w.high.tick {
      DivBelow(w.combined.value, n, m);
    } else {
      KeepLowTakeHigh(w.combined.value, w.high.value, n, m);
    }
  }

  /**
   * One tick, case by case, in terms of values: which side drives, and what
   * every store holds afterwards.
   */
  lemma ReconcileCases(w: Wires, n: nat, m: nat, t: nat)
    requires InRange(w, n, m)
    ensures var r, c, l, h := Reconcile(w, n, m, t), w.combined.value, w.low.value, w.high.value;
      // combined is newer than both narrow stores: it drives both
      (w.combined.tick > w.low.tick && w.combined.tick > w.high.tick ==>
        r == w.(low := Stamped(LowPart(c, n), t), high := Stamped(HighPart(c, n), t))) &&
      // combined is newer than low only: it drives low, high drives combined's high bits
      (w.combined.tick > w.low.tick && w.combined.tick <= w.high.tick ==>
        r == w.(low := Stamped(LowPart(c, n), t), combined := Stamped(Join(h, LowPart(c, n), n), t))) &&
      // low drives combined's low bits and restamps it, so combined then drives high unless high is stamped t or later
      (w.combined.tick <= w.low.tick && w.high.tick < t ==>
        r == w.(combined := Stamped(Join(HighPart(c, n), l, n), t), high := Stamped(HighPart(c, n), t))) &&
      (w.combined.tick <= w.low.tick && w.high.tick >= t ==>
        r == w.(combined := Stamped(Join(h, l, n), t)))
  {
    var c, l := w.combined.value, w.low.value;
    LowSideMeaning(w, n, m, t);
    var w1 := LowSide(w, n, m, t);
    HighSideMeaning(w1, n, m, t);
    DivBelow(c, n, m);
    SplitJoin(HighPart(c, n), l, n);
    DivModParts(c, Pow2(n));
  }

  /** After any tick the three stores agree and every value fits its width. */
  lemma ReconcileAgrees(w: Wires, n: nat, m: nat, t: nat)
    requires InRange(w, n, m)
    ensures Agree(Reconcile(w, n, m, t), n, m)
  {
    var c := w.combined.value;
    ReconcileCases(w, n, m, t);
    LowSideMeaning(w, n, m, t);
    HighSideMeaning(LowSide(w, n, m, t), n, m, t);
    DivModParts(c, Pow2(n));
  }

  /** A tick leaves stores that already agree with the values they hold; only stamps move. */
  lemma ReconcileKeepsAgreement(w: Wires, n: nat, m: nat, t: nat)
    requires Agree(w, n, m)
    ensures Values(Reconcile(w, n, m, t)) == Values(w)
  {
    ReconcileCases(w, n, m, t);
    SplitJoin(w.high.value, w.low.value, n);
  }

  /** A second tick at the same time changes no value. */
  lemma ReconcileIdempotent(w: Wires, n: nat, m: nat, t: nat)
    requires InRange(w, n, m)
    ensures Values(Reconcile(Reconcile(w, n, m, t), n, m, t)) == Values(Reconcile(w, n, m, t))
  {
    ReconcileAgrees(w, n, m, t);
    ReconcileKeepsAgreement(Reconcile(w, n, m, t), n, m, t);
  }

  /**
   * The second tick can still move a stamp: here combined drives both narrow
   * stores and keeps its old stamp 5, and the second tick restamps it to 10.
   */
  lemma SecondTickMayRestamp()
    ensures var w := Wires(Stamped(0, 5), Stamped(0, 3), Stamped(0, 4));
      Reconcile(w, 1, 1, 10).combined.tick == 5 &&
      Reconcile(Reconcile(w, 1, 1, 10), 1, 1, 10).combined.tick == 10
  {
    var w := Wires(Stamped(0, 5), Stamped(0, 3), Stamped(0, 4));
    ReconcileCases(w, 1, 1, 10);
    ReconcileCases(Reconcile(w, 1, 1, 10), 1, 1, 10);
  }

  /**
   * The high side compares against combined's stamp after the low side: a
   * high value written after combined's last write is still overwritten
   * when low drives combined in the same tick.
   */
  lemma NewerHighOverwritten()
    ensures var w := Wires(Stamped(0, 0), Stamped(1, 1), Stamped(1, 2));
      w.high.tick > w.combined.tick &&
      Reconcile(w, 1, 1, 3).high == Stamped(0, 3)
  {
    var w := Wires(Stamped(0, 0), Stamped(1, 1), Stamped(1, 2));
    ReconcileCases(w, 1, 1, 3);
  }
}
