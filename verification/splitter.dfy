/**
 * The splitter device (`emulator/src/device/connectable/splitter.rs`): one
 * wide store of n + m bits, a low store of n bits and a high store of m
 * bits, kept in agreement once per tick. The low and high ends are views of
 * the splitter through which its narrow stores are exposed and rewired.
 */
module SplitterDevice {
  import opened FixedWidth
  import opened DeviceStore
  import opened SplitterSpec

  class Splitter {
    /** The width of the low end. */
    const n: nat
    /** The width of the high end. */
    const m: nat
    var combined: Store
    var lowEnd: Store
    var highEnd: Store

    /** Each store has its side's width and holds a value of that width. */
    ghost predicate Valid()
      reads this, combined, lowEnd, highEnd
    {
      combined.width == n + m && lowEnd.width == n && highEnd.width == m &&
      combined.Valid() && lowEnd.Valid() && highEnd.Valid()
    }

    /**
     * The three stores are three different cells: a tick borrows all three
     * mutably at once, which fails if two of them are the same cell.
     */
    predicate Distinct()
      reads this
    {
      combined != lowEnd && combined != highEnd && lowEnd != highEnd
    }

    /** The values and stamps of the three stores. */
    function Wiring(): Wires
      reads this, combined, lowEnd, highEnd
    {
      Wires(Stamped(combined.value, combined.tick),
            Stamped(lowEnd.value, lowEnd.tick),
            Stamped(highEnd.value, highEnd.tick))
    }

    /** `new`: three fresh stores, all holding 0 and never written. */
    constructor (n: nat, m: nat)
      ensures this.n == n && this.m == m
      ensures fresh(combined) && fresh(lowEnd) && fresh(highEnd)
      ensures Valid() && Distinct()
      ensures Wiring() == Wires(Stamped(0, 0), Stamped(0, 0), Stamped(0, 0))
      ensures Agree(Wiring(), n, m)
    {
      this.n := n;
      this.m := m;
      combined := new Store(n + m, 0);
      lowEnd := new Store(n, 0);
      highEnd := new Store(m, 0);
    }

    /**
     * `tick`: reconcile the low side, then the high side, each in favour of
     * the more recently written store; every write is stamped `tick`.
     * Afterwards the narrow stores are the low and high bits of the wide one.
     */
    method Tick(tick: nat)
      requires Valid() && Distinct()
      modifies combined, lowEnd, highEnd
      ensures Valid()
      ensures Wiring() == Reconcile(old(Wiring()), n, m, tick)
      ensures Agree(Wiring(), n, m)
    {
      if combined.GetStoreTick() > lowEnd.GetStoreTick() {
        lowEnd.Set(Truncate(combined.Get(), n), tick);
      } else {
        var bottomZeroed := And(combined.Get(), Shl(Max(n + m), n, n + m));
        OrBelow(bottomZeroed, Truncate(lowEnd.Get(), n + m), n + m);
        combined.Set(Or(bottomZeroed, Truncate(lowEnd.Get(), n + m)), tick);
      }

      if combined.GetStoreTick() > highEnd.GetStoreTick() {
        highEnd.Set(Truncate(Shr(combined.Get(), n), m), tick);
      } else {
        var topZeroed := And(combined.Get(), Shr(Max(n + m), m));
        var highEndShifted := Shl(Truncate(highEnd.Get(), n + m), n, n + m);
        OrBelow(topZeroed, highEndShifted, n + m);
        combined.Set(Or(topZeroed, highEndShifted), tick);
      }
      ReconcileAgrees(old(Wiring()), n, m, tick);
    }

    /** `get_value_ref`: the wide store, shared rather than copied. */
    function GetValueRef(): (store: Store)
      reads this
      ensures store == combined
    {
      combined
    }

    /**
     * `connect_to`: the wide side now shares `other`, the store the other
     * connectable exposes; the narrow stores and every store's content stay.
     */
    method ConnectTo(other: Store)
      requires other.width == n + m
      modifies this`combined
      ensures combined == other
      ensures lowEnd == old(lowEnd) && highEnd == old(highEnd)
      ensures old(Valid()) && other.Valid() ==> Valid()
    {
      combined := other;
    }

    /** `as_low_end`: a view of this splitter's low side. */
    method AsLowEnd() returns (end: LowEnd)
      ensures fresh(end) && end.splitter == this
    {
      end := new LowEnd(this);
    }

    /** `as_high_end`: a view of this splitter's high side. */
    method AsHighEnd() returns (end: HighEnd)
      ensures fresh(end) && end.splitter == this
    {
      end := new HighEnd(this);
    }
  }

  /** The low end of a splitter, connectable at width n. */
  class LowEnd {
    const splitter: Splitter

    constructor (splitter: Splitter)
      ensures this.splitter == splitter
    {
      this.splitter := splitter;
    }

    /** `get_value_ref`: the splitter's low store, shared. */
    function GetValueRef(): (store: Store)
      reads splitter
      ensures store == splitter.lowEnd
    {
      splitter.lowEnd
    }

    /** `connect_to`: the splitter's low side now shares `other`; nothing else changes. */
    method ConnectTo(other: Store)
      requires other.width == splitter.n
      modifies splitter`lowEnd
      ensures splitter.lowEnd == other
      ensures splitter.combined == old(splitter.combined) && splitter.highEnd == old(splitter.highEnd)
      ensures old(splitter.Valid()) && other.Valid() ==> splitter.Valid()
    {
      splitter.lowEnd := other;
    }
  }

  /** The high end of a splitter, connectable at width m. */
  class HighEnd {
    const splitter: Splitter

    constructor (splitter: Splitter)
      ensures this.splitter == splitter
    {
      this.splitter := splitter;
    }

    /** `get_value_ref`: the splitter's high store, shared. */
    function GetValueRef(): (store: Store)
      reads splitter
      ensures store == splitter.highEnd
    {
      splitter.highEnd
    }

    /** `connect_to`: the splitter's high side now shares `other`; nothing else changes. */
    method ConnectTo(other: Store)
      requires other.width == splitter.m
      modifies splitter`highEnd
      ensures splitter.highEnd == other
      ensures splitter.combined == old(splitter.combined) && splitter.lowEnd == old(splitter.lowEnd)
      ensures old(splitter.Valid()) && other.Valid() ==> splitter.Valid()
    {
      splitter.highEnd := other;
    }
  }

  /**
   * Connecting shares rather than copies: once `a`'s wide side is connected
   * to the store `b` exposes, a write through `b` is what `a` reads.
   */
  method ConnectThenWrite(a: Splitter, b: Splitter, v: nat, t: nat)
    requires a.n + a.m == b.n + b.m && b.combined.width == b.n + b.m
    requires v < Pow2(b.n + b.m)
    modifies a, b.combined
    ensures a.GetValueRef() == b.GetValueRef()
    ensures a.GetValueRef().Get() == v && a.GetValueRef().GetStoreTick() == t
  {
    a.ConnectTo(b.GetValueRef());
    b.GetValueRef().Set(v, t);
  }
}
