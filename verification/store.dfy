/**
 * A shared, mutable value cell of a fixed bit width, stamped with the tick of
 * its last write. Devices hold references to stores; two devices connected
 * together hold the same store.
 *
 * `emulator/src/device/store.rs` is not part of this model; the store is
 * described here by the operations the splitter uses on it (`get`,
 * `get_store_tick`, `set`).
 */
module DeviceStore {
  import opened FixedWidth

  class Store {
    /** The bit width N of the `U<N>` the store holds. */
    const width: nat
    /** The current value. */
    var value: nat
    /** The tick at which the value was last set. */
    var tick: nat

    /** The value fits the width. */
    ghost predicate Valid()
      reads this
    {
      value < Pow2(width)
    }

    /** A fresh store holding `initial`, never written. */
    constructor (width: nat, initial: nat)
      requires initial < Pow2(width)
      ensures this.width == width && value == initial && tick == 0
      ensures Valid()
    {
      this.width := width;
      value := initial;
      tick := 0;
    }

    /** `get`: the current value. */
    function Get(): nat
      reads this
    {
      value
    }

    /** `get_store_tick`: the tick of the last write. */
    function GetStoreTick(): nat
      reads this
    {
      tick
    }

    /** `set`: write `v` and stamp it with tick `t`. */
    method Set(v: nat, t: nat)
      requires v < Pow2(width)
      modifies this
      ensures value == v && tick == t
      ensures Valid()
    {
      value := v;
      tick := t;
    }
  }
}
