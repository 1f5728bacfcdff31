/** A writable number entity of the heat pump: the command ids and register
    address it was created with, the last value requested by the user and a
    flag telling the controller that a write is due
    (src/ivt_rego6xx_ctrl/number/IVTRego6xxNumber.h). */
module IVTRego6xxNumberEntity {
  import opened Bytes

  class IVTRego6xxNumber {
    /** Command id used to read the value from the heat pump. */
    const readCmdId: uint8
    /** Command id used to write the value to the heat pump. */
    const writeCmdId: uint8
    /** Register address read and written. */
    const addr: uint16
    /** Value to write; the source's float is modelled as a real. */
    var value: real
    var updateRequested: bool

    /** The ids and address are kept as given; the value is 0 and no update
        is requested. */
    constructor (readCmdId: uint8, writeCmdId: uint8, addr: uint16)
      ensures this.readCmdId == readCmdId && this.writeCmdId == writeCmdId && this.addr == addr
      ensures value == 0.0 && !updateRequested
    {
      this.readCmdId := readCmdId;
      this.writeCmdId := writeCmdId;
      this.addr := addr;
      value := 0.0;
      updateRequested := false;
    }

    predicate IsUpdateRequested()
      reads this
    {
      updateRequested
    }

    /** Hands the requested value to the controller and acknowledges the
        request; the value itself is kept. */
    method GetValue() returns (v: real)
      modifies this`updateRequested
      ensures v == value && value == old(value)
      ensures !IsUpdateRequested()
    {
      updateRequested := false;
      v := value;
    }

    /** A value set by the user: it replaces the previous one and a write
        is requested. */
    method Control(v: real)
      modifies this`value, this`updateRequested
      ensures value == v && IsUpdateRequested()
    {
      value := v;
      updateRequested := true;
    }
  }

  /** Two values set before the controller looks: an update is requested,
      the controller sees only the second value, and after reading it no
      update is pending. */
  method LastControlWins(number: IVTRego6xxNumber, first: real, second: real)
    returns (requested: bool, seen: real, pendingAfter: bool)
    modifies number
    ensures requested && seen == second && !pendingAfter
  {
    number.Control(first);
    number.Control(second);
    requested := number.IsUpdateRequested();
    seen := number.GetValue();
    pendingAfter := number.IsUpdateRequested();
  }
}
