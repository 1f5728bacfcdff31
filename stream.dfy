/** The byte stream the controller talks through (an Arduino `Stream`):
    the bytes received and not yet read, the bytes written so far, the read
    timeout, and whether a device is behind it. The component's UART adapter
    starts without a device and then behaves as an empty stream that
    swallows what is written (src/ivt_rego6xx_ctrl/StreamUartDevAdapter.h,
    src/ivt_rego6xx_ctrl_component/StreamUartDevAdapter.cpp). The serial
    hardware behind it is not modelled. */
module Streams {
  import opened Bytes

  class Stream {
    /** Received bytes not yet consumed, oldest first. */
    var rx: seq<uint8>
    /** Every byte written to the stream, in order. */
    var tx: seq<uint8>
    /** Read timeout in milliseconds. */
    var timeout: nat
    /** Whether a device is behind the stream; a serial port always has one. */
    var wired: bool

    /** A stream over the bytes already received; `wired` is false for the
        component's adapter until its UART device is set. */
    constructor (pending: seq<uint8>, wired: bool)
      ensures rx == pending && tx == [] && timeout == 0 && this.wired == wired
    {
      rx := pending;
      tx := [];
      timeout := 0;
      this.wired := wired;
    }

    /** Connects the adapter to its UART device. */
    method SetUartDevice()
      modifies this`wired
      ensures wired
    {
      wired := true;
    }

    /** Number of received bytes that can be read without waiting; 0 without
        a device. */
    method Available() returns (n: nat)
      ensures wired ==> n == |rx|
      ensures !wired ==> n == 0
    {
      n := if wired then |rx| else 0;
    }

    /** Consumes one byte; -1 when nothing is available or there is no device. */
    method Read() returns (b: int)
      modifies this`rx
      ensures !wired || old(rx) == [] ==> b == -1 && rx == old(rx)
      ensures wired && old(rx) != [] ==> b == old(rx)[0] as int && rx == old(rx)[1..]
    {
      if !wired || rx == [] {
        b := -1;
      } else {
        b := rx[0] as int;
        rx := rx[1..];
      }
    }

    /** What a write of the buffer delivers: all of it, or nothing without a
        device. */
    function Delivered(buffer: seq<uint8>): seq<uint8>
      reads this
    {
      if wired then buffer else []
    }

    /** Appends the bytes to the output and reports how many were written;
        without a device nothing is written. */
    method Write(buffer: seq<uint8>) returns (n: nat)
      modifies this`tx
      ensures tx == old(tx) + Delivered(buffer)
      ensures n == |Delivered(buffer)|
    {
      if wired {
        tx := tx + buffer;
        n := |buffer|;
      } else {
        n := 0;
      }
    }

    method SetTimeout(ms: nat)
      modifies this`timeout
      ensures timeout == ms
    {
      timeout := ms;
    }
  }
}
