/** What every Rego6xx response shares: a fixed-size byte buffer whose first
    byte is the responding device address and whose last byte is a checksum
    over the bytes in between, and a flag that is set while the response is
    still being received. The size of each response kind (RSP_SIZE) is the
    length of its buffer. */
module Rego6xxRsp {
  import opened Bytes
  import Rego6xx

  datatype Rsp = Rsp(response: seq<uint8>, pending: bool)

  /** A received response is valid when its last byte is the checksum of the
      bytes between the device address and that last byte. */
  predicate IsValid(rsp: Rsp, checksum: Rego6xx.Checksum)
    requires |rsp.response| >= 2
  {
    var n := |rsp.response|;
    !rsp.pending && rsp.response[n - 1] == checksum(rsp.response[1..n - 1])
  }

  /** The responding device address; 0 while pending or when invalid. */
  function GetDevAddr(rsp: Rsp, checksum: Rego6xx.Checksum): (addr: uint8)
    requires |rsp.response| >= 2
    ensures IsValid(rsp, checksum) ==> addr == rsp.response[0]
    ensures !IsValid(rsp, checksum) ==> addr == 0
  {
    if !rsp.pending && IsValid(rsp, checksum) then rsp.response[0] else 0
  }

  /** A response still being received is never valid, whatever its bytes. */
  lemma PendingIsInvalid(response: seq<uint8>, checksum: Rego6xx.Checksum)
    requires |response| >= 2
    ensures !IsValid(Rsp(response, true), checksum)
    ensures GetDevAddr(Rsp(response, true), checksum) == 0
  {
  }

  /** Validity depends only on the bytes, not on their origin: a buffer framed
      with the checksum of its interior is valid once received. */
  lemma FramedIsValid(devAddr: uint8, interior: seq<uint8>, checksum: Rego6xx.Checksum)
    ensures var rsp := Rsp([devAddr] + interior + [checksum(interior)], false);
      IsValid(rsp, checksum) && GetDevAddr(rsp, checksum) == devAddr
  {
    var response := [devAddr] + interior + [checksum(interior)];
    assert response[1..|response| - 1] == interior;
  }
}
