/** The standard response: a 21-bit value sent as three 7-bit groups in
    bytes 1..3 (lib/Rego6xx/Rego6xxStdRsp.cpp). */
module Rego6xxStdRsp {
  import opened Bytes
  import Rego6xx
  import opened Rego6xxRsp

  /** `(v >> 14) & 0x7F`, `(v >> 7) & 0x7F`, `v & 0x7F` rebuild v when v < 2^21. */
  lemma SevenBitGroups21(v: nat)
    requires v < 0x20_0000
    ensures (v / 0x4000) * 0x4000 + (v / 0x80) % 0x80 * 0x80 + v % 0x80 == v
  {
    var q := v / 0x80;
    assert v == q * 0x80 + v % 0x80;
    assert q == (q / 0x80) * 0x80 + q % 0x80;
    assert q / 0x80 == v / 0x4000;
  }

  /** The value carried by a standard response, or 0 while pending or when
      invalid: `(b1 & 0x7F) << 14 | (b2 & 0x7F) << 7 | (b3 & 0x7F)`. */
  function GetValue(rsp: Rsp, checksum: Rego6xx.Checksum): (value: nat)
    requires |rsp.response| >= 5
    ensures value < 0x20_0000
    ensures !IsValid(rsp, checksum) ==> value == 0
  {
    if !rsp.pending && IsValid(rsp, checksum) then
      Rego6xx.Join7(rsp.response[1] % 0x80, rsp.response[2] % 0x80, rsp.response[3] % 0x80)
    else
      0
  }

  /** Three 7-bit groups joined are read back by `>> 14`, `(>> 7) & 0x7F`
      and `& 0x7F`. */
  lemma Join7Groups(hi: uint8, mid: uint8, lo: uint8)
    requires hi < 0x80 && mid < 0x80 && lo < 0x80
    ensures var v := Rego6xx.Join7(hi, mid, lo);
      v / 0x4000 == hi as int && (v / 0x80) % 0x80 == mid as int && v % 0x80 == lo as int
  {
    var v := Rego6xx.Join7(hi, mid, lo);
    var low := mid as int * 0x80 + lo as int;
    assert v == hi as int * 0x4000 + low && 0 <= low < 0x4000;
    assert v / 0x80 == hi as int * 0x80 + mid as int;
  }

  /** The value of a valid standard response has as its three 7-bit groups
      the low 7 bits of bytes 1, 2 and 3. */
  lemma GetValueGroups(rsp: Rsp, checksum: Rego6xx.Checksum)
    requires |rsp.response| >= 5 && IsValid(rsp, checksum)
    ensures var value := GetValue(rsp, checksum);
      && value / 0x4000 == rsp.response[1] as int % 0x80
      && (value / 0x80) % 0x80 == rsp.response[2] as int % 0x80
      && value % 0x80 == rsp.response[3] as int % 0x80
  {
    Join7Groups(rsp.response[1] % 0x80, rsp.response[2] % 0x80, rsp.response[3] % 0x80);
  }

  /** A 21-bit value as the three 7-bit groups of bytes 1..3. */
  function Pack21(v: nat): (g: seq<uint8>)
    requires v < 0x20_0000
    ensures |g| == 3 && g[0] <= 0x7F && g[1] <= 0x7F && g[2] <= 0x7F
  {
    [(v / 0x4000) as uint8, ((v / 0x80) % 0x80) as uint8, (v % 0x80) as uint8]
  }

  /** A received response whose bytes 1..3 pack a 21-bit value and whose last
      byte is the checksum of its interior yields exactly that value and the
      device address of byte 0. */
  lemma GetValuePack21(v: nat, response: seq<uint8>, checksum: Rego6xx.Checksum)
    requires v < 0x20_0000
    requires |response| >= 5 && response[1..4] == Pack21(v)
    requires response[|response| - 1] == checksum(response[1..|response| - 1])
    ensures GetValue(Rsp(response, false), checksum) == v
    ensures GetDevAddr(Rsp(response, false), checksum) == response[0]
  {
    var g := Pack21(v);
    assert response[1] == g[0] && response[2] == g[1] && response[3] == g[2];
    assert g[0] % 0x80 == g[0] && g[1] % 0x80 == g[1] && g[2] % 0x80 == g[2];
    SevenBitGroups21(v);
    assert Rego6xx.Join7(g[0], g[1], g[2]) == v;
  }

  /** The smallest standard response for a device and value: address, value
      groups, checksum. It is valid and decodes to both. */
  lemma StdRspRoundTrip(devAddr: uint8, v: nat, checksum: Rego6xx.Checksum)
    requires v < 0x20_0000
    ensures var rsp := Rsp([devAddr] + Pack21(v) + [checksum(Pack21(v))], false);
      && IsValid(rsp, checksum)
      && GetDevAddr(rsp, checksum) == devAddr
      && GetValue(rsp, checksum) == v
  {
    var response := [devAddr] + Pack21(v) + [checksum(Pack21(v))];
    assert response[1..4] == Pack21(v);
    assert response[1..|response| - 1] == Pack21(v);
    GetValuePack21(v, response, checksum);
  }
}
