/** The error-log response: an error id and a 15-character text line, each
    character sent as two bytes whose low nibbles are its column and row
    (lib/Rego6xx/Rego6xxErrorRsp.cpp). */
module Rego6xxErrorRsp {
  import opened Bytes
  import Rego6xx
  import opened Rego6xxRsp

  /** Index of the first byte of the text line. */
  const TEXT_START_IDX: nat := 3
  /** Number of bytes of the text line (two per character). */
  const MAX_LEN: nat := 30

  /** Error messages ordered by error id. */
  const ERROR_MSGS: seq<string> := [
    "Sensor radiator return (GT1)",
    "Outdoor sensor (GT2)",
    "Sensor hot water (GT3)",
    "Mixing valve sensor (GT4)",
    "Room sensor (GT5)",
    "Sensor compressor (GT6)",
    "Sensor heat tran fluid out (GT8)",
    "Sensor heat tran fluid in (GT9)",
    "Sensor cold tran fluid in (GT10)",
    "Sensor cold tran fluid in (GT11)",
    "Compresor circuit switch",
    "Electrical cassette",
    "HTF C=pump switch (MB2)",
    "Low pressure switch (LP)",
    "High pressure switch (HP)",
    "High return HP (GT9)",
    "HTF out max (GT8)",
    "HTF in under limit (GT10)",
    "HTF out under limit (GT11)",
    "Compressor superhear (GT6)",
    "3-phase incorrect order",
    "Power failure",
    "Varmetr. delta high"
  ]

  /** The byte `(column & 0x0F) << 4 | (row & 0x0F)` coded by a nibble pair. */
  function NibblePair(column: uint8, row: uint8): (code: uint8)
    ensures code / 0x10 == column % 0x10 && code % 0x10 == row % 0x10
  {
    ((column % 0x10) * 0x10 + row % 0x10) as uint8
  }

  /** The error id of a received valid response; 0 while pending or when
      invalid. Its high nibble comes from byte 1, its low nibble from byte 2. */
  function GetErrorId(rsp: Rsp, checksum: Rego6xx.Checksum): (id: uint8)
    requires |rsp.response| >= 33
    ensures !IsValid(rsp, checksum) ==> id == 0
    ensures IsValid(rsp, checksum) ==>
      id / 0x10 == rsp.response[1] % 0x10 && id % 0x10 == rsp.response[2] % 0x10
  {
    if !rsp.pending && IsValid(rsp, checksum) then
      NibblePair(rsp.response[1], rsp.response[2])
    else
      0
  }

  /** The text line of a valid response: one character per byte pair at
      indices 3..32; empty while pending or when invalid. This is the
      specification of the decoding; GetErrorLog below is the source's loop,
      proved to compute it. */
  function ErrorLog(rsp: Rsp, checksum: Rego6xx.Checksum): (text: string)
    requires |rsp.response| >= 33
    ensures !IsValid(rsp, checksum) ==> text == ""
    ensures IsValid(rsp, checksum) ==> |text| == MAX_LEN / 2
  {
    if !rsp.pending && IsValid(rsp, checksum) then
      seq(MAX_LEN / 2, k requires 0 <= k < MAX_LEN / 2 =>
        NibblePair(rsp.response[TEXT_START_IDX + 2 * k], rsp.response[TEXT_START_IDX + 2 * k + 1]) as int as char)
    else
      ""
  }

  /** Decodes the text line by walking the byte pairs from index 3 while the
      index is below 33, appending one character per pair: the loop of the
      source, specified by ErrorLog above. */
  method GetErrorLog(rsp: Rsp, checksum: Rego6xx.Checksum) returns (text: string)
    requires |rsp.response| >= 33
    ensures text == ErrorLog(rsp, checksum)
  {
    text := "";
    if !rsp.pending && IsValid(rsp, checksum) {
      var idx := TEXT_START_IDX;
      while MAX_LEN + TEXT_START_IDX > idx
        invariant TEXT_START_IDX <= idx <= MAX_LEN + TEXT_START_IDX
        invariant (idx - TEXT_START_IDX) % 2 == 0
        invariant |text| == (idx - TEXT_START_IDX) / 2
        invariant forall k :: 0 <= k < |text| ==>
          text[k] == NibblePair(rsp.response[TEXT_START_IDX + 2 * k], rsp.response[TEXT_START_IDX + 2 * k + 1]) as int as char
      {
        var character := NibblePair(rsp.response[idx], rsp.response[idx + 1]);
        text := text + [character as int as char];
        idx := idx + 2;
      }
    }
  }

  /** The description of the error id: "" while pending or when invalid, "?"
      for an id beyond the table, the table entry otherwise. */
  function GetErrorDescription(rsp: Rsp, checksum: Rego6xx.Checksum): (description: string)
    requires |rsp.response| >= 33
    ensures !IsValid(rsp, checksum) ==> description == ""
    ensures IsValid(rsp, checksum) && GetErrorId(rsp, checksum) as int >= |ERROR_MSGS| ==> description == "?"
    ensures IsValid(rsp, checksum) && GetErrorId(rsp, checksum) as int < |ERROR_MSGS| ==>
      description == ERROR_MSGS[GetErrorId(rsp, checksum)]
  {
    if !rsp.pending && IsValid(rsp, checksum) then
      var errorId := GetErrorId(rsp, checksum);
      if |ERROR_MSGS| <= errorId as int then "?" else ERROR_MSGS[errorId]
    else
      ""
  }

  /** The table has 23 entries, none of them "" or "?", so the three outcomes
      of GetErrorDescription can be told apart. */
  lemma ErrorMessagesAreDistinguishable()
    ensures |ERROR_MSGS| == 23
    ensures forall i :: 0 <= i < |ERROR_MSGS| ==> ERROR_MSGS[i] != "" && ERROR_MSGS[i] != "?"
  {
    forall i | 0 <= i < |ERROR_MSGS|
      ensures ERROR_MSGS[i] != "" && ERROR_MSGS[i] != "?"
    {
      assert |ERROR_MSGS[i]| > 1;
    }
  }

  /** The two bytes that carry one code as column and row nibbles. */
  function Nibbles(code: uint8): seq<uint8>
  {
    [code / 0x10, code % 0x10]
  }

  /** Splitting a code into nibbles and joining them gives it back. */
  lemma NibblePairOfNibbles(code: uint8)
    ensures NibblePair(Nibbles(code)[0], Nibbles(code)[1]) == code
  {
    assert code / 0x10 < 0x10;
  }

  /** A text line as consecutive nibble pairs. */
  function PackText(codes: seq<uint8>): (bytes: seq<uint8>)
    ensures |bytes| == 2 * |codes|
    ensures forall k :: 0 <= k < |codes| ==> bytes[2 * k] == codes[k] / 0x10 && bytes[2 * k + 1] == codes[k] % 0x10
  {
    if codes == [] then [] else Nibbles(codes[0]) + PackText(codes[1..])
  }

  /** The error response built from a device address, an error id and a
      text line: address, id nibbles, text pairs, checksum of the interior. */
  function ErrorFrame(devAddr: uint8, id: uint8, codes: seq<uint8>, checksum: Rego6xx.Checksum): (response: seq<uint8>)
    ensures |response| == 2 * |codes| + 4
    ensures response[0] == devAddr
    ensures response[1] == id / 0x10 && response[2] == id % 0x10
    ensures forall k :: 0 <= k < |codes| ==>
      response[TEXT_START_IDX + 2 * k] == codes[k] / 0x10 && response[TEXT_START_IDX + 2 * k + 1] == codes[k] % 0x10
  {
    var interior := Nibbles(id) + PackText(codes);
    [devAddr] + interior + [checksum(interior)]
  }

  /** Each byte pair of the text line of a built response decodes to its
      character code. */
  lemma ErrorFrameText(devAddr: uint8, id: uint8, codes: seq<uint8>, checksum: Rego6xx.Checksum, k: nat)
    requires k < |codes|
    ensures var response := ErrorFrame(devAddr, id, codes, checksum);
      NibblePair(response[TEXT_START_IDX + 2 * k], response[TEXT_START_IDX + 2 * k + 1]) == codes[k]
  {
    NibblePairOfNibbles(codes[k]);
  }

  /** An error response built from a device address, an error id and a
      15-character line is valid and decodes to exactly those. */
  lemma ErrorRspRoundTrip(devAddr: uint8, id: uint8, codes: seq<uint8>, checksum: Rego6xx.Checksum)
    requires |codes| == MAX_LEN / 2
    ensures var rsp := Rsp(ErrorFrame(devAddr, id, codes, checksum), false);
      && |rsp.response| >= 33
      && IsValid(rsp, checksum)
      && GetDevAddr(rsp, checksum) == devAddr
      && GetErrorId(rsp, checksum) == id
      && ErrorLog(rsp, checksum) == seq(|codes|, k requires 0 <= k < |codes| => codes[k] as int as char)
  {
    var interior := Nibbles(id) + PackText(codes);
    FramedIsValid(devAddr, interior, checksum);
    var rsp := Rsp(ErrorFrame(devAddr, id, codes, checksum), false);
    NibblePairOfNibbles(id);
    var text := ErrorLog(rsp, checksum);
    forall k | 0 <= k < |codes|
      ensures text[k] == codes[k] as int as char
    {
      ErrorFrameText(devAddr, id, codes, checksum, k);
    }
  }
}
