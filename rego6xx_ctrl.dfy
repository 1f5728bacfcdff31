/** The Rego6xx heat-pump controller protocol: constants and register
    enumerations, the 9-byte command frame, the raw-value conversions and the
    controller that allows a single outstanding request at a time
    (lib/Rego6xx/Rego6xxCtrl.h, lib/Rego6xx/Rego6xxCtrl.cpp). */
module Rego6xx {
  import opened Bytes
  import opened Streams

  /** Device address of the heat-pump controller. */
  const DEV_ADDR_HEATPUMP: uint8 := 0x81
  /** Device address of the host. */
  const DEV_ADDR_HOST: uint8 := 0x01
  /** Size of a command frame in bytes. */
  const CMD_SIZE: nat := 9

  /** The checksum over a byte range (Rego6xxUtil::calculateChecksum).
      Its definition is not part of this model: every operation that needs it
      takes it as a parameter, so nothing here depends on how it combines bytes. */
  type Checksum = seq<uint8> -> uint8

  // ---------------------------------------------------------------------------
  // Command ids and register addresses
  // ---------------------------------------------------------------------------

  /** Commands of the heat-pump regulator. */
  datatype CmdId =
    | ReadFrontPanel | WriteFrontPanel
    | ReadSystemReg | WriteSystemReg
    | ReadTimerReg | WriteTimerReg
    | ReadReg1B61 | WriteReg1B61
    | ReadDisplay | ReadLastError | ReadPrevError | ReadRegoVersion
  {
    /** The id on the wire; every id fits one 7-bit byte. */
    function Id(): (id: uint8)
      ensures id < 0x80
    {
      match this
      case ReadFrontPanel => 0x00
      case WriteFrontPanel => 0x01
      case ReadSystemReg => 0x02
      case WriteSystemReg => 0x03
      case ReadTimerReg => 0x04
      case WriteTimerReg => 0x05
      case ReadReg1B61 => 0x06
      case WriteReg1B61 => 0x07
      case ReadDisplay => 0x20
      case ReadLastError => 0x40
      case ReadPrevError => 0x42
      case ReadRegoVersion => 0x7f
    }
  }

  /** The ids of the two requests that take no argument. */
  lemma FixedRequestIds()
    ensures CmdId.ReadLastError.Id() == 0x40 && CmdId.ReadRegoVersion.Id() == 0x7F
  {
  }

  /** The four register families that can be both read and written. */
  datatype RegisterFamily = FrontPanel | SystemReg | TimerReg | Reg1B61
  {
    function ReadCmd(): CmdId
    {
      match this
      case FrontPanel => ReadFrontPanel
      case SystemReg => ReadSystemReg
      case TimerReg => ReadTimerReg
      case Reg1B61 => ReadReg1B61
    }

    /** The write command of a family has the id following its read command. */
    function WriteCmd(): (c: CmdId)
      ensures c.Id() as int == ReadCmd().Id() as int + 1
    {
      match this
      case FrontPanel => WriteFrontPanel
      case SystemReg => WriteSystemReg
      case TimerReg => WriteTimerReg
      case Reg1B61 => WriteReg1B61
    }
  }

  /** System register addresses of the Rego600. */
  datatype SysRegAddr =
      // settings
    | HeatCurve | HeatCurveFineAdj | IndoorTemp | Curve
    | CurveAdj20 | CurveAdj15 | CurveAdj10 | CurveAdj5 | CurveAdj0
    | CurveAdjM5 | CurveAdjM10 | CurveAdjM15 | CurveAdjM20 | CurveAdjM25
    | CurveAdjM30 | CurveAdjM35 | HeatCurveDiff
      // control data
    | Gt1Target | Gt1On | Gt1Off | Gt3Target | Gt3On | Gt3Off | Gt4Target
    | AddHeatPower
      // device values
    | P3 | Compressor | AddHeat3kW | AddHeat6kW | P1 | P2 | Vxv | Alarm
      // sensor values
    | Gt1 | Gt2 | Gt3 | Gt4 | Gt5 | Gt6 | Gt8 | Gt9 | Gt10 | Gt11 | Gt3x
  {
    /** The address; every one fits the 14 bits a command frame carries. */
    function Addr(): (a: uint16)
      ensures a < 0x4000
    {
      match this
      case HeatCurve => 0x0000
      case HeatCurveFineAdj => 0x0001
      case IndoorTemp => 0x0021
      case Curve => 0x0022
      case CurveAdj20 => 0x001e
      case CurveAdj15 => 0x001c
      case CurveAdj10 => 0x001a
      case CurveAdj5 => 0x0018
      case CurveAdj0 => 0x0016
      case CurveAdjM5 => 0x0014
      case CurveAdjM10 => 0x0012
      case CurveAdjM15 => 0x0010
      case CurveAdjM20 => 0x000e
      case CurveAdjM25 => 0x000c
      case CurveAdjM30 => 0x000a
      case CurveAdjM35 => 0x0008
      case HeatCurveDiff => 0x0002
      case Gt1Target => 0x006e
      case Gt1On => 0x006f
      case Gt1Off => 0x0070
      case Gt3Target => 0x002b
      case Gt3On => 0x0073
      case Gt3Off => 0x0074
      case Gt4Target => 0x006d
      case AddHeatPower => 0x006c
      case P3 => 0x01fd
      case Compressor => 0x01fe
      case AddHeat3kW => 0x01ff
      case AddHeat6kW => 0x0200
      case P1 => 0x0203
      case P2 => 0x0204
      case Vxv => 0x0205
      case Alarm => 0x0206
      case Gt1 => 0x0209
      case Gt2 => 0x020a
      case Gt3 => 0x020b
      case Gt4 => 0x020c
      case Gt5 => 0x020d
      case Gt6 => 0x020e
      case Gt8 => 0x020f
      case Gt9 => 0x0210
      case Gt10 => 0x0211
      case Gt11 => 0x0212
      case Gt3x => 0x0213
    }
  }

  /** Front panel button and LED addresses of the Rego600. */
  datatype FrontPanelAddr =
    | PowerButton | LeftButton | MiddleButton | RightButton
    | PowerLed | PumpLed | HeatingLed | BoilerLed | AlarmLed | Wheel
  {
    /** The address; every one fits the 14 bits a command frame carries. */
    function Addr(): (a: uint16)
      ensures a < 0x4000
    {
      match this
      case PowerButton => 0x0008
      case LeftButton => 0x0009
      case MiddleButton => 0x000A
      case RightButton => 0x000B
      case PowerLed => 0x0012
      case PumpLed => 0x0013
      case HeatingLed => 0x0014
      case BoilerLed => 0x0015
      case AlarmLed => 0x0016
      case Wheel => 0x0044
    }
  }

  /** Display rows of the Rego600. */
  datatype Row = Row1 | Row2 | Row3 | Row4
  {
    function Addr(): (a: uint16)
      ensures a < 4
    {
      match this
      case Row1 => 0x00
      case Row2 => 0x01
      case Row3 => 0x02
      case Row4 => 0x03
    }
  }

  // ---------------------------------------------------------------------------
  // Command frame
  // ---------------------------------------------------------------------------

  /** A field value rebuilt from three 7-bit groups, most significant first. */
  function Join7(hi: uint8, mid: uint8, lo: uint8): nat
  {
    hi as nat * 0x4000 + mid as nat * 0x80 + lo as nat
  }

  /** `(v >> 14) & 0x03`, `(v >> 7) & 0x7F`, `v & 0x7F` rebuild v when v < 2^16. */
  lemma SevenBitGroups16(v: nat)
    requires v < 0x1_0000
    ensures (v / 0x4000) % 4 * 0x4000 + (v / 0x80) % 0x80 * 0x80 + v % 0x80 == v
  {
    var q := v / 0x80;
    assert v == q * 0x80 + v % 0x80;
    assert q == (q / 0x80) * 0x80 + q % 0x80;
    assert q / 0x80 == v / 0x4000;
    assert v / 0x4000 < 4;
  }

  /** The 16-bit register address or data field as the three groups a command
      frame carries: 2 bits, then 7 bits, then 7 bits. */
  function Split16(v: uint16): (g: seq<uint8>)
    ensures |g| == 3 && g[0] <= 3 && g[1] <= 0x7F && g[2] <= 0x7F
  {
    [((v / 0x4000) % 4) as uint8, ((v / 0x80) % 0x80) as uint8, (v % 0x80) as uint8]
  }

  /** Splitting a 16-bit field into groups loses nothing. */
  lemma SplitJoin16(v: uint16)
    ensures Join7(Split16(v)[0], Split16(v)[1], Split16(v)[2]) == v as nat
  {
    SevenBitGroups16(v as nat);
  }

  /** The command frame written for one request: device address, command id,
      register address and data as 7-bit groups, checksum over bytes 2..7. */
  function EncodeCommand(devAddr: uint8, cmdId: uint8, regAddr: uint16, data: uint16, checksum: Checksum): (frame: seq<uint8>)
    ensures |frame| == CMD_SIZE
    ensures frame[0] == devAddr && frame[1] == cmdId
    ensures frame[2] <= 3 && frame[3] <= 0x7F && frame[4] <= 0x7F
    ensures frame[5] <= 3 && frame[6] <= 0x7F && frame[7] <= 0x7F
    ensures frame[8] == checksum(frame[2..8])
  {
    var payload := Split16(regAddr) + Split16(data);
    [devAddr, cmdId] + payload + [checksum(payload)]
  }

  /** Bytes 2..4 of a command frame rebuild the register address and bytes
      5..7 the data: `(b2 << 14) | (b3 << 7) | b4 == regAddr`. */
  lemma EncodeCommandFields(devAddr: uint8, cmdId: uint8, regAddr: uint16, data: uint16, checksum: Checksum)
    ensures var frame := EncodeCommand(devAddr, cmdId, regAddr, data, checksum);
      && Join7(frame[2], frame[3], frame[4]) == regAddr as nat
      && Join7(frame[5], frame[6], frame[7]) == data as nat
  {
    SplitJoin16(regAddr);
    SplitJoin16(data);
  }

  /** A command as the heat pump reads it back from a frame. */
  datatype Command = Command(devAddr: uint8, cmdId: uint8, regAddr: uint16, data: uint16)

  /** Reads a command frame: None when its length, checksum or a 2-bit top
      group is wrong. */
  function DecodeCommand(frame: seq<uint8>, checksum: Checksum): (c: Option<Command>)
    ensures c.Some? ==> |frame| == CMD_SIZE && frame[8] == checksum(frame[2..8])
  {
    if |frame| != CMD_SIZE || frame[8] != checksum(frame[2..8])
       || frame[2] > 3 || frame[3] > 0x7F || frame[4] > 0x7F
       || frame[5] > 3 || frame[6] > 0x7F || frame[7] > 0x7F
    then None
    else
      Some(Command(frame[0], frame[1],
                   Join7(frame[2], frame[3], frame[4]) as uint16,
                   Join7(frame[5], frame[6], frame[7]) as uint16))
  }

  /** Every frame the controller writes reads back as the command it encodes. */
  lemma DecodeEncode(devAddr: uint8, cmdId: uint8, regAddr: uint16, data: uint16, checksum: Checksum)
    ensures DecodeCommand(EncodeCommand(devAddr, cmdId, regAddr, data, checksum), checksum)
            == Some(Command(devAddr, cmdId, regAddr, data))
  {
    var frame := EncodeCommand(devAddr, cmdId, regAddr, data, checksum);
    EncodeCommandFields(devAddr, cmdId, regAddr, data, checksum);
    assert Join7(frame[2], frame[3], frame[4]) as uint16 == regAddr;
    assert Join7(frame[5], frame[6], frame[7]) as uint16 == data;
  }

  // ---------------------------------------------------------------------------
  // Raw value conversions (a raw value counts tenths, two's complement)
  // ---------------------------------------------------------------------------

  /** Bit 15 of a raw value marks it negative. */
  predicate IsNegativeRaw(value: uint16)
  {
    value >= 0x8000
  }

  /** The magnitude `(0xFFFF - value) + 1` (truncated to 16 bits) of a
      negative raw value, the value itself otherwise. */
  function Magnitude(value: uint16): (m: nat)
    ensures m <= 0x8000
    ensures IsNegativeRaw(value) ==> m == 0x1_0000 - value as int && m >= 1
    ensures !IsNegativeRaw(value) ==> m == value as int
  {
    if IsNegativeRaw(value) then (0xFFFF - value as int + 1) % 0x1_0000 else value as int
  }

  /** Converts a raw value to degrees, as Rego6xxCtrl::toFloat does: the sign is
      applied to the integer part `int8_t(m / 10)`, the fraction `(m % 10) / 10`
      is added away from zero. Computed exactly (no float rounding). */
  function ToFloat(value: uint16): real
  {
    var m := Magnitude(value);
    var sign := if IsNegativeRaw(value) then -1 else 1;
    var floorPart := sign * ToInt8(m / 10);
    var fracPart := (m % 10) as real / 10.0;
    if floorPart < 0 then floorPart as real - fracPart else floorPart as real + fracPart
  }

  /** A raw value is "exact" when its integer part fits int8 and, if negative,
      is not zero: these are the values ToFloat decodes as intended. */
  predicate InExactRange(value: uint16)
  {
    var m := Magnitude(value);
    m <= 1279 && (IsNegativeRaw(value) ==> m >= 10)
  }

  /** The value of a raw count of tenths, read as two's complement. */
  function SignedTenths(value: uint16): (t: int)
    ensures -0x8000 <= t < 0x8000
    ensures IsNegativeRaw(value) <==> t < 0
  {
    if IsNegativeRaw(value) then value as int - 0x1_0000 else value as int
  }

  /** In the exact range ToFloat is the signed count of tenths divided by 10. */
  lemma ToFloatExact(value: uint16)
    requires InExactRange(value)
    ensures ToFloat(value) == SignedTenths(value) as real / 10.0
  {
    var m := Magnitude(value);
    assert m == (m / 10) * 10 + m % 10;
    assert ToInt8(m / 10) == m / 10;
  }

  /** A negative raw value of magnitude below 10 (-0.1 .. -0.9) decodes as the
      positive m / 10: the sign only reaches the zero integer part. */
  lemma ToFloatLosesSmallNegativeSign(value: uint16)
    requires IsNegativeRaw(value) && Magnitude(value) < 10
    ensures ToFloat(value) == Magnitude(value) as real / 10.0
    ensures ToFloat(value) > 0.0
  {
  }

  /** Converts degrees to a raw value, as Rego6xxCtrl::fromFloat does: ten times
      the magnitude truncated toward zero, stored as `(0xFFFF - r) + 1` (mod 2^16)
      when negative. The source converts a float to uint16_t, which it only
      defines for magnitudes below 6553.6. */
  function FromFloat(value: real): (r: uint16)
    requires -6553.6 < value < 6553.6
  {
    var isNegative := value < 0.0;
    var v := if isNegative then -value else value;
    var result := (v * 10.0).Floor;
    if isNegative then ((0xFFFF - result + 1) % 0x1_0000) as uint16 else result as uint16
  }

  /** The negative of a count of tenths is encoded as its two's complement, the
      non-negative count as itself. */
  lemma FromFloatTenths(k: int)
    requires -0x8000 <= k < 0x8000
    ensures FromFloat(k as real / 10.0) as int == if k < 0 then k + 0x1_0000 else k
  {
    var v := if k < 0 then -(k as real / 10.0) else k as real / 10.0;
    assert v * 10.0 == (if k < 0 then -k else k) as real;
  }

  /** Decoding an exact raw value and encoding it again gives back the raw value. */
  lemma FromFloatToFloat(value: uint16)
    requires InExactRange(value)
    ensures FromFloat(ToFloat(value)) == value
  {
    ToFloatExact(value);
    FromFloatTenths(SignedTenths(value));
  }

  /** Encoding a temperature given in tenths and decoding it again gives it back,
      for every count of tenths whose raw value is exact. */
  lemma ToFloatFromFloat(k: int)
    requires -1279 <= k <= 1279 && !(-10 < k < 0)
    ensures ToFloat(FromFloat(k as real / 10.0)) == k as real / 10.0
  {
    var raw := FromFloat(k as real / 10.0);
    FromFloatTenths(k);
    assert SignedTenths(raw) == k;
    assert InExactRange(raw);
    ToFloatExact(raw);
  }

  /** The int8_t cast wraps: a raw 128.0 decodes as -128.0. */
  lemma ToFloatWrapsAbove127()
    ensures ToFloat(1280) == -128.0
    ensures SignedTenths(1280) as real / 10.0 == 128.0
  {
  }

  /** The lost sign: raw 0xFFFF (-0.1) decodes as +0.1. */
  lemma ToFloatSmallNegativeExample()
    ensures ToFloat(0xFFFF) == 0.1
    ensures SignedTenths(0xFFFF) as real / 10.0 == -0.1
  {
    ToFloatLosesSmallNegativeSign(0xFFFF);
  }

  /** The intended decoding: the signed count of tenths divided by 10, with
      neither the int8 wrap nor the lost sign. */
  function ToFloatIntended(value: uint16): (r: real)
    ensures -3276.8 <= r < 3276.8
    ensures r < 0.0 <==> IsNegativeRaw(value)
  {
    SignedTenths(value) as real / 10.0
  }

  /** Every raw value survives the intended decoding followed by FromFloat. */
  lemma FromFloatToFloatIntended(value: uint16)
    ensures FromFloat(ToFloatIntended(value)) == value
  {
    if value != 0 {
      FromFloatTenths(SignedTenths(value));
    }
  }

  /** ToFloatIntended agrees with ToFloat wherever the latter is exact. */
  lemma ToFloatIntendedAgrees(value: uint16)
    requires InExactRange(value)
    ensures ToFloatIntended(value) == ToFloat(value)
  {
    ToFloatExact(value);
  }

  /** Converts a raw value to a boolean: false exactly for 0. */
  function ToBool(value: uint16): (b: bool)
    ensures b <==> value != 0
  {
    if value == 0 then false else true
  }

  // ---------------------------------------------------------------------------
  // The controller
  // ---------------------------------------------------------------------------

  /** The response objects the controller owns; a request lends one of them. */
  datatype RspSlot = StdSlot | ConfirmSlot | ErrorSlot | BoolSlot | DisplaySlot

  class Rego6xxCtrl {
    /** Stream to the heat-pump controller. */
    const stream: Stream
    /** Checksum used to build command frames. */
    const checksum: Checksum
    /** The response being waited for, if any (m_pendingRsp). */
    var pendingRsp: Option<RspSlot>
    /** How many times process() has run; its body is not part of this model. */
    ghost var processSteps: nat

    /** Sets the stream timeout to 20 ms and drains what the stream already
        received, which leaves a stream without a device as it is; no
        response is pending. */
    constructor (stream: Stream, checksum: Checksum)
      modifies stream
      ensures this.stream == stream && this.checksum == checksum
      ensures pendingRsp == None && !IsPending() && processSteps == 0
      ensures stream.wired == old(stream.wired)
      ensures stream.rx == (if stream.wired then [] else old(stream.rx))
      ensures stream.tx == old(stream.tx) && stream.timeout == 20
    {
      this.stream := stream;
      this.checksum := checksum;
      pendingRsp := None;
      processSteps := 0;
      new;
      stream.SetTimeout(20);
      ClearRxBuffer();
    }

    /** True exactly while a response is outstanding. */
    predicate IsPending()
      reads this
    {
      pendingRsp.Some?
    }

    /** Reads and discards bytes until the stream reports none available;
        a stream without a device reports none from the start. */
    method ClearRxBuffer()
      modifies stream`rx
      ensures stream.wired ==> stream.rx == []
      ensures !stream.wired ==> stream.rx == old(stream.rx)
    {
      var available := stream.Available();
      while 0 < available
        invariant available == (if stream.wired then |stream.rx| else 0)
        invariant !stream.wired ==> stream.rx == old(stream.rx)
        decreases |stream.rx|
      {
        var _ := stream.Read();
        available := stream.Available();
      }
    }

    /** Fills a 9-byte command buffer and writes it to the stream. */
    method WriteCmd(devAddr: uint8, cmdId: uint8, regAddr: uint16, data: uint16)
      modifies stream`tx
      ensures stream.tx == old(stream.tx) + stream.Delivered(EncodeCommand(devAddr, cmdId, regAddr, data, checksum))
    {
      var addrGroups := [((regAddr / 0x4000) % 0x04) as uint8, ((regAddr / 0x80) % 0x80) as uint8, (regAddr % 0x80) as uint8];
      var dataGroups := [((data / 0x4000) % 0x04) as uint8, ((data / 0x80) % 0x80) as uint8, (data % 0x80) as uint8];
      assert addrGroups == Split16(regAddr) && dataGroups == Split16(data);
      ghost var body := addrGroups + dataGroups;
      var cmdBuffer := new uint8[CMD_SIZE];
      cmdBuffer[0] := devAddr;
      cmdBuffer[1] := cmdId;
      cmdBuffer[2] := addrGroups[0];
      cmdBuffer[3] := addrGroups[1];
      cmdBuffer[4] := addrGroups[2];
      cmdBuffer[5] := dataGroups[0];
      cmdBuffer[6] := dataGroups[1];
      cmdBuffer[7] := dataGroups[2];
      assert cmdBuffer[2..8] == body;
      cmdBuffer[8] := checksum(cmdBuffer[2..8]);
      ghost var frame := cmdBuffer[..];
      assert frame[..2] == [devAddr, cmdId] && frame[2..8] == body && frame[8..] == [checksum(body)];
      assert frame == frame[..2] + frame[2..8] + frame[8..];
      var _ := stream.Write(cmdBuffer[..]);
    }

    /** Standard read: with nothing pending, writes a read frame with data 0
        and waits for a standard response; otherwise returns None. */
    method ReadStd(cmdId: uint8, addr: uint16) returns (rsp: Option<RspSlot>)
      modifies this`pendingRsp, stream`tx
      ensures old(pendingRsp).Some? ==> rsp == None && pendingRsp == old(pendingRsp) && stream.tx == old(stream.tx)
      ensures old(pendingRsp).None? ==>
        && rsp == Some(StdSlot) && pendingRsp == rsp
        && stream.tx == old(stream.tx) + stream.Delivered(EncodeCommand(DEV_ADDR_HEATPUMP, cmdId, addr, 0, checksum))
    {
      rsp := None;
      if pendingRsp == None {
        WriteCmd(DEV_ADDR_HEATPUMP, cmdId, addr, 0);
        pendingRsp := Some(StdSlot);
        rsp := Some(StdSlot);
      }
    }

    /** Standard write: with nothing pending, writes the value and waits for a
        confirmation; otherwise returns None. */
    method WriteStd(cmdId: uint8, addr: uint16, value: uint16) returns (rsp: Option<RspSlot>)
      modifies this`pendingRsp, stream`tx
      ensures old(pendingRsp).Some? ==> rsp == None && pendingRsp == old(pendingRsp) && stream.tx == old(stream.tx)
      ensures old(pendingRsp).None? ==>
        && rsp == Some(ConfirmSlot) && pendingRsp == rsp
        && stream.tx == old(stream.tx) + stream.Delivered(EncodeCommand(DEV_ADDR_HEATPUMP, cmdId, addr, value, checksum))
    {
      rsp := None;
      if pendingRsp == None {
        WriteCmd(DEV_ADDR_HEATPUMP, cmdId, addr, value);
        pendingRsp := Some(ConfirmSlot);
        rsp := Some(ConfirmSlot);
      }
    }

    /** Reads the last error line (command 0x40, address 0, data 0). */
    method ReadLastError() returns (rsp: Option<RspSlot>)
      modifies this`pendingRsp, stream`tx
      ensures old(pendingRsp).Some? ==> rsp == None && pendingRsp == old(pendingRsp) && stream.tx == old(stream.tx)
      ensures old(pendingRsp).None? ==>
        && rsp == Some(ErrorSlot) && pendingRsp == rsp
        && stream.tx == old(stream.tx) + stream.Delivered(EncodeCommand(DEV_ADDR_HEATPUMP, 0x40, 0, 0, checksum))
    {
      rsp := None;
      if pendingRsp == None {
        FixedRequestIds();
        WriteCmd(DEV_ADDR_HEATPUMP, CmdId.ReadLastError.Id(), 0, 0);
        pendingRsp := Some(ErrorSlot);
        rsp := Some(ErrorSlot);
      }
    }

    /** Reads the controller version (command 0x7F, address 0, data 0) into the
        standard response. */
    method ReadRegoVersion() returns (rsp: Option<RspSlot>)
      modifies this`pendingRsp, stream`tx
      ensures old(pendingRsp).Some? ==> rsp == None && pendingRsp == old(pendingRsp) && stream.tx == old(stream.tx)
      ensures old(pendingRsp).None? ==>
        && rsp == Some(StdSlot) && pendingRsp == rsp
        && stream.tx == old(stream.tx) + stream.Delivered(EncodeCommand(DEV_ADDR_HEATPUMP, 0x7F, 0, 0, checksum))
    {
      rsp := None;
      if pendingRsp == None {
        FixedRequestIds();
        WriteCmd(DEV_ADDR_HEATPUMP, CmdId.ReadRegoVersion.Id(), 0, 0);
        pendingRsp := Some(StdSlot);
        rsp := Some(StdSlot);
      }
    }

    /** Reads a display row: with nothing pending, writes a frame with data 0
        and waits for a display response; otherwise returns None. */
    method ReadDisplay(cmdId: uint8, addr: uint16) returns (rsp: Option<RspSlot>)
      modifies this`pendingRsp, stream`tx
      ensures old(pendingRsp).Some? ==> rsp == None && pendingRsp == old(pendingRsp) && stream.tx == old(stream.tx)
      ensures old(pendingRsp).None? ==>
        && rsp == Some(DisplaySlot) && pendingRsp == rsp
        && stream.tx == old(stream.tx) + stream.Delivered(EncodeCommand(DEV_ADDR_HEATPUMP, cmdId, addr, 0, checksum))
    {
      rsp := None;
      if pendingRsp == None {
        WriteCmd(DEV_ADDR_HEATPUMP, cmdId, addr, 0);
        pendingRsp := Some(DisplaySlot);
        rsp := Some(DisplaySlot);
      }
    }

    /** One receive step. It may consume received bytes from the front of the
        stream and, once the pending response is complete, release it; which
        bytes it takes and when it releases are not part of this model, so
        only the step itself and those bounds are promised. */
    method Process()
      modifies this`processSteps, this`pendingRsp, stream`rx
      ensures processSteps == old(processSteps) + 1
      ensures pendingRsp == old(pendingRsp) || pendingRsp.None?
      ensures |stream.rx| <= |old(stream.rx)|
      ensures stream.rx == old(stream.rx)[|old(stream.rx)| - |stream.rx|..]
    {
      processSteps := processSteps + 1;
    }
  }

  /** Two requests in a row: the second is refused and the stream carries only
      the first frame, which reads back as the first command. */
  method SecondRequestIsRefused(ctrl: Rego6xxCtrl, addr: uint16) returns (first: Option<RspSlot>, second: Option<RspSlot>)
    requires !ctrl.IsPending() && ctrl.stream.wired
    modifies ctrl, ctrl.stream
    ensures first == Some(StdSlot) && second == None && ctrl.IsPending()
    ensures |ctrl.stream.tx| == |old(ctrl.stream.tx)| + CMD_SIZE
    ensures DecodeCommand(ctrl.stream.tx[|old(ctrl.stream.tx)|..], ctrl.checksum)
            == Some(Command(DEV_ADDR_HEATPUMP, CmdId.ReadSystemReg.Id(), addr, 0))
  {
    first := ctrl.ReadStd(CmdId.ReadSystemReg.Id(), addr);
    second := ctrl.ReadLastError();
    assert ctrl.stream.tx[|old(ctrl.stream.tx)|..]
           == EncodeCommand(DEV_ADDR_HEATPUMP, CmdId.ReadSystemReg.Id(), addr, 0, ctrl.checksum);
    DecodeEncode(DEV_ADDR_HEATPUMP, CmdId.ReadSystemReg.Id(), addr, 0, ctrl.checksum);
  }
}
