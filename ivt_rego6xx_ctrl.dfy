/** The ESPHome component around the controller: fixed-capacity registration
    of sensors, binary sensors and text sensors, the table from sensor names
    to system registers, and the loop that drives the controller
    (src/ivt_rego6xx_ctrl/IVTRego6xxCtrl.h, src/ivt_rego6xx_ctrl/IVTRego6xxCtrl.cpp). */
module IVTRego6xxComponent {
  import opened Bytes
  import opened Streams
  import opened Rego6xx

  /** A sensor, identified by its sensor type name ("gt1", ...). */
  datatype Sensor = Sensor(sensorType: string)
  /** A binary sensor reading one system register. */
  datatype BinarySensor = BinarySensor(addr: uint16)
  /** A text sensor reading one display row. */
  datatype TextSensor = TextSensor(cmdId: uint8, addr: uint16)

  const MAX_SENSORS: nat := 11
  const MAX_BINARY_SENSORS: nat := 5
  const MAX_TEXT_SENSORS: nat := 4

  /** The sensor names and the system registers they read. */
  const NAME_TO_SYS_REG: seq<(string, SysRegAddr)> := [
    ("gt1", Gt1),
    ("gt2", Gt2),
    ("gt3", Gt3),
    ("gt4", Gt4),
    ("gt5", Gt5),
    ("gt6", Gt6),
    ("gt8", Gt8),
    ("gt9", Gt9),
    ("gt10", Gt10),
    ("gt11", Gt11),
    ("gt3x", Gt3x)
  ]

  /** The first table entry at or after index `from` carrying the name. */
  function FindSysReg(name: string, from: nat): (r: Option<SysRegAddr>)
    requires from <= |NAME_TO_SYS_REG|
    ensures r.Some? ==> exists i :: from <= i < |NAME_TO_SYS_REG| && NAME_TO_SYS_REG[i] == (name, r.value)
    ensures r.None? ==> forall i :: from <= i < |NAME_TO_SYS_REG| ==> NAME_TO_SYS_REG[i].0 != name
    decreases |NAME_TO_SYS_REG| - from
  {
    if from == |NAME_TO_SYS_REG| then None
    else if NAME_TO_SYS_REG[from].0 == name then Some(NAME_TO_SYS_REG[from].1)
    else FindSysReg(name, from + 1)
  }

  /** The system register a sensor name stands for, None for an unknown name. */
  function SysRegOf(name: string): (r: Option<SysRegAddr>)
    ensures r.Some? <==> exists i :: 0 <= i < |NAME_TO_SYS_REG| && NAME_TO_SYS_REG[i].0 == name
    ensures r.Some? ==> (name, r.value) in NAME_TO_SYS_REG
  {
    FindSysReg(name, 0)
  }

  /** The table has 11 entries with distinct names and distinct registers,
      so reading it as a map is well defined in either direction. */
  lemma NameTableIsInjective()
    ensures |NAME_TO_SYS_REG| == 11
    ensures forall i, j :: 0 <= i < j < |NAME_TO_SYS_REG| ==> NAME_TO_SYS_REG[i].0 != NAME_TO_SYS_REG[j].0
    ensures forall i, j :: 0 <= i < j < |NAME_TO_SYS_REG| ==> NAME_TO_SYS_REG[i].1 != NAME_TO_SYS_REG[j].1
  {
  }

  /** Looking up any name of the table yields the register of its own entry. */
  lemma SysRegOfTableName(i: nat)
    requires i < |NAME_TO_SYS_REG|
    ensures SysRegOf(NAME_TO_SYS_REG[i].0) == Some(NAME_TO_SYS_REG[i].1)
  {
    NameTableIsInjective();
  }

  /** "gt1" is the first entry and "gt3x" the last. */
  lemma NameTableExamples()
    ensures SysRegOf("gt1") == Some(Gt1)
    ensures SysRegOf("gt3x") == Some(Gt3x)
  {
    assert NAME_TO_SYS_REG[0] == ("gt1", Gt1) && NAME_TO_SYS_REG[10] == ("gt3x", Gt3x);
    SysRegOfTableName(0);
    SysRegOfTableName(10);
  }

  /** A name outside the table, such as "gt7", has no register. */
  lemma UnknownNameHasNoRegister()
    ensures SysRegOf("gt7") == None
  {
    forall i | 0 <= i < |NAME_TO_SYS_REG|
      ensures NAME_TO_SYS_REG[i].0 != "gt7"
    {
      assert NAME_TO_SYS_REG[i].0[2] != '7';
    }
  }

  class IVTRego6xxCtrl {
    /** Stream adapter over the UART device. */
    const adapter: Stream
    /** The heat-pump controller. */
    const ctrl: Rego6xxCtrl
    /** Pending standard response used to read sensors and binary sensors. */
    var stdRsp: Option<RspSlot>
    /** Pending display response used to read text sensors. */
    var displayRsp: Option<RspSlot>

    const sensors: array<Option<Sensor>>
    var sensorCount: nat
    var currentSensorIndex: nat

    const binarySensors: array<Option<BinarySensor>>
    var binarySensorCount: nat
    var currentBinarySensorIndex: nat

    /** Declared with MAX_BINARY_SENSORS slots, filled up to MAX_TEXT_SENSORS. */
    const textSensors: array<Option<TextSensor>>
    var textSensorCount: nat
    var currentTextSensorIndex: nat

    /** Array sizes as declared; no count exceeds its capacity. */
    ghost predicate Valid()
      reads this
    {
      && sensors.Length == MAX_SENSORS
      && binarySensors.Length == MAX_BINARY_SENSORS
      && textSensors.Length == MAX_BINARY_SENSORS
      && sensorCount <= MAX_SENSORS
      && binarySensorCount <= MAX_BINARY_SENSORS
      && textSensorCount <= MAX_TEXT_SENSORS
    }

    /** Nothing is registered, every slot is empty and every cursor is one
        past the end of its capacity. The adapter is built without a device,
        so the controller built on it drains nothing, and only then is the
        UART device set: the bytes already received stay. */
    constructor (uartPending: seq<uint8>, checksum: Checksum)
      ensures Valid()
      ensures fresh(adapter) && fresh(ctrl) && ctrl.stream == adapter && !ctrl.IsPending()
      ensures adapter.wired && adapter.rx == uartPending && adapter.tx == [] && adapter.timeout == 20
      ensures stdRsp == None && displayRsp == None
      ensures fresh(sensors) && fresh(binarySensors) && fresh(textSensors)
      ensures sensorCount == 0 && binarySensorCount == 0 && textSensorCount == 0
      ensures currentSensorIndex == MAX_SENSORS
      ensures currentBinarySensorIndex == MAX_BINARY_SENSORS
      ensures currentTextSensorIndex == MAX_TEXT_SENSORS
      ensures forall i :: 0 <= i < sensors.Length ==> sensors[i].None?
      ensures forall i :: 0 <= i < binarySensors.Length ==> binarySensors[i].None?
      ensures forall i :: 0 <= i < textSensors.Length ==> textSensors[i].None?
    {
      var uart := new Stream(uartPending, false);
      adapter := uart;
      ctrl := new Rego6xxCtrl(uart, checksum);
      stdRsp := None;
      displayRsp := None;
      sensorCount := 0;
      sensors := new Option<Sensor>[MAX_SENSORS](_ => None);
      currentSensorIndex := MAX_SENSORS;
      binarySensorCount := 0;
      binarySensors := new Option<BinarySensor>[MAX_BINARY_SENSORS](_ => None);
      currentBinarySensorIndex := MAX_BINARY_SENSORS;
      textSensorCount := 0;
      textSensors := new Option<TextSensor>[MAX_BINARY_SENSORS](_ => None);
      currentTextSensorIndex := MAX_TEXT_SENSORS;
      new;
      adapter.SetUartDevice();
    }

    /** The same component with the UART device set before the controller is
        built on the adapter, so that the controller's start-up drain
        discards the bytes already received. */
    constructor WiredFirst(uartPending: seq<uint8>, checksum: Checksum)
      ensures Valid()
      ensures fresh(adapter) && fresh(ctrl) && ctrl.stream == adapter && !ctrl.IsPending()
      ensures adapter.wired && adapter.rx == [] && adapter.tx == [] && adapter.timeout == 20
      ensures stdRsp == None && displayRsp == None
      ensures fresh(sensors) && fresh(binarySensors) && fresh(textSensors)
      ensures sensorCount == 0 && binarySensorCount == 0 && textSensorCount == 0
      ensures currentSensorIndex == MAX_SENSORS
      ensures currentBinarySensorIndex == MAX_BINARY_SENSORS
      ensures currentTextSensorIndex == MAX_TEXT_SENSORS
      ensures forall i :: 0 <= i < sensors.Length ==> sensors[i].None?
      ensures forall i :: 0 <= i < binarySensors.Length ==> binarySensors[i].None?
      ensures forall i :: 0 <= i < textSensors.Length ==> textSensors[i].None?
    {
      var uart := new Stream(uartPending, false);
      uart.SetUartDevice();
      adapter := uart;
      ctrl := new Rego6xxCtrl(uart, checksum);
      stdRsp := None;
      displayRsp := None;
      sensorCount := 0;
      sensors := new Option<Sensor>[MAX_SENSORS](_ => None);
      currentSensorIndex := MAX_SENSORS;
      binarySensorCount := 0;
      binarySensors := new Option<BinarySensor>[MAX_BINARY_SENSORS](_ => None);
      currentBinarySensorIndex := MAX_BINARY_SENSORS;
      textSensorCount := 0;
      textSensors := new Option<TextSensor>[MAX_BINARY_SENSORS](_ => None);
      currentTextSensorIndex := MAX_TEXT_SENSORS;
    }

    /** Stores a non-null sensor in the next free slot while there is one;
        otherwise nothing changes. */
    method RegisterSensor(sensor: Option<Sensor>)
      requires Valid()
      modifies this`sensorCount, sensors
      ensures Valid()
      ensures sensor.Some? && old(sensorCount) < MAX_SENSORS ==>
        sensorCount == old(sensorCount) + 1 && sensors[..] == old(sensors[..])[old(sensorCount) := sensor]
      ensures !(sensor.Some? && old(sensorCount) < MAX_SENSORS) ==>
        sensorCount == old(sensorCount) && sensors[..] == old(sensors[..])
    {
      if sensor.Some? && sensorCount < MAX_SENSORS {
        sensors[sensorCount] := sensor;
        sensorCount := sensorCount + 1;
      }
    }

    /** Stores a non-null binary sensor in the next free slot while there is
        one; otherwise nothing changes. */
    method RegisterBinarySensor(binarySensor: Option<BinarySensor>)
      requires Valid()
      modifies this`binarySensorCount, binarySensors
      ensures Valid()
      ensures binarySensor.Some? && old(binarySensorCount) < MAX_BINARY_SENSORS ==>
        binarySensorCount == old(binarySensorCount) + 1
        && binarySensors[..] == old(binarySensors[..])[old(binarySensorCount) := binarySensor]
      ensures !(binarySensor.Some? && old(binarySensorCount) < MAX_BINARY_SENSORS) ==>
        binarySensorCount == old(binarySensorCount) && binarySensors[..] == old(binarySensors[..])
    {
      if binarySensor.Some? && binarySensorCount < MAX_BINARY_SENSORS {
        binarySensors[binarySensorCount] := binarySensor;
        binarySensorCount := binarySensorCount + 1;
      }
    }

    /** Stores a non-null text sensor in the next free slot while fewer than
        MAX_TEXT_SENSORS are registered; the write always stays inside the
        MAX_BINARY_SENSORS slots the array was declared with. */
    method RegisterTextSensor(textSensor: Option<TextSensor>)
      requires Valid()
      modifies this`textSensorCount, textSensors
      ensures Valid()
      ensures textSensor.Some? && old(textSensorCount) < MAX_TEXT_SENSORS ==>
        textSensorCount == old(textSensorCount) + 1
        && textSensors[..] == old(textSensors[..])[old(textSensorCount) := textSensor]
      ensures !(textSensor.Some? && old(textSensorCount) < MAX_TEXT_SENSORS) ==>
        textSensorCount == old(textSensorCount) && textSensors[..] == old(textSensors[..])
      ensures textSensors[MAX_TEXT_SENSORS] == old(textSensors[MAX_TEXT_SENSORS])
    {
      if textSensor.Some? && textSensorCount < MAX_TEXT_SENSORS {
        textSensors[textSensorCount] := textSensor;
        textSensorCount := textSensorCount + 1;
      }
    }

    /** Nothing to do. */
    method Setup()
      requires Valid()
      ensures Valid()
    {
    }

    /** One controller process step and nothing else: it may take received
        bytes from the front of the adapter and release the pending response. */
    method Loop()
      modifies ctrl, ctrl.stream
      ensures ctrl.processSteps == old(ctrl.processSteps) + 1
      ensures ctrl.pendingRsp == old(ctrl.pendingRsp) || ctrl.pendingRsp.None?
      ensures |ctrl.stream.rx| <= |old(ctrl.stream.rx)|
      ensures ctrl.stream.rx == old(ctrl.stream.rx)[|old(ctrl.stream.rx)| - |ctrl.stream.rx|..]
      ensures ctrl.stream.tx == old(ctrl.stream.tx)
    {
      ctrl.Process();
    }
  }

  /** Bytes waiting on the UART when the component is built survive its
      construction: the controller's start-up drain sees an adapter without
      a device. */
  method StartupBytesSurvive(checksum: Checksum) returns (component: IVTRego6xxCtrl)
    ensures component.adapter.rx == [0x01, 0x02, 0x03]
  {
    component := new IVTRego6xxCtrl([0x01, 0x02, 0x03], checksum);
  }

  /** Wiring the adapter first, the same bytes are discarded at start-up. */
  method StartupBytesDrainedWhenWiredFirst(checksum: Checksum) returns (component: IVTRego6xxCtrl)
    ensures component.adapter.rx == []
  {
    component := new IVTRego6xxCtrl.WiredFirst([0x01, 0x02, 0x03], checksum);
  }

  /** Registering twelve sensors keeps the first eleven and drops the last. */
  method RegisterBeyondCapacity(component: IVTRego6xxCtrl, s: Sensor)
    requires component.Valid() && component.sensorCount == 0
    modifies component, component.sensors
    ensures component.sensorCount == MAX_SENSORS
    ensures forall i :: 0 <= i < MAX_SENSORS ==> component.sensors[i] == Some(s)
  {
    var n := 0;
    while n < MAX_SENSORS + 1
      invariant component.Valid() && 0 <= n <= MAX_SENSORS + 1
      invariant component.sensorCount == if n <= MAX_SENSORS then n else MAX_SENSORS
      invariant forall i :: 0 <= i < component.sensorCount ==> component.sensors[i] == Some(s)
    {
      component.RegisterSensor(Some(s));
      n := n + 1;
    }
  }
}
