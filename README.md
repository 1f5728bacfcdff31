# IVT Rego6xx control — Dafny model

This project models the core of the IVTRego6xxControl firmware. The firmware talks to the Rego6xx
regulator of an IVT heat pump over a serial line. The model covers:

- **The Rego6xx protocol engine** (`lib/Rego6xx`):
  - the register and command enumerations;
  - the 9-byte command frame (device address, command id, register address and data as 2/7/7-bit groups, checksum);
  - the raw-value conversions `toFloat`, `fromFloat` and `toBool`;
  - the controller, which lets one request be outstanding at a time and, on construction, drains the input of a stream that is connected to a device.
- **Two response decoders:**
  - the standard response, a 21-bit value in three 7-bit groups;
  - the error response, an error id from two nibbles, a 15-character nibble-coded text line and a description table.
- **The ESPHome component** (`src/ivt_rego6xx_ctrl`):
  - fixed-capacity registration of sensors, binary sensors and text sensors;
  - the sensor-name → system-register table;
  - `loop()`, which drives the controller;
  - the number entity and its pending-write flag;
  - the button entity and its read-and-clear pressed flag.
- **The error state** (`src/StateMachine/ErrorState.cpp`), which blinks the low-level error id on the board LED.
- **The settings registry** (`lib/SettingsService`):
  - registering, unregistering and looking up settings;
  - the clean-up of obsolete keys when the stored settings version changes.

How the model is built:

- Bytes are the newtypes `uint8` and `uint16`.
- The checksum function is a parameter (`Checksum = seq<uint8> -> uint8`), and nothing depends on its definition.
- The serial stream is a class with a receive queue, an output log, a timeout and a flag saying whether a device is behind it.
  The component's UART adapter starts without a device: until then it reports nothing available, reads -1 and delivers no
  written byte. The component sets the device only after the controller has been built on the adapter.
- A response object is a value that holds its bytes and a pending flag. Its size (RSP_SIZE) is the length of those bytes.
- Where the source updates objects in place, the model uses classes whose methods are proved against pure specification functions:
  - the controller, the component, the number and the button;
  - the error state and the settings service.

Lemmas relate each operation to an inverse or to a reference definition:

- command frames decode back to the command;
- standard and error responses built from a value decode back to it;
- `fromFloat` inverts `toFloat` on its exact range;
- unregistering inverts registering;
- the blink cycle repeats with exactly one LED pulse per unit of the error id.

`Rego6xxCtrl.h` declares the data and value parameters of `writeStd`, `writeCmd` and the conversions as
`uint32_t`. `Rego6xxCtrl.cpp` defines them as `uint16_t`. The model follows the definitions: 16-bit data whose top
group carries 2 bits. The standard response still decodes 21 bits, as `Rego6xxStdRsp.cpp` does.

## Model

| member | source | states |
|---|---|---|
| Bytes.ToInt8 | lib/Rego6xx/Rego6xxCtrl.cpp:105 | the int8_t cast: the result is in -128..127, congruent to the input modulo 256, and equal to it below 128 |
| Rego6xx.CmdId.Id | lib/Rego6xx/Rego6xxCtrl.h:71-85 | every command id fits one 7-bit byte |
| Rego6xx.FixedRequestIds | lib/Rego6xx/Rego6xxCtrl.h:82-84 | reading the last error is command 0x40 and reading the regulator version is 0x7F |
| Rego6xx.RegisterFamily.WriteCmd | lib/Rego6xx/Rego6xxCtrl.h:73-80 | each register family's write command id is its read command id plus one |
| Rego6xx.SysRegAddr.Addr | lib/Rego6xx/Rego6xxCtrl.h:88-141 | every system register address fits the 14 bits of a frame's address field |
| Rego6xx.FrontPanelAddr.Addr | lib/Rego6xx/Rego6xxCtrl.h:146-158 | every front panel address fits the 14 bits of a frame's address field |
| Rego6xx.Row.Addr | lib/Rego6xx/Rego6xxCtrl.h:163-169 | the display rows are addresses 0..3 |
| Rego6xx.SevenBitGroups16 | lib/Rego6xx/Rego6xxCtrl.cpp:265-270 | the 2/7/7-bit groups `(v>>14)&3`, `(v>>7)&0x7F`, `v&0x7F` rebuild any 16-bit v |
| Rego6xx.Split16 | lib/Rego6xx/Rego6xxCtrl.cpp:265-270 | a 16-bit field becomes three groups of at most 2, 7 and 7 bits |
| Rego6xx.SplitJoin16 | lib/Rego6xx/Rego6xxCtrl.cpp:265-270 | the three groups of a 16-bit field join back to the field |
| Rego6xx.EncodeCommand | lib/Rego6xx/Rego6xxCtrl.cpp:263-271 | a frame has 9 bytes: address, command id, 7-bit-clean groups, and last the checksum of bytes 2..7 |
| Rego6xx.EncodeCommandFields | lib/Rego6xx/Rego6xxCtrl.cpp:265-270 | bytes 2..4 of a frame rebuild the register address and bytes 5..7 the data |
| Rego6xx.DecodeCommand | lib/Rego6xx/Rego6xxCtrl.cpp:263-271 | the reader of frames accepts only 9-byte frames with a matching checksum |
| Rego6xx.DecodeEncode | lib/Rego6xx/Rego6xxCtrl.cpp:245-276 | every frame the controller writes reads back as exactly the command, address and data it was given |
| Rego6xx.Magnitude | lib/Rego6xx/Rego6xxCtrl.cpp:99-103 | a raw value with bit 15 set has magnitude 0x10000 - value (1..0x8000); others are their own magnitude |
| Rego6xx.SignedTenths | lib/Rego6xx/Rego6xxCtrl.cpp:99-103 | reading a raw value as two's complement gives a negative count exactly when bit 15 is set |
| Rego6xx.ToFloat | lib/Rego6xx/Rego6xxCtrl.cpp:92-111 | toFloat as written: the magnitude's integer part cast to int8 and signed, then the tenths added or subtracted by the sign of that part |
| Rego6xx.ToFloatExact | lib/Rego6xx/Rego6xxCtrl.cpp:92-111 | when the integer part fits int8 and a negative value has a non-zero integer part, toFloat is the signed count of tenths divided by 10 |
| Rego6xx.ToFloatLosesSmallNegativeSign | lib/Rego6xx/Rego6xxCtrl.cpp:105-108 | raw -0.1..-0.9 decode as the positive magnitude / 10 |
| Rego6xx.ToFloatWrapsAbove127 | lib/Rego6xx/Rego6xxCtrl.cpp:105 | raw 1280 (128.0) decodes as -128.0 |
| Rego6xx.ToFloatSmallNegativeExample | lib/Rego6xx/Rego6xxCtrl.cpp:108 | raw 0xFFFF (-0.1) decodes as +0.1 |
| Rego6xx.FromFloat | lib/Rego6xx/Rego6xxCtrl.cpp:118-136 | fromFloat as written: ten times the magnitude truncated, and its 16-bit two's complement for a negative value |
| Rego6xx.FromFloatTenths | lib/Rego6xx/Rego6xxCtrl.cpp:118-136 | fromFloat of k/10 is k for non-negative k and its 16-bit two's complement for negative k, for every k in -32768..32767 |
| Rego6xx.FromFloatToFloat | lib/Rego6xx/Rego6xxCtrl.cpp:92-136 | fromFloat(toFloat(raw)) == raw on the exact range |
| Rego6xx.ToFloatFromFloat | lib/Rego6xx/Rego6xxCtrl.cpp:92-136 | toFloat(fromFloat(k/10)) == k/10 for every count of tenths with an exact raw value |
| Rego6xx.ToFloatIntended | lib/Rego6xx/Rego6xxCtrl.cpp:92-111 | corrected decoding: in -3276.8..3276.7 and negative exactly when bit 15 is set |
| Rego6xx.FromFloatToFloatIntended | lib/Rego6xx/Rego6xxCtrl.cpp:92-136 | fromFloat inverts the corrected decoding on every raw value |
| Rego6xx.ToFloatIntendedAgrees | lib/Rego6xx/Rego6xxCtrl.cpp:92-111 | the corrected decoding agrees with toFloat wherever toFloat is exact |
| Rego6xx.ToBool | lib/Rego6xx/Rego6xxCtrl.cpp:113-116 | true exactly when the raw value is non-zero |
| Rego6xx.Rego6xxCtrl.constructor | lib/Rego6xx/Rego6xxCtrl.h:176-187 | no response pending, stream timeout 20 ms, nothing written; the receive buffer is drained when the stream has a device and left as it is otherwise |
| Rego6xx.Rego6xxCtrl.IsPending | lib/Rego6xx/Rego6xxCtrl.h:294-299 | true exactly while a response slot is held |
| Rego6xx.Rego6xxCtrl.ClearRxBuffer | lib/Rego6xx/Rego6xxCtrl.h:325-331 | with a device, afterwards nothing is available and the loop ends because each read consumes a byte; without one, available() is 0 at once and nothing is read |
| Rego6xx.Rego6xxCtrl.WriteCmd | lib/Rego6xx/Rego6xxCtrl.cpp:245-276 | the filled 9-byte buffer written to the stream is exactly the encoded frame; a stream without a device delivers none of it |
| Rego6xx.Rego6xxCtrl.ReadStd | lib/Rego6xx/Rego6xxCtrl.cpp:62-75 | while a response is pending: returns none and writes nothing; otherwise writes the frame with data 0 and the standard response becomes pending |
| Rego6xx.Rego6xxCtrl.WriteStd | lib/Rego6xx/Rego6xxCtrl.cpp:77-90 | while a response is pending: returns none and writes nothing; otherwise writes the value frame and the confirm response becomes pending |
| Rego6xx.Rego6xxCtrl.ReadLastError | lib/Rego6xx/Rego6xxCtrl.cpp:138-151 | gated the same way; writes command 0x40 with address and data 0; the error response becomes pending |
| Rego6xx.Rego6xxCtrl.ReadRegoVersion | lib/Rego6xx/Rego6xxCtrl.cpp:153-166 | gated the same way; writes command 0x7F with address and data 0; the standard response becomes pending |
| Rego6xx.Rego6xxCtrl.ReadDisplay | lib/Rego6xx/Rego6xxCtrl.cpp:168-181 | gated the same way; writes the row frame with data 0; the display response becomes pending |
| Rego6xx.Rego6xxCtrl.Process | lib/Rego6xx/Rego6xxCtrl.h:283-287 | one receive step: it may consume received bytes from the front of the stream and release the pending response, and changes nothing else |
| Rego6xx.SecondRequestIsRefused | lib/Rego6xx/Rego6xxCtrl.cpp:62-75 | on a stream with a device, two requests in a row: the second is refused and only the first frame, which decodes to the first command, is on the wire |
| Rego6xxRsp.IsValid | lib/Rego6xx/Rego6xxStdRsp.cpp:62-75 | a response is valid when it is no longer pending and its last byte is the checksum of the bytes between the first and the last |
| Rego6xxRsp.GetDevAddr | lib/Rego6xx/Rego6xxStdRsp.cpp:77-88 | byte 0 when the response is valid, otherwise 0 |
| Rego6xxRsp.PendingIsInvalid | lib/Rego6xx/Rego6xxStdRsp.cpp:62-75 | a response still pending is never valid and reports device address 0 |
| Rego6xxRsp.FramedIsValid | lib/Rego6xx/Rego6xxErrorRsp.cpp:92-105 | a received buffer ending in the checksum of its interior is valid and reports its first byte as the device address |
| Rego6xxStdRsp.SevenBitGroups21 | lib/Rego6xx/Rego6xxStdRsp.cpp:103-105 | three 7-bit groups rebuild any value below 2^21 |
| Rego6xxStdRsp.Join7Groups | lib/Rego6xx/Rego6xxStdRsp.cpp:103-105 | three 7-bit groups joined are read back by `>> 14`, `(>> 7) & 0x7F` and `& 0x7F` |
| Rego6xxStdRsp.GetValue | lib/Rego6xx/Rego6xxStdRsp.cpp:90-109 | below 2^21; 0 when pending or invalid |
| Rego6xxStdRsp.GetValueGroups | lib/Rego6xx/Rego6xxStdRsp.cpp:90-109 | the value of a valid response has as its three 7-bit groups the low 7 bits of bytes 1, 2 and 3 |
| Rego6xxStdRsp.Pack21 | lib/Rego6xx/Rego6xxStdRsp.cpp:103-105 | a 21-bit value as three 7-bit bytes |
| Rego6xxStdRsp.GetValuePack21 | lib/Rego6xx/Rego6xxStdRsp.cpp:90-109 | a received response carrying packed v with a matching checksum yields v and its byte 0 |
| Rego6xxStdRsp.StdRspRoundTrip | lib/Rego6xx/Rego6xxStdRsp.cpp:62-109 | a response built from an address and a 21-bit value is valid and decodes to both |
| Rego6xxErrorRsp.NibblePair | lib/Rego6xx/Rego6xxErrorRsp.cpp:120-135 | `(a&0x0F)<<4 \| (b&0x0F)`: the high nibble is a's low nibble and the low nibble is b's |
| Rego6xxErrorRsp.GetErrorId | lib/Rego6xx/Rego6xxErrorRsp.cpp:120-135 | 0 when pending or invalid; otherwise high nibble from byte 1 and low nibble from byte 2 |
| Rego6xxErrorRsp.ErrorLog | lib/Rego6xx/Rego6xxErrorRsp.cpp:137-165 | empty when pending or invalid, otherwise exactly 15 characters |
| Rego6xxErrorRsp.GetErrorLog | lib/Rego6xx/Rego6xxErrorRsp.cpp:137-165 | the while loop over byte pairs 3..32 produces the text line, one character per pair |
| Rego6xxErrorRsp.GetErrorDescription | lib/Rego6xx/Rego6xxErrorRsp.cpp:168-188 | "" when pending or invalid, "?" for an id of 23 or more, otherwise the table entry of the id |
| Rego6xxErrorRsp.ErrorMessagesAreDistinguishable | lib/Rego6xx/Rego6xxErrorRsp.cpp:61-86 | the table has 23 entries and none is "" or "?", so the three outcomes of the description can be told apart |
| Rego6xxErrorRsp.NibblePairOfNibbles | lib/Rego6xx/Rego6xxErrorRsp.cpp:120-135 | a code split into its two nibbles joins back to the code |
| Rego6xxErrorRsp.PackText | lib/Rego6xx/Rego6xxErrorRsp.cpp:144-163 | a text line as byte pairs, high nibble first, twice as long |
| Rego6xxErrorRsp.ErrorFrame | lib/Rego6xx/Rego6xxErrorRsp.cpp:120-165 | the frame the decoder reads: address at byte 0, the id's nibbles at bytes 1 and 2, each character's nibbles at bytes 3 + 2k and 4 + 2k |
| Rego6xxErrorRsp.ErrorFrameText | lib/Rego6xx/Rego6xxErrorRsp.cpp:144-163 | each byte pair of a built frame's text line joins back to its character code |
| Rego6xxErrorRsp.ErrorRspRoundTrip | lib/Rego6xx/Rego6xxErrorRsp.cpp:92-165 | an error response built from an address, an error id and a 15-character line is valid and decodes to exactly those |
| Streams.Stream.constructor | src/ivt_rego6xx_ctrl/StreamUartDevAdapter.h:67-70 | a stream over the bytes already received, with or without a device, nothing written, timeout 0 |
| Streams.Stream.SetUartDevice | src/ivt_rego6xx_ctrl/StreamUartDevAdapter.h:84-87 | the stream has a device afterwards |
| Streams.Stream.Available | src/ivt_rego6xx_ctrl_component/StreamUartDevAdapter.cpp:61-71 | the number of received bytes with a device, 0 without one |
| Streams.Stream.Read | src/ivt_rego6xx_ctrl_component/StreamUartDevAdapter.cpp:73-83 | the oldest received byte, consumed, with a device and input; -1 and nothing consumed otherwise |
| Streams.Stream.Write | src/ivt_rego6xx_ctrl_component/StreamUartDevAdapter.cpp:97-107 | with a device the bytes are appended and all counted; without one nothing is written and 0 is reported |
| IVTRego6xxComponent.FindSysReg | src/ivt_rego6xx_ctrl/IVTRego6xxCtrl.cpp:79-91 | the table entry found carries the name; none is returned only when no later entry does |
| IVTRego6xxComponent.SysRegOf | src/ivt_rego6xx_ctrl/IVTRego6xxCtrl.cpp:79-91 | a name has a register exactly when the table lists it, and then the pair is in the table |
| IVTRego6xxComponent.NameTableIsInjective | src/ivt_rego6xx_ctrl/IVTRego6xxCtrl.cpp:79-91 | 11 entries with pairwise distinct names and pairwise distinct registers |
| IVTRego6xxComponent.SysRegOfTableName | src/ivt_rego6xx_ctrl/IVTRego6xxCtrl.cpp:79-91 | looking up any table name yields the register of its own entry |
| IVTRego6xxComponent.NameTableExamples | src/ivt_rego6xx_ctrl/IVTRego6xxCtrl.cpp:80-90 | "gt1" reads GT1 (the first entry) and "gt3x" reads GT3X (the last) |
| IVTRego6xxComponent.UnknownNameHasNoRegister | src/ivt_rego6xx_ctrl/IVTRego6xxCtrl.cpp:79-91 | "gt7" is not in the table |
| IVTRego6xxComponent.IVTRego6xxCtrl.constructor | src/ivt_rego6xx_ctrl/IVTRego6xxCtrl.h:82-105 | all counts are 0, every slot is empty, each cursor equals its capacity, no response is pending, the controller is built on the adapter, and the adapter ends up with a device; the bytes the UART had already received are still there |
| IVTRego6xxComponent.IVTRego6xxCtrl.WiredFirst | src/ivt_rego6xx_ctrl/IVTRego6xxCtrl.h:82-105 | the same component with the device set before the controller is built: the bytes already received are drained |
| IVTRego6xxComponent.IVTRego6xxCtrl.RegisterSensor | src/ivt_rego6xx_ctrl/IVTRego6xxCtrl.h:135-143 | a non-null sensor below capacity goes into slot count and count grows by one, other slots unchanged; otherwise nothing changes |
| IVTRego6xxComponent.IVTRego6xxCtrl.RegisterBinarySensor | src/ivt_rego6xx_ctrl/IVTRego6xxCtrl.h:151-159 | the same for binary sensors with capacity 5 |
| IVTRego6xxComponent.IVTRego6xxCtrl.RegisterTextSensor | src/ivt_rego6xx_ctrl/IVTRego6xxCtrl.h:167-175 | the same with capacity 4 in an array declared with 5 slots; the write stays in bounds and the fifth slot is never touched |
| IVTRego6xxComponent.IVTRego6xxCtrl.Setup | src/ivt_rego6xx_ctrl/IVTRego6xxCtrl.cpp:97-100 | changes nothing (it may modify nothing) |
| IVTRego6xxComponent.IVTRego6xxCtrl.Loop | src/ivt_rego6xx_ctrl/IVTRego6xxCtrl.cpp:102-105 | exactly one controller process step: received bytes may be consumed from the front and the pending response released; nothing is written |
| IVTRego6xxComponent.StartupBytesSurvive | src/ivt_rego6xx_ctrl/IVTRego6xxCtrl.h:82-105 | bytes 1, 2, 3 waiting on the UART at construction are still unread afterwards |
| IVTRego6xxComponent.StartupBytesDrainedWhenWiredFirst | src/ivt_rego6xx_ctrl/IVTRego6xxCtrl.h:82-105 | with the device set first, the same bytes are gone after construction |
| IVTRego6xxComponent.RegisterBeyondCapacity | src/ivt_rego6xx_ctrl/IVTRego6xxCtrl.h:135-143 | registering twelve sensors fills the eleven slots and drops the twelfth |
| IVTRego6xxNumberEntity.IVTRego6xxNumber.constructor | src/ivt_rego6xx_ctrl/number/IVTRego6xxNumber.h:78-85 | the ids and the address as given (constant from then on), value 0, no update requested |
| IVTRego6xxNumberEntity.IVTRego6xxNumber.IsUpdateRequested | src/ivt_rego6xx_ctrl/number/IVTRego6xxNumber.h:129-132 | the pending-update flag |
| IVTRego6xxNumberEntity.IVTRego6xxNumber.GetValue | src/ivt_rego6xx_ctrl/number/IVTRego6xxNumber.h:139-144 | returns the stored value, keeps it, and clears the update flag |
| IVTRego6xxNumberEntity.IVTRego6xxNumber.Control | src/ivt_rego6xx_ctrl/number/IVTRego6xxNumber.h:168-172 | stores the value and requests an update |
| IVTRego6xxNumberEntity.LastControlWins | src/ivt_rego6xx_ctrl/number/IVTRego6xxNumber.h:139-172 | after two controls an update is requested, the value read is the second, and then no update is pending |
| IVTRego6xxButtonEntity.IVTRego6xxButton.constructor | src/ivt_rego6xx_ctrl/button/IVTRego6xxButton.h:78-84 | command id, address and value as given (constant from then on), not pressed |
| IVTRego6xxButtonEntity.IVTRego6xxButton.IsPressed | src/ivt_rego6xx_ctrl/button/IVTRego6xxButton.h:128-136 | returns the flag and clears it |
| IVTRego6xxButtonEntity.IVTRego6xxButton.PressAction | src/ivt_rego6xx_ctrl/button/IVTRego6xxButton.h:157-160 | sets the flag |
| IVTRego6xxButtonEntity.PressesAreReportedOnce | src/ivt_rego6xx_ctrl/button/IVTRego6xxButton.h:128-160 | any positive number of presses followed by two reads gives true, then false |
| ErrorStateMachine.Step | src/StateMachine/ErrorState.cpp:99-129 | each timeout toggles the LED; turning it on keeps the counter and starts the on period; with no error every off period is short; with an error the off period is short exactly while the incremented counter is below the error id |
| ErrorStateMachine.CounterStaysBelowErrorId | src/StateMachine/ErrorState.cpp:114-127 | with an error id e, a counter below e stays below e |
| ErrorStateMachine.NoErrorKeepsCounter | src/StateMachine/ErrorState.cpp:110-113 | without an error the counter never changes and no long pause ever starts |
| ErrorStateMachine.PairStep | src/StateMachine/ErrorState.cpp:99-129 | from the state after k < e on/off pairs, one timeout switches the LED on keeping the counter, the next switches it off into the state after k + 1 pairs |
| ErrorStateMachine.BlinkPrefix | src/StateMachine/ErrorState.cpp:95-129 | after k on/off pairs from a long pause (k up to e) the LED was switched on k times, no long pause occurred, and the state is the k-th short pause or, at k = e, the long pause again |
| ErrorStateMachine.BlinkCycle | src/StateMachine/ErrorState.cpp:95-98 | between two long pauses the LED is switched on exactly e times |
| ErrorStateMachine.ErrorState.Entry | src/StateMachine/ErrorState.cpp:66-89 | LED on, on period started, counter 0 |
| ErrorStateMachine.ErrorState.Process | src/StateMachine/ErrorState.cpp:91-132 | nothing changes until the timer has timed out, then exactly one blink step; the state is never left from here |
| Settings.FindByKey | lib/SettingsService/src/SettingsService.cpp:307-325 | null exactly when no non-null entry has the key; otherwise an entry with the key before which no non-null entry has it |
| Settings.FindByKeyAppend | lib/SettingsService/src/SettingsService.cpp:307-344 | appending a setting keeps every earlier answer, and makes a key nobody owned resolve to the new setting |
| Settings.IndexOf | lib/SettingsService/src/SettingsService.cpp:346-362 | the index of the first occurrence |
| Settings.RemoveFirst | lib/SettingsService/src/SettingsService.cpp:346-362 | the list unchanged when the setting is absent, otherwise one element shorter |
| Settings.RemoveFirstMultiset | lib/SettingsService/src/SettingsService.cpp:346-362 | removal takes exactly one occurrence of the setting out of the list |
| Settings.RegisterUnregister | lib/SettingsService/src/SettingsService.cpp:327-362 | unregistering a setting just registered restores the list |
| Settings.Filter | lib/SettingsService/src/SettingsService.cpp:287 | the stored keys without the removed ones, in order |
| Settings.FilterFilter | lib/SettingsService/src/SettingsService.cpp:271-299 | removing keys one after another equals removing them all at once |
| Settings.Obsolete | lib/SettingsService/src/SettingsService.cpp:279-284 | a stored key is obsolete when it is not the version key and no registered setting owns it |
| Settings.Retained | lib/SettingsService/src/SettingsService.cpp:279-291 | a key survives clean-up exactly when it was stored and is the version key or owned by a registered setting |
| Settings.FilterObsolete | lib/SettingsService/src/SettingsService.cpp:271-299 | removing exactly the obsolete keys leaves what clean-up keeps |
| Settings.SettingsService.constructor | lib/SettingsService/src/SettingsService.cpp:372-393 | the seven user settings in declaration order with their keys; the version setting is not in the list |
| Settings.SettingsService.GetSettingByKey | lib/SettingsService/src/SettingsService.cpp:307-325 | the loop with break returns the first non-null entry with the key, else null |
| Settings.SettingsService.RegisterSetting | lib/SettingsService/src/SettingsService.cpp:327-344 | succeeds exactly for a non-null setting not yet in the list, which is then appended; otherwise the list is unchanged |
| Settings.SettingsService.UnregisterSetting | lib/SettingsService/src/SettingsService.cpp:346-362 | removes the first occurrence only, keeping the order of the rest; no-op when absent |
| Settings.RemovalStep | lib/SettingsService/src/SettingsService.cpp:271-299 | one step of the clean-up walk: an obsolete key joins the removed set, and removing it from the store filtered so far gives the store filtered by the grown set |
| Settings.SettingsService.RemoveObsoleteKeys | lib/SettingsService/src/SettingsService.cpp:271-299 | the loop over stored entries leaves exactly the non-obsolete keys, in order |
| Settings.SettingsService.CleanUp | lib/SettingsService/src/SettingsService.cpp:251-305 | no-op when the stored version equals VERSION; otherwise obsolete keys are removed (unless listing fails) and the stored version becomes VERSION |
| Settings.ConstructedListOwnsUserKeys | lib/SettingsService/src/SettingsService.cpp:372-393 | after construction the version key is owned by no setting, and each user key resolves to its own setting, so clean-up keeps them all |

## Left out

- `Rego6xxCtrl::process`, `release`, `isPending` and the response base class (`acquire`, `isPending`, RSP_SIZE) are not part of this model:
  - their bodies are in files outside the modelled core;
  - `IsPending` is "a response slot is held";
  - a response is a byte sequence with a pending flag.
- `Rego6xxUtil::calculateChecksum` is not part of this model. Every operation takes the checksum as a parameter.
- The Bool, Confirm and Display response classes are not part of this model. Only which response a request makes pending is modelled.
- `Rego6xxCtrl::writeDbg` is a diagnostic that blocks on a read with a 4000 ms timeout and formats hex with `sprintf`.
- IEEE float rounding in `toFloat`/`fromFloat` is not modelled. Values are exact reals and counts of tenths.
- Rego6xx.FromFloat: requires |value| < 6553.6. Converting a larger float to `uint16_t` is undefined in C++.
- Rego6xx.Rego6xxCtrl.Process: promises only that a step happened, that received bytes may be consumed from the front and that the pending response may be released. Which bytes it takes, when a response completes and what it stores in the response are not modelled, because its body is outside the modelled core.
- IVTRego6xxComponent.IVTRego6xxCtrl.Loop: promises no more than `Process`, for the same reason.
- The serial hardware and the ESPHome UART are reduced to the `Stream` class. Its `peek` and the byte-at-a-time `write` are not separate members; `Write` takes a buffer.
- The component's polling schedulers (`readSensors`, `readBinarySensors`, `readTextSensors`) are not part of this model, and neither are its timers. The model states only what the header fixes: capacities, cursor sentinels and null pending responses.
- `dump_config` only logs.
- Sensor, binary-sensor and text-sensor objects are values. Registration stores a value, so pointer identity and aliasing are not modelled.
- The getters of the number and button entities are not separate members. The fields they return are non-const members in the source, but nothing writes them after construction; the model declares them `const`, so they stay equal to the constructor arguments.
- The number entity's `float` value is a real.
- IVTRego6xxNumberEntity.IVTRego6xxNumber.constructor: ESPHome's number traits and publish logic are not modelled.
- ErrorStateMachine.ErrorState.constructor: the ErrorState header is not part of this model. Its constructor and `setErrorId` are not modelled:
  - the error id and the no-error id are constructor parameters;
  - the timer starts stopped;
  - the BLINK_* periods are names without durations;
  - the timer's expiry is the `timedOut` parameter of `Process`.
- The board LED is a field of the error state.
- The error state's logging is not modelled. Neither is its call of `SettingsService::stop()`, which only logs.
- `ErrorState::exit` does nothing, so it has no member.
- Settings.SettingsService.CleanUp:
  - the NVS store is the list of its keys plus the value of the version setting;
  - `findFailed` stands for `nvs_entry_find` failing with an error other than "not found";
  - an `nvs_entry_info` failure in the middle of the walk is not modelled;
  - a failing `m_preferences.remove` is not modelled (the source only logs it).
- `SettingsService::open`, `close`, `start`, `stop` and `process` are Preferences and logging calls. The singleton accessor is not modelled either.
- The `KeyValue` classes are reduced to their key. Their names, values, defaults, bounds and `setPersistentStorage` are not modelled.
- `strcmp` on C strings is string equality.
- The ESPHome code generation (`__init__.py`) is not modelled. Neither are the glue mismatches it contains:
  - the binary sensor is constructed with two arguments, but its constructor takes one;
  - `registerNumber` is called but is not declared by the component.
- Not modelled: the web pages, OTA upload, the Ethernet driver, boot and restart sequencing, `main.cpp` and `Board.h`.

## Findings

| source | as written | input that shows it | evidently intended | confidence | as-written member | corrected member |
|---|---|---|---|---|---|---|
| lib/Rego6xx/Rego6xxCtrl.cpp:108 | the sign is applied only to the integer part, then the fraction is added or subtracted by the sign of that part | raw 0xFFFF (-0.1 °C) decodes as +0.1 | -0.1; every negative raw value decodes negative | not executed; high (follows from the expression) | Rego6xx.ToFloatSmallNegativeExample | Rego6xx.ToFloatIntended |
| src/ivt_rego6xx_ctrl/IVTRego6xxCtrl.h:82-105 | the controller is built on the adapter before the body sets its UART device, so the controller's start-up drain sees `available()` return 0 | bytes 1, 2, 3 already received by the UART are still unread after construction | the start-up drain discards input that was received before the component existed | not executed; low (the UART is usually empty this early) | IVTRego6xxComponent.StartupBytesSurvive | IVTRego6xxComponent.IVTRego6xxCtrl.WiredFirst |
| lib/Rego6xx/Rego6xxCtrl.cpp:105 | the integer part is cast to `int8_t` | raw 1280 (128.0) decodes as -128.0 | 128.0; fromFloat inverts the decoding on every raw value | not executed; medium (depends on registers reaching 128.0) | Rego6xx.ToFloatWrapsAbove127 | Rego6xx.FromFloatToFloatIntended |
