# I2C driver for the ATmega328P TWI unit, modelled in Dafny

The driver is compiled either as a bus master or as a bus slave, as the
configuration header chooses. Everything it does happens in one interrupt
handler, `ISR(TWI_vect)`, which switches on the masked status register
(`TWSR & 0xF8`). The master build arms a transfer with `sendTo` or
`readFrom` and then lets the interrupts carry it out. The slave build
collects a master's write into `slaveBuffer` and hands it to a user callback
at STOP. It answers a master's read with the buffer that a second user
callback returns.

The model consists of these modules:

- `I2CTypes` holds:
  - the unsigned 8-bit arithmetic;
  - the `tI2CDriverError` and `tI2CDriverState` enumerations;
  - the command that the handler leaves in the control register;
  - what one interrupt consumes (`Interrupt`) and produces (`Output`).
- `Status` holds the `tI2CStatus` enumeration with its values, and the
  dispatch of a raw status byte to a case label of the build's switch.
- `Config` turns the `#error` checks of the header into a validity predicate.
- `Master` holds:
  - the master build's variables;
  - `initialisation`, `sendTo` and `readFrom`;
  - the master switch as a pure step function.
- `Slave` holds:
  - the slave build's variables;
  - `initialisation` and the two callback setters;
  - the slave switch as a pure step function.
- `MasterTraces` and `SlaveTraces` run the step function over a sequence of
  interrupts. They prove what whole transfers do.
- `Driver` builds the driver from a configuration and serves an interrupt
  with the build's own switch.

A few of the source's accesses have undefined behaviour:

- an index outside a buffer;
- a call through a null callback pointer.

A step's precondition `Defined` rules these out, and a run over interrupts
returns `None` when it reaches one.

The handler's register writes are abstracted to:

- the byte loaded into the data register;
- the final command (START, STOP, ACK, NACK, or the release of the bus by `twi_releaseBus`);
- the callback it calls.

## Model

| member | source | states |
|---|---|---|
| Status.Mask | I2CDriver/I2CDriver.cpp:71 | the masked status is a multiple of 8 and lies in the 8 values at or below the raw status |
| Status.LookupSound | I2CDriver/I2CDriver.hpp:100-144 | a value found in the enumeration is exactly that enumerator's value |
| Status.LookupFindsCode | I2CDriver/I2CDriver.hpp:100-144 | every enumerator is found by its value |
| Status.CodeInjective | I2CDriver/I2CDriver.hpp:100-144 | two enumerators have the same value only if they are the same enumerator, so the switch is deterministic |
| Status.DispatchSound | I2CDriver/I2CDriver.cpp:254 | the label selected is declared by the build, and its value is the masked status register |
| Status.DispatchNoneMeansNoLabel | I2CDriver/I2CDriver.cpp:251-438 | the switch does nothing exactly when no enumerator of the build has the masked value |
| Status.CodeSurvivesMask | I2CDriver/I2CDriver.hpp:100-144 | every enumerator has its three low bits clear, so masking the status register leaves it unchanged |
| Status.DispatchFindsCode | I2CDriver/I2CDriver.cpp:71 | a status register carrying an enumerator's value in its upper five bits selects that enumerator, whatever the three prescaler bits hold |
| Status.DispatchSkipsOtherBuild | I2CDriver/I2CDriver.cpp:251-438 | a status register carrying the value of an enumerator the build does not declare selects no case label, whatever the prescaler bits hold |
| Status.EnumPartition | I2CDriver/I2CDriver.hpp:100-144 | the master block, the slave block and the common tail of the enumeration together hold every enumerator, each exactly once |
| Status.SharedCodes | I2CDriver/I2CDriver.hpp:100-144 | a value is declared by both the master build and the slave build exactly when it is 0xF8 or 0x00 |
| Status.MasterSlaveDisjoint | I2CDriver/I2CDriver.hpp:102-137 | no master-only enumerator shares a value with a slave-only one |
| Config.ModeOf | I2CDriver/I2CDriver.hpp:34-39 | an accepted configuration selects the master build exactly when `I2C_MODE` is `MODE_MASTER`, and the slave build exactly when it is `MODE_SLAVE` |
| Config.ValidIff | I2CDriver/I2CDriver.hpp:34-69 | the header accepts a configuration exactly when the mode is master with a defined speed of at most 400000, or slave with a defined address in 0..127, and the buffer size is defined and at most 128 |
| Config.UndefinedModeChecksAddress | I2CDriver/I2CDriver.hpp:50-63 | an undefined `I2C_MODE` also reaches the slave address checks, because an undefined macro reads as 0 |
| Master.PowerOn | I2CDriver/I2CDriver.cpp:76-97 | static storage starts READY, with no error, a zero cursor and count, and no buffers |
| Master.Initialise | I2CDriver/I2CDriver.cpp:134-137 | `initialisation` sets READY and changes no other variable |
| Master.SendTo | I2CDriver/I2CDriver.cpp:176-196 | when READY: a START, state MASTER_TRANSMIT, cursor 0, count `length`, the address byte for a write, and the caller's data; otherwise nothing changes and no command is issued; it always returns 0 |
| Master.ReadFrom | I2CDriver/I2CDriver.cpp:207-229 | as `sendTo`, but the address byte has the read bit set, the data buffer becomes the receive buffer, and the state set is still MASTER_TRANSMIT |
| Master.Step | I2CDriver/I2CDriver.cpp:251-347 | one master interrupt: <ul><li>the address, the data and its length never change, and neither does the receive buffer's size</li><li>the receive buffer changes only by the data register stored at the cursor</li><li>the recorded error follows the master error table</li><li>the transfer-ending codes set READY and no other code changes the state</li><li>the cursor stays or advances by one</li><li>a byte put on the wire is the address byte or the data byte under the cursor, always followed by an ACK request</li><li>no callback is called</li><li>a code without a case label changes nothing</li></ul> |
| Master.StartSendsAddress | I2CDriver/I2CDriver.cpp:259-264 | after 0x08 or 0x10, the address byte is loaded with an ACK request and no variable changes |
| Master.TransmitAcknowledged | I2CDriver/I2CDriver.cpp:269-278 | after 0x18 or 0x28, the next data byte is sent and the cursor advances while data remain; otherwise STOP and READY |
| Master.PointerBoundKept | I2CDriver/I2CDriver.cpp:251-347 | `dataPointer <= nbDataToSend` survives every interrupt other than a received byte |
| Master.ReceiveAckRule | I2CDriver/I2CDriver.cpp:298-314 | after 0x40 or 0x50, ACK is requested exactly when the cursor is below `nbDataToSend - 1`, and NACK otherwise; 0x40 changes no variable and loads no byte |
| Master.ReceiveStores | I2CDriver/I2CDriver.cpp:307-321 | a received byte is stored at the cursor and the cursor advances by one modulo 256; after 0x58 come STOP and READY |
| Master.ErrorPaths | I2CDriver/I2CDriver.cpp:280-346 | <ul><li>0x20, 0x30 and 0x00 record their error and send STOP</li><li>0x38 records lost arbitration and releases the bus</li><li>all of them leave the driver READY and change nothing else</li></ul> |
| Master.ReadAddressNackKeepsError | I2CDriver/I2CDriver.cpp:323-326 | a NACKed read address sends STOP and sets READY without recording an error |
| Master.NoInfoOnlyReadies | I2CDriver/I2CDriver.cpp:337-339 | 0xF8 sets READY and writes no register |
| Master.StepIgnoresRole | I2CDriver/I2CDriver.cpp:254-347 | the master switch never reads the driver state: drivers that differ only in their state give the same output and the same variables apart from the state |
| Master.AddressByteRoundTrip | I2CDriver/I2CDriver.cpp:188 | <ul><li>a 7-bit address is recovered from the address byte</li><li>an 8-bit address loses its top bit</li><li>bit 0 is the read flag</li></ul> |
| MasterTraces.RunEvents | I2CDriver/I2CDriver.cpp:251-347 | a completed run produces one output per interrupt, and it keeps the address and the data |
| MasterTraces.RunSteps | I2CDriver/I2CDriver.cpp:251-347 | a run of raw interrupts is the step function applied to the first interrupt, followed by the run of the rest; it is undefined if the first is |
| MasterTraces.DecodeEncode | I2CDriver/I2CDriver.hpp:100-118 | encoding a sequence of master labels as status bytes and decoding it gives the labels back |
| MasterTraces.RunEncoded | I2CDriver/I2CDriver.cpp:251-347 | running the encoded interrupts is running the labelled events |
| MasterTraces.RunSameReads | I2CDriver/I2CDriver.cpp:254-347 | labels that share a case body (0x08/0x10, 0x18/0x28, 0x20/0x30) act alike, and the switch reads `TWDR` only for 0x50 and 0x58: two event sequences that agree on the case body of each event, and on the data byte wherever it is read, run to the same outcome |
| MasterTraces.RepeatedStartSameReads | I2CDriver/I2CDriver.cpp:259-264 | a transfer begun with a repeated START (0x10) is read as the one begun with START (0x08), so the write and read theorems below cover both |
| MasterTraces.RunReads | I2CDriver/I2CDriver.cpp:251-347 | any raw interrupts whose status bytes decode to the labels of `evs` (any prescaler bits), with the data register matching wherever it is read, run exactly as `evs` do |
| MasterTraces.RunAppend | I2CDriver/I2CDriver.cpp:251-347 | running two event sequences one after the other is running their concatenation |
| MasterTraces.SendCompletes | I2CDriver/I2CDriver.cpp:259-278 | START, then an ACK for the address and for each of `length` bytes: <ul><li>the address and all the data go out in order</li><li>a STOP follows</li><li>the cursor ends at `length` and the driver is READY</li></ul> |
| MasterTraces.SendNackAborts | I2CDriver/I2CDriver.cpp:269-292 | a NACK after the k-th data byte stops the write there with a missing acknowledgement recorded |
| MasterTraces.SendToWrites | I2CDriver/I2CDriver.cpp:176-278 | after `sendTo` on a READY driver, START, an ACK for the address and one for each byte put the address byte and then `data[..length]` on the wire and end READY with the error unchanged |
| MasterTraces.SendToTransfers | I2CDriver/I2CDriver.cpp:176-278 | after `sendTo` on a READY driver, every raw interrupt sequence the switch reads as a fully acknowledged write (START or repeated START, any prescaler bits, any data register) puts on the wire the address byte and then `data[..length]`, and ends READY with the error unchanged |
| MasterTraces.ReadOutsAckRule | I2CDriver/I2CDriver.cpp:298-321 | the replies to a read of n bytes are: <ul><li>the address byte</li><li>an ACK request for each of the first n - 1 bytes</li><li>a NACK for the last byte</li><li>STOP</li></ul> |
| MasterTraces.ReadCompletes | I2CDriver/I2CDriver.cpp:259-321 | a read of n ≥ 1 bytes stores the n incoming bytes at the front of the receive buffer and leaves the rest untouched; the cursor ends at n and the driver is READY |
| MasterTraces.ReadFromTransfers | I2CDriver/I2CDriver.cpp:207-321 | after `readFrom` on a READY driver, every raw interrupt sequence the switch reads as a complete read of `input` (START or repeated START, any prescaler bits; the data register holds the input byte wherever it is read) leaves the input in the caller's buffer, issues the read replies, and ends READY with the error unchanged |
| MasterTraces.EmptyReadOverruns | I2CDriver/I2CDriver.cpp:298-318 | a read of length 0 NACKs the first byte and still stores it at index 0: into a non-empty buffer it overwrites that byte, keeps the rest, leaves the cursor at 1 and ends READY; this is undefined exactly when the buffer is empty |
| MasterTraces.RunIgnoresRole | I2CDriver/I2CDriver.cpp:254-347 | over any interrupt sequence, the starting state has no effect on the outputs or on the final variables other than the state |
| MasterTraces.RunEventsIgnoresRole | I2CDriver/I2CDriver.cpp:254-347 | the same at the level of labelled events |
| Slave.PowerOn | I2CDriver/I2CDriver.cpp:99-109 | static storage starts READY, with no error, a zeroed receive buffer of the configured size, both callbacks null, and a zero transmit count |
| Slave.Initialise | I2CDriver/I2CDriver.cpp:134-137 | `initialisation` sets READY and changes no other variable |
| Slave.SetSlaveReceivedCallback | I2CDriver/I2CDriver.cpp:233-236 | registers the receive callback and changes nothing else |
| Slave.SetSlaveTransmitCallback | I2CDriver/I2CDriver.cpp:240-244 | registers the transmit callback and the number of bytes to send, and changes nothing else |
| Slave.Step | I2CDriver/I2CDriver.cpp:350-436 | one slave interrupt: <ul><li>callbacks and transmit count unchanged</li><li>only a bus error is recorded</li><li>the state follows the slave table of states set</li><li>the receive buffer changes only by the data register stored at the cursor</li><li>the receive callback is called exactly at STOP, with the buffer and the cursor as count</li><li>the transmit callback is called exactly when addressed for a read</li><li>a byte sent is the transmit buffer's byte under the cursor, which then advances</li><li>an unlabelled code changes nothing</li></ul> |
| Slave.ReceiveBegins | I2CDriver/I2CDriver.cpp:358-366 | being addressed for a write (0x60, 0x68, 0x70, 0x78) sets SLAVE_RECEIVE, resets the cursor and ACKs |
| Slave.ReceiveStores | I2CDriver/I2CDriver.cpp:369-380 | a data byte is stored at the cursor, which advances modulo 256; it is ACKed for 0x80 and 0x90 and NACKed for 0x88 and 0x98 |
| Slave.StopDelivers | I2CDriver/I2CDriver.cpp:383-388 | STOP hands the buffer and the cursor to the receive callback, releases the bus and sets READY |
| Slave.TransmitBegins | I2CDriver/I2CDriver.cpp:393-405 | being addressed for a read calls the transmit callback and sends the first byte it returns; ACK is requested exactly when more than one byte is to be sent |
| Slave.TransmitNext | I2CDriver/I2CDriver.cpp:407-414 | after 0xB8, the output is exactly the transmit buffer's byte under the cursor, and the cursor advances; ACK is requested exactly while the advanced cursor is below the count |
| Slave.TransmitEnds | I2CDriver/I2CDriver.cpp:416-420 | 0xC0 and 0xC8 ACK and set READY |
| Slave.CommonCases | I2CDriver/I2CDriver.cpp:426-435 | 0xF8 sets READY only; 0x00 records a bus error, sends STOP and sets READY |
| Slave.StepIgnoresRole | I2CDriver/I2CDriver.cpp:351-436 | the slave switch never reads the driver state |
| Slave.ReceiveCallbackUsed | I2CDriver/I2CDriver.cpp:233-236 | the callback registered is the one STOP calls |
| Slave.TransmitCallbackUsed | I2CDriver/I2CDriver.cpp:240-244 | the callback registered is the one a read address calls, and the registered count decides the first ACK |
| SlaveTraces.RunEvents | I2CDriver/I2CDriver.cpp:350-436 | a completed run keeps the callbacks, the transmit count and the receive buffer's size |
| SlaveTraces.RunSteps | I2CDriver/I2CDriver.cpp:350-436 | a run of raw interrupts is the step function applied to the first interrupt, followed by the run of the rest |
| SlaveTraces.DecodeEncode | I2CDriver/I2CDriver.hpp:120-142 | encoding slave labels as status bytes and decoding them gives the labels back |
| SlaveTraces.RunEncoded | I2CDriver/I2CDriver.cpp:350-436 | running the encoded interrupts is running the labelled events |
| SlaveTraces.RunSameReads | I2CDriver/I2CDriver.cpp:351-436 | labels that share a case body (0x60/0x68/0x70/0x78, 0x80/0x90, 0x88/0x98, 0xA8/0xB0, 0xC0/0xC8) act alike, the switch reads `TWDR` only when it stores a byte, and the callback's buffer only when addressed for a read: event sequences that agree there run to the same outcome |
| SlaveTraces.GeneralCallSameReads | I2CDriver/I2CDriver.cpp:358-388 | a general call (0x70, then 0x90 per byte, then STOP), or an addressing after lost arbitration (0x68, 0x78), is read as the addressed write of the same bytes, so the receive theorem below covers it |
| SlaveTraces.RunReads | I2CDriver/I2CDriver.cpp:350-436 | any raw interrupts whose status bytes decode to the labels of `evs` (any prescaler bits), agreeing with `evs` on every register the switch reads, run exactly as `evs` do |
| SlaveTraces.RunAppend | I2CDriver/I2CDriver.cpp:350-436 | running two event sequences one after the other is running their concatenation |
| SlaveTraces.ReceiveCompletes | I2CDriver/I2CDriver.cpp:358-388 | address, then n ≤ buffer-size ACKed bytes, then STOP: <ul><li>every byte and the address are ACKed</li><li>the callback gets the input followed by the older buffer contents, with count n</li><li>the bus is released and the driver is READY</li></ul> |
| SlaveTraces.ReceiveOutcome | I2CDriver/I2CDriver.cpp:358-388 | address, n ≤ buffer-size bytes and STOP: <ul><li>the final buffer starts with the input and keeps the older bytes after it</li><li>the callback is handed that buffer and the count n</li><li>all earlier replies are ACK</li></ul> |
| SlaveTraces.ReceiveDelivers | I2CDriver/I2CDriver.cpp:358-388 | the same on every raw interrupt sequence the switch reads as such a message (addressed or general call, any prescaler bits; the data register holds the input byte wherever one is stored): <ul><li>the final buffer starts with the input and keeps the older bytes after it</li><li>the callback is handed that buffer and the count n</li><li>all earlier replies are ACK</li></ul> |
| SlaveTraces.OverlongReceiveUndefined | I2CDriver/I2CDriver.cpp:369-373 | a message longer than the receive buffer writes past its end, since the source never checks the bound |
| SlaveTraces.TransmitCompletes | I2CDriver/I2CDriver.cpp:393-420 | a read of k bytes ending in 0xC0 or 0xC8 sends the callback's bytes 0..k-1 in order, requesting ACK before byte i+1 exactly when i + 1 < count; it ends READY with the cursor at k |
| SlaveTraces.TransmitOutcome | I2CDriver/I2CDriver.cpp:393-420 | a read of k bytes: <ul><li>the bytes on the wire are exactly the first k of the reply</li><li>the transmit callback is called once, at the start</li><li>each ACK request follows the count rule</li><li>the read ends with an ACK and READY</li></ul> |
| SlaveTraces.TransmitSendsReply | I2CDriver/I2CDriver.cpp:393-420 | the same on every raw interrupt sequence the switch reads as such a read (0xA8 or 0xB0 first, any prescaler bits, any data register; the callback returns `reply`): <ul><li>the bytes on the wire are exactly the first k of the reply</li><li>the transmit callback is called once, at the start</li><li>each ACK request follows the count rule</li><li>the read ends with an ACK and READY</li></ul> |
| Driver.Boot | I2CDriver/I2CDriver.cpp:134-155 | <ul><li>an accepted configuration builds the mode it names, READY and with no error</li><li>a slave build has a receive buffer of the configured size, no callbacks, and an own-address byte whose upper seven bits are the configured address</li><li>of the configurations the header accepts, only a negative slave buffer size fails to build; the slave build also relies on the callback conversions that only `-fpermissive` allows (see Left out)</li></ul> |
| Driver.Service | I2CDriver/I2CDriver.cpp:251-438 | the build's own switch serves the interrupt: <ul><li>the mode and the own address never change</li><li>an unlabelled code changes nothing</li><li>a bus error records the error and sends STOP in either build</li></ul> |
| Driver.UnlabelledIgnored | I2CDriver/I2CDriver.cpp:251-438 | with no `default` in either switch, an interrupt whose status selects no case label is served without any change or output |
| Driver.OtherBuildCodesIgnored | I2CDriver/I2CDriver.hpp:100-144 | a status that only the other build declares, with any prescaler bits, leaves this build untouched |

## Left out

- Register-level detail is abstracted to a command, a data byte and a callback call. This covers the `TWCR` bit patterns, `TWBR`, the prescaler, the pull-up macros and the frequency formula. In particular, `twi_releaseBus` (I2CDriver/I2CDriver.cpp:125), which the master calls on 0x38 and the slave on 0xA0, writes the same `TWCR` value as `REQUEST_SEND_WITH_ACK` (I2CDriver/I2CDriver.cpp:59). The model still keeps the release and the ACK request apart as two commands.
- `disable()` only clears register bits, which have no counterpart in the model.
- `typeOfCommunication` is written but never read, so it is not modelled.
- `lastRequestStatus` is `volatile`, and the interrupt runs concurrently with the caller. The model treats each interrupt as one atomic step between API calls.
- The user callbacks' bodies are not modelled. A receive call is recorded with its arguments. The transmit callback's answer is an input of the interrupt.
- The receive callback variable at I2CDriver/I2CDriver.cpp:108 is declared as taking a `uint8_t` rather than a pointer, unlike its setter. Two lines then rely on invalid conversions that ISO C++ rejects:
  - I2CDriver/I2CDriver.cpp:235 stores a `void(*)(uint8_t*, uint8_t)` in that variable;
  - I2CDriver/I2CDriver.cpp:384 passes `slaveBuffer` where a `uint8_t` is declared.

  Under `-fpermissive` the slave build compiles. The call at STOP then goes through a pointer of the wrong function type and passes the buffer's address narrowed to 8 bits, which is undefined behaviour. The model follows the setter's signature instead: the callback gets the buffer and a count. So `Slave.StopDelivers`, `Slave.ReceiveCallbackUsed`, `SlaveTraces.ReceiveCompletes`, `SlaveTraces.ReceiveOutcome` and `SlaveTraces.ReceiveDelivers` state the call the setter's type describes, not what the source as written guarantees. Modelling the undefined call would leave nothing to state about a slave receive.
- After `readFrom`, `i2cBuffer` and `masterReceivedBuffer` point at the same caller memory. The model keeps them as two sequences and so does not track a write through one being seen through the other. No case of the switch both reads and writes the same transfer's data.
- An empty slave buffer (`I2C_BUFFER_SIZE` 0) is accepted, although a zero-length array is a compiler extension in C++.
- Out-of-range stores and reads are undefined in the source, for example a slave receive past the end of `slaveBuffer` or a master index at or beyond the caller's buffer. The model makes them a step precondition (`Defined`) rather than a modelled outcome.
- I2CDriver_cfg.hpp is not part of this model. It is represented by the `Config` record, with every macro either undefined or an integer.
