# modbius-core request codec, modelled in Dafny

modbius-core is an allocation-free Rust library for the Modbus application protocol.
It works on raw byte slices. The model covers its request codec:

- the big-endian word readers (`util.rs`, `util/mod.rs`);
- the register view (`registerslice.rs`);
- the coil state (`bitstate.rs`);
- slave ids (`slaveid.rs`);
- the two function-code classifiers (`functions.rs`, `function.rs`);
- the request types of both generations in the crate:
  - `requests/read.rs` and `requests/write/single.rs`, which lib.rs exports;
  - the older `request/read.rs` and `request/write/single.rs`;
  - `write/multiple_registers.rs`.

How the Rust is rendered in Dafny:

- Slices are `seq<uint8>`.
- `u16::from_be_bytes` and `to_be_bytes` are `BigEndian.Word` and `BigEndian.BeBytes`.
- The readers of `util.rs` and `util/mod.rs`, `get_slaveid`, `get_function`, both read parsers (`requests/read.rs`, `request/read.rs`) and the write-single parser of `requests/` hand back the unparsed tail, and the model returns it too. `MultipleRegisters.FromData` and the two `RequestWriteSingle` parsers return only the request, as in the source.
- Each `unsafe …_unchecked` entry point carries as its `requires` what the Rust leaves to the caller: a minimum length for the readers, a public code for `PublicNewUnchecked`. Its checked wrapper is proved to meet that `requires`. The constructors `RegisterSlices.NewUnchecked` and `MultipleRegisters.NewUnchecked` check nothing, and their models require nothing.
- Writers into `&mut [u8]` are methods on an `array<uint8>`. They state the whole new content of the array: the written bytes plus the untouched rest.
- Errors are the `ModbusSerializationError` enum (`Errors.SerializationError`).
- Where the as-written Rust reads past the end of a slice (undefined behaviour), the as-written member returns `Undefined`. A corrected member beside it is the one the rest of the model uses (see Findings).

Each operation is paired with a partner:

- parse/encode round trips in both directions;
- agreement between the checked and unchecked forms;
- classification lemmas (partitions of the code space);
- the error cases, stated as lemmas over the source's own test vectors.

The `Revisions` module relates the two generations: where their read parsers, coil parsers and public-code sets agree, and where they do not.

Where the code departs from its own doc comments (for instance the limits in the doc comment of `new` in `write/multiple_registers.rs`, lines 28-34) or from the Modbus Application Protocol Specification V1.1b3, the model follows the code:

- A write of 123 registers starting at 0xFFFF - 122 is refused with `Overflow`: `overflowing_add` wraps at exactly 0x10000 (`MultipleRegisters.OverflowBoundary`).
- `requests/read.rs` accepts a read quantity of 0; only the older `request/read.rs` refuses it (`Revisions.ZeroQuantityRead`).
- The `is_reserved` doc comment says "> 248", but the code tests `>= 248`. The model follows the code.
- The `get_function` doc comment in function.rs says "less than 2 bytes", but the code returns nothing only on empty input. The model follows the code.
- `bitstate.rs` names an error `InvalidValue` that error.rs does not define. The model uses `Invalid`, the variant error.rs documents for a bad coil value.

## Model

| member | source | states |
|---|---|---|
| BigEndian.Word | modbius-core/src/util.rs:8-13 | `u16::from_be_bytes`: the high byte is the word divided by 256, the low byte its remainder |
| BigEndian.BeBytes | modbius-core/src/requests/read.rs:55-59 | `to_be_bytes`: two bytes from which `Word` rebuilds the same value |
| BigEndian.BeBytesOfWord | modbius-core/src/util.rs:8-13 | encoding the word read from two bytes gives those two bytes back |
| BigEndian.BeBytesInjective | modbius-core/src/requests/read.rs:55-59 | different words have different big-endian encodings |
| BigEndian.CopyFromSlice | modbius-core/src/requests/write/single.rs:77-79 | `copy_from_slice` into `out[start..start+n]`: those bytes become the source, everything else is unchanged |
| Util.ReadU16 | modbius-core/src/util.rs:1-6 | none exactly when fewer than two bytes; otherwise the word and tail re-encode to the input |
| Util.ReadU16Unchecked | modbius-core/src/util.rs:8-13 | on two or more bytes it returns what the checked reader returns |
| Util.ReadU16OfEncoded | modbius-core/src/util.rs:1-13 | reading an encoded word gives the word and leaves the tail untouched |
| UtilMod.GetWriteQuantity | modbius-core/src/util/mod.rs:5-12 | none, with the input handed back, exactly when fewer than 3 bytes; otherwise word and tail re-encode to the input |
| UtilMod.GetWriteQuantityUnchecked | modbius-core/src/util/mod.rs:14-19 | first two bytes as a word, the rest as tail, re-encoding to the input |
| UtilMod.GetStartAddr | modbius-core/src/util/mod.rs:21-28 | behaves exactly as `get_write_quantity` (it calls the same reader) |
| UtilMod.GetStartAddrUnchecked | modbius-core/src/util/mod.rs:30-35 | behaves exactly as the unchecked quantity reader |
| UtilMod.Encode | modbius-core/src/util/mod.rs:73-80 | the four-byte layout: address word then quantity word, big-endian |
| UtilMod.FromModbusDataUnchecked | modbius-core/src/util/mod.rs:55-63 | the address/quantity pair and the tail re-encode to the input |
| UtilMod.FromModbusDataAsWritten | modbius-core/src/util/mod.rs:46-53 | the code as written: undefined exactly on a 3-byte input, none with the input below 3 bytes |
| UtilMod.FromModbusDataAsWrittenReadsPastEnd | modbius-core/src/util/mod.rs:47-50 | the input `[0, 1, 2]` passes the guard and is read past its end |
| UtilMod.FromModbusData | modbius-core/src/util/mod.rs:46-53 | corrected guard: none, with the input handed back, exactly below 4 bytes; otherwise pair and tail re-encode to the input |
| UtilMod.FromModbusDataRefinesAsWritten | modbius-core/src/util/mod.rs:46-53 | wherever the as-written code is defined, the corrected parser returns the same |
| UtilMod.DecodeEncode | modbius-core/src/util/mod.rs:46-80 | parsing an encoded pair gives it back with the tail, checked and unchecked |
| UtilMod.WriteToModbusDataUnchecked | modbius-core/src/util/mod.rs:73-80 | writes the four encoded bytes at the offset; nothing else changes |
| UtilMod.WriteToModbusData | modbius-core/src/util/mod.rs:65-71 | panics (out untouched) exactly on an output under 4 bytes, otherwise writes the encoding at the front |
| RegisterSlices.New | modbius-core/src/registerslice.rs:9-15 | refuses an odd byte count with `Invalid`; otherwise a view over exactly those bytes holding whole registers |
| RegisterSlices.NewUnchecked | modbius-core/src/registerslice.rs:17-19 | a view over any bytes, equal to what `new` builds whenever the count is even |
| RegisterSlices.TryFrom | modbius-core/src/registerslice.rs:44-50 | the same outcome as `new` |
| RegisterSlices.Get | modbius-core/src/registerslice.rs:21-23 | present exactly for an index below `len`, and then the big-endian word at bytes `2*idx` and `2*idx+1` |
| RegisterSlices.GetUnchecked | modbius-core/src/registerslice.rs:25-29 | the word whose encoding is bytes `2*idx` and `2*idx+1` |
| RegisterSlices.Len | modbius-core/src/registerslice.rs:31-33 | the number of whole registers: twice it is at most the byte count and within one byte of it |
| RegisterSlices.BytesLen | modbius-core/src/registerslice.rs:35-37 | the byte count is the length of the slice `bytes` hands back |
| RegisterSlices.Bytes | modbius-core/src/registerslice.rs:39-41 | the slice handed back is exactly the one the view was built over |
| RegisterSlices.Registers | modbius-core/src/registerslice.rs:21-33 | all registers in order, one per whole register, each what `get` returns |
| RegisterSlices.RegistersDetermineBytes | modbius-core/src/registerslice.rs:21-33 | two even-length views with the same registers are over the same bytes |
| BitStates.IsOn | modbius-core/src/bitstate.rs:15-19 | on exactly when the state encodes as 0xFF00 |
| BitStates.Default | modbius-core/src/bitstate.rs:21-25 | the default state is off and encodes as 0x0000 |
| BitStates.TryFromU16 | modbius-core/src/bitstate.rs:27-36 | accepts exactly 0x0000 and 0xFF00, each mapping back to its word; any other word is refused as invalid |
| BitStates.IntoU16 | modbius-core/src/bitstate.rs:38-45 | every state encodes as 0x0000 or 0xFF00 |
| BitStates.Not | modbius-core/src/bitstate.rs:66-75 | negation flips whether the state is on |
| BitStates.FromBool | modbius-core/src/bitstate.rs:47-55 | the state converts back to the same `bool`; `true` is written as 0xFF00 and `false` as 0 |
| BitStates.IntoBool | modbius-core/src/bitstate.rs:57-64 | a state is `true` exactly when its wire word is nonzero |
| BitStates.DecodeEncode | modbius-core/src/bitstate.rs:27-45 | decoding a state's word gives the state back |
| BitStates.EncodeDecode | modbius-core/src/bitstate.rs:27-45 | an accepted word is re-encoded unchanged |
| BitStates.BoolRoundTrips | modbius-core/src/bitstate.rs:47-64 | bool and state convert into each other without loss; `From<bool>` is on exactly for true |
| BitStates.NotInvolution | modbius-core/src/bitstate.rs:66-75 | negating twice is the identity and negation changes the state |
| SlaveIds.NewDefaultTcp | modbius-core/src/slaveid.rs:41-43 | the default TCP id is the TCP id, reserved, and not a device |
| SlaveIds.NewBroadcast | modbius-core/src/slaveid.rs:45-48 | the broadcast id is neither device nor reserved, and every id must react to it |
| SlaveIds.IsDevice | modbius-core/src/slaveid.rs:50-53 | device ids are exactly 1 to 247 |
| SlaveIds.IsReserved | modbius-core/src/slaveid.rs:55-58 | a reserved id is never broadcast, and 248 itself is reserved (the code tests `>=`) |
| SlaveIds.IsBroadcast | modbius-core/src/slaveid.rs:60-63 | every id must react to a broadcast id |
| SlaveIds.IsDefaultTcp | modbius-core/src/slaveid.rs:65-68 | the default TCP id 0xFF is reserved and not a device |
| SlaveIds.MustReact | modbius-core/src/slaveid.rs:70-77 | holds exactly when the target is the broadcast id 0 or the id itself |
| SlaveIds.Partition | modbius-core/src/slaveid.rs:50-63 | broadcast, device (1 to 247) and reserved (248 and up) partition the ids |
| SlaveIds.MustReactExactly | modbius-core/src/slaveid.rs:70-77 | an id must react to a target exactly when the target is broadcast or the id itself |
| SlaveIds.GetSlaveId | modbius-core/src/slaveid.rs:9-14 | both parts absent exactly on empty input; otherwise id byte plus tail is the input |
| SlaveIds.GetSlaveIdUnchecked | modbius-core/src/slaveid.rs:20-25 | on non-empty input it returns what the checked reader returns |
| Functions.PublicNewUnchecked | modbius-core/src/functions.rs:183-185 | for a public code, the documented function carrying that code |
| Functions.PublicNew | modbius-core/src/functions.rs:171-177 | the function with that code when it is public, otherwise `Invalid` |
| Functions.PublicCode | modbius-core/src/functions.rs:145-165 | the code is 0 exactly for `Invalid`, and no documented code exceeds 43 |
| Functions.IsPublicFunction | modbius-core/src/functions.rs:131-142 | only codes from 1 to 43 can be public; 0 is excluded by the early return |
| Functions.Is | modbius-core/src/functions.rs:46-49 | holds exactly when the byte is the code of the given documented function |
| Functions.IsValid | modbius-core/src/functions.rs:51-54 | every public, custom or exception code is valid |
| Functions.IsPublic | modbius-core/src/functions.rs:56-62 | a public code is neither custom nor an exception |
| Functions.IsPublicReserved | modbius-core/src/functions.rs:64-67 | public and exception codes are reserved, and every reserved code is valid |
| Functions.IsCustom | modbius-core/src/functions.rs:69-72 | a custom code is nonzero, not public and not an exception |
| Functions.IsException | modbius-core/src/functions.rs:74-77 | an exception code is nonzero and not public |
| Functions.IsPublicFunctionExactly | modbius-core/src/functions.rs:133-141 | a code is public exactly when it is non-zero and the code of some documented function |
| Functions.PublicRoundTrip | modbius-core/src/functions.rs:146-185 | code and documented function convert into each other; only `Invalid` has a non-public code |
| Functions.NewPublic | modbius-core/src/functions.rs:42-44 | the wrapped byte is the function's code, public exactly when the function is not `Invalid` |
| Functions.Classes | modbius-core/src/functions.rs:51-78 | only 0 is invalid; custom codes are valid and neither public nor reserved; public codes are reserved and not exceptions; exceptions are reserved |
| Functions.IsExactly | modbius-core/src/functions.rs:46-49 | `is` compares codes, and on a public byte it holds for exactly the function `new` decodes |
| Functions.GetFunction | modbius-core/src/functions.rs:12-17 | both parts absent exactly on empty input; otherwise code byte plus tail is the input |
| Functions.GetFunctionUnchecked | modbius-core/src/functions.rs:23-28 | on non-empty input it returns what the checked reader returns |
| Function.PublicNewUnchecked | modbius-core/src/function.rs:134-136 | for a code in 0 to 24 or 43, the public function carrying that code |
| Function.PublicNew | modbius-core/src/function.rs:118-124 | the function with that code when it is public, otherwise `Invalid` |
| Function.PublicCode | modbius-core/src/function.rs:85-114 | every enumerated function's code is public, and it is 0 exactly for `Invalid` |
| Function.IsPublicFunction | modbius-core/src/function.rs:126-128 | 0 is public in this revision; public codes lie below 65 and are never custom |
| Function.IsCustomFunction | modbius-core/src/function.rs:162-164 | custom codes lie between 65 and 110 |
| Function.IsOtherFunction | modbius-core/src/function.rs:191-194 | other codes are at least 25 and never 43, and every code from 111 up is other |
| Function.IntoU8 | modbius-core/src/function.rs:56-64 | a public function's byte is a public code, 0 exactly for `Invalid` |
| Function.PublicRoundTrip | modbius-core/src/function.rs:117-148 | every public function's code is public and decodes back to it |
| Function.CustomNew | modbius-core/src/function.rs:158-160 | present exactly for codes 65 to 72 and 100 to 110, keeping the code |
| Function.OtherNew | modbius-core/src/function.rs:187-189 | present exactly for codes neither public nor custom, keeping the code |
| Function.FromU8 | modbius-core/src/function.rs:44-54 | the variant is the byte's class (custom checked first) and converting back gives the byte |
| Function.Partition | modbius-core/src/function.rs:126-199 | public, custom and other partition the 256 codes, and 0 classifies as public `Invalid` |
| Function.IntoFromU8 | modbius-core/src/function.rs:44-64 | classifying a well-formed function's byte gives the function back |
| Function.GetFunction | modbius-core/src/function.rs:10-15 | both parts absent exactly on empty input; otherwise the code byte plus tail is the input |
| Function.GetFunctionUnchecked | modbius-core/src/function.rs:22-27 | on non-empty input it returns what the checked reader returns |
| RequestsRead.FunctionCode | modbius-core/src/requests/read.rs:398-419 | each instance has its own public code between 1 and 4 |
| RequestsRead.FunctionCodeInjective | modbius-core/src/requests/read.rs:398-419 | the four instances have distinct function codes |
| RequestsRead.FromData | modbius-core/src/requests/read.rs:27-38 | fails with `UnexpectedEOF { expected: 4, got }` exactly below 4 bytes; otherwise body and tail re-encode to the input |
| RequestsRead.FromDataUnchecked | modbius-core/src/requests/read.rs:47-50 | body and tail re-encode to the input |
| RequestsRead.CheckedAgreesWithUnchecked | modbius-core/src/requests/read.rs:27-50 | on 4 or more bytes, the checked and unchecked parsers agree |
| RequestsRead.IntoData | modbius-core/src/requests/read.rs:55-59 | four bytes: address word then quantity word |
| RequestsRead.DecodeEncode | modbius-core/src/requests/read.rs:27-59 | parsing an encoded request gives it back with the tail |
| RequestsRead.AnyQuantityAccepted | modbius-core/src/requests/read.rs:27-38 | every quantity, 0 included, is accepted |
| RequestsRead.Encoded | modbius-core/src/requests/read.rs:81-88 | five bytes: the instance's code, then the body |
| RequestsRead.FrameRoundTrip | modbius-core/src/requests/read.rs:62-88 | an encoded frame is classified as the instance's function and its rest parses back to the request and tail |
| RequestsRead.WriteToSliceUnchecked | modbius-core/src/requests/read.rs:81-88 | writes the encoded request into `out[0..5]`; nothing else changes |
| RequestsRead.WriteToSlice | modbius-core/src/requests/read.rs:62-75 | `InsufficientBuffer { expected: 5, got }` with out untouched exactly below 5 bytes; otherwise writes the encoding |
| RequestRead.FunctionCode | modbius-core/src/request/read.rs:75-88 | each instance's code is between 1 and 4 and classifies as that public function |
| RequestRead.FromModbusDataUnchecked | modbius-core/src/request/read.rs:40-50 | body and tail re-encode to the input |
| RequestRead.FromModbusDataAsWritten | modbius-core/src/request/read.rs:25-34 | the code as written reads four bytes before the length check: undefined exactly below 4 bytes |
| RequestRead.FromModbusDataAsWrittenReadsPastEnd | modbius-core/src/request/read.rs:26-27 | the one-byte input `[1]` is read past its end |
| RequestRead.FromModbusData | modbius-core/src/request/read.rs:25-34 | length checked first; refused, with the input handed back, exactly below 4 bytes or at quantity 0; otherwise body and tail re-encode to the input |
| RequestRead.FromModbusDataRefinesAsWritten | modbius-core/src/request/read.rs:25-34 | wherever the as-written code is defined, the corrected parser returns the same |
| RequestRead.NewAsModbusData | modbius-core/src/request/read.rs:60-70 | five bytes: the instance's code, address word, quantity word |
| RequestRead.AsModbusData | modbius-core/src/request/read.rs:55-57 | the instance's code followed by the body; with a non-zero quantity the rest parses back to the request |
| RequestRead.ParseThenEncode | modbius-core/src/request/read.rs:25-70 | a five-byte frame that parses is re-encoded byte for byte |
| RequestRead.FrameRoundTrip | modbius-core/src/request/read.rs:25-70 | an encoded frame is classified as the instance's function and parses back with an empty tail |
| RequestsWriteSingle.FromData | modbius-core/src/requests/write/single.rs:24-33 | `UnexpectedEOF { expected: 4, got }` below 4 bytes; otherwise success exactly for state 0x0000 or 0xFF00, else `Invalid`; body and tail re-encode to the input |
| RequestsWriteSingle.FromDataUnchecked | modbius-core/src/requests/write/single.rs:42-48 | success exactly for a legal state word, and then body and tail re-encode to the input |
| RequestsWriteSingle.IntoData | modbius-core/src/requests/write/single.rs:50-55 | five bytes: code 5, address word, the state's word |
| RequestsWriteSingle.StateBytes | modbius-core/src/requests/write/single.rs:50-55 | the state is written as `FF 00` when on and `00 00` when off |
| RequestsWriteSingle.DecodeEncode | modbius-core/src/requests/write/single.rs:24-55 | parsing an encoded request gives it back with the tail |
| RequestsWriteSingle.InvalidStatesRefused | modbius-core/src/requests/write/single.rs:42-48 | any state word other than 0x0000 and 0xFF00 is refused with `Invalid` |
| RequestsWriteSingle.WriteToSliceUnchecked | modbius-core/src/requests/write/single.rs:77-79 | writes the encoded request into `out[0..5]`; nothing else changes |
| RequestsWriteSingle.WriteToSlice | modbius-core/src/requests/write/single.rs:58-71 | `InsufficientBuffer { expected: 5, got }` with out untouched exactly below 5 bytes; otherwise writes the encoding |
| RequestWriteSingle.CoilFromModbusData | modbius-core/src/request/write/single.rs:13-15 | present exactly on 4 or more bytes; the state is on for any non-zero word |
| RequestWriteSingle.CoilFromModbusDataUnchecked | modbius-core/src/request/write/single.rs:17-22 | address from the first two bytes; state on exactly when the next two are not both zero |
| RequestWriteSingle.CoilFromAddrState | modbius-core/src/request/write/single.rs:24-30 | present exactly for state words 0x0000 and 0xFF00, on exactly for 0xFF00 |
| RequestWriteSingle.CoilFromAddrStateUnchecked | modbius-core/src/request/write/single.rs:32-37 | keeps the address; on exactly for a non-zero word |
| RequestWriteSingle.CoilNewAsModbusData | modbius-core/src/request/write/single.rs:47-56 | five bytes: code 5, address word, 0xFF00 or 0x0000 |
| RequestWriteSingle.CoilAsModbusData | modbius-core/src/request/write/single.rs:42-44 | code 5, and the rest parses back to the request |
| RequestWriteSingle.CoilStateNotValidated | modbius-core/src/request/write/single.rs:13-37 | the parser reads state word 0x0001 as on, which `from_addr_state` refuses |
| RequestWriteSingle.RegisterFromModbusData | modbius-core/src/request/write/single.rs:69-71 | present exactly on 4 or more bytes; address and value re-encode to the first four bytes |
| RequestWriteSingle.RegisterFromModbusDataUnchecked | modbius-core/src/request/write/single.rs:73-78 | address and value re-encode to the first four bytes |
| RequestWriteSingle.RegisterNewAsModbusDataAsWritten | modbius-core/src/request/write/single.rs:88-98 | the code as written: the leading code is 5 (Write Single Coil), followed by address and value words |
| RequestWriteSingle.RegisterEncodingAsWrittenIsACoilWrite | modbius-core/src/request/write/single.rs:92 | a register write of 0x1234 to address 0 is classified as Write Single Coil and parses as switching coil 0 on |
| RequestWriteSingle.RegisterNewAsModbusData | modbius-core/src/request/write/single.rs:88-98 | corrected: code 6 (Write Single Register), then address and value words |
| RequestWriteSingle.RegisterAsModbusDataAsWritten | modbius-core/src/request/write/single.rs:83-85 | the code as written: code 5 (Write Single Coil), and the rest parses back to the request |
| RequestWriteSingle.RegisterAsModbusData | modbius-core/src/request/write/single.rs:83-85 | corrected: code 6 (Write Single Register), and the rest parses back to the request |
| RequestWriteSingle.RegisterFrameRoundTrip | modbius-core/src/request/write/single.rs:69-98 | an encoded register write is classified as Write Single Register and parses back to the request |
| MultipleRegisters.OverflowingAdd | modbius-core/src/write/multiple_registers.rs:39 | `u16::overflowing_add`: flags exactly the sums above 0xFFFF and returns the sum modulo 0x10000 |
| MultipleRegisters.New | modbius-core/src/write/multiple_registers.rs:35-42 | `Invalid` for no registers, `TooLarge` above 123, `Overflow` past address 0xFFFF; succeeds exactly on a valid request, keeping address and registers |
| MultipleRegisters.Valid | modbius-core/src/write/multiple_registers.rs:28-42 | a valid request carries 2 to 247 register bytes, so its byte count fits one byte |
| MultipleRegisters.Addr | modbius-core/src/write/multiple_registers.rs:54-56 | a valid request never starts at address 0xFFFF |
| MultipleRegisters.Registers | modbius-core/src/write/multiple_registers.rs:58-60 | a valid request holds 1 to 123 registers |
| MultipleRegisters.NewUnchecked | modbius-core/src/write/multiple_registers.rs:50-52 | keeps address and registers, valid or not |
| MultipleRegisters.UncheckedAgreesWithChecked | modbius-core/src/write/multiple_registers.rs:35-52 | on a valid request the unchecked constructor builds what `new` builds |
| MultipleRegisters.DataSize | modbius-core/src/write/multiple_registers.rs:97-99 | six header bytes plus the register bytes; a valid request takes 8 to 253 bytes |
| MultipleRegisters.FromData | modbius-core/src/write/multiple_registers.rs:62-71 | `UnexpectedEOF { expected: 7, got }` below 7 bytes, otherwise the unchecked outcome; every success is valid |
| MultipleRegisters.FromDataUnchecked | modbius-core/src/write/multiple_registers.rs:73-94 | in order: `Ambivalent`, `UnexpectedEOF { expected: nb + 5, got }`, `Invalid` for odd bytes, then the checks of `new`; succeeds exactly on a consistent valid header with the register bytes present |
| MultipleRegisters.Encode | modbius-core/src/write/multiple_registers.rs:115-132 | code 16, address word, register-count word, byte count, register bytes |
| MultipleRegisters.ParseThenEncode | modbius-core/src/write/multiple_registers.rs:62-132 | what `from_data` accepts is written back as code 16 followed by exactly the bytes read |
| MultipleRegisters.EncodeThenParse | modbius-core/src/write/multiple_registers.rs:62-132 | a valid request over whole registers, encoded, parses back to itself whatever follows |
| MultipleRegisters.ProtocolExampleParses | modbius-core/src/write/multiple_registers.rs:195-207 | the protocol example parses to address 1 with register bytes `00 0A 01 02` |
| MultipleRegisters.ProtocolExampleRegisters | modbius-core/src/write/multiple_registers.rs:195-207 | the example's registers are 0x000A and 0x0102 |
| MultipleRegisters.ProtocolExampleEncodes | modbius-core/src/write/multiple_registers.rs:287-300 | the example is written back as 16 followed by the same nine bytes, ten in all |
| MultipleRegisters.RejectedInputs | modbius-core/src/write/multiple_registers.rs:223-285 | the malformed inputs of the tests give `UnexpectedEOF`, `Ambivalent` and `Invalid` as the tests expect |
| MultipleRegisters.OverflowBoundary | modbius-core/src/write/multiple_registers.rs:35-42 | 123 registers from 0xFFFF - 122 overflow; from 0xFFFF - 123 they are accepted |
| MultipleRegisters.WriteToSliceUnchecked | modbius-core/src/write/multiple_registers.rs:115-132 | writes the encoded request into `out[0..data_size]`; nothing else changes |
| MultipleRegisters.WriteToSlice | modbius-core/src/write/multiple_registers.rs:101-113 | `InsufficientBuffer { expected: data_size, got }` with out untouched exactly when out is shorter; otherwise writes the encoding |
| Revisions.ReadParsersAgree | modbius-core/src/request/read.rs:25-34 | on 4 or more bytes, both read parsers give the same address, quantity and tail when the quantity is non-zero; only `requests::read` accepts quantity 0 |
| Revisions.ZeroQuantityRead | modbius-core/src/requests/read.rs:27-38 | `[0, 0, 0, 0]` is a read of quantity 0 for one revision and refused by the other |
| Revisions.PublicCodes | modbius-core/src/function.rs:126-128 | every code functions.rs calls public is public in function.rs; they differ on exactly 0, 9, 10, 13, 14, 18 and 19 |
| Revisions.CoilParsersAgreeOnLegalStates | modbius-core/src/requests/write/single.rs:42-48 | on legal state words both coil parsers agree; where `requests` refuses with `Invalid`, `request` reads the coil as on |
| Revisions.CoilStateOne | modbius-core/src/request/write/single.rs:17-37 | state word 0x0001 is refused by one revision and read as on by the other |

## Left out

- request/write/multiple/registers.rs and util/registers.rs are not part of this model. The latter reinterprets raw byte memory as `u16` slices, which depends on target endianness and alignment.
- `util::read_addr_quantity_unchecked` and `util::write_addr_quantity_unchecked`, which requests/read.rs calls, are not part of this model. The reader and writer of util/mod.rs for the same big-endian address/quantity layout stand in for them.
- lib.rs re-exports, `new` constructors that only wrap fields, `From`/`Into`/`PartialEq` glue between the function types, and the derived traits (`Ord`, `Hash`, `Debug`) are left out. They carry no logic beyond the members above.
- `SlaveId::from_data`, `SlaveId::from_data_unchecked`, `ModbusFunction::from_data` and `ModbusFunction::from_data_unchecked` are left out. Each only calls `get_slaveid` or `get_function`, which are modelled.
- Lifetimes and borrowing are left out: a slice and its tail are values here, not views into one buffer.
- Writers are modelled on `array<uint8>` starting at index 0. Sub-slice arguments such as `out[1..]` are modelled as an offset.
- RegisterSlices.Get: the model's index is unbounded, so the `usize` overflow of `(idx + 1) * 2` for an index near `usize::MAX` is not represented.
- MultipleRegisters.Encode: requires at most 255 register bytes, the most the byte-count field can hold. The Rust truncates a larger count to `u8`; requests built by `new` or `from_data` hold at most 247 bytes.
- MultipleRegisters.WriteToSlice: requires at most 255 register bytes. With more, the Rust truncates the byte count to `u8` and `copy_from_slice` panics on the length mismatch. Requests built by `new` or `from_data` hold at most 247 bytes.
- MultipleRegisters.WriteToSliceUnchecked: the same byte-count precondition, for the same reason.
- The unit tests themselves are left out. Their vectors are restated as lemmas where they pin down behaviour (`MultipleRegisters.RejectedInputs`, the protocol example lemmas, `Revisions.CoilStateOne`).

## Findings

| source | as written | input that shows it | evidently intended | confidence | as-written member | corrected member |
|---|---|---|---|---|---|---|
| modbius-core/src/util/mod.rs:47 | `from_modbus_data` guards with `len < 3`, then reads four bytes unchecked | `[0, 1, 2]` is read at index 3 | guard `len < 4`, matching `AddrQuantity::SIZE` | high, not executed | UtilMod.FromModbusDataAsWrittenReadsPastEnd | UtilMod.FromModbusData |
| modbius-core/src/request/read.rs:26 | `from_modbus_data` calls the unchecked four-byte reader before the `len >= 4` check on the next line | `[1]` is read at indices 1 to 3 | check the length first, as the doc comment promises | high, not executed | RequestRead.FromModbusDataAsWrittenReadsPastEnd | RequestRead.FromModbusData |
| modbius-core/src/request/write/single.rs:92 | `WriteSingleRegisterRequest::new_as_modbus_data` writes `PublicModbusFunction::WriteSingleCoil` (5) as the code | address 0, value 0x1234 gives `05 00 00 12 34`, a coil write switching coil 0 on | code 6, Write Single Register | high, not executed | RequestWriteSingle.RegisterEncodingAsWrittenIsACoilWrite | RequestWriteSingle.RegisterNewAsModbusData, RequestWriteSingle.RegisterAsModbusData |
