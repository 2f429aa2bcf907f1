# Bus firmware: a verified model

The repository is firmware for a polled RS-485 bus: a Pico bus controller, SAMD21 clients and the
code they share. This project models five groups of that code in Dafny and proves what they keep.

1. **Config store** (`ConfigStore*`): 256 flash rows, each one checksummed entry, shadowed by 32 RAM
   slots. The newest entry of a name wins, and commits go round the rows that are not live. A commit
   is five flash operations, one erase and four page writes, and power may be lost between any two.
   A second, read-only reader scans the same rows.
2. **Interlocks** (`BoardPins`, `Dsl*`, `PinClaims`, `Interlock*`): a small language parsed by
   recursive descent, a table of claimed pins, slots that survive a warm reset, and a tick that
   evaluates every slot and then drives every output once.
3. **Bus engine** (`BusTable`, `BusMachine*`, `BusDispatch`, `BusDelivery`, `BusPool`, `BusRefine`,
   `BusLiveness*`, `BusRebuild`, `BusEdges`): a buffer pool and two transmit lists for each node, filled
   by producers on two cores while the bus cycle drains the others; rebuilds of the node table; dead
   nodes and their slow probe; the announced-shadow notifier. `BusMachine` has one step for each section under the spinlock,
   taken in any order that the threads allow. `BusPool` has the same data as linked buffers, one method
   for each section and for each operation made of them; `BusRefine` proves that every step of the one
   is, message numbers forgotten, what a method of the other does.
4. **Codecs** (`Bytes`, `Crc8*`, `BusFrame`, `BusStream`, `Cbor*`, `NetCfg*`): the 9-bit frame encoder
   and its resynchronising assembler over CRC-8 with the polynomial 0x2F (AUTOSAR Specification of CRC
   Routines), and the CBOR reader (section 3.1 of RFC 8949) with the network config parser on top.
5. **Schedules and statistics** (`ServoTimer`, `ServoFrame`, `SquareRoot`, `WindowStats`).

Each operation that the firmware runs in place is a method here, over arrays and fields, proved equal
to a function on values; the laws are proved about the functions. The parsers are functions on the text
or bytes still unread, and classes with a cursor that do the same in place. Bytes and words are
integers with their ranges; wherever the source cuts a value to 8, 16, 24, 32 or 64 bits and that can
matter, the model cuts it too. Slot masks, port masks and pin masks are sets of the numbers whose bits
are on.

A definition that a method and the laws about it share is also pinned by laws of its own that do not use
it: the checksum by its published check value (`Crc8Reference`), the entry check by what it covers
(`ConfigStoreEntry`), headers and items by their bytes (`CborReference`), config files by what their items
say (`NetCfgMeaning`), the interlock language by its tables of words and errors (`DslRules`, `DslVariants`),
claims and resets by what they do to pins and slots (`PinClaims.GrantedExactly`, `InterlockAdmission`,
`InterlockBoot`).

## What turned out not to hold

The code is modelled as it is. Where the natural claim is false, the exact condition is proved.

* A frame addressed above 0x7F is sent with its address cut to 7 bits and its checksum taken over all
  8, so the receiver always rejects it (`BusStream.DeliveredIntact`).
* A commit cut in the middle leaves the old or the new bytes exactly when the torn row does not pass
  its own 8-bit check by chance (`ConfigStoreLaws.CrashAtomic`). Files of at most 49 bytes never do
  (`ConfigStoreRuns.ShortFilesAtomic`); from 50 bytes on some do (`ConfigStoreRuns.CutCanMix`).
* A rebuild of the node table at run time resets the table and not the roster. The two agree on who is
  dead after every later cycle, whatever the slaves do, exactly when no entry was dead and, unless the
  limit is 1, none had missed a poll (`BusRebuild.NeverApartExactly`). In any one run they agree again
  exactly from a slave's first answered poll on, or once it has missed as many polls as the limit
  (`BusRebuild.AgreeAgain`).
* A watch that has passed once passes for ever exactly when its dead band leaves no reading on which it
  could fail: `ge` with a band as wide as its threshold, `le` with one that reaches the top of the range,
  `lt` with one that passes it (unless the range is all of 16 bits), `ne` with a threshold above the range
  (`InterlockEval.StuckExactly`). A host can arm such an interlock (`InterlockStuck.StuckParses`,
  `InterlockStuck.NeverObjects`).
* A commit of a name whose first byte is 0xFF always reports failure, since no such entry is valid
  (`ConfigStoreLaws.CommitWrites`).

## Model

| member | source | states |
|---|---|---|
| Crc8.UpdateByte | core/bus_crc8.c:6-12 | the bit loop computes the register update |
| Crc8.Checksum | core/bus_crc8.c:14-18 | the byte loop computes the checksum of the whole string |
| Crc8.UpdateInjective | core/bus_crc8.c:6-12 | two updates agree exactly when the changed argument agrees, for the register and for the byte |
| Crc8.CrcOfTwoByteError | core/bus_crc8.c:6-18 | changing two neighbouring bytes goes unseen exactly when the second error is the register image of the first |
| Crc8.DetectsByteError | core/bus_crc8.c:14-18 | changing one byte anywhere changes the checksum |
| Crc8.DetectsBurst | core/bus_crc8.c:6-18 | any change within 8 consecutive bits over two bytes changes the checksum |
| Crc8Reference.TopBitOn | core/bus_crc8.c:9 | a bit shifted out at the top folds 0x2F into the register |
| Crc8Reference.CheckValue | core/bus_crc8.h:6 | the checksum of the digits 1 to 9 is the published check value 0xDF |
| Crc8Reference.ResidueIs | core/bus_crc8.c:14-18 | a string followed by its checksum always leaves the register at 0x42 |
| BusFrame.FrameCrc | core/bus_frame.c:7-16 | the field-by-field sum is the checksum over destination to payload |
| BusFrame.EncodeAt | core/bus_frame.c:18-37 | the frame word by word: the address, cut to 7 bits, alone with the ninth bit set, then source, type, sequence, length, at most 240 payload bytes, checksum |
| BusFrame.EncodeInto | core/bus_frame.c:18-37 | fills the array with exactly the words of the frame and touches nothing behind them |
| BusFrame.Assembler.FeedWord | core/bus_frame.c:52-93 | one word takes the assembler, in place, to the next state and delivers what that state delivers |
| BusStream.DeliveredIntact | core/bus_frame.c:18-93 | from any state a frame for this node is delivered whole on its last word, and nothing else after its first, if and only if its address has 7 bits |
| BusStream.NotForUs | core/bus_frame.c:48-65 | a frame for another node delivers nothing and leaves the assembler idle |
| BusStream.StreamFiltered | core/bus_frame.c:18-93 | from any state, a stream of frames yields exactly those for the node or for all, in order |
| BusStream.StreamFromInit | core/bus_frame.c:39-46 | the same from a fresh assembler, with nothing before |
| BusStream.Resynchronises | core/bus_frame.c:56-65 | after any noise the stream is received from its first frame on |
| BusStream.RejectedIff | core/bus_frame.c:81-87 | corrupted data words are rejected, and counted once, exactly when the checksum over them differs |
| BusStream.ByteErrorRejected | core/bus_frame.c:81-87 | changing any one byte but address and length is rejected and counted |
| BusStream.BurstRejected | core/bus_frame.c:81-87 | so is any burst of at most 8 bits that spares them |
| ConfigStoreDevice.EntryChecksum | app/samd21_client/samd21_commands.c:1021-1027 | the sum run over name, then length, then data is the checksum of them as one string |
| ConfigStoreDevice.RowValid | app/samd21_client/samd21_commands.c:1028-1031 | decides validity of a row |
| ConfigStoreEntry.ValidExactly | app/samd21_client/samd21_commands.c:1021-1031 | a row is valid if and only if it has the magic number, a name that is not erased and a length of at most 240, and name, length, data and check byte together leave the residue |
| ConfigStoreEntry.ByteErrorSeen | app/samd21_client/samd21_commands.c:1021-1031 | a valid row with any one byte of its name, data or check changed is not valid |
| ConfigStoreEntry.TailIgnored | app/samd21_client/samd21_commands.c:1021-1027 | what lies behind the data does not matter |
| ConfigStoreEntry.EntryWritten | app/samd21_client/samd21_commands.c:1109-1118 | the entry that a commit writes: numbered one higher, the slot's bytes, the rest erased, and valid unless its name reads as erased |
| ConfigStoreEntry.TornRow | app/samd21_client/samd21_commands.c:1119-1122 | after an erase and some pages a data byte is there if and only if its page is, and reads as erased otherwise |
| ConfigStoreDevice.ReadFile | node/cfg_file.c:54-68 | the read-only scan returns the newest valid entry of a name, if it fits the buffer |
| ConfigStoreDevice.Device.FindSlot | app/samd21_client/samd21_commands.c:1034-1038 | finds the slot bound to a name |
| ConfigStoreDevice.Device.AllocSlot | app/samd21_client/samd21_commands.c:1040-1052 | binds the first free slot to a new name and changes no other |
| ConfigStoreDevice.Device.LoadAll | app/samd21_client/samd21_commands.c:1066-1084 | the boot scan builds the shadow in place |
| ConfigStoreDevice.Device.PickRow | app/samd21_client/samd21_commands.c:1102-1107 | picks the first row from the cursor on that is not live |
| ConfigStoreDevice.Device.CommitSlot | app/samd21_client/samd21_commands.c:1093-1131 | the commit, cut after any number of its flash operations, leaves exactly the modelled flash, slots and cursor |
| ConfigStoreLaws.PickSucceeds | app/samd21_client/samd21_commands.c:1102-1107 | a row that is not live always exists |
| ConfigStoreLaws.LoadRestores | app/samd21_client/samd21_commands.c:1066-1084 | from any flash with at most 32 names the boot scan restores the invariant and agrees with the read-only reader |
| ConfigStoreLaws.CommitWrites | app/samd21_client/samd21_commands.c:1102-1130 | a commit changes one row, one that was not live, and succeeds only if it ran to its end on a name that may be valid |
| ConfigStoreLaws.CommitLaw | app/samd21_client/samd21_commands.c:1093-1131 | every commit, cut or not, changes what is stored for its own name only |
| ConfigStoreLaws.CrashAtomic | app/samd21_client/samd21_commands.c:1066-1131 | cut anywhere and rebooted: both readers agree on all names, all other names keep their bytes, and the committed one is old or new if and only if no torn row passes its check |
| ConfigStoreRuns.StepLaw | app/samd21_client/samd21_commands.c:1066-1131 | every edit, commit, cut, reload and format keeps the invariant and has its one effect on what is stored |
| ConfigStoreRuns.RunStored | app/samd21_client/samd21_commands.c:919-926 | over any run with any power cuts every name reads as what its last effective commit wrote, for both readers |
| ConfigStoreRuns.OpenLaw | app/samd21_client/samd21_commands.c:1034-1052 | opening a name finds its slot, or makes an empty file of a free one, or changes nothing |
| ConfigStoreRuns.WritesIfChanged | app/samd21_client/samd21_commands.c:1093-1101 | a commit erases a row if and only if what is stored for the name differs from what the slot holds |
| ConfigStoreRuns.FormattedInv | app/samd21_client/samd21_commands.c:1066-1084 | a formatted store satisfies the invariant |
| ConfigStoreRuns.ShortFilesAtomic | app/samd21_client/samd21_commands.c:1119-1122 | files of at most 49 bytes are never left mixed |
| ConfigStoreRuns.CutCanMix | app/samd21_client/samd21_commands.c:1119-1122 | a 50-byte file whose first commit is cut after one page can read back as neither |
| ConfigStoreWear.WearBound | app/samd21_client/samd21_commands.c:1086-1108 | within a session at least 223 other rows are erased between two erases of a row |
| BoardPins.LookupLabel | app/samd21_client/samd21_pin_table.c:67-78 | the table scan finds the pin of a label |
| BoardPins.LabelRoundTrip | app/samd21_client/samd21_pin_table.c:37-63 | the label of a board pin leads back to that pin |
| BoardPins.LowPins | app/samd21_client/samd21_pin_table.c:37-44 | port, pin, channel and reservation of D0 to D5 |
| BoardPins.HighPins | app/samd21_client/samd21_pin_table.c:45-49 | the same for D6 to D10 |
| BoardPins.ReservedPins | app/samd21_client/samd21_pin_table.c:37-63 | the reserved pins are the two of the I2C bus |
| DslParser.Parser.ReadIdentifier | app/samd21_client/samd21_interlock_dsl.c:78-86 | the cursor takes the longest identifier after white space |
| DslParser.Parser.ReadNum | app/samd21_client/samd21_interlock_dsl.c:89-119 | the cursor takes a decimal or hexadecimal number, cut to 16 bits |
| DslTokens.AnyNumberRead | app/samd21_client/samd21_interlock_dsl.c:89-119 | a 16-bit number printed in decimal or in hexadecimal, in either case of the digits, is read back |
| DslTokens.HexMeans | app/samd21_client/samd21_interlock_dsl.c:89-119 | any hexadecimal digits, of mixed case and any number, are read as what they stand for, cut to 16 bits |
| DslTokens.DecMeans | app/samd21_client/samd21_interlock_dsl.c:89-119 | the same for decimal digits |
| DslParser.Parser.ParseMods | app/samd21_client/samd21_interlock_dsl.c:254-279 | the list of modifiers ends where the next pin begins, and the comma between is given back |
| DslParser.Parser.ResolveMods | app/samd21_client/samd21_interlock_dsl.c:281-349 | the loop over the modifiers yields the configuration, or the error, they amount to |
| DslParser.Parser.ParseCfgSection | app/samd21_client/samd21_interlock_dsl.c:231-385 | the loop over the pin groups reads what the language says |
| DslParser.Parser.ParseWatchSection | app/samd21_client/samd21_interlock_dsl.c:437-517 | the same for clauses and their groups |
| DslParser.Parser.ParseOutSection | app/samd21_client/samd21_interlock_dsl.c:521-542 | the same for output levels |
| DslParser.Parser.ParseText | app/samd21_client/samd21_interlock_dsl.c:548-624 | on every text the parse ends, reads inside the text only, and gives the instance, or the error and its position, that the language defines |
| DslSoundness.ParseSound | app/samd21_client/samd21_interlock_dsl.c:548-624 | every accepted instance is within its bounds, with watches on declared inputs, distinct pins, two different output levels, dead bands on ordered comparisons of analog inputs only, and groups below the number of watches |
| DslRules.FirstTaken | app/samd21_client/samd21_interlock_dsl.c:281-290 | the four things a pin can be |
| DslRules.AdcTaken | app/samd21_client/samd21_interlock_dsl.c:299-349 | what may be said of a converter input, within what bounds, and which error answers the rest |
| DslRules.GpioTaken | app/samd21_client/samd21_interlock_dsl.c:299-349 | the same for a digital input |
| DslRules.OutTaken | app/samd21_client/samd21_interlock_dsl.c:299-349 | the same for an output |
| DslRules.OpsTaken | app/samd21_client/samd21_interlock_dsl.c:447-455 | the six comparisons and no other |
| DslRules.PinTaken | app/samd21_client/samd21_interlock_dsl.c:351-381 | a pin is recorded unless its label is unknown, it is declared already or there is no room, each with its own error |
| DslRules.WatchTaken | app/samd21_client/samd21_interlock_dsl.c:488-510 | a watch on a declared input is recorded unless a dead band meets eq or ne, or eight stand already |
| DslRules.WatchRefused | app/samd21_client/samd21_interlock_dsl.c:488-494 | a watch on an unknown or undeclared pin is refused |
| DslRules.VirtualTaken | app/samd21_client/samd21_interlock_dsl.c:465-487 | the three virtual inputs declare themselves at first use while there is room |
| DslCfgTrip.ModListRead | app/samd21_client/samd21_interlock_dsl.c:259-279 | a printed list of modifiers is read back up to the bracket or to the comma before the next pin |
| DslPinsTrip.NextPinCloses | app/samd21_client/samd21_interlock_dsl.c:268-278 | no printed pin, with parentheses or without, is taken for a modifier |
| DslPinsTrip.CfgRead | app/samd21_client/samd21_interlock_dsl.c:231-385 | a printed cfg section is read back pin by pin |
| DslWatchTrip.WatchRead | app/samd21_client/samd21_interlock_dsl.c:437-517 | printed clauses are read back with their groups, virtual inputs declared at their first use |
| DslRoundTrip.OutRead | app/samd21_client/samd21_interlock_dsl.c:521-542 | printed output levels are read back |
| DslVariants.LevelTaken | app/samd21_client/samd21_interlock_dsl.c:521-542 | a level is 0 or 1, of a declared output, and sets that level of that output only; each fault has its own error |
| DslRoundTrip.ParsePrinted | app/samd21_client/samd21_interlock_dsl.c:231-624 | printing any canonical instance, pins bare or in parentheses, usual settings left out or written, thresholds in decimal or in hexadecimal of either case, and parsing the text gives exactly the instance |
| DslVariants.ListMeans | app/samd21_client/samd21_interlock_dsl.c:231-252 | a list of up to six pins means, errors included, what its pins mean one by one with the same modifiers |
| DslVariants.SpacedTokens | app/samd21_client/samd21_interlock_dsl.c:60-119 | blanks, tabs and line ends before any word, separator or number are skipped |
| DslVariants.SpacedPins | app/samd21_client/samd21_interlock_dsl.c:231-252 | and before the pins of a group |
| DslVariants.SpacedComparison | app/samd21_client/samd21_interlock_dsl.c:443-459 | and before a comparison |
| DslVariants.SpacedGroup | app/samd21_client/samd21_interlock_dsl.c:231-252 | and before a pin group |
| DslVariants.SpacedClause | app/samd21_client/samd21_interlock_dsl.c:437-517 | and before a clause |
| DslVariants.SpacedLevel | app/samd21_client/samd21_interlock_dsl.c:521-542 | and before a level |
| DslVariants.SpacedSection | app/samd21_client/samd21_interlock_dsl.c:573-602 | and before a section and its semicolon |
| DslVariants.TailRefused | app/samd21_client/samd21_interlock_dsl.c:604-608 | behind any printed instance nothing but another section may follow; any other character is refused, and pointed at |
| DslVariants.SectionRefused | app/samd21_client/samd21_interlock_dsl.c:585-592 | a section of any other name is refused |
| DslVariants.LevelsNeeded | app/samd21_client/samd21_interlock_dsl.c:610-612 | an instance with outputs is refused without both of their levels |
| PinClaims.PinTable.ClaimInput | app/samd21_client/samd21_hal_pin.c:93-130 | claims an input in place, or changes nothing and says why |
| PinClaims.PinTable.ClaimAdc | app/samd21_client/samd21_hal_pin.c:132-166 | the same for an analog input |
| PinClaims.PinTable.ClaimOutput | app/samd21_client/samd21_hal_pin.c:177-213 | the same for an output, shared when the levels agree |
| PinClaims.GrantedExactly | app/samd21_client/samd21_hal_pin.c:93-213 | when one claim is granted: on the board, off the I2C bus, in range, and free, the slot's own, or an output driven with the same levels; and what a refusal says |
| PinClaims.GrantedRecord | app/samd21_client/samd21_hal_pin.c:93-213 | what a granted claim leaves on its pin, and that no other pin changes |
| PinClaims.PinTable.ReleaseSlot | app/samd21_client/samd21_hal_pin.c:215-231 | takes the slot off every pin, and frees those it leaves without an owner |
| PinClaims.PinTable.CheckConsistency | app/samd21_client/samd21_hal_pin.c:245-260 | tells whether every input pin has at most one owner |
| PinClaims.PinTable.DriveOutputs | app/samd21_client/samd21_hal_pin.c:270-284 | gives every managed output its error level if an owner vetoes and its good level if none does, and no other pin any |
| PinClaims.ClaimAllLaw | app/samd21_client/samd21_interlocks.c:394-423 | a list of claims is granted if and only if each is acceptable by itself and next to what the other slots declare; otherwise the slot ends with nothing |
| PinClaims.ReleaseLaw | app/samd21_client/samd21_hal_pin.c:215-231 | after a release the table is as if the slot had never asked |
| PinClaims.JointlyCompatible | app/samd21_client/samd21_hal_pin.c:189-204 | the declarations a table shows never clash |
| PinClaims.ViewUnique | app/samd21_client/samd21_hal_pin.c:19-28 | owners, mode and levels of a pin are determined by the declarations alone |
| InterlockEval.DnfResult | app/samd21_client/samd21_interlocks.c:526-541 | true exactly when some group has all its watches passing, or there is no watch |
| InterlockEval.EvalSlot | app/samd21_client/samd21_interlocks.c:555-628 | the loops update filters and verdicts and vote as the condition says |
| InterlockEval.FilterSettles | app/samd21_client/samd21_interlocks.c:568-578 | the shift register yields the level that the samples themselves settle on |
| InterlockEval.FlipNeedsDepth | app/samd21_client/samd21_interlocks.c:568-578 | a filtered level flips only after as many equal samples as the filter is deep, and always follows that many |
| InterlockEval.BandLaw | app/samd21_client/samd21_interlocks.c:592-620 | inside the saturated dead band the last verdict is kept, outside it the reading is compared as the operator says |
| InterlockEval.NoFlutter | app/samd21_client/samd21_interlocks.c:592-621 | a verdict never flips while the reading stays in the band |
| InterlockEval.StuckExactly | app/samd21_client/samd21_interlocks.c:592-621 | over all lists of readings in a range, a watch that has passed passes for ever if and only if its operator, threshold and dead band leave no reading of the range on which it fails |
| InterlockStuck.StuckParses | app/samd21_client/samd21_interlock_dsl.c:231-624 | a text with a dead band as wide as its threshold is accepted |
| InterlockStuck.NeverObjects | app/samd21_client/samd21_interlocks.c:592-621 | that interlock's condition, once met, stays met on any further samples |
| InterlockDevice.ClaimInstPins | app/samd21_client/samd21_interlocks.c:394-423 | claims the pins of an instance in place, all or none |
| InterlockDevice.Framework.SetSlotDsl | app/samd21_client/samd21_interlocks.c:425-471 | parse, claim and commit in place are the modelled step |
| InterlockDevice.Framework.ArmSlotCompiled | app/samd21_client/samd21_interlocks.c:312-334 | arming a compiled mode in place is the modelled step |
| InterlockDevice.Framework.DisarmSlot | app/samd21_client/samd21_interlocks.c:345-371 | disarming in place is the modelled step |
| InterlockDevice.Framework.PersistIsValid | app/samd21_client/samd21_interlocks.c:138-164 | decides whether what a reset found in memory is plausible |
| InterlockDevice.Framework.Boot | app/samd21_client/samd21_interlocks.c:189-235 | counts the reset or starts cold, in place |
| InterlockDevice.Framework.WarmRestore | app/samd21_client/samd21_interlocks.c:476-521 | re-parses and re-claims slot by slot, in place |
| InterlockDevice.Framework.TickAll | app/samd21_client/samd21_interlocks.c:664-700 | evaluates both slots in place, then drives the outputs once |
| InterlockLaws.SetDslLaw | app/samd21_client/samd21_interlocks.c:425-471 | a text is accepted if and only if it is short enough, the slot is free, it parses, asks for no reserved pin and fits the other declarations; a refusal leaves every pin's owners, mode and levels |
| InterlockAdmission.AcceptedExactly | app/samd21_client/samd21_interlocks.c:425-471 | spelled out on the pins: accepted if and only if the slot is 0 or 1 and not armed, the text has 1 to 127 characters and parses, its inputs are free and its outputs free or driven with the same two levels, none of them on the I2C bus |
| InterlockLaws.ArmCompiledLaw | app/samd21_client/samd21_interlocks.c:312-334 | when arming succeeds, and that it claims no pin |
| InterlockLaws.DisarmLaw | app/samd21_client/samd21_interlocks.c:345-371 | a disarmed slot owns nothing and no other slot loses a pin |
| InterlockLaws.RestartInv | app/samd21_client/samd21_interlocks.c:214-235 | whatever a reset finds in memory, afterwards each armed slot is the parse of its text and owns exactly its pins |
| InterlockBoot.ColdStart | app/samd21_client/samd21_interlocks.c:138-220 | a memory that the firmware cannot have left is wiped: both slots empty, no pin claimed |
| InterlockBoot.RestartExactly | app/samd21_client/samd21_interlocks.c:214-235 | from any other memory each armed slot comes back, one reset older and parsed from its text, or is poisoned after three resets or if its text does not parse or its pins are not to be had; all other slots stay |
| InterlockLaws.WarmResetExact | app/samd21_client/samd21_interlocks.c:476-521 | a warm reset gives back every armed slot under the limit with its text and instance, not evaluated, and poisons exactly those at the limit, none by re-claiming |
| InterlockLaws.WarmResetPins | app/samd21_client/samd21_interlocks.c:476-521 | a surviving slot owns the same pins in the same way; a poisoned one owns none |
| InterlockRuns.StepInv | app/samd21_client/samd21_interlocks.c:312-521 | arming, disarming, ticking, resets and the other modes' claims, in any order, keep the invariant |
| InterlockRuns.OwnersDeclare | app/samd21_client/samd21_hal_pin.c:93-231 | in every reachable state a slot owns exactly the pins its armed instance declares, inputs have one owner, free pins are unclaimed |
| InterlockRuns.InputsSetUp | app/samd21_client/samd21_interlocks.c:377-385 | in every reachable state each input pin of an armed slot is claimed with the pull its instance asks for, or as a converter input with its settings |
| InterlockRuns.OutputRecord | app/samd21_client/samd21_interlocks.c:394-423 | and each output pin as an output with the two levels its instance names |
| InterlockRuns.SharersAgree | app/samd21_client/samd21_hal_pin.c:191-204 | in every reachable state all sharers of an output declare the same levels |
| InterlockRuns.AtMostThreeResets | app/samd21_client/samd21_interlocks.c:221-234 | over any run in which nobody arms a slot again, its count is the number of warm resets, and it survives at most three |
| InterlockRuns.TickVerdict | app/samd21_client/samd21_interlocks.c:664-684 | a tick leaves a slot that is not armed alone, passes the no-op, and passes or vetoes any other as its condition says |
| InterlockRuns.OutputsAreVetoes | app/samd21_client/samd21_interlocks.c:664-700 | after every tick a declared output carries its error level if and only if some armed owner's vote, from what its slot remembers and this tick's readings, is against |
| InterlockRuns.OthersKeepLevel | app/samd21_client/samd21_hal_pin.c:270-284 | pins that no framework slot drives keep their level |
| InterlockHistory.DebounceOverTicks | app/samd21_client/samd21_interlocks.c:558-581 | after any samples from a fresh slot the level of a debounced input is the one its own samples settle on |
| InterlockHistory.VerdictOverTicks | app/samd21_client/samd21_interlocks.c:586-625 | and each watch's verdict is the one that the values of its own input lead to, dead band included |
| InterlockHistory.VoteIsCondition | app/samd21_client/samd21_interlocks.c:526-628 | and the vote of the slot is its condition on the samples alone, no register in between |
| InterlockHistory.StepFollows | app/samd21_client/samd21_interlocks.c:312-700 | arming, disarming, ticking, resets and the other modes' claims each keep what a slot remembers in line with the samples it was given since it was last armed or reset |
| InterlockHistory.RunFollows | app/samd21_client/samd21_interlocks.c:312-700 | over any run an armed slot remembers exactly what those samples lead to: refused commands, the other slot and earlier armings leave no trace |
| InterlockHistory.OutputsFollowSamples | app/samd21_client/samd21_interlocks.c:555-700 | from any start, after any run and one more tick, a declared output carries its error level if and only if the condition of some armed owner fails on the samples that owner was given since it was armed or reset |
| BusTable.BuildLaw | app/bus_controller/main.c:1223-1232 | the node table is the roster in address order, every node live with empty lists |
| BusPool.TxPool.Grab | app/bus_controller/main.c:1157-1163 | takes the head of the free list, or nothing when it is empty |
| BusPool.TxPool.Recover | app/bus_controller/main.c:1164-1169 | puts a private buffer back and disturbs no list |
| BusPool.TxPool.Attach | app/bus_controller/main.c:1261-1269 | pushes a private buffer on the fill list of its node, or reports the node unknown |
| BusPool.TxPool.TakeHead | app/bus_controller/main.c:1353-1355 | the detached chain is exactly the node's list and no longer on any |
| BusPool.TxPool.Send | app/bus_controller/main.c:1246-1272 | a whole send in place: a buffer taken, filled with exactly the caller's bytes or the first 240 of them, and attached, or given back, or the send counted as refused for want of one |
| BusPool.TxPool.DrainNode | app/bus_controller/main.c:1352-1360 | draining a node sends its list in order, or nothing to a dead node, and puts every buffer back |
| BusPool.TxPool.MessagePass | app/bus_controller/main.c:1343-1361 | the pass over all nodes, with what it puts on the wire and which nodes it marks as sent to |
| BusPool.TxPool.BuildTable | app/bus_controller/main.c:1223-1232 | the insertion sort in place fills the records of the built table |
| BusPool.TxPool.Rebuild | app/bus_controller/main.c:1308-1319 | every queued buffer ends on the orphan chain, once, and the table is built afresh |
| BusPool.TxPool.RecoverChain | app/bus_controller/main.c:1320 | the orphans of a rebuild go back to the free list, each once |
| BusMachineLaws.StepConserves | app/bus_controller/main.c:1157-1361 | no step of any interleaving creates, loses or doubles a buffer, and the counter stays the length of the free list |
| BusMachineLaws.StepTracks | app/bus_controller/main.c:1246-1361 | an accepted message is on one list or has one fate; no step loses or repeats it |
| BusMachineLaws.StepInv | app/bus_controller/main.c:1246-1361 | every step of every interleaving keeps the invariant: lists being drained hold only messages from before the swap, each at its own node |
| BusMachineLaws.NothingLeftOver | app/bus_controller/main.c:1341-1361 | after the message pass no message from before the swap is still queued |
| BusDispatch.StepHomed | app/bus_controller/main.c:1246-1361 | under every step messages wait only at the first node of their address |
| BusDispatch.ReachableSound | app/bus_controller/main.c:1157-1403 | every run from a fresh engine, with any roster and any interleaving, keeps all of these invariants, with each of the 24 buffers in one place |
| BusDispatch.RosterTaken | app/bus_controller/main.c:1308-1322 | a roster change takes effect where the next cycle begins, if and only if it or one still pending raised the flag |
| BusDispatch.DeadGetNoData | app/bus_controller/main.c:1352-1361 | in a message pass a frame goes to a node if and only if that node was not dead at the swap |
| BusDispatch.DispatchedNextCycle | app/bus_controller/main.c:1246-1361 | each message accepted before a swap has one fate by the end of that cycle's pass: sent once to its own address with its own contents if its node lived at the swap, dropped if and only if it was dead |
| BusDispatch.PassEnds | app/bus_controller/main.c:1352-1361 | the pass takes a number of bus-thread steps fixed at the swap, whatever the producers do in between |
| BusDispatch.DispatchedInTime | app/bus_controller/main.c:1246-1361 | so after that many steps every message accepted before the swap has had its one fate |
| BusDelivery.QuietRuns | app/bus_controller/main.c:1246-1361 | between an accepted send and the next swap no step but a rebuild decides anything about the message |
| BusDelivery.SentArrives | app/bus_controller/main.c:1246-1361 | from the call to the wire: the bytes of an accepted send, cut to 240, are put on the wire once in the next pass, to that address, if its node lived at the swap, and dropped if it was dead |
| BusRefine.StepRefines | app/bus_controller/main.c:1157-1361 | every step of the interleaved engine changes the linked buffers as one method of the pool does |
| BusRefine.HandedOver | app/bus_controller/main.c:1157-1355 | and hands over the same buffer, answer or chain |
| BusRefine.SendRefines | app/bus_controller/main.c:1246-1272 | a whole send is those steps run together: success means the message is accepted, failure leaves all lists as they were |
| BusRefine.PassRefines | app/bus_controller/main.c:1352-1361 | the message pass in place is a run of the engine that ends in the same lists and puts the same frames on the wire in the same order |
| BusLiveness.Poller.Miss | app/bus_controller/main.c:461-465 | counts a miss in place and calls the slave dead at the limit |
| BusLiveness.Poller.SweepNode | app/bus_controller/main.c:1364-1380 | one poll of the sweep, or none for a dead node or one that was sent data |
| BusLiveness.Poller.ProbeDead | app/bus_controller/main.c:1386-1403 | one probe of the next dead node when its turn has come |
| BusLiveness.Poller.RunCycle | app/bus_controller/main.c:1362-1403 | the whole polling part of a cycle in place |
| BusLivenessLaws.CycleAgrees | app/bus_controller/main.c:457-465 | after every cycle roster and node table agree on every node |
| BusLivenessLaws.DeadExactly | app/bus_controller/main.c:1362-1403 | over any run a node is dead exactly when its last polls, as many as the limit, went unanswered |
| BusLivenessLaws.BuiltAgrees | app/bus_controller/main.c:1223-1232 | a rebuilt table agrees with the roster, miss counts and all, if and only if no entry has misses or is dead |
| BusRebuild.AgreeAgain | app/bus_controller/main.c:1308-1403 | after a rebuild, over any run, table and roster agree on whether a slave is dead if and only if it has answered a poll, or missed as many as the limit, or was not dead and its old misses with the new ones stay below the limit |
| BusRebuild.NeverApartExactly | app/bus_controller/main.c:1308-1403 | they agree after every cycle of every run if and only if no entry came in dead, nor, with a limit above 1, with misses |
| BusLivenessLaws.ProbedWithin | app/bus_controller/main.c:1386-1403 | from any cursor and tick, a dead node is probed within as many cycles as nodes times the probe interval |
| BusLivenessLaws.ProbesApart | app/bus_controller/main.c:1386-1403 | two probes are at least the probe interval apart |
| BusLivenessLaws.OnlyPolled | app/bus_controller/main.c:1362-1403 | a cycle changes no dead node and no node that was sent data, but the one dead node it probes |
| BusEdges.EmitEdges | app/bus_controller/main.c:467-488 | one call in place reports the first due edge, or defers it |
| BusEdges.EdgesAlternate | app/bus_controller/main.c:467-488 | over any run the frames accepted for a slave alternate DOWN and UP, and its shadow is dead exactly after a DOWN |
| BusEdges.EmitGaps | app/bus_controller/main.c:467-488 | an accepted call closes a gap, a refused one loses nothing |
| BusEdges.EmitTells | app/bus_controller/main.c:467-488 | an accepted frame tells what its slave's state and summary are at that moment |
| BusEdges.SummaryTold | app/bus_controller/main.c:478-486 | over any run the announced summary of a slave is the one its last accepted summary frame carried |
| BusEdges.ToldInTime | app/bus_controller/main.c:467-488 | with states fixed, as many accepted calls as there are gaps tell everything |
| CborCursor.Cursor.Hdr | node/cbor_min.h:22-32 | the cursor takes one header, with its argument of 0 to 8 bytes, or refuses it |
| CborCursor.Cursor.SkipItem | node/cbor_min.h:51-62 | the recursion over the cursor skips what one item takes |
| CborLaws.HeadRead | node/cbor_min.h:22-32 | every header width of every major type is read back |
| CborLaws.SkipExact | node/cbor_min.h:51-62 | skipping the encoding of any item tree stops exactly at its end, whatever follows |
| CborLaws.CutRefused | node/cbor_min.h:51-62 | an item cut short anywhere is refused |
| CborReference.HeadBytes | node/cbor_min.h:22-32 | the bytes of a header of each width, as section 3 of RFC 8949 gives them |
| CborReference.ItemBytes | node/cbor_min.h:16 | the major type of each kind of item |
| CborReference.Refused | node/cbor_min.h:22-62 | indefinite lengths, tags, negative numbers, simple values and headers cut short are refused |
| CborCursor.Cursor.ParseApMap | node/boot_netcfg.c:23-40 | the loop over one credential map fills it as its pairs say |
| CborCursor.Cursor.ParseNetcfg | node/boot_netcfg.c:42-90 | the loop over the top map returns the code and output of the parse, on every buffer |
| NetCfgLaws.ParserMeans | node/boot_netcfg.c:42-90 | on any well-formed file the parser returns what its items mean, in code and output, whatever follows the map |
| NetCfgMeaning.GoodExactly | node/boot_netcfg.c:42-90 | a file is taken if and only if its pairs are well formed, its version is 1 or 2, it has a credential and the first has a name; a version that is neither is told apart from all other faults |
| NetCfgMeaning.GoodSays | node/boot_netcfg.c:15-90 | a file that is taken is read as written: count, address and port, and each credential's last name cut to 32 bytes and last pass phrase cut to 63, both ended by a zero |
| NetCfgMeaning.PresentIfGood | node/boot_netcfg.c:82-90 | the output is marked present if and only if the file is taken |
| NetCfgLaws.ForwardCompatible | node/boot_netcfg.c:79-81 | a pair with an unknown key anywhere in the map changes neither code nor output, for good files and bad |
| SquareRoot.Isqrt32 | app/samd21_client/samd21_commands.c:1591-1596 | the exact floor root of every 32-bit number, every variable and sum in 32 bits |
| SquareRoot.IsqrtPico | app/bus_controller/main.c:1641-1649 | the other routine gives the same root, in 32 bits and cut to 16 without loss |
| WindowStats.SpreadNatural | app/samd21_client/samd21_commands.c:1660-1665 | n times the sum of squares is never below the square of the sum |
| WindowStats.Fits | app/samd21_client/samd21_commands.c:1642-1669 | no sum, product or quotient overflows its type |
| WindowStats.Finish | app/samd21_client/samd21_commands.c:1654-1669 | the running sums yield minimum, maximum, floored mean and floored root of the floored variance of exactly the samples |
| WindowStats.Sampler.Sample | app/samd21_client/samd21_commands.c:1637-1674 | after any samples each window publishes the statistics of its last full block and counts the blocks |
| ServoTimer.InsertRising | app/samd21_client/samd21_commands.c:2550-2561 | inserting or merging a drop keeps the times strictly rising |
| ServoTimer.BuildLaw | app/samd21_client/samd21_commands.c:2536-2562 | times strictly rise, every raised pad is dropped by one event, at its channel's clamped time, and no other pad by any |
| ServoTimer.Bank.InsertDrop | app/samd21_client/samd21_commands.c:2550-2561 | the search and the shift in the array are that insertion |
| ServoTimer.Bank.BuildSchedule | app/samd21_client/samd21_commands.c:2536-2576 | builds beside the installed schedule and installs it |
| ServoTimer.Bank.FrameBoundary | app/samd21_client/samd21_commands.c:2682-2699 | a frame starts with all channels up, or not at all while stopped |
| ServoTimer.Bank.DropInterrupt | app/samd21_client/samd21_commands.c:2700-2714 | one drop, and the next one armed; left armed by a rebuild without events, it drops what stands first in the array once and disarms |
| ServoTimer.PulseIsWidth | app/samd21_client/samd21_commands.c:2681-2715 | in any frame after a build, at every count, an active channel is high if and only if the tick is within three quarters of its width in microseconds, cut to 500 to 2500 |
| ServoTimer.PadIsPin | app/samd21_client/samd21_commands.c:2456-2468 | the channels are the pins D0 to D3 and D7 to D10, in that order |
| ServoFrame.SortByWidth | app/bus_controller/main.c:2041-2046 | the swaps order the channels by width, each once |
| ServoFrame.BuildFrame | app/bus_controller/main.c:2038-2058 | the words are those of such an order; no channels, no frame |
| ServoFrame.HighForWidth | app/bus_controller/main.c:2047-2055 | at every microsecond of the frame channel i is high if and only if its width has not passed |
| ServoFrame.FrameLasts | app/bus_controller/main.c:2052-2055 | the delays sum to 20 ms if and only if no width exceeds that, and are longer by 2^24 us otherwise |
| ServoFrame.Bank.SetCount | app/bus_controller/main.c:2061-2081 | takes 1 to 8 channels into use and builds their frame, and ignores any other number |
| ServoFrame.Bank.StopAll | app/bus_controller/main.c:2088-2096 | a stopped bank plays nothing |
| ServoFrame.Bank.SetAll | app/bus_controller/main.c:2838-2850 | the command stores the clamped widths of the channels in use and rebuilds the frame, or refuses and changes nothing |
| ServoFrame.WidthSent | app/bus_controller/main.c:2838-2850 | sending a width low byte first, cut to 500 to 2500, sets that channel to it |
| ServoFrame.Bank.Plays | app/bus_controller/main.c:2038-2096 | so whatever a host sends, every frame of a bank in use lasts exactly 20 ms, with each channel high for its own width |

## Left out

- Dsl.Parse: the parser's second mode, whose operands are analog streams, is not modelled; neither is a text longer than its 16-bit position can count.
- Dsl.RecordPin: the program leaves a half-filled instance behind when it refuses a text; the caller discards it, and the model says nothing of it.
- DslPrint.Print: writes one pin to a group, no white space, and numbers other than thresholds in decimal; lists and white space are the subject of DslVariants.
- ConfigStore.Commit: power is lost between flash operations, not inside one; sequence numbers do not wrap; the shadow does not change during a commit.
- ConfigStoreWear.WearBound: within one session; a reload resets the cursor.
- Crc8.DetectsBurst: bursts are in the order in which the checksum takes the bits; the wire sends each byte low bit first.
- BusDispatch.DispatchedNextCycle: that the frame reaches the wire intact, and the table that correlates replies, are not part of the model.
- BusLiveness.Cycle: what a poll meets is an input; which slave answers when is not modelled. Addresses are distinct and the roster fixed during a run.
- BusEdges.Emit: the host link is a flag, accepted or full.
- InterlockEval.EvalSlot: readings of pins, converters and clocks are inputs; the status buffer and the event frames of the third phase are left out.
- Interlocks.Restart: a header damaged while running, which the firmware answers with a reset, happens only as a start with other memory.
- InterlockRuns.OtherClaim: the modes outside the framework claim and release on slots of their own when they start and stop; what they drive themselves is left out.
- PinClaims.Claim: the bit count of the consistency check is the size of a set; port registers are left out. Every pin of the board can be a GPIO and has a converter channel, so that check never fires.
- Cbor.Skip: positions are numbers, so the address sum of the source cannot wrap; a map head that claims 2^63 pairs is skipped as if it were empty, as in the source, and the laws are about encodings shorter than 2^32 bytes.
- WindowStats.Sampler: one channel with the client's clamp to 4095; the controller's three channels repeat it.
- ServoTimer.Bank: a rebuild in the middle of a frame may still drop a stale event in that frame; the pulse law is about frames that start after it.
- ServoFrame.Bank: the state machine that plays the words, and the pins it is set up on, are left out.
- Register access, tasks, timing, logging, displays, the command shells and the chain-tree engine.
- The small A/B blobs of the commissioning code and the skeleton scheduler: easy members beside the store and the engine.
