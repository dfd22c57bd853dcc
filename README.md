# BLE + GPS tracker, modelled in Dafny

This project models the core of a Raspberry Pi tracking station. The station receives
Bluetooth Low Energy advertisement reports from a microcontroller over a serial link. It
correlates them with the retained fix of a GPS receiver and stores one document per
frame. It hands a summary to a Telegram notifier, drives its phases with a small
lifecycle state machine, and surveys Wi-Fi networks from `iwlist`/`iwconfig` output.
Every operation is a Dafny function, method or class proved against a specification
function. The properties the code promises are proved as lemmas.

| file | module | models |
|---|---|---|
| `common.dfy` | `Common` | bytes, `Option`/`Result`, Python slicing, an insertion-ordered `dict` (`OrderedMap`) |
| `text.dfy` | `Text` | `str.strip`, `str.split`, `split()[0]`, `startswith`/`endswith`/`in`, decimal and hex digits |
| `patterns.dfy` | `Patterns` | the regular expressions of the Wi-Fi tools as matchers, with `re.search` and `re.findall` |
| `uart.dfy` | `Uart` | `uart.py`: header and device-block decoders, MAC rendering, RSSI, sequence check, sync and frame loop, the `UARTReceiver` class |
| `capture.dfy` | `Capture` | `gps_ble_tracker.py`: the 8-byte header layout, the GPS drain, the device summary, the storage document |
| `notify.dfy` | `Notify` | `telegram_tracker2.py`: the notification text, the queue, the subscriber set, `process_queue` |
| `tracker.dfy` | `Tracker` | the `CombinedTracker` loop with the `TelegramTracker` store override, as a class over its fields |
| `lifecycle.dfy` | `Lifecycle` | `state_machine.py`: the five states, the library's five `to_<state>` edges and the seven declared ones, the tracker whose `state` the triggers replace |
| `wifiscan.dfy` | `WifiScan` | `check_nets.py`: interface listing, the `iwlist scan` parser, the per-interface loop, the signal ranking |
| `wifiquality.dfy` | `WifiQuality` | `check_network.py`: the `iwconfig` link-quality parser and its final filter |

The serial port is a finite byte sequence with a read cursor. A read near the end
returns what is left, like a read that times out. The search for the next magic ends
when the stream is used up. The GPS port is a sequence of lines, each paired with what
the NMEA parser makes of it: an abstract RMC record (status, latitude, longitude, speed),
or nothing when the parser raises. MongoDB's `insert_one` is a predicate saying whether
the database accepts a document. Each Telegram send is a predicate saying whether it
goes through. The Wi-Fi commands are parameters: their output as text, or for a scan,
a function from interface name to exit status and output (or an exception).

The code, as written, behaves as follows, and the model does the same:
- The magic search is not a sliding window. A 0x55 followed by three bytes that do not
  complete the magic costs all four bytes, so a magic that starts inside them is missed
  (`Uart.SyncMissesUnalignedMagic`).
- RSSI bytes 1..127 are negated rather than read in two's complement, so 5 and 251 both
  give -5 (`Uart.RssiConversion`).
- A device block that does not parse (a short read at the end of the stream) is dropped
  on its own. The other blocks of the frame are still reported (`Uart.FrameReadsEveryBlock`).
- `_check_sequence` is never called by either receive loop, so no gap is ever reported
  while receiving (`Uart.Receiver.ReceiveMessages` keeps `sequence`).
- A trigger without an edge is refused with an error and the state stays
  (`Lifecycle.StateMachineTracker.Fire`).

## Model

| member | source | states |
|---|---|---|
| `Uart.CheckHeader` | uart.py:35-37 | true exactly when the input has at least four bytes and they are all 0x55 |
| `Uart.ParseHeader` | uart.py:39-65 | a header exactly when the magic is present and there are at least 9 bytes; then sequence is byte 4 and both counts are little-endian u16 at bytes 5-6 and 7-8 |
| `Uart.EncodeHeader` | uart.py:13-18 | a sender's 9-byte header starts with the magic |
| `Uart.HeaderRoundTrip` | uart.py:39-65 | parsing an encoded header gives it back, whatever follows it |
| `Uart.HeaderDetermined` | uart.py:39-65 | a parsed header has counts below 65536 and re-encodes to exactly the first nine bytes |
| `Uart.HexGroupsDecode` | uart.py:78 | one group per MAC byte, each two upper-case hexadecimal digits that read back as the byte |
| `Uart.MacShape` | uart.py:78 | a rendered MAC of n bytes has 3n-1 characters, a colon at every third position and upper-case hex digits elsewhere |
| `Uart.MacRoundTrip` | uart.py:78 | a rendered MAC reads back to its bytes |
| `Uart.MacOfSixBytes` | uart.py:77-79 | six bytes give a 17-character MAC that reads back to them |
| `Uart.DecodeRssi` | uart.py:89-91 | the RSSI is always in -128..0 |
| `Uart.RssiConversion` | uart.py:89-91 | the conversion agrees with two's complement exactly for 0 and bytes of 128 and above; each byte in 1..127 collides with 256 minus it |
| `Uart.ParseDevice` | uart.py:67-109 | a device exactly when the block is 42 bytes long |
| `Uart.DeviceRecoversBlock` | uart.py:74-105 | a parsed device gives back every byte of its block at its fixed offset (MAC 0-5, types 6-7, length 9, data 10-40, count 41), and the RSSI byte up to the conversion |
| `Uart.GapReports` | uart.py:111-116 | one report per received sequence number |
| `Uart.ConsecutiveHasNoGap` | uart.py:111-116 | successive numbers mod 256, 255 to 0 included, report no gap |
| `Uart.ReadAt` | uart.py:132-133 | a read gives n bytes, or fewer when the stream has fewer left |
| `Uart.ReadAtSlice` | uart.py:132-133 | the bytes a read gives are the next ones of the stream, in order |
| `Uart.SyncFromMagic` | uart.py:131-135 | the search ends only just past four bytes that are the magic |
| `Uart.SyncSkipsJunk` | uart.py:131-135 | junk free of 0x55 before a magic is skipped, whatever its length |
| `Uart.SyncMissesUnalignedMagic` | uart.py:131-135 | in 55 00 55 55 55 55 the magic at offset 2 is never found |
| `Uart.SyncDropsFourBytes` | uart.py:132-135 | a 0x55 whose next three bytes do not complete the magic costs all four bytes |
| `Uart.ReadBlocks` | uart.py:157-159 | n device reads give n parse results, and the cursor moves by 42 per block, up to the end of the stream |
| `Uart.ReadBlocksEach` | uart.py:157-159 | block i is the parse of the 42 bytes at offset 42 i, independent of the other blocks |
| `Uart.ReadFrame` | uart.py:137-166 | a frame never moves the cursor backwards or past the end |
| `Uart.OversizedReadsNoDevice` | uart.py:151-154 | a count above 1024 is reported and not one device byte is read |
| `Uart.FrameReadsEveryBlock` | uart.py:156-166 | otherwise exactly n_mac blocks are read and each is reported, an unparsable one as missing without dropping the others |
| `Uart.ReceiveUnfold` | uart.py:123-176 | after a frame the loop continues from the cursor after it |
| `Uart.ReceiveStep` | uart.py:123-176 | one turn of the loop appends the frame's report, if any, to those before it |
| `Uart.TruncatedFrameAtEnd` | uart.py:138-142 | a magic followed by too few header bytes at the end of the stream reports nothing |
| `Uart.TwoDeviceFrame` | uart.py:137-166 | a well-formed frame of two blocks is reported with both parses, and the cursor ends after it |
| `Uart.TwoDeviceFrameAfterJunk` | uart.py:123-166 | three junk bytes, a frame with sequence 5, 10 adverts and two devices, then a cut-off frame: exactly one report, with both devices |
| `Uart.Receiver.constructor` | uart.py:6-9 | the receiver starts at the head of the stream with sequence 0 |
| `Uart.Receiver.ReadBytes` | uart.py:132-133 | a read returns the bytes at the cursor and advances the cursor past them |
| `Uart.Receiver.CheckSequence` | uart.py:111-116 | reports a gap exactly when the number is not the successor mod 256 of the last, and always records it |
| `Uart.Receiver.Synchronize` | uart.py:131-135 | the loop stops just past the magic the search specifies, or at the end of the stream when there is none |
| `Uart.Receiver.ReceiveFrame` | uart.py:137-166 | the loop body reports what the frame specification gives and leaves the cursor where it says |
| `Uart.Receiver.ReadDeviceBlocks` | uart.py:157-159 | the device loop reads the announced blocks and moves the cursor exactly as `ReadBlocks` gives |
| `Uart.Receiver.ReceiveMessages` | uart.py:118-176 | the loop reports every frame of the stream, consumes it all, and never changes the recorded sequence number |
| `Capture.InheritedFrameHeader` | gps_ble_tracker.py:195-201 | the 8 bytes handed to the inherited header parser never give a header |
| `Capture.EncodeNarrowHeader` | gps_ble_tracker.py:54-59 | a sender's 8-byte combined header starts with the magic |
| `Capture.ParseNarrowHeader` | gps_ble_tracker.py:54-59 | with a one-byte count at offset 7: a header exactly when the magic and 8 bytes are there |
| `Capture.NarrowHeaderRoundTrip` | gps_ble_tracker.py:54-59 | parsing an encoded combined header gives it back |
| `Capture.HeaderMismatchExample` | gps_ble_tracker.py:195-201 | the frame header 5, 10, 0, 2 is rejected as written and read as sequence 5, 10 adverts, 2 devices by the one-byte layout |
| `Capture.StoredFix` | gps_ble_tracker.py:122-129 | a falsy coordinate is stored as missing and the others as read; a missing speed is 0; the track is always valid |
| `Capture.DrainGps` | gps_ble_tracker.py:113-134 | the drain stops at the first valid RMC or unparsable RMC line, or at the end; the fix changes only to the fix of a valid RMC line that ended the drain |
| `Capture.DrainTakesFirstValidFix` | gps_ble_tracker.py:116-130 | when the first stopping line is a valid RMC, the drain ends just after it with its fix |
| `Capture.DeviceLabelReadsBack` | gps_ble_tracker.py:218 | a label is the MAC, `(RSSI:`, the signal strength and `dB)`, and the text between the literals reads back as the device's RSSI |
| `Capture.Summary` | gps_ble_tracker.py:217-222 | the labels of the first three devices, then `... +{n-3}` exactly when there are more than three |
| `Capture.SummaryAccountsForAll` | gps_ble_tracker.py:221-222 | the count in the last entry reads back as the number of devices not listed |
| `Capture.HexString` | gps_ble_tracker.py:158 | two hex digits per byte |
| `Capture.HexRoundTrip` | gps_ble_tracker.py:158 | the hex text of the data reads back to the bytes |
| `Capture.MakeDocument` | gps_ble_tracker.py:142-161 | one device entry per device |
| `Capture.DocumentRecoversDevices` | gps_ble_tracker.py:142-161 | the document copies the header counts, the fix and every device field in order, with the data recoverable from its hex text |
| `Notify.Compose` | telegram_tracker2.py:45-75 | fails exactly when a present fix has a missing coordinate; the text starts with the frame lines; a location exactly when there is a fix; the text ends with the no-fix line exactly when there is none |
| `Notify.MessageQueue.constructor` | telegram_tracker2.py:27 | the queue starts empty |
| `Notify.MessageQueue.Put` | telegram_tracker2.py:72-75 | an item goes to the back of the queue |
| `Notify.MessageQueue.Get` | telegram_tracker2.py:153 | the oldest item comes off the front |
| `Notify.Subscriptions.constructor` | telegram_tracker2.py:29 | no chat is subscribed at first |
| `Notify.Subscriptions.Subscribe` | telegram_tracker2.py:99-103 | the chat is added to the set (again or not) and the reply confirms it |
| `Notify.Subscriptions.Unsubscribe` | telegram_tracker2.py:105-112 | the chat is no longer in the set, and the reply says whether it had been |
| `Notify.ChatSends` | telegram_tracker2.py:158-167 | a chat is sent the text first, and every send goes to that chat |
| `Notify.SendsOnlyToChats` | telegram_tracker2.py:152-172 | every send of an item goes to a subscribed chat |
| `Notify.SendItemIsSuccessfulPrefix` | telegram_tracker2.py:152-172 | what goes through for an item is a prefix of its schedule, all successful, ended by the first failing send |
| `Notify.SendAllAppend` | telegram_tracker2.py:151-172 | draining two queues in turn sends what draining their concatenation sends |
| `Notify.EveryChatNotified` | telegram_tracker2.py:158-167 | with no failure every chat gets the text, and a location exactly when the item has one |
| `Notify.NoPinWithoutLocation` | telegram_tracker2.py:162-167 | an item without a location sends only its text |
| `Notify.DeliverItem` | telegram_tracker2.py:153-172 | the per-item loop sends exactly the successful prefix `SendItem` specifies |
| `Notify.ProcessQueue` | telegram_tracker2.py:145-172 | the queue ends empty, and the sends are those of every item in FIFO order, a failure ending only its own item |
| `Tracker.FrameHeader` | gps_ble_tracker.py:195-201 | the inherited parser gives no header; the narrow one gives the combined layout's parse |
| `Tracker.Drain` | gps_ble_tracker.py:113-134 | reading the GPS port changes only the GPS cursor and the retained fix |
| `Tracker.Store` | telegram_tracker2.py:36-77 | the document is appended exactly when the database accepts it; `False` exactly when it does not; a notification is enqueued only after a successful store with a queue attached, and is the composed message; the override only raises with a queue |
| `Tracker.Frame` | gps_ble_tracker.py:195-212 | a turn never moves the BLE cursor backwards |
| `Tracker.Handle` | gps_ble_tracker.py:211-244 | the end of a turn reads no BLE byte |
| `Tracker.Counted` | gps_ble_tracker.py:243-244 | the counter rises by one exactly for a store that returned `True`, and nothing else changes |
| `Tracker.Run` | gps_ble_tracker.py:170-252 | the loop consumes the whole BLE stream |
| `Tracker.StoreGrows` | telegram_tracker2.py:39-41 | a store only appends, and the counter rises with documents (without a queue) or with notifications (with one) |
| `Tracker.HandleGrows` | gps_ble_tracker.py:211-244 | the end of a turn only appends, every document it appends has devices and was accepted, and it counts at most what it stored |
| `Tracker.FrameGrows` | gps_ble_tracker.py:195-244 | a turn only appends, and counts at most what it stored |
| `Tracker.RunGrows` | gps_ble_tracker.py:170-252 | the whole loop only appends to the collection and the queue, and counts at most the documents stored |
| `Tracker.InheritedLayoutStoresNothing` | gps_ble_tracker.py:196-201 | as written, the loop stores, counts and notifies nothing, whatever the ports deliver |
| `Tracker.NarrowFrameStored` | gps_ble_tracker.py:203-244 | with the one-byte layout, a frame with parsable devices and a formattable fix is stored with those devices and the drained fix, and counted |
| `Tracker.FrameHandles` | gps_ble_tracker.py:195-212 | a frame whose header parses reads exactly the blocks it announces, then ends the turn with the devices among them that parse |
| `Tracker.HandleStores` | gps_ble_tracker.py:211-244 | with devices, a fix that formats and a database that accepts, the end of a turn appends the document and counts the frame |
| `Tracker.CombinedTracker.constructor` | gps_ble_tracker.py:17-72 | the tracker starts with no fix, an empty collection, a zero counter and both ports at their start |
| `Tracker.CombinedTracker.ParseGps` | gps_ble_tracker.py:113-134 | the drain loop moves the GPS cursor and the fix as the drain specification says, and returns the retained fix |
| `Tracker.CombinedTracker.StoreBuffer` | gps_ble_tracker.py:136-168 | the store (with the override when a queue is attached) changes the fields as `Store` specifies |
| `Tracker.CombinedTracker.ReadDevices` | gps_ble_tracker.py:204-209 | the device loop keeps, in order, exactly the blocks that parse |
| `Tracker.CombinedTracker.HandleDevices` | gps_ble_tracker.py:211-244 | the end of the turn changes the fields as `Handle` specifies |
| `Tracker.CombinedTracker.ReceiveFrame` | gps_ble_tracker.py:195-244 | one turn changes the fields as `Frame` specifies |
| `Tracker.CombinedTracker.ReadAndHandle` | gps_ble_tracker.py:203-244 | once the header bytes are read, the device reads and the end of the turn change the fields as `AfterHeader` gives |
| `Tracker.CombinedTracker.ReceiveMessages` | gps_ble_tracker.py:170-252 | the loop changes the fields as `Run` specifies |
| `Lifecycle.TableIsGraph` | state_machine.py:26-76 | the table, searched in order, allows exactly the intended edges and leads where they lead |
| `Lifecycle.LookupAuto` | state_machine.py:26-30 | the five automatic edges each answer their own `to_<state>` trigger and pass every other trigger on |
| `Lifecycle.LookupDeclared` | state_machine.py:32-76 | the search through the seven declared edges, edge by edge |
| `Lifecycle.StatesAndTable` | state_machine.py:7-30 | five distinct states covering the type; one automatic `to_<state>` edge per state from everywhere, and seven declared edges |
| `Lifecycle.AutoTriggers` | state_machine.py:26-30 | each `to_<state>` trigger leads to its state from every state |
| `Lifecycle.NamedEdges` | state_machine.py:34-62 | initialize_complete, wifi_available, transmission_complete, connection_failed and transmission_failed lead where they are declared to |
| `Lifecycle.TransmittingIsolated` | state_machine.py:26-76 | transmission_failed fires exactly from TRANSMITTING, and a trigger leads into TRANSMITTING exactly when it is `to_transmitting` |
| `Lifecycle.ErrorFromEverywhere` | state_machine.py:65-69 | error_occured leads to ERROR from every state |
| `Lifecycle.LeavingError` | state_machine.py:26-76 | from ERROR only error_occured, error_resolved and the `to_<state>` triggers fire; what leaves is error_resolved, to SCANNING, or a `to_<state>` naming another state |
| `Lifecycle.Visit` | state_machine.py:97-110 | one state per trigger |
| `Lifecycle.TransmittingUnreachable` | state_machine.py:26-76 | from any other state, a run of triggers reaches TRANSMITTING exactly when it holds `to_transmitting`: no declared trigger leads there |
| `Lifecycle.DemoTrace` | state_machine.py:97-110 | the demonstration run visits SCANNING, CONNECTING, SCANNING, ERROR, SCANNING |
| `Lifecycle.StateMachineTracker.constructor` | state_machine.py:18-80 | BLE is on unless the port is absent or a spelling of none; the state is INITIALIZING; no pending data; the check interval defaults to 60 |
| `Lifecycle.StateMachineTracker.Fire` | state_machine.py:26-76 | a trigger moves along its edge or is refused with the state unchanged |
| `Patterns.SearchFrom` | check_nets.py:45 | the leftmost position where the pattern matches, no match before it, or no match anywhere |
| `Patterns.SignalValue` | check_nets.py:79-81 | `Signal level=n dBm` reads back as the integer n, negative or not |
| `Text.StripKeepsMiddle` | check_nets.py:36 | the stripped line is one slice of the line with only whitespace before and after it, and it neither starts nor ends with whitespace |
| `Text.JoinSplit` | check_nets.py:35 | splitting at newlines loses nothing: the parts joined back give the output |
| `Text.FirstWordIsLeadingRun` | check_nets.py:13 | `split()[0]` is the non-empty, space-free word that follows only whitespace and is followed by whitespace or the end, and no other word |
| `Text.LeadingWordIsFirst` | check_nets.py:13 | such a word at any index is the first word |
| `Text.SignedValueOfIntToString` | gps_ble_tracker.py:218 | `int(str(i)) == i` for every integer |
| `Text.SeparatorsAreWhitespace` | check_nets.py:13 | the ASCII separators U+001C..U+001F are stripped and split on like any other whitespace |
| `Text.BlankIffStripEmpty` | check_network.py:19-20 | a line is blank exactly when it strips to empty, exactly when it has no first word |
| `WifiScan.Update` | check_nets.py:50-104 | a write to the current record adds no key; when the record is the stored one the store's entry under the cell becomes the new record, otherwise the store is unchanged |
| `WifiScan.Save` | check_nets.py:40-42 | the store changes only with a current cell and a non-empty record, which it files under the cell; no other key appears |
| `WifiScan.Edit` | check_nets.py:50-104 | each branch changes only its own keys, and fails exactly on a quality line with maximum 0 |
| `WifiScan.Step` | check_nets.py:38-104 | a line keeps the current record coherent with the store |
| `WifiScan.EncryptionReadsOn` | check_nets.py:83-87 | encryption is true exactly when the first match reads `on`; no match leaves the record |
| `WifiScan.IeLineProtocols` | check_nets.py:89-96 | an IE line makes the list exist, keeps what it held, and appends the line exactly when it mentions WPA |
| `WifiScan.RatesAccumulate` | check_nets.py:98-104 | two rate lines append their rates, in order, to what was there |
| `WifiScan.CellLineOpensRecord` | check_nets.py:39-48 | a well-formed Cell line files the record so far and opens `{interface, address}` under `<iface>_<num>_<address>` |
| `WifiScan.StepStoresOnlyAtCell` | check_nets.py:38-104 | only a Cell line adds a record; another line rewrites the stored entry under the cell to the new record when it is the aliased one and leaves the store alone otherwise; a Cell line that does not match keeps the current cell |
| `WifiScan.OpenCellKeepsGood` | check_nets.py:39-48 | a Cell line keeps every stored record filed under a key naming its interface and address |
| `WifiScan.CellIdFiled` | check_nets.py:47 | a cell key starts with the interface and ends with the address |
| `WifiScan.StepKeepsGood` | check_nets.py:38-104 | every line keeps the parse invariant |
| `WifiScan.StripAll` | check_nets.py:35-36 | one stripped line per line |
| `WifiScan.ParseLines` | check_nets.py:32-108 | the store stays catalogued: every record filed under its key |
| `WifiScan.ScanInterface` | check_nets.py:19-111 | a scan that fails or raises leaves the store as it was; otherwise it stays catalogued |
| `WifiScan.ScanAll` | check_nets.py:18-113 | the store stays catalogued across interfaces |
| `WifiScan.StepExtends` | check_nets.py:38-104 | a line keeps every stored key and its order, and changes no record of another interface |
| `WifiScan.SaveExtends` | check_nets.py:106-108 | saving the last record only grows the store |
| `WifiScan.ParseLinesExtends` | check_nets.py:35-108 | reading an interface's output only grows the store, under that interface |
| `WifiScan.ScanKeepsOtherInterfaces` | check_nets.py:19-111 | scanning with one interface never loses or changes a record another interface filed |
| `WifiScan.EditRecord` | check_nets.py:50-104 | the branch chain with in-place list appends computes what `Edit` specifies |
| `WifiScan.ParseLine` | check_nets.py:36-104 | one line of the loop changes the parser's variables as `Step` specifies |
| `WifiScan.ParseOutput` | check_nets.py:29-108 | the loop over the output gives the store `ParseLines` specifies on the stripped lines |
| `WifiScan.WirelessInterfaces` | check_nets.py:9-13 | every listed interface is the first word of a line that mentions IEEE 802.11 |
| `WifiScan.WirelessLineHasWord` | check_nets.py:12-13 | `split()[0]` never fails on such a line |
| `WifiScan.OneInterfacePerWirelessLine` | check_nets.py:11-13 | one interface per line that mentions IEEE 802.11 |
| `WifiScan.InterfacesInLineOrder` | check_nets.py:11-13 | the wireless line at index i names the interface listed after those of the wireless lines before it |
| `WifiScan.InterfacesPrefix` | check_nets.py:11-13 | the interfaces of the first lines begin the list of all of them |
| `WifiScan.ListInterfaces` | check_nets.py:9-13 | the listing loop gives the interfaces `WirelessInterfaces` specifies |
| `WifiScan.ScanNetworks` | check_nets.py:7-113 | the survey scans every listed interface in turn into one catalogued store |
| `WifiScan.Insert` | check_nets.py:154-158 | inserting adds exactly the one record |
| `WifiScan.SortBySignal` | check_nets.py:154-158 | the ranking is a permutation of the records |
| `WifiScan.InsertDescending` | check_nets.py:154-158 | inserting into a descending list keeps it descending |
| `WifiScan.SortDescending` | check_nets.py:154-158 | stronger signals come first, a missing signal counting as 0 |
| `WifiScan.SortStable` | check_nets.py:154-158 | records with equal signal keep the store's order |
| `WifiScan.Ranked` | check_nets.py:154-158 | the listing holds exactly the stored records |
| `WifiQuality.Start` | check_network.py:13-16 | no current interface and no entries |
| `WifiQuality.Read` | check_network.py:19-39 | a line keeps the current interface's entry present |
| `WifiQuality.ReadAll` | check_network.py:17-39 | the entries stay a well-formed ordered dict |
| `WifiQuality.KeepKeys` | check_network.py:42 | exactly the keys with data, without repeats |
| `WifiQuality.KeepKeysAppend` | check_network.py:42 | the filter keeps the order: the kept keys of a concatenation are those of each part in turn |
| `WifiQuality.KeepKeysSingle` | check_network.py:42 | one key is kept exactly when its entry holds data |
| `WifiQuality.WithData` | check_network.py:42 | exactly the entries with data, unchanged |
| `WifiQuality.GetWifiQuality` | check_network.py:7-42 | the loop with its in-place entry updates gives what `WifiQuality` specifies |
| `WifiQuality.ReadLine` | check_network.py:19-39 | one loop step changes the current interface and the table as `Read` gives |
| `WifiQuality.RereadEntry` | check_network.py:26-39 | a Link Quality line fails, with Python's division error, exactly when its maximum is 0; otherwise the entry is updated as `Reread` gives |
| `WifiQuality.HeaderOpensEntry` | check_network.py:19-23 | an interface line makes its first word current and empties its entry, leaving the others |
| `WifiQuality.LinesBeforeFirstHeaderIgnored` | check_network.py:26 | lines before the first interface line change nothing |
| `WifiQuality.LaterReadingOverwrites` | check_network.py:28-39 | of two Link Quality lines the later quality and signal win, quality being value/max*100 |
| `WifiQuality.ZeroMaxRaises` | check_network.py:28-32 | a Link Quality line with maximum 0 after an interface line makes the reading fail |
| `WifiQuality.KeysFromHeaders` | check_network.py:19-23 | every interface in the result was named by an interface line |
| `WifiQuality.ResultNamesInterfacesWithData` | check_network.py:42 | the result holds only interfaces with data, each named by an interface line of the output |

## Left out

- Serial ports, MongoDB, logging and its setup, timestamps and wall-clock durations, and `KeyboardInterrupt`: the streams are given in full, the database is an acceptance predicate, and the receive loops run until the BLE stream is used up.
- `in_waiting`: the GPS drain (gps_ble_tracker.py:116) also stops when no byte is waiting on the port; the model takes every line still to come as waiting, so a drain ends only at an RMC line that stops it or at the end of the GPS stream.
- pynmea2: a GPS line carries what the parser would give, an abstract RMC record or a failure. Coordinates and speed are abstract integers; the `:.6f`/`:.2f` formatting is only modelled as raising on a missing coordinate.
- Notify.Compose: the text after the frame lines is stated by its prefix, its location and its no-fix line; the exact digits of the formatted coordinates are not modelled.
- Serial exceptions, and the generic `except Exception: continue` of both receive loops: no read in the model raises.
- The `TelegramTracker` constructor passes `message_queue=` on to a constructor that does not accept it; the model builds the tracker with a queue directly.
- Telegram bot wiring: `/start`, `/help`, `/status`, `ApplicationBuilder`, the job queue and the threads. `process_queue` runs sequentially, and the set's iteration order is a parameter.
- `StateMachineTracker`: the base tracker's setup (it is never called), `last_state_change`, the graph drawing, and the `transitions` library itself.
- `log_network_scan` and `log_wifi_quality`: the file writing and the printing. Only the signal ranking of the console listing is modelled.
- Frequencies and bit rates keep the decimal text they are parsed from; quality is an exact rational, not a float.
- The regular expressions' `\d` and `str.isspace` are limited to ASCII: whitespace is space, `\t`, `\n`, `\v`, `\f`, `\r` and U+001C..U+001F; Python's non-ASCII whitespace (U+0085, U+00A0, U+2000.. and the like) is not covered.
- The `iwconfig` run of `scan_networks` is outside its `try`; commands are parameters and never fail there.
- WifiScan.ScanInterface: a `ZeroDivisionError` on a quality line with maximum 0 keeps the records stored before it and drops the rest of that interface's output; the error message is not modelled.

## Findings

| source | as written | input that shows it | evidently intended | confidence | as-written member | corrected member |
|---|---|---|---|---|---|---|
| gps_ble_tracker.py:196-197 | the combined header is assembled from 8 bytes (1-byte `n_mac`) but parsed by the inherited `_parse_header`, which needs 9 bytes (2-byte `n_mac`); every header is rejected and no frame is ever stored | the bytes 55 55 55 55 05 0A 00 02 followed by two 42-byte device blocks | read `n_mac` as the single byte at offset 7, giving sequence 5, 10 advertisements, 2 devices | high; not executed | `Capture.HeaderMismatchExample` | `Capture.ParseNarrowHeader` |
