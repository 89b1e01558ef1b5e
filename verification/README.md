# Verified model of the wireless programmer

A Dafny 4.11 model of the logic at the heart of the wireless programmer daemon, with proofs about every run,
every input and every failure of the outside world. `dafny verify dfyconfig.toml` checks the whole project.

The program configures model-railway throttles over the air. A daemon keeps a single-slot job registry; a
sequential worker associates the radio with a device's Soft-AP, edits kernel routing for the time of the session,
talks HTTP to the device and puts the host back as it was. Clients watch jobs through a polled frame log. Beside
the radio there are two small binary protocols: Z21 LAN records and mDNS announcements.

| files | what they hold |
|---|---|
| `Prelude`, `Text` | options, results, decimal numbers, trimming, splitting and UTF-8 as Rust's standard library does them |
| `Jobs`, `Registry`, `Daemon`, `Runs`, `Progress`, `Sessions`, `Watch` | the registry object, its invariants, the daemon as a step relation, properties of every run, progress of the worker, radio sessions, the watch stream and its client |
| `Netcfg`, `PolicyRoute`, `SoftAp`, `Radio` | fib rules and their lookup, installing and removing the Soft-AP exception under command failures, sysctls, the radio object |
| `Chunked`, `Http`, `Checksum` | chunked decoding, response completeness and the bounded read loop, the Internet checksum |
| `Percent`, `WifredConfig`, `WifredQuery`, `Xml`, `ConfigXml`, `WifredDevice`, `Requests`, `WifredDriver`, `WifredEffects`, `WifredEndToEnd` | the WiFred chain: request, query strings, device, XML, read-back |
| `Z21Records`, `Z21Dispatch`, `DnsNames`, `Mdns` | record framing and the dispatch exchange, names with pointers and announcements |

How it is modelled:

- The registry, the host, the radio and the WiFred device are classes; each method is tied to a function of the old
  state, and invariants and run properties are proved about those functions.
- The daemon is a step relation. Every locked registry call, radio call and channel operation is one atomic step, so
  cancels and submissions interleave with the worker at every point. Every outcome of the radio, a driver, DNS, files
  or a deadline is a free choice.
- Loops over sockets take the sequence of what the outside brings, with no assumption on it. Clocks become
  parameters or free "expired" choices.
- A string is the sequence of its UTF-8 bytes, each written as the char with that code. Job `n` is the number in
  the name `job-n`; `Jobs.JobNameInjective` shows that nothing is lost.
- Some loops are proved for any function that reads a size line, looks at a buffer or takes a record, and then used
  with the real one.
- The release build checks overflow and aborts, so an overflow is modelled as an outcome of its own.

Findings, where the code does less than one would expect; each with its exact condition:

- A Content-Length body is not cut to its length: trailing bytes are returned if they arrive with the read that
  completes the response, so the cut into reads shows exactly when something follows the body (`Http.TrailingBytes`).
- A connection closed early yields what arrived of a Content-Length body as a success (`Http.ShortBodyAccepted`),
  while headers cut short and unfinished chunks are refused (`Http.ClosedInHeaders`, `Http.ClosedInChunks`).
- WiFred programming can set a slot's long-address flag and the server's automatic flag but never clears them, and
  the read-back does not look at them (`WifredEndToEnd.FlagsAsRequestedIff`, `WifredEndToEnd.StaleLongAddress`).
- If `lookup local` cannot be parked at preference 1, it is deleted from 0 all the same and local delivery stops
  (`SoftAp.LocalDeliveryKeptIff`); some failures leave the rule list changed (`SoftAp.RestoredIff`).
- A rule that looks up a table whose number starts with 255, such as 2550, is taken for `lookup local`
  (`Netcfg.LocalPrefIs`, `Netcfg.Table2550ReadsLocal`).
- A session address that was assigned before the session is gone after it (`Nl80211.AddressAfter`). What survives
  a failed undo is `Nl80211.RunKeepsOthers`.
- A chunk whose end exceeds a machine word ends the process, while a size that itself exceeds one is refused
  (`Http.AbortsIff`, `Http.EndBeyondWord`, `Http.AbortingResponse`).
- A Z21 payload longer than 65531 bytes is cut silently (`Z21Records.RoundTripIff`).
- Announced labels survive for 1 to 191 bytes without a dot: the reader allows more than the 63 bytes of section
  2.3.4 of RFC 1035 (`Mdns.AnnouncementReadIff`, `Mdns.AnnouncedNameIff`).

## Model

| member | source | states |
|---|---|---|
| `Jobs.JobNameInjective` | crates/wireless-programmer/src/jobs.rs:188-189 | distinct job numbers have distinct names, so a name is never issued twice |
| `Jobs.JobRegistry.Submit` | crates/wireless-programmer/src/jobs.rs:179-208 | refuses with the holder's id while a job is active, otherwise issues the next number, takes the slot and stores a queued record with its payload |
| `Jobs.JobRegistry.TakePayload` | crates/wireless-programmer/src/jobs.rs:211-217 | hands out the payload once and changes nothing else |
| `Jobs.JobRegistry.Transition` | crates/wireless-programmer/src/jobs.rs:233-259 | logs the frame, updates the snapshot, and on a terminal state frees the slot and evicts |
| `Jobs.JobRegistry.Cancel` | crates/wireless-programmer/src/jobs.rs:265-283 | sets the flag for good, logs a notice for an unfinished job, keeps slot and state |
| `Jobs.JobRegistry.ReadFramesSince` | crates/wireless-programmer/src/jobs.rs:305-311 | exactly the frames from a position on, nothing past the end, none for an unknown job |
| `Jobs.JobRegistry.EvictOldJobs` | crates/wireless-programmer/src/jobs.rs:330-347 | removes exactly the overflow, only terminal non-active jobs, and none that is younger than one it keeps |
| `Jobs.JobRegistry.SortByAge` | crates/wireless-programmer/src/jobs.rs:337-342 | a permutation of the terminal jobs ordered by creation time |
| `RegistryInvariants.SubmitKeeps` | crates/wireless-programmer/src/jobs.rs:179-208 | submission keeps every registry invariant, succeeds iff the slot is free, never reuses a name |
| `RegistryInvariants.CancelKeeps` | crates/wireless-programmer/src/jobs.rs:265-293 | cancelling keeps every registry invariant, the slot and all states |
| `RegistryInvariants.TransitionKeeps` | crates/wireless-programmer/src/jobs.rs:233-259 | a transition of the slot's holder keeps every registry invariant and touches no other record |
| `RegistryInvariants.EvictionKeeps` | crates/wireless-programmer/src/jobs.rs:330-347 | eviction leaves at most 32 finished records and keeps the invariants |
| `Daemon.WorkStep` | crates/wireless-programmer/src/runtime.rs:730-1134 | every worker step keeps the whole invariant: the worker holds the slot's job, each submitted job is in exactly one place, finals record what ended |
| `Daemon.SubmitStep` | crates/wireless-programmer/src/runtime.rs:359-399 | submitting a program or firmware job keeps the invariant |
| `Daemon.SendFailedStep` | crates/wireless-programmer/src/runtime.rs:384-397 | a submitter that cannot reach the worker fails its own job and frees the slot, within the invariant |
| `Daemon.CancelStep` | crates/wireless-programmer/src/jobs.rs:265-283 | a cancel at any moment keeps the invariant |
| `Runs.RegistryAlwaysConsistent` | crates/wireless-programmer/src/jobs.rs:179-283 | in every reachable state the slot names the single unfinished record, snapshots repeat the last frame, nothing follows a terminal frame, at most 33 records (32 when idle) |
| `Runs.RunEvolves` | crates/wireless-programmer/src/jobs.rs:179-283 | between any two moments of a run logs only grow, finished jobs stay as they are, new names are larger than all issued before |
| `Runs.WorkerNeverLosesJob` | crates/wireless-programmer/src/runtime.rs:737-768 | the worker never meets a missing payload or a vanished job, in any interleaving |
| `Runs.FinishedExactlyOnce` | crates/wireless-programmer/src/runtime.rs:730-1134 | every job that has left the worker has exactly one terminal transition; a program job ends Cancelled only if that was requested |
| `Progress.NeverStuck` | crates/wireless-programmer/src/runtime.rs:730-1134 | whenever the worker is busy or a job is queued it can take a step; eviction always has a choice |
| `Progress.WorkAdvances` | crates/wireless-programmer/src/runtime.rs:737-1134 | every step of a busy worker is a progress report or comes strictly closer to the end, for the same job |
| `Progress.BoundedMoves` | crates/wireless-programmer/src/runtime.rs:730-1457 | in every run a busy worker makes at most 18 moves beside progress reports before it is idle |
| `Runs.FinalsGrow` | crates/wireless-programmer/src/runtime.rs:730-768 | terminal transitions are never taken back |
| `Runs.CancelHoldsSlot` | crates/wireless-programmer/src/jobs.rs:265-293 | once requested, a cancel stays requested and submissions are refused until the worker ends the job |
| `Runs.NeverDoneAfterCancel` | crates/wireless-programmer/src/runtime.rs:1095-1107 | no job ends Done if the flag was set before the worker's last check |
| `Runs.ReadableUntil32Later` | crates/wireless-programmer/src/jobs.rs:330-347 | with increasing creation times a job is in the registry iff fewer than 32 later jobs have finished |
| `Sessions.RadioSessions` | crates/wireless-programmer/src/runtime.rs:896-1134 | a job's radio calls are none or one session: connect, a prefix of set_address, link_up, prepare_softap, release; sessions of different jobs never overlap |
| `Sessions.RunTracks` | crates/wireless-programmer/src/runtime.rs:1352-1457 | the session automaton accepts the radio log in every reachable state and agrees with the worker's position |
| `Watch.StreamJobWatch` | crates/wireless-programmer/src/ipc.rs:185-250 | at most one snapshot, then consecutive log frames; a normal end sends the whole log (or only a terminal snapshot) and exactly the last frame is terminal |
| `Watch.SendFrames` | crates/wireless-programmer/src/ipc.rs:205-225 | the batch is written in order up to a failing reply, and its last frame decides whether the stream ends |
| `Watch.DrainWith` | crates/wp-client/src/watch.rs:84-100 | the first terminal frame, close or failure decides; everything before it is shown |
| `Watch.WatchToExit` | crates/wireless-programmer/src/cli/client.rs:72-84 | whatever the interleaving, after a normal end the client succeeds iff the job is Done in the registry; however the stream ends, a success or failure it reports is the job's state at some read |
| `Watch.RunGivesHistory` | crates/wireless-programmer/src/ipc.rs:185-250 | the reads of any watcher beside any run satisfy what the stream theorem needs |
| `Watch.TerminalForGood` | crates/wireless-programmer/src/jobs.rs:233-311 | the terminal state a watcher reports never changes later in the run |
| `Watch.WatchRun` | crates/wireless-programmer/src/cli/client.rs:72-84 | the same beside any run, with reads at any ordered moments and for any name, known or not: what the exit status says of the job's end is so in the registry at a read and ever after |
| `Netcfg.FirstLocalFound` | crates/wp-link/src/netcfg.rs:140-150 | in any listing the parser finds the preference of the first rule whose table prints as `local` or with a number that starts with 255 |
| `Netcfg.LocalPrefIs` | crates/wp-link/src/netcfg.rs:140-150 | the answer is the first misread rule's preference if there is one, so it is the first `lookup local` rule's iff no rule is misread or the misread one shares that preference; where no other rule in front shares a local rule's preference, iff no table such as 2550 comes first |
| `Netcfg.Table2550ReadsLocal` | crates/wp-link/src/netcfg.rs:140-150 | with table 2550 at 5 in front of `lookup local` at 10 the answer is 5 |
| `PolicyRouting.Host.InstallPolicyRoute` | crates/wp-link/src/netcfg.rs:175-257 | on any rule list and under any failing commands: kernel, returned record and whether `lookup local` was present throughout |
| `PolicyRouting.InstallKeepsForeign` | crates/wp-link/src/netcfg.rs:175-257 | on any rule list and under any failures the rules of others stay, in order |
| `PolicyRouting.Host.ParkLocal` | crates/wp-link/src/netcfg.rs:213-244 | parking `lookup local` on any rule list, by what the listing shows and which commands fail |
| `PolicyRouting.Host.RemovePolicyRoute` | crates/wp-link/src/netcfg.rs:263-298 | removal on any rule list, edited by others or not, under any failing commands |
| `PolicyRouting.RemoveKeepsForeign` | crates/wp-link/src/netcfg.rs:263-298 | removal keeps the rules of others, in order |
| `SoftAp.FlowIsSteered` | crates/wp-link/src/netcfg.rs:175-257 | after a successful install the flow (source, host) leaves by the wireless device, local address or not |
| `SoftAp.OtherFlowsUnchanged` | crates/wp-link/src/netcfg.rs:175-257 | every other flow resolves as before, for all tables and foreign rules |
| `SoftAp.LocalDeliveryKeptIff` | crates/wp-link/src/netcfg.rs:213-244 | every other flow resolves as before on all hosts iff it is not the case that the host is local, the listing and the rules work, parking fails and the deletion at 0 succeeds |
| `SoftAp.RestoredIff` | crates/wp-link/src/netcfg.rs:190-298 | install then remove restores the rule list iff the failures are of a stated kind |
| `SoftAp.InstallThenRemove` | crates/wp-link/src/netcfg.rs:175-298 | the two calls together, on any rule list: the rules of others stay and the table is emptied; on a plain list the rules are restored, and `lookup local` was never absent, iff the failures are of a stated kind |
| `SoftAp.Apply` | crates/wp-link/src/netcfg.rs:98-116 | one sysctl changes or not; undoing the record leads back to the same values |
| `SoftAp.PrepareSoftap` | crates/wp-link/src/netcfg.rs:306-313 | any initial values, any failed writes: undoing the record gives the initial values |
| `SoftAp.PreparedValues` | crates/wp-link/src/netcfg.rs:306-313 | sysctls of other devices are untouched, and without failures the four values are set |
| `SoftAp.Restore` | crates/wp-link/src/netcfg.rs:316-323 | writes back in reverse order, skipping exactly the writes that fail |
| `SoftAp.PrepareThenRestore` | crates/wp-link/src/netcfg.rs:306-323 | the two together are the identity iff every recorded value can be written back |
| `Nl80211.Radio.SetAddress` | crates/wp-link/src/radio.rs:936-973 | a leftover of the address is dropped, the address is added, and it is remembered for release whatever fails |
| `Nl80211.Radio.PrepareSession` | crates/wp-link/src/radio.rs:980-989 | sysctls, rules and the records to undo them, for every failure |
| `Nl80211.Radio.Release` | crates/wp-link/src/radio.rs:991-1035 | the undo under any failures; no session state is left |
| `Nl80211.AddressAfter` | crates/wp-link/src/radio.rs:936-1035 | only the session's address can differ afterwards; if release can remove it, the addresses are as before iff it was not assigned before |
| `Nl80211.SessionUndone` | crates/wp-link/src/radio.rs:936-1035 | one session under any failures: rules back iff the failures are of a stated kind, sysctls back iff every recorded value can be written back |
| `Nl80211.Replay` | crates/wp-link/src/radio.rs:936-1035 | replaying any log of radio calls on the object |
| `Nl80211.RunUndone` | crates/wireless-programmer/src/runtime.rs:896-1134 | for every run with set-up failures anywhere and an undo that works: when the worker is idle, rules and sysctls are those from before, and the addresses iff no session address was assigned before |
| `Nl80211.RunKeepsOthers` | crates/wp-link/src/radio.rs:936-1035 | at every moment of every run, undo failures included and on any rule list: the rules of others stay in order, a sysctl is at its first value or is a session's and at the value it wants, addresses no session uses are untouched, and an idle worker leaves no session state |
| `Nl80211.WorkerLogReplays` | crates/wireless-programmer/src/runtime.rs:896-1134 | the radio log of every run can be replayed and is free when the worker is idle |
| `Chunked.DecodeChunked` | crates/wp-link/src/http.rs:624-662 | the one-pass loop returns what the recursive definition of chunked coding says, with each of its four errors and the overflow of a machine word |
| `Chunked.DecodeEncoded` | crates/wp-link/src/http.rs:624-662 | decoding any chunked encoding (any cuts, sizes spelled in any case, extensions, CRLFs in the data, trailing bytes) gives the concatenated data |
| `Chunked.SplitAnywhere` | crates/wp-link/src/http.rs:624-662 | every list of non-empty pieces has an encoding that decodes to its concatenation |
| `Chunked.DecodeStable` | crates/wp-link/src/http.rs:624-662 | a successful decode, or an overflow, does not change when bytes are appended |
| `Chunked.DecodeNotLonger` | crates/wp-link/src/http.rs:624-662 | the output is never longer than the input |
| `Chunked.OverflowIff` | crates/wp-link/src/http.rs:640-651 | for every body the decoder overflows iff whole chunks lead to a size line whose data would end beyond a machine word |
| `Chunked.OverflowAfterChunks` | crates/wp-link/src/http.rs:640-651 | after any whole chunks, a last size overflows if its end exceeds a machine word, and iff so while its data is not all there; otherwise the data is truncated |
| `Http.FindBody` | crates/wp-link/src/http.rs:579-589 | the first blank line is found, and none iff there is none |
| `Http.LookStable` | crates/wp-link/src/http.rs:670-683 | a complete response stays complete when bytes are appended, and so does a fatal one |
| `Http.NoPrefixComplete` | crates/wp-link/src/http.rs:592-683 | no proper prefix of an exact Content-Length response is complete |
| `Http.ReadResponse` | crates/wp-link/src/http.rs:217-314 | the loop follows its specification turn by turn and the buffer never exceeds the bound by more than one read |
| `Http.AnySegmentation` | crates/wp-link/src/http.rs:217-336 | an exact or completely chunked response within the bound gives the same result for every cut into reads, with any idle polls between and anything after |
| `Http.LengthResponse` | crates/wp-link/src/http.rs:217-336 | a server's successful response with a Content-Length is received as its body, for all headers, bodies and cuts |
| `Http.ChunkedResponse` | crates/wp-link/src/http.rs:217-336 | likewise for a chunked response |
| `Http.TrailingBytes` | crates/wp-link/src/http.rs:316-322 | with bytes after the announced length, all valid ways of cutting the response into reads give the same result iff there are none |
| `Http.ClosedIncomplete` | crates/wp-link/src/http.rs:246-336 | a connection closed before the response is complete, however it was cut: the bytes are judged as if they were all, or the exchange counts as done |
| `Http.ShortBodyAccepted` | crates/wp-link/src/http.rs:246-257 | the bytes received of a Content-Length body are returned as a success, or nothing when a reset counts as success; the result has the announced length iff all of it arrived |
| `Http.ClosedInHeaders` | crates/wp-link/src/http.rs:316-316 | closed before the blank line: refused, unless a reset counts as success |
| `Http.ClosedInChunks` | crates/wp-link/src/http.rs:316-322 | a chunked response closed anywhere: its data iff the last chunk was there, else the decoder's complaint, unless a reset counts as success |
| `Http.AbortsIff` | crates/wp-link/src/http.rs:640-646 | a chunked response with any body and any cut ends the process iff whole chunks lead to a size line whose data would end beyond a machine word |
| `Http.EndBeyondWord` | crates/wp-link/src/http.rs:646-646 | after any whole chunks, a size that fits a machine word with an end that does not ends the process for every cut, whatever follows |
| `Http.ClosedInsideChunk` | crates/wp-link/src/http.rs:646-651 | closed inside a chunk: the process ends iff that chunk's end exceeds a machine word, otherwise the response is refused as truncated, unless a reset counts as success |
| `Http.LargestSizeAborts` | crates/wp-link/src/http.rs:640-646 | the size `ffffffffffffffff` in front ends the process for every head and every cut |
| `Http.AbortingResponse` | crates/wp-link/src/http.rs:640-646 | one response, head included, that ends the process in one read |
| `Checksum.IcmpChecksum` | crates/wp-link/src/http.rs:822-835 | in checked 32-bit arithmetic the two loops give the one's complement of the one's-complement sum, and no result iff the sum does not fit; always one up to 131074 bytes |
| `Checksum.NeverOverflowsIff` | crates/wp-link/src/http.rs:822-830 | the accumulator can overflow exactly for packets longer than 131074 bytes |
| `Checksum.PassesIff` | crates/wp-link/src/http.rs:822-835 | a packet checks to zero iff its words sum to a positive multiple of 65535 |
| `Checksum.WrittenPasses` | crates/wp-link/src/http.rs:794-797 | writing the checksum into a zeroed aligned field makes the packet check to zero |
| `Checksum.DetectsChangedByte` | crates/wp-link/src/http.rs:822-835 | any single changed byte makes a passing packet fail |
| `Checksum.EchoRequest` | crates/wp-link/src/http.rs:794-797 | the probe's echo request checks to zero |
| `Percent.PercentEncode` | crates/wp-link/src/http.rs:701-712 | the loop computes the encoding |
| `Percent.PercentDecode` | crates/wp-fake/src/wifred.rs:219-247 | the loop computes the decoding, incomplete escapes and plus signs included, with bytes that are not UTF-8 replaced |
| `Percent.RoundTrip` | crates/wp-link/src/http.rs:701-712 | decoding an encoded string gives its bytes back, for every string |
| `Percent.TextRoundTripIff` | crates/wp-fake/src/wifred.rs:219-247 | and the same text iff it is UTF-8 |
| `Text.LossyKeepsIff` | crates/wp-fake/src/wifred.rs:246-246 | the lossy conversion leaves exactly the UTF-8 strings as they are |
| `Percent.EncodedChars` | crates/wp-link/src/http.rs:701-712 | encoded text holds no separator of a query |
| `WifredQuery.QueryRoundTrip` | crates/wp-fake/src/wifred.rs:51-61 | the device reads from a query exactly the parameters the driver wrote into it |
| `WifredQuery.KeyOfName` | crates/wp-fake/src/wifred.rs:62-143 | the device recognises every parameter name the driver writes, function keys included |
| `Xml.XmlEscape` | crates/wp-fake/src/wifred.rs:330-343 | the loop computes the escaping |
| `Xml.UnescapeEscape` | crates/wp-drivers/src/wifred/xml.rs:237-244 | the attribute reader gives back every string the printer escapes |
| `ConfigXml.Parse` | crates/wp-drivers/src/wifred/xml.rs:90-137 | refuses a body that is not UTF-8 or not well formed; otherwise one pass over the events computes the fold of the element handler |
| `ConfigXml.SerializeXml` | crates/wp-fake/src/wifred.rs:259-324 | the printed events parse back to the configuration, with the printer's defaults |
| `ConfigXml.ParsePrinted` | crates/wp-drivers/src/wifred/xml.rs:90-273 | parsing what is printed returns every configuration up to the defaults for a missing slot number and mode |
| `ConfigXml.ParsePrintedExact` | crates/wp-drivers/src/wifred/xml.rs:90-273 | and exactly the configuration when no default was needed |
| `WifredDevice.WifredFake.ApplyQuery` | crates/wp-fake/src/wifred.rs:47-151 | pair by pair, the named network last, for every query string |
| `WifredDevice.WifredFake.Handle` | crates/wp-fake/src/wifred.rs:170-192 | the state and the reply of every request; anything but GET is refused |
| `WifredDevice.WifredFake.constructor` | crates/wp-fake/src/wifred.rs:20-39 | factory state |
| `Requests.ValidateCommon` | crates/wp-core/src/driver.rs:162-204 | accepts iff identity, SSID, server support, capacity, addresses, function ranges and distinctness hold; otherwise reports the first complaint in order |
| `WifredDriver.Verify` | crates/wp-drivers/src/wifred/mod.rs:251-277 | the mismatches in order; none iff identity, server, network and every address agree |
| `WifredDriver.Program` | crates/wp-drivers/src/wifred/mod.rs:92-196 | against any client the requests are a prefix of one canonical sequence that ends at the first objection, or all of it |
| `WifredDriver.RestartOnlyAfterVerify` | crates/wp-drivers/src/wifred/mod.rs:177-190 | a restart is issued only after every earlier request succeeded and the device read back as requested |
| `WifredDriver.RestartOnlyLast` | crates/wp-drivers/src/wifred/mod.rs:188-190 | the canonical sequence holds the restart at its end and nowhere else |
| `WifredDriver.WifiWritesLast` | crates/wp-drivers/src/wifred/mod.rs:162-175 | Wi-Fi parameters appear only in the last two writes |
| `WifredEffects.WriteHandled` | crates/wp-fake/src/wifred.rs:170-192 | the device answers a write with a page and takes exactly the parameters written |
| `WifredEffects.LocoWritten` | crates/wp-drivers/src/wifred/mod.rs:117-134 | effect of a slot write on any device: address, mode and direction set, missing slots created, others kept |
| `WifredEffects.FunctionsWritten` | crates/wp-drivers/src/wifred/mod.rs:138-148 | effect of a function write on any device |
| `WifredEffects.ServerWritten` | crates/wp-drivers/src/wifred/mod.rs:152-160 | effect of the server write on any device |
| `WifredEffects.WifiWritten` | crates/wp-fake/src/wifred.rs:204-217 | a network that is not listed is appended, enabled, with its key |
| `WifredEndToEnd.AllWritten` | crates/wp-drivers/src/wifred/mod.rs:108-175 | all writes together turn any configuration into the final one |
| `WifredEndToEnd.EndToEnd` | crates/wp-drivers/src/wifred/mod.rs:92-196 | for every accepted request and every device with structure version "1" the program issues the whole sequence, meets no mismatch, and the device ends in the final configuration, restarted |
| `WifredEndToEnd.ReadBackAgrees` | crates/wp-drivers/src/wifred/mod.rs:251-277 | printing, parsing and verifying the final configuration finds no mismatch |
| `WifredEndToEnd.RosterSlot` | crates/wp-drivers/src/wifred/mod.rs:117-148 | each roster slot ends with the requested address, mode, direction and functions; functions not named keep their value |
| `WifredEndToEnd.SlotsBeyondKept` | crates/wp-drivers/src/wifred/mod.rs:92-196 | slots beyond the roster are unchanged |
| `WifredEndToEnd.OtherSettingsKept` | crates/wp-drivers/src/wifred/mod.rs:92-196 | after the whole sequence structure version, firmware revision and battery are those from before, and no slot is lost |
| `WifredEndToEnd.NetworksAfter` | crates/wp-drivers/src/wifred/mod.rs:165-175 | the requested network is there exactly once and enabled; every other network is kept |
| `WifredEndToEnd.FlagsAsRequestedIff` | crates/wp-fake/src/wifred.rs:95-101 | the long-address and automatic flags end as requested iff they were not set before or are requested |
| `WifredEndToEnd.StaleLongAddress` | crates/wp-drivers/src/wifred/mod.rs:130-132 | an accepted request for a short address that verifies and leaves the long-address flag set |
| `Z21Records.ParseRecords` | crates/wp-link/src/z21.rs:134-150 | the loop computes the recursive reading of concatenated records on arbitrary bytes |
| `Z21Records.ParseEncoded` | crates/wp-link/src/z21.rs:109-150 | any concatenation of records that fit, followed by anything, is read back exactly |
| `Z21Records.RoundTripIff` | crates/wp-link/src/z21.rs:109-116 | a record is read back iff its payload has at most 65531 bytes |
| `Z21Records.ReadsAPrefix` | crates/wp-link/src/z21.rs:134-150 | on arbitrary bytes the records read re-encode to a prefix, and no record starts after it |
| `Z21Dispatch.DispatchAddr` | crates/wp-link/src/z21.rs:291-367 | the result is that of the first decisive record of the two phases; every exit but an I/O error logs off exactly once, last |
| `Z21Dispatch.DispatchReplyRead` | crates/wp-link/src/z21.rs:168-174 | an answer as the station writes it is read as its address and result, whatever follows |
| `Z21Dispatch.SlotMeans` | crates/wp-link/src/z21.rs:328-352 | a slot is positive and comes from an answer about this loco, from the target, in the dispatch phase |
| `Z21Dispatch.AnswerIsResult` | crates/wp-link/src/z21.rs:328-352 | an answer about this loco is the result, a refusal for 0 or the slot, wherever it stands in its datagram and whatever follows, if the probe was not refused and nothing decided before |
| `Z21Dispatch.NoAckMeans` | crates/wp-link/src/z21.rs:361-366 | no acknowledgement: the probe was answered and nothing decided afterwards |
| `Z21Dispatch.UnreachableMeans` | crates/wp-link/src/z21.rs:361-366 | unreachable: no serial reply from the target came in the probe phase |
| `DnsNames.ReadName` | crates/wp-link/src/mdns.rs:107-137 | ends on every packet by (jumps left, bytes left), gives the labels of the recursive reading as text joined by dots, and its offset lies in (start, length] |
| `DnsNames.ReadPlain` | crates/wp-link/src/mdns.rs:107-137 | a name written without pointers is read back, wherever it stands |
| `DnsNames.PointerMeansSuffix` | crates/wp-link/src/mdns.rs:118-129 | labels followed by a pointer read as the labels followed by the name it leads to |
| `DnsNames.CompressedReadsAsExpanded` | crates/wp-link/src/mdns.rs:107-137 | a compressed name reads the same as the name written out |
| `DnsNames.SelfPointerRefused` | crates/wp-link/src/mdns.rs:118-129 | a pointer to itself is refused |
| `DnsNames.PutName` | crates/wp-link/src/mdns.rs:231-237 | the loop appends the encoded name |
| `Mdns.SkipQuestions` | crates/wp-link/src/mdns.rs:139-145 | skips that many questions, at least five bytes each, or fails |
| `Mdns.RecordRead` | crates/wp-link/src/mdns.rs:163-171 | a record that stands anywhere in a packet is read with its name, type and data |
| `Mdns.FirstPartText` | crates/wp-link/src/mdns.rs:176-189 | cutting the joined text at its first dot gives the conversion of the first label cut at its first dot |
| `Mdns.ScanRecords` | crates/wp-link/src/mdns.rs:161-199 | the record loop carries port and host name, as text, from record to record; its hosts are those of the reading on label bytes, converted |
| `Mdns.ParseOtaHosts` | crates/wp-link/src/mdns.rs:148-200 | the hosts of any packet, with their names as text |
| `Mdns.EncodeOtaAnnounce` | crates/wp-link/src/mdns.rs:204-225 | the bytes of an announcement |
| `Mdns.QuestionsDoNotMatter` | crates/wp-link/src/mdns.rs:139-200 | with any number of questions in front, an announcement yields exactly its host |
| `Mdns.AnnouncedWithQuestions` | crates/wp-link/src/mdns.rs:148-200 | the same for any well-formed question section, pointers included |
| `Mdns.AnnouncementReadIff` | crates/wp-link/src/mdns.rs:148-237 | an announcement yields exactly its host, in label bytes, iff the label has 1 to 191 bytes and no dot |
| `Mdns.AnnouncedNameIff` | crates/wp-link/src/mdns.rs:107-237 | the announced name comes back as the same text iff it has 1 to 191 bytes and no dot, for every name without U+FFFD; with it, also when that short, and never beyond 573 bytes or with a dot |
| `Mdns.ParsedShort` | crates/wp-link/src/mdns.rs:148-200 | no packet yields a host name from more than 191 label bytes, of more than 573 bytes, or with a dot; every name is UTF-8 |

## Left out

- PolicyRouting.Host.InstallPolicyRoute: rule actions other than a table lookup, and table names other than local, main and default, are not modelled.
- SoftAp.OtherFlowsUnchanged: for rule lists whose only rule at preference 0 or 1 is `lookup local` at 0, in which no other rule looks up table 100.
- SoftAp.InstallThenRemove: the exact conditions are for such rule lists; on all others it says that the rules of others stay.
- Netcfg.FirstLocalFound: for selectors whose printed text stays on its line and does not hold the word `lookup`.
- Nl80211.RunUndone: for an undo that works and set-ups whose parked copy can be removed; `Nl80211.SessionUndone` has the exact conditions for one session, and `Nl80211.RunKeepsOthers` what holds in runs with failed undos.
- Mdns.AnnouncedNameIff: whether some name of 192 to 573 bytes that holds U+FFFD comes back is left open.
- White space is the ASCII one; Unicode white space in `trim` and `split_whitespace` is not modelled.
- The XML tokenizer: a document is its event sequence, and numeric character references are not resolved.
- Job payloads and driver conversations are opaque to the registry and the daemon; which checks the drivers make is modelled for WiFred only.
- `probe`, `identify` and scanning use the radio outside the worker and are not part of the session theorem.
- The candidate cache and the `radio_held` flag.
- The HTTP client's connect, write, flush and retry loops: they would only add easy members.
- LongFred, RB23xx and FRED validation, image classification and wire conversions: easy case splits beside the WiFred theorem.
- nl80211, rtnetlink, wpa_supplicant, espflash, rfkill and `/sys`: only their success or failure appears, as free choices.
- The daemon framing library, JSON, command-line parsing, configuration, logging, peer authentication, the ELF reader and the Go client.
- Real time: deadlines are free choices and creation times are numbers.
