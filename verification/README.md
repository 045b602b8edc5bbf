# Audio Graph Manager: a verified model

AGM keeps playback and capture sessions, the audio interfaces (AIFs) they connect to and the PCM devices
behind those interfaces in step; it merges key/value metadata, and its client plugins track ring-buffer
positions and compress-offload credit. This project models the parts of it where state is shared or rebuilt
and proves what they keep over every run, every failure and every interleaving.

| file | models |
|---|---|
| `Devices.dfy` | reference-counted PCM devices and device groups |
| `Session.dfy` | one session: open, close, prepare, start, stop, connect, disconnect, with every unwind path |
| `SessionCalls.dfy` | each API call on one session: what it does, and exactly which calls keep the open counts |
| `SessionPool.dfy` | all sessions over one device table, in arbitrary runs; calls that break conservation |
| `Metadata.dfy` | metadata as values: first-wins merge, the fold over interfaces, calibration |
| `MetadataBuffers.dfy` | the same in memory: in-place deduplication, merging at moving offsets, in-place calibration |
| `MetadataLayout.dfy` | the binary payload layout and its parser |
| `PcmPointer.dfy` | the unwrapped hardware pointer of the mmap'ed ring, its boundary, available space |
| `Compress.dfy` | compress-offload credit and the drain protocol, as interleaved steps |
| `GraphModules.dfy` | the tagged module list: device switch, configure-once |
| `Acdb.dfy` | in-place patching of tunnelled parameter records, the tag-table walk |
| `Mixer.dfy` | control counts against control slots |
| `Common.dfy`, `Arithmetic.dfy`, `Bytes.dfy` | shared types, products and residues, little-endian words |

How to read the model:

- **Failures are inputs.** Every call into GSL, the PCM driver, the metadata merge or the allocator may fail. A
  `faults` set names the (call site, interface) pairs that fail, so "for all faults" is "through every failure path".
- **Objects shared by pointer are addressed by position.** A device object is an index into the device table, so two
  interfaces share a device exactly if they name the same index. A virtual child maps to its parent's index.
- **Runs.** `SessionPool.Run`, `DeviceTable.Run`, `Ring.Run`, `Stream.Run` and `Graph.RunPrepares` take arbitrary
  sequences of calls, samples or thread steps; their contracts are what holds in every reachable state, and that every
  call of the sequence took effect. Calls that the stated discipline rules out are skipped, as calls the client does not
  make.
- **Outcomes.** `SessionObj.Now()` is a session's own state as a value. `Launched`, `Halted`, `Shut`, `Followed`,
  `Connected`, `Disconnected` say what a call makes of it; `CanPrepare`, `CanStart`, `CanStop`, `CanFollow`, `CanConnect`
  say from the inputs when it succeeds.
- **Surplus.** `SessionObj.Surplus(p)` is the open count of device `p` minus what this session's interfaces hold.
  Every operation's contract says by how much it moves the surplus; conservation is "by nothing".
- Loops of the source are loops; where one C function holds several independent loops, each is a method.

Findings, each with a proof:

- Open counts are conserved in every run in which, on an open session, connect does not target an interface in
  AIF_OPENED and disconnect does not target one in AIF_OPEN, and the metadata merges made by a disconnect succeed.
  Merges made by connect, calibration, echo reference or loopback may fail freely. Call by call the rule is exact: a
  call keeps every count if and only if it is not one of those two, a connect only counting if its graph leg attaches
  (`SessionCalls.Serve`). `ConnectTwice` and `DisconnectUnopened` are runs that break it.
- In the same runs an interface that was prepared keeps a prepared device until it is closed, so a start fails only for
  the reasons `SessionObj.Start` lists: its checks, the graph, or a failing prepare of a device that neither was prepared
  nor is prepared by an earlier interface.
- A connect on a started session prepares and starts the whole session again: it succeeds exactly if the leg attaches
  and every interface, old or new, can be prepared and started, and then the new interface is STARTED and its device's
  start count has risen. If it fails after attaching, the new interface is disconnected again; and if it got as far as
  starting devices, every other interface that was STARTED is left in AIF_OPENED with its start taken back, while the
  session still is SESSION_STARTED (`SessionObj.Connect`). The open leaks exactly if one of the unwinding disconnect's
  merges fails.
- A session open whose second interface fails can report success with no graph at all (`OpenWithoutGraph`). A successful
  open has a graph if and only if every later interface in AIF_OPEN could join: no failing merge, graph add or parameter
  stage, and a failing PCM open only on a device that is open already or that an earlier interface opens
  (`SessionObj.Open`).
- An interface whose metadata cannot be merged, for too many keys or no memory, takes itself and all interfaces before it
  out of the result; the merge as a whole fails exactly if no open interface comes after the last such one
  (`FoldKeepsSuffix`, `FoldFails`, `OversizedLegIsDropped`). Nothing is lost if and only if in every round the merge so
  far and the interface's own keys fit (`NothingLost`), which is less than asking that the flat totals fit.
- A WRITE_DONE that overtakes the accounting of its own write is taken for an error and wakes no poller
  (`Stream.WriteDone`, `Overtaken`). Credit is conserved in every interleaving exactly if the last reset of the
  credit found in flight exactly the fragments still unaccounted (`CreditLaw`, `Stream.Run`); a stop in the middle of a
  write can leave a stream with no credit and nothing in flight (`StopDuringWrite`).
- Within a second, the hardware pointer is right after a poll exactly if less than one ring went by, and only where the
  ring offset in bits fits 32 bits: the conversion to frames truncates (`Ring.Sync`, `ConversionIsTrue`). Every offset of
  a ring converts correctly if and only if the whole ring's bits fit 32 bits (`RingConverts`).
- A graph prepare succeeds exactly if no module it has to configure is refused, none that is not configured yet is
  misplaced, and the graph layer agrees; it then made one successful configure call for each module that was due, in list
  order, and no other (`Graph.Prepare`).
- A device switch leaves exactly the new endpoint if and only if no stream module carries its instance id; without
  memory for the new endpoint the list is left with none (`Graph.Change`).
- The mixer's device tables are filled exactly to their allocation if and only if the direction properties that are
  present are 0 or 1; a missing property repeats the previous node's (`NamesFit`, `ListedInOrder`).

## Model

| member | source | states |
|---|---|---|
| Devices.DeviceTable.Open | service/src/device.c:356-428 | only the first open touches the hardware and only it can fail; device and group counts move together; the table invariant is kept |
| Devices.DeviceTable.Prepare | service/src/device.c:431-475 | first prepare reaches the hardware and is not counted on the group; the table invariant survives exactly if the prepare failed or the device was open |
| Devices.DeviceTable.Start | service/src/device.c:477-518 | refused below DEV_PREPARED; counts on device and group; invariant kept |
| Devices.DeviceTable.Stop | service/src/device.c:520-562 | no-op when not started; the last stop leaves DEV_STOPPED even if the hardware fails; invariant kept |
| Devices.DeviceTable.Close | service/src/device.c:564-611 | the last close clears prepare and start of the device, and of the group with its last member; a close of a closed device is recorded as stray |
| Devices.DeviceTable.ReleaseGroup | service/src/device.c:584-590 | the groups are then in step with the device closed once: open counts still sum up, start counts still cover the members |
| Devices.DeviceTable.Run | service/src/device.c:356-611 | in every run that prepares only open devices: open = 0 iff CLOSED, prepare > 0 iff PREPARED/STARTED/STOPPED, start > 0 iff STARTED, hardware opens minus closes is 1 iff open > 0, group open = sum of members' opens, group start >= sum of members' starts; and every operation took effect |
| Devices.DeviceTable.Do | service/src/device.c:356-611 | one operation of a run has the effect its counts and state ask for |
| Devices.ChildAndParent | service/src/device.c:356-611 | a virtual child and its parent share one PCM: opened once for both, closed with the last |
| Devices.DeviceTable.StartRefCount | service/src/device.c:931-943 | a grouped device answers with its group's count, never less than its own |
| Devices.Replaced | service/src/device.c:374-424 | replacing one device and moving its group alike keeps lifecycle and group sums |
| Devices.MembersUpdate | service/src/device.c:584-606 | how one device's counts enter its group's sums |
| Devices.MembersIdle | service/src/device.c:584-590 | a group with no opens has no member starts left |
| Devices.MembersCover | service/src/device.c:931-943 | a group sum covers each member |
| Sessions.SessionObj.ConnectAif | service/src/session_obj.c:707-836 | exactly when it succeeds; success opens the device exactly once, every failure after the open closes it again, and a device that was open is left as it was; exactly whether a graph remains |
| Sessions.SessionObj.AttachLeg | service/src/session_obj.c:734-819 | exactly when the graph leg attaches, and exactly whether a graph remains, for either outcome |
| Sessions.SessionObj.DisconnectAif | service/src/session_obj.c:521-598 | stops the device if the session is started and closes it once, unless a merge fails, and then nothing changes; fails after the close exactly if it was the last one and the hardware fails |
| Sessions.SessionObj.CountLive | service/src/session_obj.c:121-143 | number of interfaces at AIF_OPENED or above |
| Sessions.SessionObj.OpenWithFirst | service/src/session_obj.c:838-870 | connects the first interface in AIF_OPEN, exactly when it can be connected; no surplus either way |
| Sessions.SessionObj.JoinOne | service/src/session_obj.c:884-900 | one waiting interface joins exactly if it can be connected; its device is open afterwards and no surplus arises |
| Sessions.SessionObj.ConnectRemaining | service/src/session_obj.c:872-922 | a graph remains exactly if every waiting interface can join, and then all have; otherwise none has and the answer is graph_close's result |
| Sessions.JoinAfterFirst | service/src/session_obj.c:838-922 | connecting the first interface does not change which of the others can join |
| Sessions.SessionObj.ConnectWaiting | service/src/session_obj.c:2181-2193 | exactly when the first interface and the others connect, in terms of the state before |
| Sessions.SessionObj.Couple | service/src/session_obj.c:2196-2216 | exact answer: echo reference and loopback succeed exactly if there is a graph and the call does; a failure forgets its setting |
| Sessions.SessionObj.UnwindOpen | service/src/session_obj.c:901-921 | every interface returns to its state before the open, the graph is gone, and the surplus is unchanged if merges succeed |
| Sessions.SessionObj.Open | service/src/session_obj.c:2134-2244 | exactly when it succeeds, and exactly when the success has a graph, in terms of the state before the call; a failed open restores every interface; open counts unchanged beyond what is held |
| Sessions.SessionObj.Close | service/src/session_obj.c:1329-1388 | every live interface closes its device once and is AIF_CLOSED; the answer is that of the last device closed, or of the graph if there is none; exact surplus for any prior state; no stray close if the counts covered the session |
| Sessions.SessionObj.CloseAll | service/src/session_obj.c:1361-1381 | the closing loop, surplus device by device |
| Sessions.SessionObj.CloseDevices | service/src/session_obj.c:1361-1381 | which device the loop's answer comes from, and when it is a failure, in terms of the counts before |
| Sessions.SessionObj.Prepare | service/src/session_obj.c:968-1062 | exactly when it succeeds, and the session state afterwards |
| Sessions.SessionObj.PrepareOne | service/src/session_obj.c:1198-1207 | one interface prepared exactly if the hardware does or the device was prepared already; the device is then prepared |
| Sessions.SessionObj.LaunchOne | service/src/session_obj.c:1209-1219 | one interface started exactly if its device was prepared |
| Sessions.SessionObj.StartOne | service/src/session_obj.c:1190-1219 | one interface prepared and started; on counts that cover the session, exactly when that succeeds |
| Sessions.SessionObj.StartPass | service/src/session_obj.c:1144-1220 | one pass: exactly when it succeeds, its interfaces all STARTED on success, the others untouched, start counts in step with STARTED interfaces |
| Sessions.SessionObj.PassOne | service/src/session_obj.c:1144-1220 | one round of a pass keeps what holds inside it, and fails exactly if a waiting interface's device can be prepared neither now nor before |
| Sessions.SecondPass | service/src/session_obj.c:1144-1221 | what the first pass prepares decides which failing prepares the second pass survives |
| Sessions.SessionObj.StartDevices | service/src/session_obj.c:1140-1221 | both passes around the graph start |
| Sessions.SessionObj.StopAll | service/src/session_obj.c:1250-1261 | the stopping loops: no interface STARTED, each start count falls by exactly what the session had started, never below zero |
| Sessions.SessionObj.StopLoop | service/src/session_obj.c:1294-1309 | both stopping loops: which interface the answer comes from, and every start count in step with what is still STARTED |
| Sessions.SessionObj.Rollback | service/src/session_obj.c:1250-1261 | a failed start stops what it and earlier starts had started: none STARTED, start counts down by exactly that |
| Sessions.SessionObj.Start | service/src/session_obj.c:1064-1265 | exactly when it succeeds; success: every live interface STARTED and each start count up by the newly started; failure after the checks: none STARTED and each start count down by what was STARTED before; rejection: EINVAL, nothing changes |
| Sessions.SessionObj.StillReady | service/src/session_obj.c:1198-1219 | an interface that was prepared and still holds its device has a prepared device |
| Sessions.SessionObj.Stop | service/src/session_obj.c:1267-1327 | exactly when the session stops; STARTED interfaces become STOPPED and their starts are taken back; the answer is that of the graph or, for playback, of the last device stopped |
| Sessions.SessionObj.FindOrAdd | service/src/session_obj.c:95-117 | finds the first interface of a device or adds it closed, holding nothing more |
| Sessions.SessionObj.Connect | service/src/session_obj.c:2013-2098 | for every state of session and interface: exactly when it succeeds, the states afterwards, and the start counts; on a started session success means every live interface STARTED, on a prepared or stopped one SESSION_PREPARED; failure after a start was tried leaves the others rolled back, before it unchanged; surplus grows by exactly one for an interface that was AIF_OPENED and attaches again, and by one if a failed connect cannot merge to give its open back |
| Sessions.SessionObj.CatchUp | service/src/session_obj.c:2050-2092 | the session is prepared, and if it was started, started again: exactly when that succeeds, every live interface STARTED, start counts up by the newly started; a failed start leaves none STARTED and takes the starts back, a failed prepare changes nothing; no open count changes |
| Sessions.SessionObj.CatchUpOrUnwind | service/src/session_obj.c:2054-2127 | the interface follows the session's state, exactly when it can, or is AIF_CLOSE and gives its open back unless a merge fails; prepared interfaces stay prepared |
| Sessions.SessionObj.OpenAt | service/src/session_obj.c:2042-2050 | the interface is attached and AIF_OPENED exactly if its device and graph leg can be opened, and otherwise unchanged |
| Sessions.SessionObj.FollowUp | service/src/session_obj.c:2044-2127 | what an attached interface and its session end as, in terms of the state before it was attached |
| Sessions.SessionObj.ConnectAt | service/src/session_obj.c:2040-2127 | the same for connect on a session that is not closed |
| Sessions.SessionObj.ConnectFound | service/src/session_obj.c:2028-2127 | the same for every state of session and interface |
| Sessions.SessionObj.UnwindConnect | service/src/session_obj.c:2124-2127 | gives back the open that the connect took, unless a merge fails; no other device changes |
| Sessions.SessionObj.Disconnect | service/src/session_obj.c:2101-2122 | the answer, the interface's state, and the exact open count and surplus for every prior state; when a close is stray |
| Sessions.SessionObj.DisconnectFound | service/src/session_obj.c:2101-2122 | the same for the interface found: AIF_CLOSED on success, AIF_CLOSE if the merge or the last close fails |
| Sessions.SessionObj.Detach | service/src/session_obj.c:2101-2122 | the same for an interface that is not closed, with the whole device table afterwards |
| Sessions.CountUpdate | service/src/session_obj.c:121-143 | effect of one interface's state on the count of a device |
| Sessions.CountAgree | service/src/session_obj.c:121-143 | pools that agree on which interfaces count hold the same |
| SessionCalls.Serve | service/src/session_obj.c:2013-2244 | every call does what it asks for, in terms of the session before it: the states of session and interfaces, the graph, when it succeeds; it leaves every device's surplus unchanged and meets no closed device if and only if it neither connects an opened interface whose leg attaches nor disconnects an unopened one; prepared interfaces keep prepared devices |
| SessionCalls.ServeOpen | service/src/session_obj.c:2134-2244 | EALREADY exactly on a session that is not closed, otherwise SESSION_OPENED with the waiting interfaces AIF_OPENED and a graph, or with neither, or unchanged; no surplus moves |
| SessionCalls.ServeClose | service/src/session_obj.c:2315-2324 | EALREADY exactly on a closed session, otherwise SESSION_CLOSED with no live interface; no surplus moves |
| SessionCalls.ServeStart | service/src/session_obj.c:2292-2301 | exactly when the session starts; SESSION_STARTED with every live interface STARTED and the start counts up, or the interfaces rolled back and the starts taken back; no surplus moves |
| SessionCalls.ServeStop | service/src/session_obj.c:2303-2312 | SESSION_STOPPED with the STARTED interfaces STOPPED and the starts taken back, or nothing changes; no surplus moves |
| SessionCalls.ServeConnect | service/src/session_obj.c:2013-2098 | the same for connect, and for a successful one the condition is the discipline itself |
| SessionCalls.ServeDisconnect | service/src/session_obj.c:2101-2122 | the same for disconnect |
| SessionCalls.ClosesWhatItHolds | service/src/session_obj.c:2101-2122 | a disconnect closes the device exactly if the interface holds it, unless it breaks conservation |
| SessionCalls.TwiceBreaks | service/src/session_obj.c:2028-2053 | on counts that cover the session a connect breaks conservation exactly if it opens a device its interface holds |
| SessionPools.SessionPool.ServeAt | service/src/session_obj.c:2281-2324 | one call on one of many sessions takes effect there, changes no other session and keeps conservation over all of them |
| SessionPools.SessionPool.GetSession | service/src/session_obj.c:369-383 | finds or adds a closed session with the id; the others and conservation are untouched |
| SessionPools.SessionPool.Run | service/src/session_obj.c:2013-2324 | in every run each device's open count equals the number of (session, interface) pairs at AIF_OPENED or above that map to it, devices and groups stay in step, every prepared interface has a prepared device, and no close meets a closed device; and there is a history in which every request took effect, in order, from the first state to the last |
| SessionPools.SessionPool.Handle | service/src/session_obj.c:2013-2324 | one request goes to the session with its id and is served exactly if it does not break conservation; no other session changes |
| SessionPools.SessionPool.StillConserved | service/src/session_obj.c:2013-2324 | if one session keeps its surpluses, the counts over all sessions agree again |
| SessionPools.HoldersUpdate | service/src/session_obj.c:121-143 | how one session's interfaces enter the count over all sessions |
| SessionPools.ConnectTwice | service/src/session_obj.c:2028-2053 | a second connect leaves a count of two for one holder |
| SessionPools.OpenWithoutGraph | service/src/session_obj.c:901-921 | an open that succeeds without a graph, its interfaces back in AIF_OPEN |
| SessionPools.DisconnectUnopened | service/src/session_obj.c:2101-2111 | disconnecting such an interface closes the device under another session |
| Metadata.DedupDistinct | service/src/metadata.c:113-167 | deduplication leaves no key twice |
| Metadata.DedupLookup | service/src/metadata.c:113-167 | first wins: a reader finds the same element before and after |
| Metadata.DedupOrder | service/src/metadata.c:113-167 | elements that survive keep their order |
| Metadata.KeyFromFirst | service/src/metadata.c:199-293 | a merge takes a key's value from the first argument that has the key |
| Metadata.PropIdFromLast | service/src/metadata.c:280-285 | the property id is that of the last argument that has one |
| Metadata.SessionKeysWin | service/src/session_obj.c:145-175 | what an interface contributes: the session's value for a key, else the session-interface's, else the device's |
| Metadata.LookupFirst | service/src/metadata.c:113-167 | a reader finds the first element under a key |
| Metadata.DedupPrefix | service/src/metadata.c:199-293 | deduplicating a prefix first makes no difference |
| Metadata.JoinTwice | service/src/metadata.c:199-293 | merging into an earlier merge is the flat merge, and fits whenever the flat one does |
| Metadata.FoldIsFlatMerge | service/src/session_obj.c:145-175 | the fold over non-closed interfaces equals one flat merge of session, session-interface and device metadata when the totals fit and memory suffices |
| Metadata.FoldKeepsSuffix | service/src/session_obj.c:145-175 | for all inputs the fold is the flat merge of the interfaces after the last one that could not be merged, which is found from the inputs alone |
| Metadata.NothingLost | service/src/session_obj.c:145-175 | no interface is lost exactly if in every round the merge so far and the interface's own keys fit |
| Metadata.FoldIsFlatIfAllFit | service/src/session_obj.c:145-175 | then the fold is the flat merge of all interfaces |
| Metadata.FoldFails | service/src/session_obj.c:145-175 | the merge as a whole fails exactly if no open interface comes after the last lost one |
| Metadata.OversizedLegIsDropped | service/src/session_obj.c:145-175 | an interface too large or without memory to merge drops itself and all before it, and is an error exactly if it is the last open one |
| Metadata.CalibrationCommutes | service/src/session_obj.c:1768-1776 | calibrating the parts and merging equals merging and calibrating, for every calibration vector: each element of the merge gets the last entry for its key |
| Metadata.CalibratedMeans | service/src/metadata.c:169-197 | an element gets the value of the last entry for its key and keeps its own if there is none |
| MetadataBuffers.RemoveDup | service/src/metadata.c:113-167 | the in-place triple loop leaves exactly the first-wins deduplication as its prefix, for any tail |
| MetadataBuffers.RemoveAt | service/src/metadata.c:122-130 | one removal by shifting keeps the deduplication |
| MetadataBuffers.ShiftDown | service/src/metadata.c:124-127 | closes the gap and keeps the tail |
| MetadataBuffers.Merge | service/src/metadata.c:199-293 | null exactly for too many keys or no memory, otherwise fresh metadata that is the flat first-wins merge with last-wins property id |
| MetadataBuffers.CopyOne | service/src/metadata.c:264-285 | one argument appended to all three buffers at their offsets |
| MetadataBuffers.Totals | service/src/metadata.c:218-226 | the sizes allocated are the sizes copied |
| MetadataBuffers.MetaData.UpdateCal | service/src/metadata.c:169-197 | every element whose key is in the calibration vector takes the value of the last entry for it, every other stays; null vectors change nothing |
| MetadataBuffers.MetaData.Free | service/src/metadata.c:351-368 | empty metadata, null vectors with count zero |
| MetadataBuffers.MergeInterfaces | service/src/session_obj.c:145-175 | the loop in memory computes the fold, for every outcome of its allocations |
| MetadataBuffers.SetCal | service/src/session_obj.c:1766-1778 | each element of the merged metadata handed on is the merge of the parts before the call with the last calibration value for its key; null exactly for too many keys or no memory |
| MetadataLayout.LayoutRoundTrip | service/src/metadata.c:43-72 | every metadata value in the documented layout, with anything behind it, reads back exactly |
| MetadataLayout.Copy | service/src/metadata.c:295-349 | what the payload encodes, or the error and what the destination is left with, for every destination and every outcome of its allocations |
| MetadataLayout.CopyVectors | service/src/metadata.c:314-346 | counts and vectors agree after success and after every failed allocation; only the first one leaves the other vectors in place |
| PcmPointer.FramesRoundTrip | plugins/tinyalsa/src/agm_pcm_plugin.c:218-232 | bytes and frames convert back and forth exactly if the bits fit 32 bits |
| PcmPointer.ConversionIsTrue | plugins/tinyalsa/src/agm_pcm_plugin.c:225-232 | the 32-bit conversion finds the true frame exactly if the offset in bits fits 32 bits |
| PcmPointer.RingConverts | plugins/tinyalsa/src/agm_pcm_plugin.c:225-232 | every offset of a ring converts to its true frame exactly if the ring's bits fit 32 bits |
| PcmPointer.Boundary | plugins/tinyalsa/src/agm_pcm_plugin.c:822-826 | the boundary is a power-of-two multiple of the ring and the largest the loop allows |
| PcmPointer.Ring.constructor | plugins/tinyalsa/src/agm_pcm_plugin.c:806-829 | a fresh mapping is tracked and its boundary holds at least two rings for every ring up to a third of the range |
| PcmPointer.NoLapWithinASecond | plugins/tinyalsa/src/agm_pcm_plugin.c:337-357 | under one second the wall clock estimates no lap |
| PcmPointer.CrossedMeans | plugins/tinyalsa/src/agm_pcm_plugin.c:337-357 | the laps estimated are the whole rings in the frames that whole seconds are worth |
| PcmPointer.Ring.UpdateHwPtr | plugins/tinyalsa/src/agm_pcm_plugin.c:313-389 | new base and pointer for every sample, including multi-lap jumps: the base moves by the whole rings that fit into the frames of the whole seconds gone by, counted in 32 bits, or else by one if the place fell back; the place seen is the true one exactly if its bits fit 32 bits; backwards only when the base wraps to zero; failed reads change nothing |
| PcmPointer.Ring.Advance | plugins/tinyalsa/src/agm_pcm_plugin.c:359-383 | the base moves by the estimated laps, or by one if the place fell back |
| PcmPointer.Ring.PointerInvariants | plugins/tinyalsa/src/agm_pcm_plugin.c:330-385 | base a multiple of the ring below the boundary, pointer below the boundary and congruent to the floored ring position as converted |
| PcmPointer.LapsNoticed | plugins/tinyalsa/src/agm_pcm_plugin.c:374-383 | falling back counts the laps right exactly if less than one ring went by |
| PcmPointer.Ring.Sync | plugins/tinyalsa/src/agm_pcm_plugin.c:313-389 | an on-time poll keeps the pointer on the true position exactly if the offset's bits fit 32 bits; within a second, exactly if less than a ring went by |
| PcmPointer.Ring.Reset | plugins/tinyalsa/src/agm_pcm_plugin.c:402-434 | tracking is restored from any state, counted from the DSP's current lap, exactly if the place is seen truly |
| PcmPointer.Ring.TrackedMeans | plugins/tinyalsa/src/agm_pcm_plugin.c:313-389 | tracked means the pointer is the true floored position since the origin, modulo the boundary |
| PcmPointer.Ring.Run | plugins/tinyalsa/src/agm_pcm_plugin.c:313-434 | on every ring whose bits fit 32 bits, in every run of on-time polls, failed reads, resets and prepares the pointer is the DSP's true floored position modulo the boundary, and every event took effect |
| PcmPointer.Ring.Do | plugins/tinyalsa/src/agm_pcm_plugin.c:313-434 | one event of such a run |
| PcmPointer.AvailMeans | plugins/tinyalsa/src/agm_pcm_plugin.c:703-727 | playback space is the ring minus its fill exactly while the fill fits, and for every fill hardware pointer plus ring minus application pointer on the circle; capture is the difference on the circle |
| Compress.FragmentsTight | plugins/tinyalsa/src/agm_compress_plugin.c:232-234 | fragments hold the bytes and one fewer would not |
| Compress.Stream.constructor | plugins/tinyalsa/src/agm_compress_plugin.c:473-497 | full credit |
| Compress.Stream.Submit | plugins/tinyalsa/src/agm_compress_plugin.c:193-229 | fragments go in flight before they are accounted; a received end of stream is forgotten |
| Compress.Stream.Account | plugins/tinyalsa/src/agm_compress_plugin.c:231-250 | takes whole fragments of credit; runs short, with nothing counted as copied, only where credit was lost |
| Compress.Stream.WriteDone | plugins/tinyalsa/src/agm_compress_plugin.c:139-156 | returns one fragment; while credit is conserved, taken for an error exactly if it overtakes the accounting |
| Compress.Stream.EosRendered | plugins/tinyalsa/src/agm_compress_plugin.c:161-172 | wakes a blocked drain or is remembered |
| Compress.Stream.EarlyEos | plugins/tinyalsa/src/agm_compress_plugin.c:173-181 | wakes a blocked partial drain |
| Compress.Stream.Drain | plugins/tinyalsa/src/agm_compress_plugin.c:649-676 | blocks exactly if no end of stream was received and the command succeeded |
| Compress.Stream.DrainResume | plugins/tinyalsa/src/agm_compress_plugin.c:676-681 | a woken drain finishes and forgets the end of stream |
| Compress.Stream.PartialDrain | plugins/tinyalsa/src/agm_compress_plugin.c:684-705 | blocks with its flag set |
| Compress.Stream.StopReleaseEos | plugins/tinyalsa/src/agm_compress_plugin.c:587-594 | stop wakes a blocked drain |
| Compress.Stream.StopReleaseEarly | plugins/tinyalsa/src/agm_compress_plugin.c:596-602 | stop wakes a blocked partial drain |
| Compress.Stream.StopDrop | plugins/tinyalsa/src/agm_compress_plugin.c:609-613 | a successful session stop leaves the credit short by what was in flight, until the reset |
| Compress.Stream.StopReset | plugins/tinyalsa/src/agm_compress_plugin.c:614-616 | by how much the reset leaves the credit wrong; right exactly if what is in flight is what is unaccounted |
| Compress.Stream.CloseReleaseEos | plugins/tinyalsa/src/agm_compress_plugin.c:801-807 | close wakes a blocked drain and loses no credit |
| Compress.Stream.CloseReleaseEarly | plugins/tinyalsa/src/agm_compress_plugin.c:809-815 | close wakes a blocked partial drain |
| Compress.Stream.CreditIsFreeFragments | plugins/tinyalsa/src/agm_compress_plugin.c:225-251 | while credit is conserved and no write is half done it is a fragment multiple between zero and the total |
| Compress.Stream.Run | plugins/tinyalsa/src/agm_compress_plugin.c:115-682 | in every interleaving: every step took effect, a blocked drain has its flag set, the two end-of-stream flags are never both true, and credit is conserved exactly if the last reset found in flight what was still unaccounted, in particular if stops and writes do not overlap |
| Compress.Stream.Do | plugins/tinyalsa/src/agm_compress_plugin.c:115-815 | one step of any thread |
| Compress.CreditLaw | plugins/tinyalsa/src/agm_compress_plugin.c:193-251 | credit over whole runs, on values: conserved exactly if the last reset found in flight what was unaccounted |
| Compress.StepDrift | plugins/tinyalsa/src/agm_compress_plugin.c:193-251 | no step but the drop and the reset changes by how much the credit is wrong; a reset leaves it right exactly in that case |
| Compress.StopDuringWrite | plugins/tinyalsa/src/agm_compress_plugin.c:225-251 | a stop that overlaps a write leaves no credit and nothing in flight |
| Compress.Overtaken | plugins/tinyalsa/src/agm_compress_plugin.c:139-156 | the whole credit comes back and no poller is woken |
| GraphModules.SwitchKeepsList | service/src/graph.c:1646-1701 | a switch keeps ids distinct and streams in order; the new endpoint is the only one exactly if no stream module has its id |
| GraphModules.KeptEndpoints | service/src/graph.c:1656-1670 | the only endpoint that survives the deletion is the new device's, if it is there |
| GraphModules.Graph.DeleteOthers | service/src/graph.c:1656-1670 | the removal loop deletes exactly the other devices' endpoints |
| GraphModules.Graph.FindAndUnmark | service/src/graph.c:1646-1654 | finds a module by id and unmarks only it |
| GraphModules.Graph.Change | service/src/graph.c:1595-1734 | exactly when it succeeds; the list becomes the switched list even if the graph layer fails afterwards, and loses its endpoint only without memory for a new one; ids stay distinct; success calls every idle device not configured yet, in list order |
| GraphModules.Graph.Add | service/src/graph.c:1433-1593 | exactly when it succeeds; the endpoint joins at the end unless its id is present or there is no memory; ids stay distinct; on a running graph what is not configured is configured at once |
| GraphModules.Graph.Join | service/src/graph.c:1510-1557 | the endpoint is found or joins at the end, for every outcome of its allocations |
| GraphModules.AddedKeeps | service/src/graph.c:1433-1593 | an added list keeps the modules before it, in order, with distinct ids |
| GraphModules.Graph.ConfigureAdded | service/src/graph.c:1563-1587 | exactly when the last loop of an add succeeds, the calls it makes and which modules are configured then |
| GraphModules.Graph.ConfigureIdle | service/src/graph.c:1719-1729 | exactly when the last loop of a change succeeds, the calls it makes and which modules are configured then |
| GraphModules.Graph.Prepare | service/src/graph.c:827-899 | succeeds exactly if no due module is refused by the DSP, no unconfigured one is misplaced and the graph layer agrees; then every due module has had one successful call, in list order, and every configurable module is configured; no running endpoint is ever configured |
| GraphModules.Graph.PrepareAt | service/src/graph.c:836-881 | one module of that loop: exactly when it is refused, the call made and its flag |
| GraphModules.Graph.PrepareAll | service/src/graph.c:836-881 | the loop stops at the first refused module, with the calls of those before it and its own failed one |
| GraphModules.DueIsLogged | service/src/graph.c:836-881 | every due module has its call, behind those of the due modules before it |
| GraphModules.LoggedIsDue | service/src/graph.c:836-881 | every call is that of a due module |
| GraphModules.EndpointEveryRound | service/src/graph.c:836-881 | an endpoint whose device does not run is called again in every round |
| GraphModules.Graph.RunPrepares | service/src/graph.c:827-899 | any sequence of prepares, each of which took effect, configures each stream module successfully at most once |
| Acdb.Patch | service/src/graph.c:1295-1328 | for every payload of padded records the loop ends, re-parsing gives the same records with the new id, and no other byte changed |
| Acdb.PatchRecord | service/src/graph.c:1319-1327 | one record patched, the others intact, and where the next one starts |
| Acdb.ParseRecords | service/src/graph.c:1315-1328 | a payload of padded records parses to exactly those records |
| Acdb.Translate | service/src/graph.c:1274-1294 | over the bytes of the table, at strided offsets: the first module of the first matching entry that has one, zero if there is none |
| Acdb.Visit | service/src/graph.c:1276-1293 | one entry read at its offset, and the stride to the next |
| Acdb.StepReaches | service/src/graph.c:1275-1282 | the strided step from one entry reaches the next |
| Acdb.WalksAgreeExactly | service/src/graph.c:1275-1282 | strided and byte walk agree on every table exactly if a module record is a multiple of a tag entry |
| Acdb.WalksAgree | service/src/graph.c:699-701 | the two walks reach the same offsets |
| Mixer.NamesFit | plugins/tinyalsa/src/agm_mixer_plugin.c:682-702 | the filling loop fits the allocation exactly if the property is 0 or 1 wherever present |
| Mixer.CountNodes | plugins/tinyalsa/src/agm_mixer_plugin.c:668-681 | the counting loop |
| Mixer.FillNames | plugins/tinyalsa/src/agm_mixer_plugin.c:586-622 | fails exactly if a listed node has no name, and otherwise fills the table to its last entry, in order, behind ZERO |
| Mixer.ListedInOrder | plugins/tinyalsa/src/agm_mixer_plugin.c:586-622 | the entries are the ids of the nodes whose property is not zero, in node order, and no others |
| Mixer.ValIsLastPresent | plugins/tinyalsa/src/agm_mixer_plugin.c:586-622 | a node's property is the last one present up to it |
| Mixer.CountsMatchLayout | plugins/tinyalsa/src/agm_mixer_plugin.c:797-848 | the counts taken from the name tables are the controls those names ask for, block by block |
| Mixer.ControlTable.FormBe | plugins/tinyalsa/src/agm_mixer_plugin.c:1957-1986 | the three create calls per backend make exactly one control for each backend name, in the next slots |
| Mixer.ControlTable.FormGroups | plugins/tinyalsa/src/agm_mixer_plugin.c:2002-2013 | the same for the one control of a group |
| Mixer.ControlTable.FormCommonOne | plugins/tinyalsa/src/agm_mixer_plugin.c:2030-2057 | the twelve create calls make exactly one control for each common PCM name, with its private value |
| Mixer.ControlTable.FormCommonPcm | plugins/tinyalsa/src/agm_mixer_plugin.c:2015-2060 | the same over all devices, or nothing if an allocation fails |
| Mixer.ControlTable.FormRx | plugins/tinyalsa/src/agm_mixer_plugin.c:2086-2106 | the three playback controls per PCM |
| Mixer.ControlTable.FormTx | plugins/tinyalsa/src/agm_mixer_plugin.c:2062-2084 | the three capture controls per PCM |
| Mixer.ControlTable.FormPcm | plugins/tinyalsa/src/agm_mixer_plugin.c:2108-2137 | the four PCM blocks follow each other, up to an allocation that fails |
| Mixer.FormControls | plugins/tinyalsa/src/agm_mixer_plugin.c:2297-2332 | every slot of the table sized from the name tables is written exactly once with the control laid out for it, unless an allocation fails; then only a prefix is |

## Left out

- The IPC layers, the sound-card parser, the ALSA-lib plugins, payload builders and device-name decoding: marshalling and finite tables that would only add easy members.
- Non-tunnel and no-config sessions, and changes of the session mode while a session exists.
- The build that prepares devices before the graph starts.
- Start counts across sessions: they are not conserved (a close does not stop, a disconnect stops by session state), and only what one session does to them is stated.
- Prepare counts of groups, which miss the first prepare.
- Cached parameters of sessions, interfaces and devices: a stage with nothing cached is a stage that succeeds.
- Logging, retry sleeps, spurious wake-ups, lock ordering and the seqlock of the shared position buffer: a successful read is taken as a consistent snapshot.
- Integer overflow of reference counts.
- Clearing the shared audio buffer during a reset, and the timestamps taken with each position.
- Device and bus details of the PCM configuration passed to the driver.
- Sessions.SessionObj.Open: gives the exact surplus only when disconnect merges succeed; when they fail it states that the surplus does not fall.
- MetadataLayout.Copy: the payload is as long as its own counts say, since the source trusts its size.
- Acdb.Patch: the record header is four words with the size in the third; its declaration is not part of this model. The key vectors in front of the records are not modelled.
- Acdb.Translate: a tag entry starts with the tag and its module count, a module record has the instance id in its second word; the declarations are not part of this model, and their sizes are parameters.
- Mixer.FormControls: a control is its name suffix, its device and its private value; value ranges and callbacks are left out.
