# Verification of the standard OTAU plugin

A Dafny model of the deCONZ plugin that updates the firmware of ZigBee devices over the air, with
proofs of what it promises: the server side of the OTA Upgrade cluster (section 11.13 of the ZigBee
Cluster Library Specification, 07-5123) and the OTA file format (section 11.4 of the same).
`dafny verify dfyconfig.toml` checks the whole project.

## What is modelled

| file | models |
|---|---|
| `Bytes.dfy`, `Options.dfy`, `Sequences.dfy` | integer widths, little-endian layout, what a short stream read yields; optional values; sequences |
| `JsonText.dfy` | searching text for keys, numbers and quoted strings |
| `FileFormat.dfy` | the OTA file as a value, its printer and its parser |
| `FileProofs.dfy` | what printer and parser promise each other |
| `FileAcceptance.dfy` | which arrays are update files, and what is read from where |
| `OtauFile.dfy` | the file object and the stream cursor, updated in place |
| `Transfer.dfy` | one node, the state it shares with the others, and every handler as a function of both |
| `PageHistory.dfy`, `PageInvariant.dfy` | what an observer at the radio stack notes about a node, and the invariant every event keeps |
| `Runs.dfy` | the plugin as a state machine over its nodes and timers; statements about every run |
| `Requests.dfy` | what each request is answered, read off its bytes; who is aborted, has data, is awaited |
| `Activity.dfy` | the activity tracker in the runs of the plugin |
| `Consent.dfy` | permission and captured image over whole runs |
| `Timers.dfy` | the page timer: stranded and stalled nodes |
| `Retries.dfy` | failed sends and silences counted by an observer, and when the page is given up |
| `NoAcks.dfy` | missing acknowledgements counted over runs, and when the payload limit falls |
| `PageExchange.dfy` | a page whose answers are taken and confirmed, and its place in a run |
| `ServedPages.dfy` | permitted pages inside the image: they are completed |
| `WrappingCounter.dfy`, `ErrorPages.dfy` | a counter that wraps; pages that are only answered with errors |
| `FailingRuns.dfy`, `FailingFiles.dfy` | runs from a new node, and files, for which the failures below happen |
| `EndToEnd.dfy` | a device that collects the image block by block and parses it |
| `Tracker.dfy` | the activity tracker |
| `OtauPlugin.dfy` | node and plugin objects, whose methods do what the functions of `Transfer.dfy` and `Runs.dfy` say |
| `Downloads.dfy` | the download queue: state machine, results over every run, and the object |
| `DownloadProgress.dfy` | that the download queue gets somewhere |
| `RemoteIndex.dfy` | what is read from the text of the remote index |
| `LocalIndex.dfy` | the index of local update files, written and read back, and the choice of an update |

The code is imperative, so each of its objects is a class. Its methods are proved equal to functions
on values (`ensures View() == ...`), and the results are proved about those functions. `Handle` of
`StdOtauPlugin` and of `Downloader` is where both meet: any occurrence advances the object exactly as
the state machine whose runs the theorems quantify over.

The environment is an input of each step. The radio stack rejects a request or accepts it under any
id from 0 to 255; "the last response is recent", "the packet spacing is not over", "the device was
silent for too long" and the switches of the control panel are arbitrary booleans; an update file is
whatever a load left behind. Fields the source does not initialise are arbitrary.

## What the proofs found

The model follows the code. Where the code does less than its comments or names suggest, the exact
condition is proved, with a run or a file for which it happens.

- Packing and parsing: a file is read back if and only if it has the magic id and its element list
  can be carried (`RoundTrip`); a parsed file survives saving if and only if its last element has
  data (`SaveAndReload`); the served slice parses to the same file if and only if it holds the last
  element whole, with data when it ends there (`ServedImageFixedPoint`). One accepted array of 63
  bytes fails all three (`HollowFails`).
- A page timer tick while the server is switched off ends the timer: the waiting nodes are stranded
  (`StrandsIff`, `StrandedRun`). In every other case no node is.
- The ten-second guard that should resend after a lost confirm never matters in a reachable state
  (`StallGuardIsDead`); in page spacing the timer can do nothing while a block is unconfirmed, or
  once any other frame was heard since the page request (`StallsIff`, `StalledRun`).
- A page request is accepted without permission and its error answers count as delivered, as those
  past the end of the image do. The 16-bit counter then ends a page whose answers arrive if and only
  if the page size is not beyond the greatest value the counter can take in its steps
  (`RefusedPageEndsIff`, `MalformedPageEndsIff`); a refused page beyond it ends in no run
  (`RefusedPageNeverEnds`). So a page of 65535 bytes asked for in blocks of 40 (`RefusedRun`), or
  any page but an empty one asked for in blocks of 0, is refused without end.
- An abort does not last. A block request for another file, or one of an aborted node, is answered
  with ABORT, but the state that is set then is overwritten when the handler returns: the next block
  request for the right file is served if the update is permitted (`BlockRequestAnswered`). So does
  any block request, valid query or upgrade end lift the Abort click (`AbortedIff`); only the
  permission it withdrew stays withdrawn (`PermitMeansGranted`).
- The counter of missing acknowledgements is said to count consecutive ones, but a success does not
  reset it; only another kind of failure does. Over every run it is the number of misses since the
  last other failure, and the payload limit has fallen if and only if a miss was the fourth of these
  or that of a first block (`LimitFallsIff`). These are consecutive misses if and only if no success
  came in between (`ConsecutiveIff`); in `LimitFallsRun` the limit falls although no two misses
  follow each other.
- An update is permitted for a node, not for a file. The file that is offered is the one the user
  saw when clicking if and only if nothing was selected or loaded since, or the last of it was the
  same file (`OfferedAsPermittedIff`, `OtherFileRun`).
- The answer to a download that was given up can be stored as another file (`StoredWrong`; it is
  stored right exactly under the condition of `StoredRightIff`). A queue at work comes to rest with
  files left if and only if an index download failed meanwhile (`StopsEarlyIff`), which can be an
  earlier one that was given up long before (`StoppedRun`).
- The index lists files of any name, but only some names are parsed when the file is loaded
  (`UpdateFoundIff`). Under another name a fitting file is not used (`UnusedFile`). Under the name of
  a raw image it replaces the elements alone: the header and the image stay those of the file before
  it, and these are offered if it had an image (`LoadedImage`, `StaleFile`).

## Model

| member | source | states |
|---|---|---|
| `OtauFileObject.DataStream.ReadU32` | otau_file.cpp:155-175 | a stream read yields the next bytes, or 0 when it runs past the end; the cursor then stays at the end |
| `OtauFileObject.DataStream.ReadRaw` | otau_file.cpp:236-240 | a raw read that fits yields exactly those bytes and moves the cursor behind them |
| `OtauFileObject.OtauFile.ToArray` | otau_file.cpp:31-121 | packing recomputes the header length and total size in the object and returns the printed form of the file |
| `OtauFileObject.OtauFile.ComputeSizes` | otau_file.cpp:33-61 | only the two size fields change, to those of the optional fields and elements present |
| `OtauFileObject.OtauFile.PackElements` | otau_file.cpp:101-116 | the byte loop appends every element in order with tag, stated length and data |
| `OtauFileObject.OtauFile.FromArray` | otau_file.cpp:126-269 | the in-place reader leaves exactly the fields of the parser on values, also on each early failure |
| `OtauFileObject.OtauFile.ReadFixedHeader` | otau_file.cpp:155-175 | too small a header length stops after three fields and keeps the rest of the old file |
| `OtauFileObject.OtauFile.ReadOptionalHeader` | otau_file.cpp:178-203 | fields whose bit is clear keep their value; what the header length announces beyond the known fields is discarded |
| `OtauFileObject.OtauFile.ReadSubElements` | otau_file.cpp:207-260 | the element loop keeps the cursor at the processed length, so the remaining size never underflows, and collects the parsed elements |
| `OtauFileObject.OtauFile.ReadSubElement` | otau_file.cpp:213-251 | every iteration consumes input; the data of an element is cut only by the end of the array |
| `OtauFileObject.OtauFile.TakeRaw` | otau_file.cpp:267 | the served image is the array from the magic on, at most the declared total size of it |
| `FileProofs.FirstMagic` | otau_file.cpp:136-143 | the search finds the first place of the magic, or none if there is none |
| `FileProofs.LosslessWalk` | otau_file.cpp:211-260 | the kept elements, printed again, are the input bytes in order; only the last can be cut, only by the end of the input; at most one element header is left over unless the vendor stop fired |
| `FileProofs.WalkOfPrefix` | otau_file.cpp:211-260 | cutting the input behind the kept elements changes none of them |
| `FileProofs.WalkOfShortPrefix` | otau_file.cpp:211-260 | a cut that does not hold the kept elements parses to something else |
| `FileProofs.ElementsReadBack` | otau_file.cpp:101-116 | printed elements parse back behind any bytes, a truncated last one with its original length |
| `FileProofs.PrintedTotal` | otau_file.cpp:51-61 | the declared total size is the number of printed bytes |
| `FileProofs.RoundTrip` | otau_file.cpp:31-121 | over any previous contents, printing and parsing restores every header field, each optional field whose bit is set, all elements and the raw image, if and only if the file has the magic id and a non-empty list of elements of exact length, the last with data and perhaps stating more than it holds |
| `FileProofs.AcceptedShape` | otau_file.cpp:155-268 | every accepted array gives a file with the magic id and at least one element, exact but for a truncated last one |
| `FileAcceptance.AcceptedIff` | otau_file.cpp:126-268 | over any previous contents, an array is accepted if and only if it has at least 56 bytes and, at the first place of the magic, a stated header length of at least 56 and more than six bytes behind the longer of that length and the known fields |
| `FileAcceptance.SkippedBytes` | otau_file.cpp:136-153 | bytes before the first magic change nothing of what is read |
| `FileAcceptance.FieldsRead` | otau_file.cpp:155-203 | every header field is read from its place behind the magic, optional ones by their bits; too small a header length changes the first three fields only; the image runs from the magic on for the declared size |
| `FileAcceptance.WholeImageIff` | otau_file.cpp:267 | the image is as long as the file declares if and only if the array holds that much of it |
| `FileAcceptance.ElementsRead` | otau_file.cpp:211-251 | each element stands behind the header and the elements before it: tag, stated length, and as much data as is there |
| `FileAcceptance.ElementsEnd` | otau_file.cpp:253-260 | the elements end at most six bytes before the input does; those of one vendor where the declared total size is first reached |
| `FileProofs.SaveAndReload` | otau_file.cpp:126-269 | an accepted file survives saving and loading, but for the recomputed sizes, if and only if its last element has data |
| `FailingFiles.HollowFails` | otau_file.cpp:211-268 | 63 bytes that are accepted with an empty last element, do not survive saving, and whose served image is not read back |
| `FileProofs.ServedImageFixedPoint` | otau_file.cpp:253-267 | parsing the raw image gives the same header, elements and raw image if and only if the slice holds the last element whole, with data when it ends there |
| `LocalIndex.ParseOverwrites` | otau_file.cpp:155-175 | acceptance and the identifying header fields depend on the bytes alone, not on the file that is overwritten |
| `OtauPluginObjects.OtauNode.constructor` | otau_node.h:62-140 | a node starts idle, without data, permission, request id or image |
| `OtauPluginObjects.OtauNode.ApsdeDataRequest` | std_otau_plugin.cpp:1910-1917 | only a frame the stack takes changes the node: its request id and command are remembered |
| `OtauPluginObjects.OtauNode.AskBlock` | std_otau_plugin.cpp:1935-1975 | reading a block request replaces the request, forgets the awaited id and invalidates a pending upgrade end; an open version means the version of the file |
| `OtauPluginObjects.OtauNode.AskPage` | std_otau_plugin.cpp:2192-2249 | reading a page request starts an empty page with both retry counters cleared and the spacing clamped |
| `OtauPluginObjects.OtauNode.CopyData` | std_otau_plugin.cpp:2114-2117 | the byte loop copies exactly the requested slice of the captured image |
| `OtauPluginObjects.OtauNode.DataSize` | std_otau_plugin.cpp:2062-2098 | the size is the one of the specification function, whose bounds `BlockSizeBounds` gives |
| `OtauPluginObjects.OtauNode.ComposeBlock` | std_otau_plugin.cpp:2042-2125 | the answer and the remembered size or state agree with the specification on all five branches; the last truncation never acts |
| `OtauPluginObjects.OtauNode.ImageBlockResponse` | std_otau_plugin.cpp:1991-2150 | an unsent response keeps the awaited request; a sent one becomes the awaited one |
| `OtauPluginObjects.OtauNode.Credit` | std_otau_plugin.cpp:577-581 | a confirmed block moves page count, offset and sequence number on, each in its width |
| `OtauPluginObjects.StdOtauPlugin.constructor` | std_otau_plugin.cpp:295-330 | the plugin starts without nodes, with the normal payload limit and all timers stopped |
| `OtauPluginObjects.StdOtauPlugin.ApsdeDataIndication` | std_otau_plugin.cpp:405-521 | every frame is remembered by its command before its handler runs; a frame of no cluster does nothing else |
| `OtauPluginObjects.StdOtauPlugin.ApsdeDataConfirm` | std_otau_plugin.cpp:528-598 | only the awaited id acts, and never for an aborted node; success credits a block and goes on with the page, or ends the data after an upgrade end |
| `OtauPluginObjects.StdOtauPlugin.NoteFailedConfirm` | std_otau_plugin.cpp:544-571 | a failed confirm does to the counter and the limit of the object what the state machine does, which `LimitFallsIff` describes over every run |
| `NoAcks.LimitFallsIff` | std_otau_plugin.cpp:544-571 | in every run, the counter is the number of missing acknowledgements since the last other failure, modulo 256, and the limit is the safe one if and only if one of them was the fourth or later, or that of the first block of an image |
| `NoAcks.ConsecutiveIff` | std_otau_plugin.cpp:544-587 | in every run, these are consecutive missing acknowledgements if and only if no success came after one of them |
| `FailingRuns.LimitFallsRun` | std_otau_plugin.cpp:544-587 | a run whose limit falls although successes separate the missing acknowledgements |
| `OtauPluginObjects.StdOtauPlugin.ImageBlockRequest` | std_otau_plugin.cpp:1924-1985 | the device is tracked, the request read and answered, and the node waits for the confirm exactly if the answer was sent |
| `OtauPluginObjects.StdOtauPlugin.ImagePageRequest` | std_otau_plugin.cpp:2156-2255 | a page begins unless pages are disabled or the node is aborted, and then the page timer runs |
| `OtauPluginObjects.StdOtauPlugin.ImagePageResponse` | std_otau_plugin.cpp:2261-2329 | one try to serve the page: wait for a confirm, finish, keep the spacing, send, or count a failure |
| `OtauPluginObjects.StdOtauPlugin.QueryNextImageRequest` | std_otau_plugin.cpp:1737-1814 | malformed queries change nothing; others look for an update when there is no data and answer |
| `OtauPluginObjects.StdOtauPlugin.QueryNextImageResponse` | std_otau_plugin.cpp:1820-1918 | an offer captures the image and tracks the device, also when the stack then rejects the answer; a full tracker leaves the device unanswered |
| `OtauPluginObjects.StdOtauPlugin.UpgradeEndRequest` | std_otau_plugin.cpp:2335-2400 | a success of a device that fetched beyond the start ends data and permission; other ends keep both |
| `OtauPluginObjects.StdOtauPlugin.UnicastImageNotify` | std_otau_plugin.cpp:1571-1619 | firmware that cannot bear a notify gets none |
| `OtauPluginObjects.StdOtauPlugin.ImagePageTimerFired` | std_otau_plugin.cpp:800-866 | the loop serves every waiting node, gives up exhausted ones, and leaves the timer running exactly if some node was waiting |
| `OtauPluginObjects.StdOtauPlugin.CleanupTimerFired` | std_otau_plugin.cpp:871-905 | exactly the silent nodes with data lose it |
| `OtauPluginObjects.StdOtauPlugin.AbortClicked` | std_otau_widget.cpp:154-161 | permission is withdrawn and the node aborted |
| `OtauPluginObjects.StdOtauPlugin.UpdateClicked` | std_otau_widget.cpp:163-189 | the node is idle again; permission and a notify only if it has data |
| `OtauPluginObjects.StdOtauPlugin.FileSelectClicked` | std_otau_widget.cpp:191-233 | the file is replaced by what the load left; a failed load keeps the old data flag |
| `OtauPluginObjects.StdOtauPlugin.Handle` | std_otau_plugin.cpp:405-925 | any event, timer or new node advances the objects exactly as the state machine, with exactly its output: the theorems on runs hold for the objects |
| `PageHistory.BlockSizeBounds` | std_otau_plugin.cpp:2062-2105 | a block fits image, request, payload limit and vendor limit, and the page remainder where there is one (`BlocksBounded` says that there is); it is then empty only if nothing was asked for |
| `PageHistory.BlockResponseEffect` | std_otau_plugin.cpp:1991-2150 | a sent data block is the requested place of the captured image and its size is remembered; an unsent one changes at most size and state |
| `PageHistory.PageResponseKeeps` | std_otau_plugin.cpp:2261-2329 | one try keeps the page invariant, leaves the page, or counts exactly one failure |
| `PageInvariant.CreditKeeps` | std_otau_plugin.cpp:573-587 | a credit keeps the node invariant: the delivered bytes grow by exactly the block that was awaited |
| `PageInvariant.StepKeeps` | std_otau_plugin.cpp:405-598 | every event, whatever the stack does, keeps the node invariant and the payload limit, and sends at most one thing |
| `Runs.Reachable` | std_otau_plugin.cpp:405-925 | the invariant of all nodes, of the payload limit and of the tracker holds after every run |
| `Runs.PageDelivered` | std_otau_plugin.cpp:2261-2329 | in every run, a page answered with blocks has delivered exactly its stretch of the captured image, in order, despite failed sends, failed confirms and retransmissions; when the node waits for the next request it is the whole page |
| `Runs.PageTerminates` | std_otau_plugin.cpp:577-587 | in every run, a page whose counters cannot wrap is credited at most once per byte, also for error answers, and nothing is sent once it is done |
| `Runs.RetriesBounded` | std_otau_plugin.cpp:825-858 | in every run, the retry counters stay below ten and five, the first is 0 while a block is awaited, and at most two notifies are sent per page |
| `Retries.CountersAgree` | std_otau_plugin.cpp:2313-2326 | in every run, while a page is served the counters are the observed numbers: sends that failed since the last one that was taken, at most nine, and silences since the page request, at most four |
| `Retries.GivesUpIff` | std_otau_plugin.cpp:825-858 | in every run, a visit of the page timer makes a waiting node idle if and only if it is the tenth failed send in a row or the fifth silence |
| `Retries.TenRefusals` | std_otau_plugin.cpp:825-837 | ten visits at which the stack takes nothing end a page that was due |
| `Runs.InFlight` | std_otau_plugin.cpp:542-587 | in every run, the awaited id is that of the last reply, the booked size that of its data; nothing is credited twice; block k of a page and its retransmissions carry the sequence number of the request plus k |
| `Runs.BlocksBounded` | std_otau_plugin.cpp:2060-2119 | in every run, every data block lies in the image with its bytes, within request, vendor and payload limits, with permission and data present; on a page the remainder is at least one when it is computed for a block, and the block fits it |
| `Requests.BlockRequestAnswered` | std_otau_plugin.cpp:1924-1985 | in every run, read off the bytes of the request: an accepted block request gets exactly ABORT if and only if it names another file (version 0xFFFFFFFF names any) or the node was aborted, NO_IMAGE without permission or data, MALFORMED beyond the image, and otherwise the block of the asked place under the ids of the file, as long as request, image, vendor and payload limit allow |
| `Requests.PageAnswered` | std_otau_plugin.cpp:2261-2329 | in every run, the page timer and the confirms send exactly one such answer when a page is due, unless the stack rejects it or blocks of no data were asked for; if the page no longer names the node's file it is ABORT and the node aborted; when no page is due they send no block |
| `Requests.PageRequestAnswered` | std_otau_plugin.cpp:2156-2255 | in every run, a page request begins the page its bytes ask for, with a spacing from 20 to 500, unless pages are off, or the node was aborted, which is told by status 0x95 |
| `Requests.QueryRequestAnswered` | std_otau_plugin.cpp:1737-1918 | in every run, read off the bytes of the query: the image is offered, with manufacturer, type, version and total size of the node's file, if and only if the node was not aborted, the update is permitted and its image there and not empty, and the device is none of the old lamps; ABORT, NO_IMAGE or no answer exactly under the stated conditions; the image is captured and the device tracked exactly with an offer while a place is free |
| `Requests.EndAnswered` | std_otau_plugin.cpp:2335-2400 | in every run, an end request is answered with the upgrade time, which ends permission and data, if and only if it reports success beyond offset 0; otherwise with a default response, ABORT for a success |
| `Requests.SilenceAnswered` | std_otau_plugin.cpp:839-858 | in every run, an overdue device is reminded if and only if it was silent fewer than twice before, its firmware bears it and the stack takes it |
| `Requests.ClickAnswered` | std_otau_widget.cpp:163-189 | the Update click ends an abort; with data it permits and, firmware and stack permitting, notifies |
| `Requests.AbortedIff` | std_otau_plugin.cpp:1976-1985 | in every run, a node is aborted exactly by the Abort click or by an answer to a page of another file, and until the next block request, valid query, upgrade end or Update click |
| `Requests.DataIff` | std_otau_plugin.cpp:588-594 | which events decide whether a node has data, and how |
| `Requests.FileAfter` | std_otau_plugin.cpp:1785-1798 | the file after each event, with its elements: replaced by loads and selections, emptied by a query that finds none, an accepted end and a cleanup |
| `Requests.IdentityKept` | std_otau_plugin.cpp:1752-1776 | manufacturer, version, image type and reported end change with the requests that state them, and with nothing else |
| `Requests.KnownFromQuery` | std_otau_plugin.cpp:1762-1768 | in every run, manufacturer and version are those of the last valid query of the device, 0 before the first |
| `Requests.Awaits` | std_otau_plugin.cpp:528-598 | a reply the stack took is awaited until its confirm, a new request or an overdue page; sequence numbers follow the requests and go up by one with each credit |
| `Runs.LimitNeverRises` | std_otau_plugin.cpp:553-565 | in every run, the payload limit is 82 or 57 and never rises |
| `Runs.StepShared` | std_otau_plugin.cpp:2251-2254 | one event marks at most its own device, lowers or keeps the limit, never stops the page timer, and runs it if a page starts |
| `Consent.StepRights` | std_otau_plugin.cpp:2370-2385 | exactly an Update click with data grants, exactly an Abort click or an accepted upgrade end revokes |
| `Consent.StepImage` | std_otau_plugin.cpp:1871-1873 | exactly a query answered with the image replaces the captured image |
| `Consent.PermitMeansGranted` | std_otau_widget.cpp:154-189 | in every run, permission stands if and only if the last Update click that found data is not revoked since |
| `Consent.ImageMeansCaptured` | std_otau_plugin.cpp:1871-1873 | in every run, the captured image is that of the latest query answered with an image |
| `Consent.BlocksConsented` | std_otau_plugin.cpp:2055-2119 | in every run, every data block was consented to, and its bytes are those of the image captured at the latest offer |
| `Consent.OffersConsented` | std_otau_plugin.cpp:1856-1880 | in every run, every offer was consented to, captures the image and leaves the device tracked |
| `Consent.FileSince` | std_otau_widget.cpp:191-233 | in every run, the file of a node is, but for its elements, the last one selected or loaded for it |
| `Consent.OfferedAsPermittedIff` | std_otau_plugin.cpp:1871-1880 | in every run, the offered file, whose image is captured, is the one at the permitting click if and only if nothing was selected or loaded since, or the last of it was the same |
| `FailingRuns.OtherFileRun` | std_otau_plugin.cpp:1871-1880 | a run that offers a file selected after the click, under the click made for another one |
| `Timers.StrandsIff` | std_otau_plugin.cpp:813-816 | waiting nodes are stranded if and only if the page timer fires while the server is switched off |
| `Timers.NoStrandedNode` | std_otau_plugin.cpp:818-866 | while the server stays on, in every run, any waiting node finds the page timer running |
| `Timers.TimerStartsIff` | std_otau_plugin.cpp:2285-2299 | a stopped page timer is started exactly by an accepted page request and by a confirm after which a page is done or has to wait |
| `Timers.StallGuardIsDead` | std_otau_plugin.cpp:1999-2009 | in every run, every event does the same whatever the ten-second clock says |
| `Timers.HeardIsRemembered` | std_otau_plugin.cpp:405-521 | in every run, the command remembered of a device is that of the last frame observed from it, frames outside the cluster included |
| `Timers.StallsIff` | std_otau_plugin.cpp:2269-2283 | in every run, the timer is powerless for a node in page spacing if and only if a block is unconfirmed or another frame was heard |
| `FailingRuns.StrandedRun` | std_otau_plugin.cpp:813-816 | a run that strands a node |
| `FailingRuns.StalledRun` | std_otau_plugin.cpp:2279-2283 | a run that sends the first block of a page, after which the page timer can do nothing |
| `ServedPages.PageCompletes` | std_otau_plugin.cpp:2261-2329 | a permitted page inside the image whose answers are taken and confirmed is whole after at most one answer per byte left |
| `ServedPages.PageCompletesInRun` | std_otau_plugin.cpp:2261-2329 | the same in every run of one node that comes to such a page |
| `ServedPages.PageRequestServes` | std_otau_plugin.cpp:2156-2255 | a permitted page request for the node's file, inside the image, begins such a page |
| `PageExchange.RunFollows` | std_otau_plugin.cpp:573-587 | the exchange of answers and confirms is what happens in the run, output by output |
| `WrappingCounter.ReachesIff` | std_otau_plugin.cpp:579-579 | a 16-bit counter in equal steps from any count gets as far as a size if and only if that is not beyond the last value that differs from the count by a multiple of the lowest bit of the step; and then in fewer steps than the wrap |
| `ErrorPages.ExchangeCounts` | std_otau_plugin.cpp:2055-2124 | on a page answered with errors each confirmed one steps the counter and sends the next one, until the counter gets as far as the page size |
| `ErrorPages.RefusedPageEndsIff` | std_otau_plugin.cpp:2285-2294 | a refused page whose answers are taken and confirmed ends if and only if its size is at most the greatest value of its counter: from the start of a page, 65536 less the largest power of two dividing the maximal data size |
| `ErrorPages.MalformedPageEndsIff` | std_otau_plugin.cpp:2121-2125 | a page past the end of the image, from any count, ends within 65536 such answers if and only if its size is at most the greatest value of its counter |
| `ErrorPages.ErrorPageGoesOn` | std_otau_plugin.cpp:2055-2059 | beyond that every confirm is followed by another error: without end on a refused page, until the offset wraps on one past the end |
| `ErrorPages.RefusedPageNeverEnds` | std_otau_plugin.cpp:2285-2294 | in every run, whatever sends and confirms fail, a page beyond it never comes to its end while the node stays refused and no other page begins |
| `ErrorPages.PageRequestBegins` | std_otau_plugin.cpp:2156-2255 | a page request for the node's file is accepted without permission or data |
| `FailingRuns.RefusedRun` | std_otau_plugin.cpp:2156-2255 | a run after which, however long the stack takes and confirms, the next answer is another error |
| `EndToEnd.WireRoundTrip` | std_otau_plugin.cpp:2079-2117 | a device reads the block that was written, in 14 bytes and its data |
| `EndToEnd.CalmKeepsServing` | std_otau_plugin.cpp:405-598 | events that leave permission, data and file alone keep the node serving its file |
| `EndToEnd.BlockAnswered` | std_otau_plugin.cpp:1924-1985 | a serving node answers with at least one byte of the asked place, and with an error beyond the end |
| `EndToEnd.DeviceCollects` | std_otau_plugin.cpp:1924-2150 | whatever else happens and is lost, a device that asks on from what it has collects a growing prefix of the image, one byte per answer at least |
| `EndToEnd.DeviceHasTheFile` | otau_file.cpp:126-269 | after as many answers as the image has bytes it is complete, and parses to the server's file exactly when the slice holds the last element |
| `EndToEnd.OfferServes` | std_otau_plugin.cpp:1871-1880 | a query answered with the image leaves the node serving its file |
| `EndToEnd.OfferNamesTheFile` | std_otau_plugin.cpp:1871-1880 | in every run, an offer carries ids, version and total size of the node's file, and a device asks for that file exactly when it names what was offered |
| `EndToEnd.OfferedImageArrives` | std_otau_plugin.cpp:1737-2150 | from the start of any run: once the image was offered, and unless it is aborted, replaced, cleaned up or ended, a device collects exactly a prefix of it, and all of it after as many answers as it has bytes |
| `EndToEnd.DeviceCanFetch` | std_otau_plugin.cpp:1924-1985 | from every serving state any number of requests can be answered, so the device can get there |
| `Tracking.MarkKeepsValid` | std_otau_plugin.cpp:1301-1329 | marking keeps at most four distinct devices with the timer running; the device is tracked exactly if it was or a place is free |
| `Tracking.TickKeepsValid` | std_otau_plugin.cpp:907-925 | a tick keeps the tracker valid and stops the timer exactly when the tracker is empty |
| `Tracking.AlwaysValid` | std_otau_plugin.cpp:907-925 | the tracker is valid after every sequence of marks and ticks |
| `Tracking.StaleEntryRemoved` | std_otau_plugin.cpp:907-925 | a device that stays silent is gone after four ticks, whatever the others do |
| `Tracking.HeartbeatEffect` | std_otau_plugin.cpp:1301-1329 | activity refreshes the entry of its device, or adds one while there are fewer than four, and changes no other |
| `Tracking.TickEffect` | std_otau_plugin.cpp:907-925 | a tick drops the first entry silent for more than ten seconds, and no other |
| `Tracking.EntriesCurrent` | std_otau_plugin.cpp:1313-1316 | whatever happens, every entry carries the time when its device was last heard |
| `Tracking.ActiveStaysTracked` | std_otau_plugin.cpp:907-925 | a tracked device heard in the ten seconds before every tick stays tracked, with its latest time |
| `Activity.TrackerFollows` | std_otau_plugin.cpp:1301-1329 | in every run, the tracker is what block requests, page requests, offering queries and the ticks of its timer make of it |
| `Activity.UpgradeKeepsPlace` | std_otau_plugin.cpp:907-925 | in every run, an upgrade whose requests come in the ten seconds before every tick keeps its place, whatever other devices do |
| `Tracking.ActivityTracker.MarkOtauActivity` | std_otau_plugin.cpp:1301-1329 | the search loop refreshes or adds exactly the entry of the device |
| `Tracking.ActivityTracker.ActivityTimerFired` | std_otau_plugin.cpp:907-925 | the search loop erases exactly the first stale entry |
| `Downloads.SwapRemoveDropsFront` | std_otau_plugin.cpp:1219-1222 | moving the back over the front drops exactly the front |
| `Downloads.Reachable` | std_otau_plugin.cpp:932-1299 | in every run, late callbacks included: queued hashes are distinct, the queue holds exactly the files its log leaves waiting, the timer runs unless the queue rests, a file is asked for again only when its request ended, and leaves only into the store or after two requests that ended unanswered |
| `Downloads.TwoRequestsPerFile` | std_otau_plugin.cpp:1209-1217 | in every run, at most two requests each time a file is queued |
| `Downloads.Drains` | std_otau_plugin.cpp:1202-1229 | whatever calls back, a queue at work is empty and at rest after at most as many ticks as its measure says, unless an index download fails |
| `Downloads.WorkingFetches` | std_otau_plugin.cpp:1202-1229 | in every run, a queue that is at work is one that drains |
| `Downloads.StopsEarlyIff` | std_otau_plugin.cpp:927-1229 | in every run that goes on with as many ticks as the measure of a queue at work, it comes to rest, and when it first does files are left if and only if an index download failed while files were queued |
| `Downloads.StoppedRun` | std_otau_plugin.cpp:927-944 | a run in which the failure of an index download that was given up stops the queue with two files left |
| `Downloads.ObjectsFound` | std_otau_plugin.cpp:1080-1097 | exactly the objects of the remote index are found, in order, if no separator has an opening brace and no object a closing one inside |
| `Downloads.StoredRightIff` | std_otau_plugin.cpp:1266-1299 | in every run, arriving data is stored as the file it was asked for if and only if that is the file of the last request |
| `Downloads.StoredWrong` | std_otau_plugin.cpp:1266-1299 | a run in which the answer for one file is stored as another |
| `DownloadProgress.KindsKnown` | std_otau_plugin.cpp:1013-1043 | exactly the kinds of nodes that told their manufacturer are known, each once |
| `DownloadProgress.CollectAdds` | std_otau_plugin.cpp:1110-1194 | the index adds, behind what is queued, one file with address, hash and name of the first useful entry of each hash, and leaves no useful entry unqueued |
| `DownloadProgress.ClickStarts` | std_otau_plugin.cpp:1467-1488 | in every run, a click starts a queue at rest and changes no other |
| `DownloadProgress.IndexRequestedIff` | std_otau_plugin.cpp:962-994 | in every run, the index is asked for if and only if it has an address and is out of date |
| `DownloadProgress.IndexUsedIff` | std_otau_plugin.cpp:1232-1264 | in every run, an awaited index is processed, with the timer running, if and only if it arrived, has more than 512 bytes and was saved; otherwise the queue rests |
| `DownloadProgress.LateIndex` | std_otau_plugin.cpp:932-944 | in every run, a late index changes nothing and a late failure lets the queue rest |
| `DownloadProgress.IndexAdds` | std_otau_plugin.cpp:1000-1200 | in every run, the processed index queues what it adds and goes on to the files, or rests if no node is known or nothing is queued |
| `DownloadProgress.FrontRequestedIff` | std_otau_plugin.cpp:1202-1222 | in every run, the front is asked for if and only if its log has fewer than two requests since it was queued, and given up otherwise |
| `DownloadProgress.FileStoredIff` | std_otau_plugin.cpp:1266-1299 | in every run, data is stored exactly when it arrives while a file is awaited, kept beyond 512 bytes, and exactly the front leaves |
| `DownloadProgress.WaitingEnds` | std_otau_plugin.cpp:1224-1229 | in every run, a tick gives up an awaited index, and the request of an awaited file but not the file |
| `DownloadProgress.EveryFileRequested` | std_otau_plugin.cpp:1202-1229 | in every run with ticks enough and no failing index download, every queued file is asked for under its own address |
| `DownloadProgress.NewFileRequested` | std_otau_plugin.cpp:960-1229 | from any queue at rest: click, refresh, success and a tick whose index holds a useful file that is not queued lead to that file being queued and asked for |
| `Downloads.Downloader.DownloadTimerFired` | std_otau_plugin.cpp:960-1230 | a tick does to the object what it does to the value, in each of the six states |
| `Downloads.Downloader.ProcessIndexFile` | std_otau_plugin.cpp:1000-1200 | the loops over nodes, the text of the index and the queue add each wanted file once, in index order |
| `Downloads.Downloader.ReadObjects` | std_otau_plugin.cpp:1072-1196 | the scan of the index text collects what its readable objects ask for |
| `Downloads.Downloader.CollectEntry` | std_otau_plugin.cpp:1110-1194 | an entry is queued exactly if its kind is known, it is readable, not local and not queued |
| `Downloads.Downloader.DownloadIndexCallback` | std_otau_plugin.cpp:1232-1264 | the object does what the value does, which `IndexUsedIff` and `LateIndex` describe |
| `Downloads.Downloader.DownloadOtaFileCallback` | std_otau_plugin.cpp:1266-1299 | data is handed to the store as the front, which leaves the queue; a failure is left to the timer |
| `Downloads.Downloader.Handle` | std_otau_plugin.cpp:927-1299 | any event does to the object what it does to the value: the theorems on runs hold for the object |
| `JsonText.NumberRead` | std_otau_plugin.cpp:216-236 | a number is read back behind its key and a colon, with blanks between or without, if some character of the key did not occur before |
| `RemoteIndex.ObjectRead` | std_otau_plugin.cpp:1080-1130 | from an object with these keys, each number, the address and the hash are read from behind their own key |
| `RemoteIndex.IndexRead` | std_otau_plugin.cpp:1040-1130 | an index of such objects is read back, entry by entry, whatever stands between them without an opening brace |
| `LocalIndex.NumbersReadBack` | std_otau_plugin.cpp:216-236 | whatever the path contains, version, manufacturer and image type of a written line are read back |
| `LocalIndex.PathReadBackIff` | std_otau_plugin.cpp:238-270 | the path of a written line is read back if and only if it has no quote, no leading blank and less than 2048 characters |
| `LocalIndex.SizeReadBack` | std_otau_plugin.cpp:1431-1458 | the size of the file stands behind its key |
| `LocalIndex.HashReadBack` | std_otau_plugin.cpp:1431-1458 | the digits of the hash stand between the quotes behind their key |
| `LocalIndex.HexInjective` | std_otau_plugin.cpp:1432-1443 | the digits determine the hash |
| `LocalIndex.HexAt` | std_otau_plugin.cpp:1432-1443 | the two lower-case digits of each byte stand in its place, the high one first |
| `LocalIndex.TrimStrips` | std_otau_plugin.cpp:678-680 | blanks around a line do not matter |
| `LocalIndex.EntriesAreListed` | std_otau_plugin.cpp:1389-1429 | every entry is that of a listed file that can be parsed, and no two entries have the same hash |
| `LocalIndex.ParsedFilesAreIndexed` | std_otau_plugin.cpp:1402-1429 | every listed file that can be parsed is in the index under its hash |
| `LocalIndex.OfferIff` | std_otau_plugin.cpp:684-726 | any line, written by the program or not, is offered if and only if it is an object of that manufacturer and type, of a higher version, whose file exists |
| `LocalIndex.SelectsFirstFit` | std_otau_plugin.cpp:676-730 | reading the written index selects the first entry for manufacturer and type with a higher version whose file exists, or none if there is none |
| `LocalIndex.UpdateFoundIff` | std_otau_plugin.cpp:652-740 | while the indexed files stay as they are, a node without data gets an update that is for it and newer if and only if some entry fits and the first that does has the name of an update file, or the left-over header fits; and the file the node is left with is what loading that entry gives |
| `LocalIndex.OtherNamesFail` | otau_file_loader.cpp:19-84 | under any other name nothing is loaded, or only elements under the old header and image |
| `LocalIndex.NamesLoaded` | otau_file_loader.cpp:42-84 | names ending in .zigbee, .ota.signed, .ota, .OTA or .sbl-ota are parsed, those ending in .bin or .GCF are wrapped |
| `LocalIndex.OtherNames` | otau_file_loader.cpp:77-84 | no other name is loaded |
| `LocalIndex.Wrapped` | otau_file_loader.cpp:42-75 | the bytes of the wrapping: offset 0, length, image, 0x77 and a zero |
| `LocalIndex.LoadedImage` | otau_file_loader.cpp:19-84 | a load that succeeds leaves the image in the new bytes under the name of an update file, and the image of the file before under the name of a raw image |
| `FailingFiles.UnusedFile` | otau_file_loader.cpp:77-84 | the only fitting file, under the name u.fw2, is offered by the index and leaves the node without data |
| `FailingFiles.StaleFile` | otau_file_loader.cpp:42-76 | under the name u.bin it leaves the node with data, but with the header and image of the file before |
| `LocalIndex.CreateLocalFileIndex` | std_otau_plugin.cpp:1341-1464 | the loops over files, entries and lines write the index of the listed files |
| `LocalIndex.SelectUpdateFile` | std_otau_plugin.cpp:676-730 | the line loop returns the selection of the specification function |

## Left out

- Addresses: nodes are routed by their place in the list; lookup by address, address changes, endpoints and profile ids are not modelled.
- Display: offsets, status texts, elapsed times, table model, widgets, debug output and actor messages.
- Image notify: only whether one is handed to the stack; its frame and jitter, the match descriptor, node events and broadcast notifies are not modelled.
- Upgrade end requests sent by the server itself: nothing emits them.
- Hardware versions of queries: stored, but used by nothing that is modelled.
- Files, network and SHA-512: a map from path to bytes, arbitrary callbacks, and an opaque function.
- The OTA server switch is an input of each page timer tick; that the Update click sets it is not modelled.
- The cleanup timer: it may fire at any time; when it is armed is not modelled.
- Download file names are kept as their parts; the digits they are composed of are not modelled.
- The string stream (`U_sstream_*`) is not part of this model: a search for the first place of a text, a decimal read that skips blanks and ends at the first other character, and blanks as space, tab, newline and carriage return are assumed.
- Text encoding of the local index: characters are written and read unchanged.
- Rebuilding the local index after a download: building it is modelled, that the callback calls it is not.
- RemoteIndex.ObjectRead: states the round trip for objects whose keys come in the order of the local index; a key that stands in a text before its own place, as in a file name, is found there.
- PageTerminates: states a sufficient condition on page size and maximal data size that holds for every mixture of answers; the exact one is stated for refused pages and, as long as the 32-bit offset does not wrap, for pages past the end (`RefusedPageEndsIff`, `MalformedPageEndsIff`).
- WireRoundTrip: only the block response is modelled down to its bytes; the other frames are values.
- Time: seconds of the tracker are natural numbers; every other clock is an arbitrary boolean.
