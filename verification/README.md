# Verified model of the data-channel acceptance harness

A Dafny 4.11 model of the parts of the baresip data-channel acceptance suite whose
correctness every verdict rests on, with proofs of what they promise.

* **The network impairer** of the harness TURN server: a connection object that drops,
  reorders, duplicates and delays datagrams deterministically and counts what it does.
  `TurnServer.dfy` is the object itself, with its byte arrays, queue and counters;
  `Impairment.dfy` is its meaning as a state machine with 64-bit wrap-around;
  `StreamTransformer.dfy` proves that an error-free run refines filter, then swap neighbours,
  then duplicate, and `FailingRuns.dfy` what every run refines, whichever reads fail;
  `BoundedReordering.dfy`, `ImpairmentLaws.dfy`, `Counters.dfy`, `ExactCounts.dfy` and
  `Pacing.dfy` prove what follows for order, counters and time, and `Filters.dfy` says of the
  settings, sizes and numbers alone which packets pass.
* **The transcript oracles**: `Hex.dfy`, `Transcript.dfy` (records and the two comparisons),
  `Calibration.dfy` (injected violations), `Manifests.dfy` (per-channel manifests of a
  product scenario, event reading, parallel associations) and `Foundation.dfy` (numbering and
  canonical sorting of two interleaved directions). SHA-256 is a function parameter about
  which nothing is assumed, so every statement holds for any digest.
* **The resource-trend analysis** of the lifecycle campaign: `Resources.dfy`.
* **The SDP rewriters**: `Text.dfy` (the Python string operations, and that rendered text
  reads back as its lines), `BundleExpansion.dfy` (section 7.1.3 of RFC 9143, with sections
  as objects that are reached by position and by mid), `ApplicationAttributes.dfy` (sections
  5.1 and 5.2 of RFC 8864) and `Candidates.dfy` (the in-place relay filter and the host filter).
* `Wrappers.dfy` and `Selections.dfy` hold what several modules share, the latter what it
  means to pick elements of a list in order. Filters, extractions and insertions are stated in
  those terms, by position and with the literal texts of the source, and not through the
  functions that compute them.

The network is the list of inputs that reads will still produce (`PacketConn.pending`); an
exhausted list behaves like a closed socket. `time.Sleep` adds to a ghost total. The object is
used by one reader, as in the server. Failure texts are kept as data instead of rendered
strings, and Python exceptions are result values.

Three behaviours differ from what a reader would expect, and are proved as they are:

* `minAppliedDelayMillis` uses 0 for "nothing recorded", so a wait below a millisecond is
  forgotten when a longer one follows. `Pacing.MinimumCounter` says exactly when the counter
  is the minimum, and `Pacing.LowestIsRecent` that it is always the minimum of the recent
  waits, those counted after the last wait below a millisecond. `Pacing.VariationCheck` says
  exactly when the acceptance rule "minimum below maximum" holds: when some recent wait is
  shorter than some counted wait. `Pacing.VariationMissed` is a run of two packets, of one and
  six bytes at 16 kbit/s, that waits for 0.5 and for 3 milliseconds and fails the rule.
* `calibrate` accepts any transcript except for two degenerate ones: a first digest that
  already is sixty-four zeros, and equal first records. `Calibration.EscapesExactlyWhen`
  proves that there are no others.
* A member of a BUNDLE group that has a bare `a=setup` or `a=fingerprint` line, without a
  value, is taken to have the attribute and gets no line for it.
  `BundleExpansion.MemberHasAttribute` proves that this is the only way in which a member can
  stay without one that the tag section has, and `BundleExpansion.BareSetupIsKept` gives an
  example.

## Model

| member | source | states |
|---|---|---|
| TurnServer.PacketConn.ReadFrom | pion-endpoint/cmd/turn-server/main_test.go:18-25 | a read takes the next input and copies the bytes that fit |
| TurnServer.CopyPacket | pion-endpoint/cmd/turn-server/main.go:126-133 | the packet owns a fresh copy of the first n bytes and knows whether they are channel data |
| TurnServer.ReturnPacket | pion-endpoint/cmd/turn-server/main.go:135-137 | the caller gets as many bytes of the packet as fit, and its address |
| TurnServer.ImpairedPacketConn.ReadPacket | pion-endpoint/cmd/turn-server/main.go:63-78 | a successful read is counted, with its size and the largest size; a failing one changes no counter |
| TurnServer.ImpairedPacketConn.Delay | pion-endpoint/cmd/turn-server/main.go:83-97 | the wait with every 64-bit wrap, and which of jitter and bandwidth took part |
| TurnServer.ImpairedPacketConn.Pause | pion-endpoint/cmd/turn-server/main.go:80-120 | only a positive wait sleeps and moves the delay counters; the new state in full |
| TurnServer.ImpairedPacketConn.NextPacket | pion-endpoint/cmd/turn-server/main.go:139-171 | the loop refines `Fetch`: the next packet past both filters, or the read error, in the same new state |
| TurnServer.ImpairedPacketConn.ReadFrom | pion-endpoint/cmd/turn-server/main.go:173-228 | one call refines `Serve`: same bytes, address or error, same queue, counters and network, and queued packets share nothing with the caller's buffer |
| TurnServer.ImpairedPacketConn.Overtake | pion-endpoint/cmd/turn-server/main.go:195-223 | the reordering branch refines `LookAhead`, with its own scratch buffer |
| TurnServer.ImpairedPacketConn.EnqueuePair | pion-endpoint/cmd/turn-server/main.go:215-221 | after a swap the queue is the copy of the overtaking packet, then all copies of the overtaken one |
| TurnServer.ImpairedPacketConn.Snapshot | pion-endpoint/cmd/turn-server/main.go:230-239 | reports the counters unchanged, with durations in milliseconds truncated towards zero |
| TurnServer.ReadMany | pion-endpoint/cmd/turn-server/main.go:126-228 | over any number of calls, with buffers that the caller overwrites with arbitrary bytes before each call and may use again, the object computes `Run`: no queued byte changes |
| Impairment.ChannelDataPrefix | pion-endpoint/cmd/turn-server/main.go:122-124 | the bit test holds exactly for payloads of four bytes or more that start with 0x40 to 0x7f |
| Filters.ArrivalsAreNumbered | pion-endpoint/cmd/turn-server/main.go:139-148 | what arrives are the datagrams of the network in their order, cut to the buffer, each with the number after the one before |
| Filters.RunNumbers | pion-endpoint/cmd/turn-server/main.go:147-148 | the arrivals of a run are numbered from 1 |
| Filters.RunFilters | pion-endpoint/cmd/turn-server/main.go:149-168 | over every run with equal buffers an arrival survives if and only if it is at most `mtu` long, or there is no MTU, and its number is no multiple of `dropEvery`, or that is 0 |
| Filters.DropCounters | pion-endpoint/cmd/turn-server/main.go:149-168 | `MTUDropped` is the number of arrivals longer than `mtu`; `Dropped` is the number of the others whose number is a multiple of `dropEvery` |
| Filters.NothingAboveMtu | pion-endpoint/cmd/turn-server/main.go:149-228 | with an MTU nothing longer is ever delivered or queued, whatever the buffers |
| StreamTransformer.FetchYields | pion-endpoint/cmd/turn-server/main.go:139-171 | a fetch reads a prefix of the network whose only survivor, if any, is the packet it returns |
| StreamTransformer.ServeYields | pion-endpoint/cmd/turn-server/main.go:173-228 | a call reads a prefix of the network whose survivors are exactly the packets it took |
| StreamTransformer.ServeTransforms | pion-endpoint/cmd/turn-server/main.go:173-228 | what a successful call delivers and queues is what swapping and duplicating make of the packets it took, whatever follows |
| StreamTransformer.Refinement | pion-endpoint/cmd/turn-server/main.go:126-228 | over every error-free run with equal buffers, delivered packets followed by the queue are the filtered, pairwise swapped and duplicated prefix of the network that was read |
| BoundedReordering.SwapExchangesNeighbours | pion-endpoint/cmd/turn-server/main.go:195-222 | swapping is an involution that moves each packet at most one place; only selected packets move back, and none with a successor stays |
| BoundedReordering.CopiesStayTogether | pion-endpoint/cmd/turn-server/main.go:215-227 | all copies of a packet are one block of the output |
| BoundedReordering.BoundedDisplacement | pion-endpoint/cmd/turn-server/main.go:185-227 | in every error-free run each survivor comes out at most one place from where it went in, twice exactly when its number is a multiple of `duplicateEvery`, and nothing else comes out |
| ImpairmentLaws.AccountBooks | pion-endpoint/cmd/turn-server/main.go:63-120 | one arrival keeps every channel-data counter within its total and moves the survivors by one exactly when it passes |
| ImpairmentLaws.ServeConserves | pion-endpoint/cmd/turn-server/main.go:173-228 | one call keeps the books, leaves at most three packets queued, and delivers, queues or loses everything it took |
| ImpairmentLaws.Conservation | pion-endpoint/cmd/turn-server/main.go:63-78 | on every run, failing reads included: delivered + queued + lost = read - MTU drops - drops + duplicates, and `ReadPackets` is the sequence number |
| Counters.AccountCounts | pion-endpoint/cmd/turn-server/main.go:98-166 | an arrival moves each of nine counters by one exactly when it fits the counter's description |
| Counters.ArrivalCounters | pion-endpoint/cmd/turn-server/main.go:63-166 | on every run each of nine counters is the number of packets read that fit its description |
| Counters.SizeCounters | pion-endpoint/cmd/turn-server/main.go:69-75 | on every run of any length `ReadBytes` is the total size of the packets read modulo 2^64, and `MaxDatagramSize` the largest size |
| Counters.DuplicateCounters | pion-endpoint/cmd/turn-server/main.go:185-213 | on every run the duplicate counters are the numbers of selected survivors, and of those with channel data |
| Counters.ReorderCounters | pion-endpoint/cmd/turn-server/main.go:195-214 | in an error-free run the reorder counters are the numbers of exchanged pairs, and of those with channel data |
| FailingRuns.PlayWithoutFailures | pion-endpoint/cmd/turn-server/main.go:195-223 | where no read fails, pairing reads is greedy swapping, save that a selected packet left alone at the end is lost |
| FailingRuns.PlayKeeps | pion-endpoint/cmd/turn-server/main.go:195-223 | pairing brings every packet of the stream out once or loses it once |
| FailingRuns.FailingRefinement | pion-endpoint/cmd/turn-server/main.go:173-228 | over every run with equal buffers, failing reads included, delivered packets followed by the queue are the paired and duplicated reads; the copies thrown away are those of selected packets followed by a failed read or by the end of the network |
| FailingRuns.SurvivorsPlayed | pion-endpoint/cmd/turn-server/main.go:173-228 | on every run the survivors are, each once, the packets that come out and those that are lost |
| FailingRuns.FailingReorderCounters | pion-endpoint/cmd/turn-server/main.go:195-214 | on every run, failing reads included, the reorder counters are the numbers of exchanged pairs, and of those with channel data |
| ExactCounts.CommonMultiples | pion-endpoint/cmd/turn-server/main.go:159-186 | a number is dropped although it was to be duplicated exactly when the least common multiple divides it |
| ExactCounts.DropAndDuplicateCounts | pion-endpoint/cmd/turn-server/main.go:147-213 | without MTU limit `Dropped` = S div D and `Duplicated` = S div U - S div lcm(D,U) after S packets, even when reads fail |
| ExactCounts.ReorderBound | pion-endpoint/cmd/turn-server/main.go:195-214 | on every run `Reordered` is at most S div R, and at most half the survivors |
| ExactCounts.ReorderCount | pion-endpoint/cmd/turn-server/main.go:195-222 | with nothing dropped and no error `Reordered` = S div R and S is no multiple of R for R >= 2, and S div 2 with S even for R = 1 |
| Pacing.RunTicks | pion-endpoint/cmd/turn-server/main.go:80-120 | on every run sleep and delay counters are those of the survivors in order of arrival, whatever is reordered or duplicated |
| Pacing.WaitIsExact | pion-endpoint/cmd/turn-server/main.go:83-97 | for datagrams up to 65535 bytes and delays below 146 years no 64-bit step wraps |
| Pacing.WaitFormula | pion-endpoint/cmd/turn-server/main.go:83-97 | the wait is delay + ((n mod (2J+1)) - J) ms + 8 * size * 10^9 / bandwidth nanoseconds, with J the jitter in whole milliseconds |
| Pacing.TransmissionIsExact | pion-endpoint/cmd/turn-server/main.go:92-96 | the 64-bit product of the bandwidth delay does not overflow for any UDP datagram |
| Pacing.PacingBound | pion-endpoint/cmd/turn-server/main.go:91-119 | without jitter n packets sleep their fixed delays plus the time the bandwidth allows for their bytes, less than n nanoseconds short of it |
| Pacing.RunPacing | pion-endpoint/cmd/turn-server/main.go:91-119 | the pacing bound for the total sleep of every run |
| Pacing.JitterIsBijective | pion-endpoint/cmd/turn-server/main.go:85-89 | over 2J+1 consecutive numbers the offset takes every value from -J to J exactly once |
| Pacing.WindowSum | pion-endpoint/cmd/turn-server/main.go:86-87 | the remainders of any full window sum to the same value |
| Pacing.OffsetsSumToZero | pion-endpoint/cmd/turn-server/main.go:85-89 | the jitter offsets of any full window of consecutive numbers sum to zero, negative waits or not |
| Pacing.JitterCancels | pion-endpoint/cmd/turn-server/main.go:83-97 | a full window with no negative wait sleeps exactly its fixed delays and transmission times |
| Pacing.RunJitter | pion-endpoint/cmd/turn-server/main.go:83-119 | in every run jitter cancels in each full window of survivors with consecutive numbers |
| Pacing.RunDelayCounters | pion-endpoint/cmd/turn-server/main.go:110-116 | on every run the minimum and maximum counters are computed from the counted waits of the survivors |
| Pacing.MinimumCounter | pion-endpoint/cmd/turn-server/main.go:111-113 | the minimum counter is the minimum if and only if no wait below a millisecond was counted or the last one was |
| Pacing.RecentWaits | pion-endpoint/cmd/turn-server/main.go:111-113 | the recent waits are those after the last wait below a millisecond |
| Pacing.LowestIsRecent | pion-endpoint/cmd/turn-server/main.go:111-113 | the minimum counter is always the minimum of the recent waits |
| Pacing.MaximumCounter | pion-endpoint/cmd/turn-server/main.go:114-116 | the maximum counter is the maximum |
| Pacing.VariationCheck | acceptance/product.py:349-354 | minimum below maximum if and only if some recent wait is shorter than some counted wait |
| Pacing.VariationSeen | acceptance/product.py:349-354 | minimum below maximum proves that two waits differed, and detects every difference when no wait was below a millisecond |
| Pacing.VariationMissed | acceptance/product.py:349-354 | a run whose waits are 0.5 and 3 milliseconds, counted as 0 and 3, reports a minimum and a maximum of 3 |
| Resources.AnalyzeResources | acceptance/product.py:1542-1573 | over the samples with a non-negative cycle, in their order, each metric has a row from its own field: last value, largest value, its excess over the baseline, slope, and the slope times the number of cycles if that is positive |
| Resources.CyclesExactly | acceptance/product.py:1547-1547 | the readings analysed are the samples with a non-negative cycle, in their order |
| Resources.CyclesOfCycles | acceptance/product.py:1547-1547 | removing the samples with a negative cycle first changes nothing |
| Resources.AllAreCycles | acceptance/product.py:1547-1547 | where no cycle is negative all samples are analysed |
| Resources.Peak | acceptance/product.py:1566-1568 | the peak is a largest value, or the baseline when there is none |
| Resources.DenominatorClosedForm | acceptance/product.py:1549-1550 | the denominator is n(n^2-1)/12 |
| Resources.FittedIsOrthogonal | acceptance/product.py:1554-1562 | the errors of the line through the means with that slope are orthogonal to the centred indices |
| Resources.LeastSquares | acceptance/product.py:1547-1562 | no line has a smaller squared error, and no other line has the same |
| Resources.SlopeIsWeightedMean | acceptance/product.py:1552-1562 | the slope is the mean of the steps between cycles with weights (k+1)(n-1-k) |
| Resources.SlopeBetweenSteps | acceptance/product.py:1552-1562 | the slope lies between the smallest and the largest step |
| Resources.LeakIsProjected | acceptance/product.py:1570-1572 | a leak of at least d in every cycle is projected as at least d*n |
| Resources.ProjectionIsBounded | acceptance/product.py:1570-1572 | growth of at most d >= 0 in every cycle is projected as at most d*n |
| Hex.RoundTrip | acceptance/model.py:50-50 | decoding encoded bytes gives the bytes |
| Hex.EncodedDigits | acceptance/model.py:50-50 | two lower-case digits a byte, the high one first |
| Hex.DecodeExactly | acceptance/product.py:166-166 | text without white space decodes to the bytes it spells with digits of either case, and to nothing when it spells none |
| Hex.DecodeSpace | acceptance/product.py:166-166 | white space before a byte is skipped, inside a byte it is an error |
| Hex.EncodeIsInjective | acceptance/model.py:50-50 | equal hexadecimal texts come from equal payloads |
| Transcript.RecordDeterminesMessage | acceptance/model.py:29-51 | records with the same labels are equal exactly when type and payload are, for any digest |
| Transcript.CompareOrdered | acceptance/model.py:63-79 | the ordered comparison passes if and only if the lists are equal, and reports the failures of the specification |
| Transcript.OrderedReport | acceptance/model.py:66-76 | the report is the two lengths, sent first, if they differ, followed by exactly the positions at which both lists have a record and the records differ, in order, with what was sent as expected and what was received as actual |
| Transcript.DifferencesAreTrue | acceptance/model.py:71-76 | only differing positions are reported, in increasing order, with both records |
| Transcript.DifferencesAreComplete | acceptance/model.py:71-76 | every differing position is reported |
| Transcript.CompareUnordered | acceptance/model.py:82-110 | the unordered comparison passes if and only if the multisets of keys are equal |
| Transcript.UnorderedDifferenceIsExact | acceptance/model.py:97-106 | missing and unexpected are disjoint and turn what was sent into what was received |
| Transcript.OrderedPassImpliesUnorderedPass | acceptance/model.py:63-110 | an ordered pass is an unordered pass |
| Calibration.Inject | acceptance/oracle.py:13-30 | the changed copy for each violation, and the two errors |
| Calibration.ViolatedExactly | acceptance/oracle.py:21-29 | the four changed copies: first digest zeroed, last record removed, last record twice, first two records exchanged |
| Calibration.EscapesExactlyWhen | acceptance/oracle.py:22-38 | an injected violation escapes exactly for a zero first digest or equal first records |
| Calibration.Calibrate | acceptance/oracle.py:33-40 | for every transcript the error raised, said by the transcript alone, or the dictionary returned |
| Calibration.CalibrationReport | acceptance/oracle.py:33-40 | the returned dictionary: 1, 1, 1 and 2 failures for corrupt, omit, duplicate and reorder, each spelled out |
| Calibration.UnorderedAcceptsOnlyReorder | tests/test_oracle.py:41-51 | the unordered comparison accepts reordering and no other violation that changes anything |
| Manifests.RecordsCalibrate | acceptance/product.py:142-159 | calibrating with the records of one channel returns the full report exactly when there are two of them and the first digest is not all zeros; otherwise the error it raises |
| Manifests.RecordsExactly | acceptance/product.py:142-159 | every field of every record of a channel, numbered from 1 |
| Manifests.ManifestRun | acceptance/product.py:866-879 | all records of a manifest have the scenario's name as run, its peer in the direction, and the association "baresip" |
| Manifests.RecordsAreInjective | acceptance/product.py:142-159 | a channel's records determine its messages |
| Manifests.OrderedManifestsExact | acceptance/product.py:866-881 | the ordered comparison of two manifests passes exactly when the same channels were used in the same order with the same messages in the same order |
| Manifests.PerChannelExact | acceptance/product.py:866-881 | with the same channels collected in the same order it passes exactly when every channel received what was sent on it |
| Manifests.CountInManifest | acceptance/product.py:866-881 | a key occurs in a manifest as often as its message occurs on its channel |
| Manifests.UnorderedManifestsExact | acceptance/product.py:866-881 | the unordered comparison passes exactly when every channel received the same messages equally often |
| Manifests.ScenarioReport | acceptance/product.py:880-881 | what was expected is compared with what was received: the ordered report, or for every message on every channel how many are missing and how many are unexpected |
| Manifests.ReceivedValuesAreWanted | acceptance/product.py:162-170 | the values are those of the message events on the channel, or of all message events when no channel is named, in their order; reading fails exactly when the text of one of them is malformed |
| Manifests.ReceivedValuesExact | acceptance/product.py:162-170 | reading a channel's events gives exactly the messages that arrived on it, however channels interleave |
| Manifests.ParallelPayloadsExactly | acceptance/product.py:184-191 | each payload follows the index of the peer in two bytes, the high one first; larger indices are an error |
| Manifests.NoCrossTalk | acceptance/product.py:184-191 | no message of one parallel association equals one of another |
| Manifests.ParallelPayloadsAreInjective | acceptance/product.py:184-191 | within an association the prefixed messages determine the originals |
| Foundation.NumberReceipts | acceptance/scenario.py:158-193 | counting the records already received numbers every receipt with the next number of its direction |
| Foundation.NumberedContents | acceptance/scenario.py:174-193 | the records are exactly the n-th receipts of a direction with number n |
| Foundation.BuildSent | acceptance/scenario.py:117-133 | numbering the sent messages by type is numbering them per direction |
| Foundation.SortSorts | acceptance/scenario.py:195-196 | sorting gives a sorted permutation |
| Foundation.SortedIsUnique | acceptance/scenario.py:195-196 | with one record for each place there is only one sorted order |
| Foundation.CanonicalComparison | acceptance/scenario.py:158-198 | for any two interleavings the sorted comparison passes if and only if each direction carries the same list |
| Foundation.SortedIsCanonical | acceptance/scenario.py:158-196 | the sorted list has exactly the n-th note of each direction as record n, ordered by number and then "aiortc-to-chromium" before "chromium-to-aiortc" |
| Foundation.CompareTranscripts | acceptance/scenario.py:117-198 | the transcript passes if and only if each endpoint received the labels, types and payloads sent to it, in order; what is reported is the whole comparison of the records sent, as expected, with those received, as actual, both in canonical order |
| Text.BreaksAre | acceptance/aiortc_endpoint.py:19-19 | the ten line breaks |
| Text.SplitAtBreak | acceptance/aiortc_endpoint.py:19-19 | each of them ends a line, and a carriage return with a line feed is one break |
| Text.ReplaceOther | acceptance/aiortc_endpoint.py:19-19 | normalisation changes nothing but carriage returns before line feeds |
| Text.SpacesAre | acceptance/aiortc_endpoint.py:26-26 | the white space at which fields are split |
| Text.FieldsExactly | acceptance/aiortc_endpoint.py:26-26 | fields are the longest stretches without white space |
| Text.ContainsExactly | acceptance/aiortc_endpoint.py:18-18 | a text contains another when it occurs at some position |
| Text.BeforeExactly | acceptance/aiortc_endpoint.py:64-64 | the part before the first colon, or the whole line |
| Text.LinesOfRendered | acceptance/aiortc_endpoint.py:78-83 | rendered lines read back as the same lines, save an invisible empty one |
| Text.RenderIsStable | acceptance/aiortc_endpoint.py:18-83 | taking rendered text apart and rendering it again changes nothing |
| BundleExpansion.ExpandBundle | acceptance/aiortc_endpoint.py:16-83 | splitting, indexing by mid and inserting in place through aliases computes `Expand`, repeated mids included |
| BundleExpansion.SplitSections | acceptance/aiortc_endpoint.py:20-32 | the parsing loop builds group, session and section lists |
| BundleExpansion.IndexSections | acceptance/aiortc_endpoint.py:37-50 | the dictionary refers to the very section objects |
| BundleExpansion.BundleExactly | acceptance/aiortc_endpoint.py:24-26 | the group is what the last line starting with "a=group:BUNDLE " lists |
| BundleExpansion.MidExactly | acceptance/aiortc_endpoint.py:37-50 | a section's mid is what follows "a=mid:" in its first line with that start |
| BundleExpansion.ByMidExactly | acceptance/aiortc_endpoint.py:37-50 | a mid finds the last section that has it, and only non-empty mids are found |
| BundleExpansion.FillMembers | acceptance/aiortc_endpoint.py:60-76 | after all in-place insertions each selected section was filled once and the others not at all |
| BundleExpansion.FillIsIdempotent | acceptance/aiortc_endpoint.py:64-76 | filling a filled section adds nothing |
| BundleExpansion.FlattenParsed | acceptance/aiortc_endpoint.py:24-32 | splitting loses and moves no line |
| BundleExpansion.ParseFlattened | acceptance/aiortc_endpoint.py:24-32 | joined sections are split again where they were joined |
| BundleExpansion.ExpansionKeepsStructure | acceptance/aiortc_endpoint.py:55-80 | the group, the session lines, the sections, their media lines and their mids stay the same |
| BundleExpansion.MembersAreComplete | acceptance/aiortc_endpoint.py:55-76 | a selected section has every attribute name of the tag; added are exactly the tag's lines whose names it lacked, after its first mid line; other sections are untouched |
| BundleExpansion.MembersExactly | acceptance/aiortc_endpoint.py:55-76 | a selected section is given, after its first "a=mid:" line, exactly the tag's "a=setup:" lines if it states no setup and its "a=fingerprint:" lines if it states no fingerprint, in their order; nothing else is inserted anywhere |
| BundleExpansion.LinesOfMember | acceptance/aiortc_endpoint.py:55-76 | after expansion its "a=setup:" lines are all the tag's, in their order, if it stated none, and otherwise its own; the same for fingerprints |
| BundleExpansion.MemberHasAttribute | acceptance/aiortc_endpoint.py:64-76 | where the tag has such a line, a selected section ends up with one if and only if it had one or has no bare line with just the attribute's name |
| BundleExpansion.BareSetupIsKept | acceptance/aiortc_endpoint.py:64-76 | an SDP whose second member has a bare "a=setup" line and is left without a setup value |
| BundleExpansion.ExpandedText | acceptance/aiortc_endpoint.py:78-83 | the text that comes out reads back as the session lines followed by the expanded sections |
| BundleExpansion.ExpandedTextIsComplete | acceptance/aiortc_endpoint.py:16-83 | taken apart again, that text has the same group, mids and tag attributes, and every selected section has all attribute names of the tag |
| BundleExpansion.ExpandIsIdempotent | acceptance/aiortc_endpoint.py:16-83 | expanding twice is expanding once, as text |
| ApplicationAttributes.ApplicationLines | acceptance/aiortc_endpoint.py:92-100 | the loop extracts the selected lines of the application sections |
| ApplicationAttributes.ExtractExactly | acceptance/aiortc_endpoint.py:90-100 | extracted are exactly the lines in application sections that start with "a=", a name and a colon, in their order |
| ApplicationAttributes.FindInsertion | acceptance/aiortc_endpoint.py:107-116 | the loop finds the end of the first application section, or that there is none |
| ApplicationAttributes.FirstEndIsExact | acceptance/aiortc_endpoint.py:107-116 | the insertion point ends a section that starts at the first application line and reaches to the next media line or the end |
| ApplicationAttributes.FirstSectionIsUnique | acceptance/aiortc_endpoint.py:107-116 | and nothing else is a first application section |
| ApplicationAttributes.CopyApplicationAttributes | acceptance/aiortc_endpoint.py:86-124 | the function computes `Copy`, early returns included |
| ApplicationAttributes.NoApplicationSection | acceptance/aiortc_endpoint.py:109-116 | the target is returned unchanged for want of a section exactly when it has no application section |
| ApplicationAttributes.InsertedAttributes | acceptance/aiortc_endpoint.py:117-120 | read back: what the first section had, the missing attributes in source order, what later sections had |
| ApplicationAttributes.CopySelects | acceptance/aiortc_endpoint.py:86-124 | the text that comes out: the offered attributes that the target does not hold, in the order of the source and as often as they occur there, at the end of the first application section; or the target itself |
| ApplicationAttributes.CopyInserts | acceptance/aiortc_endpoint.py:86-124 | read back, the result is the target's lines with exactly the missing attributes at the end of its first application section, and nothing else changed |
| ApplicationAttributes.CopyExact | acceptance/aiortc_endpoint.py:86-124 | for one application section reading the result back gives the old attributes followed by exactly the missing ones in source order |
| ApplicationAttributes.NothingIsLost | acceptance/aiortc_endpoint.py:86-124 | every selected attribute of the source can be read from the result |
| ApplicationAttributes.CopyIsIdempotent | acceptance/aiortc_endpoint.py:86-124 | copying twice is copying once, as text |
| Candidates.CompactRelay | pion-endpoint/main.go:150-158 | compacting into the array being read overwrites no unread line and leaves the filtered lines in front |
| Candidates.RelayOnlySDP | pion-endpoint/main.go:148-160 | the function computes `RelayOnly` |
| Candidates.RelaySelects | pion-endpoint/main.go:148-160 | the lines that stay are exactly those that are no "a=candidate:" line or have " typ relay " between blanks, in their order |
| Candidates.FilterCounts | pion-endpoint/main.go:151-158 | a kept line keeps all its occurrences, any other none |
| Candidates.FilterOrder | pion-endpoint/main.go:151-158 | lines keep their order |
| Candidates.RelayLines | pion-endpoint/main.go:148-160 | the result splits into exactly the kept lines with their own terminators |
| Candidates.RelayUnchangedExactly | pion-endpoint/main.go:148-160 | the text is left alone exactly when every candidate in it is a relay candidate |
| Candidates.RelayIsIdempotent | pion-endpoint/main.go:148-160 | filtering twice is filtering once |
| Candidates.PrimaryHostSDP | acceptance/product.py:236-255 | the loop with its counter computes `HostOnly`, the error included |
| Candidates.HostSelects | acceptance/product.py:236-255 | the lines that stay are exactly those that are no "a=candidate:" line or have eight fields with the address fifth and "host" eighth, in their order; an error when no candidate stays |
| Candidates.HostOnlyIsIdempotent | acceptance/product.py:236-255 | succeeds exactly when the address has a host candidate; then only such candidates are left and filtering again changes nothing |

## Left out

- Sockets, `turn.NewServer`, signals, flags and JSON output of the TURN server, and the mutex: one reader is assumed, as `ready` and `sequence` are used without it.
- Refinement: is stated for runs whose buffers have one length, as are the laws over runs of `FailingRuns`, `Counters`, `BoundedReordering` and `Pacing`, because with other lengths what survives depends on which call reads a packet. The object itself, `Conservation` and `ExactCounts` are proved for any buffers, with truncation.
- Conservation: assumes fewer than 2^64 packets, as do all counter laws but `SizeCounters`; after that the sequence number returns to zero and the counts restart. `Refinement` and `FailingRefinement` need no such bound.
- ReorderCounters: is the error-free form of `FailingReorderCounters`, said without failed reads.
- ReorderCount: states the exact count only for streams without drops, since with drops it depends on which numbers are dropped; `Counters.ReorderCounters` covers those.
- Inject: violation names are constructors, and any other name is one more constructor.
- AnalyzeResources: takes floating-point arithmetic as exact, and samples as records that have every key.
- CompareTranscripts: the deterministic payload is a function parameter, and the scenario's media, transport and evidence checks are not part of it.
- ReceivedValuesExact: events are records with their fields, so missing keys in event dictionaries are not modelled.
- CompareOrdered: the texts of failures are not rendered.
- All asyncio orchestration, process supervision, browser, aiortc and Pion session code: its behaviour lives in libraries and real time.
- `PartialReliabilityDropper`: it rests on a packet parser of aiortc that is not part of this model.
- Evidence, build manifest and release audit: file and subprocess handling with conjunctions of verdicts.
- `relay_candidate_failures`, `impairment_failures`, `check_transport`, `check_sdp`, `Envelope.validate`, `exception_verdict`, `dcep_open`, `send_turn_mtu_probe`: flat branch lists and short encoders.
