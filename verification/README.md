# SkyEye: a verified model of its air picture and radio link

SkyEye is a ground-controlled intercept bot. It keeps a database of radar contacts, collects them into
groups, watches for merges, threats and fades, and talks over the SimpleRadio Standalone (SRS) voice
protocol. This Dafny project models the logic behind that and proves what it guarantees.

`dafny verify dfyconfig.toml` checks everything.

## What is modelled

| file | what it models |
|---|---|
| `Tracks.dfy` | trackfiles: a contact's labels and its last four frames, speed, track validity |
| `Grouping.dfy` | the recursive walk that grows a group from a seed |
| `Enumeration.dfy` | collecting a coalition's contacts into groups; when the groups are disjoint |
| `Merges.dfy` | the radar's search for hostile groups near other contacts |
| `MergeTracker.dfy` | the nested map of merged pairs |
| `MergeTick.dfy` | the controller's update of the tracker for one group |
| `MergeProtocol.dfy` | a whole merge tick, and runs of ticks, removals and resets |
| `MergeBoundary.dfy` | merged pairs at exactly 5 NM: which pictures keep them in every tick |
| `MergeExamples.dfy` | pictures at the limits of the merge rule |
| `MergeSeparation.dfy` | what happens between two reports of one pair; removals over runs |
| `Broadcasts.dfy` | who is addressed in a call |
| `VoicePackets.dfy` | the SRS voice packet codec: encoder, decoder, round trip |
| `WireFormat.dfy` | where every byte of a voice packet is |
| `Receiver.dfy` | the receiver of one radio and its runs |
| `Transmission.dfy` | framing and numbering of outgoing audio; end to end |
| `Threats.dfy` | THREAT calls and cooldowns |
| `Altitudes.dfy` | altitude STACKS and BRAA altitude |
| `ThreatRank.dfy` | the threat comparison and the rank behind it |
| `ThreatSort.dfy` | the sort of groups by threat: quicksort with insertion sort and heap sort |
| `Picture.dfy` | what the comparison sees of a group, and the top three of a PICTURE |
| `Contacts.dfy` | the contact database with its callsign index, updates, garbage collection |
| `Fades.dfy` | the fade pipeline and the handling of faded contacts |
| `Bearings.dfy` | bearing normalization, compass directions, target aspect |

Conventions. Floating-point numbers are reals, except on the wire, where a frequency is a 64-bit
pattern. The geographic distance, the square root, the midpoint, the aircraft encyclopedia, the Opus
compressor, the radio client's list of who is on frequency, the callsign parser and the fuzzy search are
parameters; a theorem that needs a law of one
of them (a symmetric distance, say) asks for it. Iteration over a Go map is a list of its keys in
arbitrary order, chosen anew each time, so every theorem holds for every order. The database that a
search runs on is a value: the picture is frozen during a search, as a snapshot of it. Locks are atomic
steps. The clock is an integer that never goes back. Lengths are metres, altitudes feet, times
nanoseconds. Integer wrap-around is written out where the source can wrap.

## Main results

- **Grouping is reachability.** The recursive walk, in any iteration order, returns exactly the contacts
  reachable from the seed by the directed link relation, each once (`FindGroupForAircraft`). Spelt out by
  tags, it is the least set that holds the seed and every neighbour whose wings and role fit
  (`GroupByTags`).
- **Disjoint groups, exactly when.** Groups of a coalition are disjoint in every iteration order if and
  only if neighbours accept each other mutually (`DisjointIffMutual`); they are then connected
  components and their sizes add up to the number of valid contacts. An aircraft of unknown type beside
  a known one is enough to make groups overlap (`UnknownTypeOverlaps`). Among known aircraft, one role
  tag each is not enough without a wing tag (`WingTagMatters`), but every entry in
  `pkg/encyclopedia/aircraft.go` has a wing tag.
- **Merging is a hysteresis automaton.** One tick, whatever the grouping, overlap and order, sets every
  engaged pair by the rule "under 3 NM, or merged before and under 5 NM" (`HysteresisAutomaton`). At
  exactly 5 NM that fails: the pair is kept by every tick if and only if the hostile is in company that
  can be read off the picture (`KeptAtFiveMiles`); `FiveMilesDependsOnCompany` shows both outcomes.
- **Two reports mean a parting.** Over every run, between two reports of one pair lies a tick at 5 NM or
  more, a tick with one of the two untracked or unlocated, a removal of one of them, or a reset, provided
  the two keep their labels and the hostile is not a known helicopter (`ReportsArePartings`). For
  helicopters it holds if and only if no chain of aircraft types leads from one without a wing tag to a
  helicopter (`AlwaysPartedIffNoDraws`). As every shipped entry has a wing tag, the program as shipped
  meets it for all pairs (`WingTaggedIsParted`).
- **Removals forget.** No ID is ever on both sides of the merge tracker in a run from the empty one, so
  `remove` leaves no trace of an ID (`RemovalForgets`), although it would in other states
  (`RemoveForgets`).
- **The codec round-trips.** A packet from the constructor can be encoded exactly if it fits its 16-bit
  length, and then decodes to itself with any bytes after it (`ConstructedRoundTrip`). Decoding succeeds
  on exactly the inputs that `Acceptable` describes, wrap-around included (`Decode`). Every byte has its
  place, numbers little-endian (`LayoutIsOnTheWire`, `DecodedSegments`, `DecodedFixed`).
- **End to end.** A transmission is framed, numbered, encoded, decoded and buffered packet for packet,
  exactly if the 64-bit packet counter does not wrap inside it (`TransmissionArrives`).
- **The receiver conserves.** Its buffer is the strict left-to-right maxima of the first speaker since
  the last reset; over every run, arrivals are split in order into fair batches and the rest
  (`ReceiverConserves`). A check closes a transmission exactly if no input waits and more than 300 ms have
  passed since the last packet kept (`CheckCloses`).
- **Threat calls are rationed.** Every call names an ID rested for a whole cooldown, so a window of one
  cooldown holds at most as many calls as hostile IDs (`CallsPerWindow`).
- **Stacks are exact and optimal** (`StacksAreLayers`, `StacksAreOptimal`), and stacking the tops again
  keeps them (`RestackKeepsTops`).
- **Fades are conserved** over every interleaving of receipts, delayed appends and checks
  (`PipelineConserves`). A check hands over all pending fades exactly if more than 15 s have passed since
  the last receipt (`CheckHandsOver`), and every tracked faded contact is reported in a group
  (`HandleFaded`).
- **Live contacts are found** under their callsigns over every run in which nothing else takes the callsign
  (`LiveIsFound`), and **callsign lookups are right** over every run with consistent labels (`ConsistentRunIsRight`); a set
  keeps them right under an exact condition (`SetKeepsIndexRight`), and a reused ID breaks them
  (`ReusedIdIsMisfound`).
- **PICTURE respects rank** although its comparison is not transitive (`CompareIsNotTransitive`): the
  library's sort leaves any number of groups sorted by rank, whatever its pivots (`SortByThreat`), so no
  group left out is of a better class than one in the top three, and among up to twelve groups none is a
  higher threat than the one before it (`GetPicture`). Who is the higher threat is spelt out by distance,
  radius and altitude (`CompareByTiers`).

## Where the code and its documentation differ

The model follows the code.

- A merge is left at more than 5 NM in the controller (`pkg/controller/merged.go:184`), while the radar
  stops reporting it at 5 NM or more (`pkg/radar/merged.go:71`).
- The merge search is documented for fixed-wing groups and one coalition; it excludes helicopters only as
  seeds and takes contacts of every other coalition (`pkg/radar/merged.go:14`).
- `collectFaded` speaks of 10 seconds and waits 15 (`pkg/radar/faded.go:22-39`).
- The packet comments place the unit ID 58 bytes before the end; it is 57, after one unused zero byte
  (`pkg/simpleradio/voice/packet.go:63`).
- `remove` in the merge tracker would leave an ID in other rows if it also had a row of its own
  (`pkg/controller/merged.go:76`); no run of the protocol gets there.
- The first frame of a new contact is dropped (`pkg/radar/radar.go:272-275`).
- `Speed` returns the greater of ground speed and true speed; the true speed is never smaller
  (`pkg/trackfiles/trackfile.go:213`).

## Model

| member | source | states |
|---|---|---|
| `Tracks.Trackfile.Update` | pkg/trackfiles/trackfile.go:80-90 | the track becomes the old one with the frame in front, unless the frame is older than the newest; at most four frames stay |
| `Tracks.LatestIsMaximum` | pkg/trackfiles/trackfile.go:80-111 | after any offers, the last known frame was offered and carries the largest time ever offered |
| `Tracks.HistoryIsRecords` | pkg/trackfiles/trackfile.go:80-90 | after any offers, the track is exactly the last four frames that were at least as recent as everything before them, newest first |
| `Tracks.TimeDelta` | pkg/trackfiles/trackfile.go:172-193 | the denominator of both speed divisions is at least a millisecond |
| `Tracks.SpeedIsTrueSpeed` | pkg/trackfiles/trackfile.go:163-217 | the speed squared is ground speed squared plus vertical speed squared, and it is never below the ground speed |
| `Tracks.SpeedIsDistanceOverTime` | pkg/trackfiles/trackfile.go:163-217 | ground speed times the time between the two newest frames, plus a millisecond, is the distance of their points; speed times that time is their distance in space |
| `Tracks.ValidIsMoving` | pkg/radar/radar.go:315-323 | a track is valid iff it is located and its two newest frames are farther apart in space than 50 knots reach in their time |
| `Grouping.ObjectIDs` | pkg/radar/group.go:280-287 | exactly the contacts' IDs, strictly ascending if no contact repeats |
| `Grouping.Iterate` | pkg/radar/contacts.go:130-139 | every key once, in an arbitrary order |
| `Grouping.AddNearbyAircraftToGroup` | pkg/radar/grouping.go:69-115 | terminates; the group only grows, by contacts reachable from the seed; the expanded aircraft and every contact added have all their links inside |
| `Grouping.WalkIsClosure` | pkg/radar/grouping.go:69-115 | a group whose members are all expanded is exactly the set reachable from its seed |
| `Grouping.FindGroupForAircraft` | pkg/radar/grouping.go:45-60 | a located seed gets exactly its reachable contacts without duplicates; an unlocated one stays alone; no aircraft gives no group |
| `Grouping.GroupPoint` | pkg/radar/group.go:245-252 | midpoints folded over the contacts in order |
| `Grouping.GroupIsOrderIndependent` | pkg/radar/grouping.go:45-115 | two walks from one seed report the same IDs whatever the iteration orders |
| `Grouping.MembersAreAlike` | pkg/radar/grouping.go:62-103 | every other member is a valid track of the seed's coalition and, if known, of its category; it is within 5 NM of a member and has the tag that member asks for |
| `Grouping.LinksByTags` | pkg/radar/grouping.go:69-115 | a link, by tags: same coalition, valid track, under 5 NM, wings that fit the seed, and the role that the aircraft asks for, Fighter before Attack before Unarmed |
| `Grouping.GroupByTags` | pkg/radar/grouping.go:45-115 | the IDs of a group are the least set that holds the seed and, with an aircraft, every neighbour linked to it by tags |
| `Grouping.CentreIsTrail` | pkg/radar/group.go:245-252 | the centre is the last of a trail of midpoints with one step for each contact |
| `Enumeration.EnumerateGroups` | pkg/radar/grouping.go:14-42 | the groups are the closures of the seeds met in some iteration order of the database |
| `Enumeration.SeedsAreNew` | pkg/radar/grouping.go:18-21 | no seed lies in an earlier group |
| `Enumeration.CoveredIffValid` | pkg/radar/grouping.go:23-38 | a contact is in some group exactly if it is of the coalition and its track is valid |
| `Enumeration.GroupIsComponent` | pkg/radar/grouping.go:69-115 | with mutual links, a group is the group of each of its members |
| `Enumeration.MutualLinksSuffice` | pkg/radar/grouping.go:14-42 | with mutual links, the groups of every order are pairwise disjoint |
| `Enumeration.OneWayStaysOneWay` | pkg/radar/grouping.go:70-103 | a one-way link between two contacts cannot be undone by a detour |
| `Enumeration.OverlapWithoutMutualLinks` | pkg/radar/grouping.go:14-42 | a one-way link makes the groups of some order overlap |
| `Enumeration.DisjointIffMutual` | pkg/radar/grouping.go:14-42 | the groups are disjoint in every order if and only if links between valid contacts are mutual |
| `Enumeration.SizesAddUp` | pkg/radar/grouping.go:14-42 | disjoint groups hold as many contacts as the coalition has valid ones |
| `Enumeration.WellTaggedIsMutual` | pkg/radar/grouping.go:70-103 | one role tag and a wing tag per aircraft make links mutual |
| `Enumeration.WingTagMatters` | pkg/radar/radar.go:325-340 | one role tag per aircraft alone does not: with an entry that lacks a wing tag, which no shipped one does, two fighters form overlapping groups |
| `Enumeration.UnknownTypeOverlaps` | pkg/radar/grouping.go:70-103 | in every encyclopedia, an aircraft of unknown type beside a fixed-wing one with a role makes groups overlap |
| `MergeTracking.MergeTracker.constructor` | pkg/controller/merged.go:21-25 | no pair |
| `MergeTracking.MergeTracker.Merge` | pkg/controller/merged.go:27-37 | exactly the pair is added; no row is empty |
| `MergeTracking.MergeTracker.IsMerged` | pkg/controller/merged.go:39-49 | true exactly for the pairs held |
| `MergeTracking.MergeTracker.FriendliesMergedWith` | pkg/controller/merged.go:51-60 | exactly the hostile's partners, each once |
| `MergeTracking.MergeTracker.Separate` | pkg/controller/merged.go:62-74 | exactly the pair is removed; no row is left empty |
| `MergeTracking.MergeTracker.Remove` | pkg/controller/merged.go:76-91 | an ID with a row loses the row; any other ID leaves all rows; no row is left empty |
| `MergeTracking.RemoveForgets` | pkg/controller/merged.go:76-91 | no pair mentions the ID afterwards, if and only if it did not have both a row and a place in another row |
| `MergeTracking.RemoveForgetsWhenDisjoint` | pkg/controller/merged.go:76-91 | with disjoint hostile and friendly IDs, no pair mentions the ID afterwards |
| `MergeTracking.MergeTracker.Keep` | pkg/controller/merged.go:93-102 | exactly the pairs with a kept hostile stay |
| `MergeTracking.MergeTracker.Reset` | pkg/controller/merged.go:104-108 | no pair is left |
| `Merges.MergesForContact` | pkg/radar/merged.go:57-76 | exactly the located contacts of other coalitions under 5 NM; nothing for an unlocated contact |
| `Merges.FoesOfGroup` | pkg/radar/merged.go:38-44 | exactly the contacts near some member |
| `Merges.GroupWithFoes` | pkg/radar/merged.go:37-44 | the closure of the hostile, with each contact near a member once |
| `Merges.MemberReach` | pkg/radar/merged.go:37-44 | what a member of a reported group would reach as a seed is in that group, so visited hostiles need no group of their own |
| `Merges.FindMerges` | pkg/radar/merged.go:14-55 | every reported group is the closure of an eligible hostile with exactly the contacts near it, at least one, marked as a threat and FURBALL; every eligible hostile whose closure is near a contact is in a reported group |
| `MergeTick.UpdateMergesForContact` | pkg/controller/merged.go:166-197 | the pair is merged afterwards by the hysteresis rule, nothing else changes, and the result tells whether it was newly merged |
| `MergeTick.SeparateOthers` | pkg/controller/merged.go:144-148 | a hostile's pairs are cut down to the given contacts |
| `MergeTick.UpdateMergesForGroup` | pkg/controller/merged.go:134-164 | the nested-map update equals the fold of the rule over the group on plain pairs, missing hostiles included, and reports the new merges |
| `MergeTick.GroupStepPairs` | pkg/controller/merged.go:134-164 | on a frozen picture, handling a group applies the rule once to each pair of its hostiles and changes no other pair |
| `MergeTick.GroupStepReports` | pkg/controller/merged.go:156-161 | the reports of a group are distinct and exactly its pairs that were not merged before and are now |
| `MergeTick.MissingHostile` | pkg/controller/merged.go:150-154 | a hostile missing from the picture keeps no pair, and exactly which other pairs go with it |
| `MergeTick.MissingIsForgotten` | pkg/controller/merged.go:134-164 | after a group is handled, no member that is missing from the picture has a pair |
| `MergeTick.CountMerges` | pkg/controller/merged.go:210-214 | the number of merged pairs with a hostile of the list |
| `MergeTick.FillInMergeDetails` | pkg/controller/merged.go:209-219 | the group gets the number of merged pairs of its members, and is a FURBALL if there is one |
| `MergeProtocol.HostileIDs` | pkg/controller/merged.go:114-117 | exactly the IDs in reported groups |
| `MergeProtocol.BroadcastMerges` | pkg/controller/merged.go:110-132 | a tick: for some grouping into closures of eligible hostiles that misses none, a pair is merged afterwards exactly if its hostile is reported, the contact is near every reported group of it, and the rule keeps it; reports are exactly the new pairs, once each; for each group, in order, one MERGED call names exactly the friendlies of its reports that can be addressed, if any |
| `MergeProtocol.SettlePair` | pkg/controller/merged.go:120-131 | handling one more, possibly overlapping, group keeps the tick's formula for a pair |
| `MergeProtocol.EngagedIsEligible` | pkg/radar/merged.go:23-35 | which contacts the search starts from: red against blue, located, not tagged as a helicopter without fixed wings |
| `MergeProtocol.HysteresisAutomaton` | pkg/controller/merged.go:110-197 | for an engaged pair not at exactly 5 NM: merged afterwards iff under 3 NM, or merged before and under 5 NM; reported iff newly under 3 NM |
| `MergeProtocol.ExactlyFiveMiles` | pkg/radar/merged.go:70-73 | at exactly 5 NM, for given reported groups: merged afterwards iff merged before, reported, and every reported group of the hostile has a member inside 5 NM of the contact |
| `MergeBoundary.KeptAtFiveMiles` | pkg/radar/merged.go:14-76 | a merged pair at exactly 5 NM is kept by every tick iff some eligible hostile reaches the hostile and has a member of its closure inside 5 NM of the contact, and so has every one whose closure is near anything |
| `MergeBoundary.CompleteRows` | pkg/radar/merged.go:18-53 | any reported groups can be completed to a full report, each time from a hostile that no earlier group holds |
| `MergeExamples.FiveMilesDependsOnCompany` | pkg/controller/merged.go:182-197 | two pictures with one merged pair at exactly 5 NM: alone it is dropped by every tick, with a wingman it is kept |
| `MergeProtocol.TrackedPairsAreClose` | pkg/controller/merged.go:110-197 | after a tick only located opposing pairs within 5 NM are merged, and reported ones are under 3 NM |
| `MergeProtocol.MergedUntilBroken` | pkg/controller/merged.go:76-197 | over any run, a merged pair stays merged until a tick at 5 NM or more or without an engagement, a removal touching it, or a reset |
| `MergeProtocol.ReportsAreSeparated` | pkg/controller/merged.go:110-197 | between two reports of one pair there is such a step |
| `MergeProtocol.ReportsAreEntries` | pkg/controller/merged.go:134-197 | each tick reports a pair at most once, only under 3 NM, and only if it was not merged before |
| `MergeSeparation.HelicopterIsDrawn` | pkg/radar/merged.go:32-44 | a helicopter in a reported group got there along a chain of accepting types from one without a wing tag |
| `MergeSeparation.TrackedIsEngaged` | pkg/radar/merged.go:26-44 | without such a chain, or if the hostile is no helicopter, every merged pair has an eligible hostile and a located contact of another coalition |
| `MergeSeparation.ReportsArePartings` | pkg/controller/merged.go:110-197 | between two reports of a pair with fixed labels there is a tick at 5 NM or more, a tick with one of the two untracked or unlocated, a removal of one, or a reset, if the hostile is no known helicopter or the encyclopedia has no such chain |
| `MergeSeparation.DrawnIsReportedTwice` | pkg/radar/merged.go:32-44 | for any such chain, a run in which the helicopter is reported twice, located and under 3 NM throughout |
| `MergeSeparation.AlwaysPartedIffNoDraws` | pkg/controller/merged.go:110-197 | all reports of all pairs in all runs are separated by a parting iff the encyclopedia has no such chain |
| `MergeSeparation.WingTaggedIsParted` | pkg/encyclopedia/aircraft.go:55-62 | they are if every known aircraft has a wing tag |
| `MergeSeparation.RunsAreTwoSided` | pkg/controller/merged.go:27-108 | in every run from the empty tracker, no ID is both a hostile and a friendly of merged pairs |
| `MergeSeparation.RemovalForgets` | pkg/controller/merged.go:76-91 | in every such run, no pair mentions a removed ID |
| `Broadcasts.AddFriendlyToBroadcast` | pkg/controller/broadcast.go:11-30 | the name the contact parses to is added, never twice, exactly if the radio is not asked for or the contact is on frequency |
| `Broadcasts.CreateMergedCall` | pkg/controller/merged.go:199-207 | exactly the names that the contacts parse to which are on frequency or need not be, each once |
| `Broadcasts.NamesInCalls` | pkg/controller/merged.go:110-132 | a name is in the calls of a tick iff a friendly of a reported pair parses to it and is on frequency or need not be |
| `VoicePackets.NumberRoundTrip` | pkg/simpleradio/voice/packet.go:154-176 | little-endian bytes of a number that fits read back as the number |
| `VoicePackets.Put` | pkg/simpleradio/voice/packet.go:159-159 | exactly the addressed bytes of the buffer change |
| `VoicePackets.PutFrequencies` | pkg/simpleradio/voice/packet.go:161-167 | succeeds exactly if the segment fits, and then appends it to what is written |
| `VoicePackets.PutFixed` | pkg/simpleradio/voice/packet.go:169-182 | succeeds exactly for packets of 57 bytes or more, and then completes the buffer with the fixed segment |
| `VoicePackets.Encode` | pkg/simpleradio/voice/packet.go:149-185 | a well-sized packet is laid out segment after segment with one zero byte before the fixed segment; a constructed packet that is not well-sized panics |
| `VoicePackets.FixedPointers` | pkg/simpleradio/voice/packet.go:216-236 | with 16-bit pointers, the fixed-segment slices are in bounds iff the length is between 57 and the input's, or is 44 in an input of 65536 bytes or more |
| `VoicePackets.DecodeFrequencies` | pkg/simpleradio/voice/packet.go:245-261 | ten bytes per frequency; an odd remainder fails |
| `VoicePackets.Decode` | pkg/simpleradio/voice/packet.go:204-265 | succeeds on exactly the acceptable inputs, with the fields found by counting back from the packet length |
| `VoicePackets.LayoutReadsBack` | pkg/simpleradio/voice/packet.go:149-265 | a laid-out packet followed by any bytes decodes to the packet, its GUIDs fitted to 22 bytes |
| `WireFormat.LayoutIsOnTheWire` | pkg/simpleradio/voice/packet.go:149-185 | every byte of an encoded packet at its absolute offset: three 16-bit lengths, audio, ten bytes per frequency with modulation and encryption last, a zero, unit ID, packet ID, hops, relay and origin GUID; numbers little-endian |
| `WireFormat.AcceptableBytes` | pkg/simpleradio/voice/packet.go:204-265 | the inputs that decode, by their first six bytes and their size |
| `WireFormat.DecodedSegments` | pkg/simpleradio/voice/packet.go:210-261 | the lengths, audio and frequencies read from any input that decodes, at absolute offsets |
| `WireFormat.DecodedFixed` | pkg/simpleradio/voice/packet.go:214-243 | the fixed segment is read from the last 57 bytes of the packet, or torn apart if the length is 44 |
| `VoicePackets.ConstructedRoundTrip` | pkg/simpleradio/voice/packet.go:120-265 | a constructed packet holds what it was given; it is well-sized iff 64 + audio + 10 per frequency is at most 65535; it then decodes to itself iff both GUIDs are 22 bytes |
| `Receivers.Receiver.Receive` | pkg/simpleradio/receive.go:33-57 | an idle receiver takes any packet; a busy one only newer packets of its speaker; a taken packet moves the deadline |
| `Receivers.Receiver.Reset` | pkg/simpleradio/receive.go:75-83 | the receiver is idle |
| `Receivers.Receiver.Deliver` | pkg/simpleradio/receive.go:98-130 | a packet is taken at most once, and only if it matches the radio on some frequency and, on secure radios, comes from a known client of the own coalition |
| `Receivers.Receiver.Check` | pkg/simpleradio/receive.go:131-149 | after the deadline with no input waiting, the receiver is reset and the buffer is published if longer than a second |
| `Receivers.ReceiverRemembers` | pkg/simpleradio/receive.go:33-57 | the receiver holds the first arrival's origin and the largest packet ID from it |
| `Receivers.BufferIsMaxima` | pkg/simpleradio/receive.go:33-57 | the buffer is the strict left-to-right maxima by packet ID of the first arrival's origin |
| `Receivers.MaximaAscend` | pkg/simpleradio/receive.go:23-25 | those maxima have one origin and increasing IDs |
| `Receivers.InOrderIsKept` | pkg/simpleradio/receive.go:23-25 | a list is kept whole iff it has one origin and increasing IDs |
| `Receivers.DeadlineOfLast` | pkg/simpleradio/receive.go:53-56 | the deadline is 300 ms after the last packet kept |
| `Receivers.ReceiverConserves` | pkg/simpleradio/receive.go:33-149 | over every run, arrivals are split in order into closed batches and the rest; published batches have one origin, increasing IDs, at least 26 packets and were closed over 300 ms after their last packet; discarded ones have at most 25 |
| `Receivers.OverAfterGap` | pkg/simpleradio/receive.go:59-73 | a transmission is over exactly when more than 300 ms have passed since its last packet was kept |
| `Receivers.CheckCloses` | pkg/simpleradio/receive.go:131-149 | in any run, a check closes the transmission iff no input waits and that is so, and publishes it iff 26 packets or more were kept |
| `Transmissions.Transmitter.constructor` | pkg/simpleradio/client.go:122-122 | packet numbers start at 1 |
| `Transmissions.Transmitter.EncodeVoice` | pkg/simpleradio/voice.go:65-108 | one packet per compressed frame, numbered on from the last transmission modulo 2^64; failed frames take no number |
| `Transmissions.FramesAreAudio` | pkg/simpleradio/voice.go:75-88 | the first frames joined are the audio so far, padded with silence past its end |
| `Transmissions.WholeAudio` | pkg/simpleradio/voice.go:75-88 | all frames joined are the audio and fewer than 640 samples of silence |
| `Transmissions.PacketPerFrame` | pkg/simpleradio/voice.go:89-106 | if all frames compress, packet i holds the bytes of frame i |
| `Transmissions.PacketsAreFrames` | pkg/simpleradio/voice.go:75-106 | the packets are those of exactly the frames that compress, in order |
| `Transmissions.NumberIsModular` | pkg/simpleradio/voice.go:100-105 | the counter n packets on is the number plus n modulo 2^64 |
| `Transmissions.ConsecutiveNumbers` | pkg/simpleradio/voice.go:95-106 | packet numbers are consecutive modulo 2^64 and every packet carries the client's GUID twice, its frequencies, unit ID 100000002 and no hops |
| `Transmissions.IncreasingIffNoWrap` | pkg/simpleradio/voice.go:100-105 | the numbers increase iff the counter does not wrap inside the transmission |
| `Transmissions.EndToEnd` | pkg/simpleradio/receive.go:33-57 | encoded, decoded and delivered in order to an idle receiver, such packets are buffered one for one iff the counter does not wrap |
| `Transmissions.TransmissionArrives` | pkg/simpleradio/voice.go:65-108 | the same for the packets of any audio whose frames are small enough to encode |
| `Threats.ThreatMonitor.IsOnCooldown` | pkg/controller/threat.go:35-45 | true iff the ID's cooldown lies after the clock |
| `Threats.ThreatMonitor.ExtendCooldowns` | pkg/controller/threat.go:111-113 | every listed ID is on cooldown for at least a cooldown from now; no other ID changes |
| `Threats.ThreatMonitor.Remove` | pkg/controller/threat.go:53-57 | exactly the ID's cooldown is dropped; the history stays orderly |
| `Threats.ThreatMonitor.Reset` | pkg/controller/threat.go:47-51 | all cooldowns are dropped; the history stays orderly |
| `Threats.IsGroupMergedWithFriendly` | pkg/controller/merged.go:221-228 | true iff some member is merged with the friendly |
| `Threats.Addressees` | pkg/controller/threat.go:93-101 | exactly the callsigns of listed, tracked friendlies not merged with the group that can be addressed, each once |
| `Threats.NamesToCall` | pkg/controller/threat.go:93-101 | a name is called iff a listed, tracked friendly that no member is merged with parses to it and is on frequency or need not be |
| `Threats.ThreatMonitor.BroadcastThreat` | pkg/controller/threat.go:69-114 | the group is marked a threat and HOSTILE, or FURBALL with the number of its merged pairs; a call goes to exactly the unmerged addressable friendlies, puts exactly the group's IDs on cooldown from now and keeps the history orderly: it names an ID rested for a cooldown; no call changes nothing else and means all members were on cooldown or nobody could be addressed |
| `Threats.OrderlyAppend` | pkg/controller/threat.go:76-113 | a call naming a rested ID keeps every call of the history justified |
| `Threats.CallsPerWindow` | pkg/controller/threat.go:12-20 | a window of one cooldown without removals or resets holds at most as many calls as distinct hostile IDs |
| `Altitudes.NormalizeIsIdempotent` | pkg/spatial/spatial.go:42-54 | rounding twice is rounding once, across the change of bucket width at 1000 ft |
| `Altitudes.NormalizeIsNearest` | pkg/spatial/spatial.go:42-54 | the nearest multiple of 100 ft below 1000 ft and of 1000 ft above, the upper one in the middle, of the absolute altitude |
| `Altitudes.Stacks` | pkg/brevity/altitude.go:21-56 | the slice is rounded and sorted in place, and the stacks are the greedy ones from the top down |
| `Altitudes.GreedyIsSound` | pkg/brevity/altitude.go:37-53 | for ascending altitudes: tops are altitudes, fall by 9900 ft or more, count their layer exactly and miss nothing |
| `Altitudes.GreedyCountsAll` | pkg/brevity/altitude.go:37-53 | the counts add up to the number of non-zero altitudes |
| `Altitudes.StacksAreLayers` | pkg/brevity/altitude.go:21-56 | for any altitudes: each count is the number of rounded altitudes in the 9900 ft down from its top, and every non-zero one is counted once |
| `Altitudes.StacksAreOptimal` | pkg/brevity/altitude.go:21-56 | no cover of the rounded altitudes by 9900 ft layers uses fewer layers |
| `Altitudes.RestackKeepsTops` | pkg/radar/group.go:88-95 | stacking the tops again gives the same tops, each counted once |
| `Altitudes.BraaAltitudeIsGroupAltitude` | pkg/brevity/braa.go:60-66 | a BRAA built from a group's stack altitudes has the group's altitude |
| `Altitudes.GroupAltitudeIsHighest` | pkg/radar/group.go:80-86 | the altitude of a group, and of a BRAA, is the highest rounded altitude, or 0 |
| `Picture.ThreatRadius` | pkg/radar/group.go:265-278 | the largest radius in the group, or 0 |
| `Picture.RadiusByTags` | pkg/encyclopedia/aircraft.go:87-98 | 25 NM for unknown types; its own radius if it has one; 0 if unarmed; else 3 NM for a helicopter, 15 NM for an attack aircraft, 25 NM for others |
| `Picture.IsFighter` | pkg/radar/group.go:233-243 | true iff some contact is a known fighter |
| `Picture.ProfileOf` | pkg/radar/picture.go:54-91 | what the comparison uses of a group: helicopter or not, distance of its centre, largest threat radius, fighter or not, altitude |
| `Picture.DescribesOnce` | pkg/radar/picture.go:54-91 | a group has only one such profile |
| `ThreatRank.CompareIsAntisymmetric` | pkg/radar/picture.go:54-124 | swapping the groups negates the result, zero threat radius included |
| `ThreatRank.CompareRefinesRank` | pkg/radar/picture.go:58-87 | a better six-level rank always wins |
| `ThreatRank.RankIsClass` | pkg/radar/picture.go:58-87 | the rank is better iff fixed-wing meets helicopter, or else inside meets outside the threat radius, or else a fighter inside meets a non-fighter inside |
| `ThreatRank.CompareByTiers` | pkg/radar/picture.go:54-124 | who wins: the better class; else the smaller squared distance over radius (the radius itself outside it) by more than 3 NM, if no radius is zero; else the nearer by more than 3 NM; else the higher |
| `ThreatRank.OutsidePrefersShortRange` | pkg/radar/picture.go:89-124 | outside both threat radii the distances drop out of the weighted tier: the radius shorter by more than 3 NM wins, whatever the distances |
| `ThreatRank.CompareIsNotTransitive` | pkg/radar/picture.go:100-114 | three groups of one rank that beat each other in a circle |
| `ThreatSort.NoInversionIsRankSorted` | pkg/radar/picture.go:38-39 | any range without an adjacent inversion is sorted by rank |
| `ThreatSort.Sort` | pkg/radar/picture.go:38-39 | the same for a range inside a recursive call, for any pivots, hints and shuffles and both fallbacks: ranks outside the range stay as they were, although entries may cross its lower end |
| `ThreatSort.SortByThreat` | pkg/radar/picture.go:38-39 | the library's sort leaves a permutation sorted by rank for any number of groups, and up to twelve without an adjacent inversion, although the comparison is not transitive |
| `Picture.GetPicture` | pkg/radar/picture.go:38-51 | the total, and the first up to three of some order of all the groups: no group left out is of a better class than one of them, and among up to twelve groups none is a higher threat than the one before it |
| `Contacts.ContactDatabase.Set` | pkg/radar/contacts.go:89-102 | the contact is stored and indexed under its normalised callsign; nothing else changes |
| `Contacts.ContactDatabase.Delete` | pkg/radar/contacts.go:104-116 | the contact and the entry of its raw name go; the result tells whether it was there |
| `Contacts.ContactDatabase.Reset` | pkg/radar/contacts.go:118-127 | no contact and no entry |
| `Contacts.ContactDatabase.GetByCallsignAndCoalition` | pkg/radar/contacts.go:48-78 | an exact match, else a fuzzy match, if it leads to a live contact |
| `Contacts.ContactDatabase.HandleUpdate` | pkg/radar/radar.go:260-277 | a known contact takes the frame; a new one is stored without it |
| `Contacts.LookupIsRight` | pkg/radar/contacts.go:48-78 | with a right index, a hit is a live contact of the coalition whose callsign is the one returned |
| `Contacts.LookupHits` | pkg/radar/contacts.go:48-78 | a lookup hits iff the callsign, or else a non-empty fuzzy answer, is an entry of a live contact, and that is what it returns |
| `Contacts.SetKeepsIndexRight` | pkg/radar/contacts.go:89-102 | setting a contact keeps the index right iff its ID has no entry under another coalition or callsign |
| `Contacts.DeleteKeepsIndexRight` | pkg/radar/contacts.go:104-116 | deleting keeps the index right |
| `Contacts.EntriesStem` | pkg/radar/contacts.go:89-127 | over any run, every entry and every contact stems from a set |
| `Contacts.ConsistentRunIsRight` | pkg/radar/contacts.go:48-127 | over any run in which an ID keeps its labels, the index is right |
| `Contacts.ReusedIdIsMisfound` | pkg/radar/contacts.go:104-116 | an ID that returns under another name is found under its old callsign |
| `Contacts.LiveIsFound` | pkg/radar/contacts.go:48-127 | over any run, a contact is found under its callsign from its set until it is removed, replaced or reset, if nothing else takes the callsign or has it as a raw name |
| `Contacts.RawNameHidesCallsign` | pkg/radar/contacts.go:104-116 | removing a contact whose raw name is another's callsign hides the other |
| `Contacts.RemovedIsNotFound` | pkg/radar/contacts.go:104-116 | no lookup finds a contact just removed |
| `Contacts.FirstFrameIsDropped` | pkg/radar/radar.go:260-277 | an appearing contact holds the history of all its frames but the first |
| `Contacts.HandleGarbageCollection` | pkg/radar/radar.go:279-313 | nothing is removed while a fade is pending; otherwise exactly the contacts not seen for a minute, each reported once |
| `Contacts.DueAfterAMinute` | pkg/radar/radar.go:279-313 | a contact is due iff it was seen, and last more than a minute ago |
| `Fades.FadeCollector.ReceiveFade` | pkg/radar/faded.go:36-44 | the deadline moves to 15 s from now and the fade is in flight |
| `Fades.FadeCollector.AppendFade` | pkg/radar/faded.go:40-44 | the fade moves from in flight to pending |
| `Fades.FadeCollector.FlushFades` | pkg/radar/faded.go:45-54 | past the deadline all pending fades are handed over, otherwise none |
| `Fades.PipelineConserves` | pkg/radar/faded.go:24-57 | over any interleaving, in flight, pending and handled together are the fades received |
| `Fades.ExactlyOnePlace` | pkg/radar/faded.go:24-57 | each received fade is in exactly one of the three places |
| `Fades.RunIsGenuine` | pkg/radar/faded.go:24-57 | every fade in flight, pending or handled is one that was received |
| `Fades.HandledInOrder` | pkg/radar/faded.go:40-54 | the batches and what is pending are the fades in the order of their delayed appends |
| `Fades.CheckHandsOver` | pkg/radar/faded.go:36-54 | in any run, a check hands over all pending fades iff there are any and more than 15 s have passed since the last receipt |
| `Fades.HandledAreSettled` | pkg/radar/faded.go:36-54 | if the clock does not go back, every fade is handled more than 15 s after its receipt |
| `Fades.IsGrouped` | pkg/radar/faded.go:76-83 | true iff the contact is in a collected group |
| `Fades.HandleFaded` | pkg/radar/faded.go:59-106 | exactly the faded IDs leave the database; each group is the closure of a faded contact that no earlier group holds, and every tracked faded contact is in a group; each group is reported once, with its centre and the coalition of all its contacts |
| `Bearings.Normalize` | pkg/bearings/normalization.go:10-21 | terminates with the angle in (0, 360] a whole number of turns away |
| `Bearings.NormalOfCongruent` | pkg/bearings/normalization.go:10-21 | normalized angles are equal iff the directions are |
| `Bearings.ReciprocalIsInvolution` | pkg/bearings/true.go:51-54 | the reciprocal of the reciprocal is the bearing, and the reciprocal is not |
| `Bearings.DeclinationRoundTrip` | pkg/bearings/magnetic.go:41-54 | true to magnetic and back, and the other way, with one declination is the identity |
| `Bearings.DeclinationIsAdded` | pkg/bearings/magnetic.go:41-54 | the true bearing is the magnetic bearing plus the declination |
| `Bearings.OctantsTurn` | pkg/brevity/track.go:23-49 | every bearing has a direction, due north is north, and 45 degrees clockwise is the next direction |
| `Bearings.DirectionIsNearest` | pkg/brevity/track.go:23-49 | the bearing is at most 22.5 degrees from the heading of its direction, on the anticlockwise side if exactly that |
| `Bearings.AngleIsDifference` | pkg/brevity/aspect.go:31-37 | both branches compute the difference of track and reciprocal bearing |
| `Bearings.AspectIsSeparation` | pkg/brevity/aspect.go:25-57 | the aspect is never unknown and is a function of the circular separation and, at its boundaries, of the side |
| `Bearings.BoundariesOnly` | pkg/brevity/aspect.go:39-53 | the side matters exactly at 35, 75 and 115 degrees |
| `Bearings.AspectIsRotationInvariant` | pkg/brevity/aspect.go:25-57 | off those boundaries, turning bearing and track together keeps the aspect |
| `Bearings.AspectByOffset` | pkg/brevity/aspect.go:25-57 | with the track off the way to the fighter by less than 35, 75, 115 degrees the target is hot, flanking, beaming, and dragging beyond |
| `Bearings.HeadOnAndTailOn` | pkg/brevity/aspect.go:25-57 | straight at the fighter is hot, straight away is dragging |

## Left out

- Network, sockets, reconnection, telemetry parsing, speech recognition and synthesis, composing and parsing of calls: input, output and text.
- Floating-point rounding, including the metre and foot conversions: all lengths and angles are reals.
- Aliasing of trackfile pointers: a group holds its contacts as they were when it was built, and the database holds trackfiles as values.
- Interleaving of a removal with a running merge tick: a tick is one step, although the source locks each tracker operation separately.
- MergeProtocol.BroadcastMerges: does not model the text of the MERGED calls, only whom they name.
- ThreatSort.Sort: leaves the library's choice of pivots and its random shuffle open, so it does not say which of two groups of one rank comes first.
- Receivers.Receiver.Deliver: takes the match of a frequency with a radio as a parameter.
- Coalition numbers other than the three defined ones: the contact index has no map for them.
- Saturation of time differences beyond 292 years.
- The search for nearby groups that feeds PICTURE, and which friendlies a hostile group threatens: they filter and join what is modelled here.
- Course and direction of a trackfile, bullseye positions, group names and platforms: they would add only easy members.
