# Fibratus event pipeline: a verified model

This project models the parts of the Fibratus event pipeline whose correctness cannot be seen from one function
at a time, and proves what they promise over every input and every run.

- **Sequence rules** (`Links`, `CompoundLinks`, `SequenceModel`, `SequenceInvariants`, `SequencePartials`,
  `SequenceOrdered`, `SequenceReports`, `SequenceRuns`, `SequenceJoins`, `SequenceUnjoined`, `SequenceRivals`,
  `SequenceChains`, `SequenceExact`, `SequencePlain`, `SequenceUnordered`, `SequenceAnyOrder`, `SequenceRules`).
  `SequenceModel` gives every lock-protected callback of `sequenceState` as a
  function on states; the class `SequenceRules.SequenceState` has the fields and loops of the code and is proved to
  compute those functions. Runs are arbitrary interleavings of events, max-span timers, process terminations, garbage
  collections and interference by other rules that share the events. The condition of a slot is an arbitrary
  predicate, the library sort any function that sorts by timestamp, and the visiting order of a map an explicit
  argument.
- **Binary captures** (`Bytes`, `Codec`, `PeCodec`, `EventCodec`). The encoders append; the decoders read with
  constant bases and running 32-bit offsets. Each decoder loop is proved against the layout: after `i` elements, the
  remaining elements and everything behind them lie at the running offset. Reading past the buffer is a panic, and
  panics are an outcome of the model.
- **Stack walks** (`StackwalkModel`, `StackwalkRuns`, `StackwalkStacks`, `StackwalkFlushes`, `StackwalkQueue`). Buckets
  of events that wait for the stack walk that follows them; listeners are arbitrary stateful functions of what they
  were handed.
- **Process snapshotter** (`ProcessRecords`, `Snapshotters`). `ProcessRecords` says what a write makes of a record;
  `Snapshotters.Snapshotter` works on shared, mutable process objects and is proved to refine it.
- **JSON fast paths and flags** (`JsonNumbers`, `JsonStrings`, `JsonStreams`, `Flags`).

Results where the code and the intention part ways, each with its exact condition:

- The parser lets a sequence of one expression through although its message asks for two
  (`pkg/filter/ql/parser.go:117`); such a rule fires and reports no events. `FiringReportsEverySlot` holds exactly for
  two or more slots.
- With overlapping conditions an event is only ever taken by the first slot it fits. `FiresExactly` characterises the
  automaton for all conditions. `ReadsPlainlyExactly` says when this is the plain reading of the rule: exactly when no
  event that could be cast for a slot, together with events for all the others, also fits an earlier slot. For
  conditions that do not look at the clock, all of which can be met, this is disjointness (`DisjointExactly`). Every
  cast with a shadowed event is an input that shows the difference (`CastFires`); `OverlapStarvesLaterSlots` is the
  case of two slots.
- The events a firing reports need not join the event it fires on: with three or more slots, pairs of another match in
  progress may come first (`StrayPairReported` gives the run for every number of slots). `EveryReportJoins` says that
  they join exactly when the first joining pair between slots before the last belongs to that event, and that they
  always do with two slots. `AllReportsJoinExactly` says it of the rule, for disjoint conditions that look at neither
  the clock nor the partial key: all reports join exactly when no two matches can compete.
- A sequence without a join takes the links that other rules left on shared events into account when it puts its
  report together: a slot is missing from the report exactly when it neither shares a link with a neighbour nor meets
  one without links where both have none (`ReportExactly`). On events without links every slot is reported exactly when
  garbage collection has left none empty (`UnlinkedReportsEverySlot`); links of another rule on the first of two slots
  make the report empty (`ForeignLinksLoseReport`).
- Joins on narrow signed numbers never succeed, not even between equal ones (`NumbersJoinExactly`).
- A sequence without order may fire although no event ever met a slot between the first and the last, because an event
  that waited for the last slot moves the machine on from whatever state it is in. The first and the last slot are
  always met (`FiringEndsMet`), so up to two slots all are (`TwoSlotsMeetAll`); for three slots without joins
  `MeetsAllExactly` gives the exact condition on the rule and `GoesAround` the run. With two slots and no joins it fires
  exactly when both have been met since it last fired, in either order of arrival (`FiresOnceBothMet`).
- A flush of pending events hangs on an expired end of a thread, because it holds the lock that discarding a bucket
  takes again: for listeners that never fail exactly if stacks are enriched and such an event is pending
  (`FlushHangsExactly`), in general exactly if one is reached on which no listener fails (`HandHangsExactly`,
  `FlushAll`). `ThreadEndHangs` and `HangingQueue` are the run.
- A flush lets an expired event overtake one given before it that has not expired (`FlushReorders`). It keeps every
  stack a queue exactly when what has expired comes first in every bucket (`FlushKeepsOrderExactly`).
- A PE record whose last anomaly is the empty string cannot be read back, and resources with an empty key or value are
  lost. `RecoveredExactly` says that these are the only losses for records whose lengths and counts fit their fields
  (`Fits`).
- A symbol or import of 65534 or 65535 bytes is read but makes the PE decoder lose its place: after it the rest of the
  buffer lies ahead exactly if it was shorter (`ReadListed`, and `ReadTexts` for the whole loop).
- In the raw event format byte blobs are read two bytes early (`BlobSurvives` says which survive), the items of string
  slices one byte late (`SliceSurvives`), the widths of the two floating-point types are swapped between encoder and
  decoder (`SwitchesAgree`, `SkippedExactly`), and addresses in slices come back as zeros.
- Reaping leaves children with a parent that is no longer stored: `Reap` says exactly when, `ReapingUnlinks` shows it.
- Compound join keys tell their components apart exactly when at most one of the joined fields has values of varying
  length, such as strings or addresses (`KeySeparatesExactly`); `StringComponentsCollide` is the smallest clash.
- In the other direction, fields that join one by one have equal compound keys exactly for rules that join on integers
  alone, or on some type that never joins (`KeyFollowsExactly`): a single string is compared with case folding and a
  mapped address equals its short form, but the key is built from the bytes.

## Model

| member | source | states |
|---|---|---|
| `Links.CompareSymmetric` | pkg/filter/util.go:201-259 | link comparison is symmetric, across strings, integers and addresses of either length |
| `Links.CompareTransitive` | pkg/filter/util.go:201-259 | link comparison is transitive, including 4-byte against 16-byte addresses |
| `Links.JoinThrough` | pkg/filter/util.go:173-199 | two events joined to the same link are joined to each other |
| `Links.CompareSeqLink` | pkg/filter/util.go:173-185 | the search answers whether some link on the right equals the left one, whatever the order |
| `Links.CompareSeqLinks` | pkg/filter/util.go:187-199 | the search answers whether the two sets share an equal link |
| `Links.HashFields` | pkg/filter/util.go:262-293 | the loop builds the hex form of the concatenated field encodings |
| `Links.HexInjective` | pkg/filter/util.go:262-293 | hex keys compare equal, case folded, exactly when the bytes are equal |
| `Links.CompoundLinkRefinesComponents` | pkg/filter/filter.go:594-603 | compound links over integers of fixed kinds are equal exactly when every component is |
| `Links.CompoundLinkCollisions` | pkg/filter/util.go:262-293 | a step towards the next two rows: keys agree exactly when the concatenated encodings agree |
| `CompoundLinks.KeySeparatesExactly` | pkg/filter/util.go:262-293 | for given field types, equal keys mean equal components exactly when at most one field is of varying length |
| `CompoundLinks.KeyFollowsExactly` | pkg/filter/filter.go:594-603 | for given field types, components that join one by one have equal keys exactly when all are integers or some type never joins |
| `Links.StringComponentsCollide` | pkg/filter/util.go:262-293 | two different pairs of strings with the same key |
| `Links.NumbersJoinExactly` | pkg/filter/util.go:201-259 | integers join exactly when they are equal, of the same type, and of one of the six types with a case |
| `Links.TypesApart` | pkg/filter/util.go:201-259 | only strings, integers and addresses join, each with its like |
| `Links.StringsJoinExactly` | pkg/filter/util.go:201-259 | strings join exactly when they fold to the same characters |
| `Links.SingleLinkIsField` | pkg/filter/filter.go:594-603 | a join on one field compares the field itself |
| `Links.HexOfByte` | pkg/filter/util.go:262-293 | a key spells every byte with two lower-case digits, high half first |
| `SequenceInvariants.KeysApartAt` | pkg/rules/sequence.go:327-335 | two positions of a slot never hold the same non-zero partial key |
| `SequenceInvariants.ExtendKeeps` | pkg/rules/sequence.go:315-343 | adding a partial keeps slots sorted, within the cap, and with distinct keys |
| `SequenceInvariants.MatchTransitionKeeps` | pkg/rules/sequence.go:166-199 | a match is always permitted, moves one state on or not at all, and keeps `states` equal to what lies below |
| `SequenceInvariants.ProcessEventKeeps` | pkg/rules/sequence.go:439-555 | the whole invariant survives an event, ordered or unordered, fired or not |
| `SequenceInvariants.GcKeeps` | pkg/rules/sequence.go:349-368 | the whole invariant survives garbage collection |
| `SequenceInvariants.CancelKeeps` | pkg/rules/sequence.go:413-437 | a deadline in its own state resets to initial and clear with the flag raised; otherwise nothing changes |
| `SequenceInvariants.ExpireWholeResets` | pkg/rules/sequence.go:600-614 | full expiry resets to the initial state, clear, with the flag raised |
| `SequenceInvariants.ExpireKeeps` | pkg/rules/sequence.go:557-623 | the whole invariant survives a process termination |
| `SequenceInvariants.RetainMembers` | pkg/rules/sequence.go:586-618 | what is filtered from a slot is exactly what the test holds of |
| `SequenceInvariants.RetainSorted` | pkg/rules/sequence.go:586-618 | filtering keeps the order |
| `SequenceRuns.InvAlways` | pkg/rules/sequence.go:126-623 | after every run: `states` is exactly what lies below the machine's state, it never rests in a meta state, raised flags mean initial and empty, no unpermitted match ever happened, slots are sorted, capped and key-distinct |
| `SequencePartials.StoredExactly` | pkg/rules/sequence.go:315-343 | an event enters a slot of up to 1000 events unless its key is there already; others keep their place, and only an event that entered is marked as out of order |
| `SequencePartials.CollectedExactly` | pkg/rules/sequence.go:349-368 | garbage collection takes exactly what is older than the max span, or than four hours in rules without one |
| `SequencePartials.TerminationExactly` | pkg/rules/sequence.go:557-623 | in event fields: the end of a process resets the rule when some slot holds only its partials, and otherwise takes exactly its partials; remote threads and creations in the final slot belong to the process they act on, all others to their own |
| `SequencePartials.NothingOfTerminated` | pkg/rules/sequence.go:557-623 | in every run no slot holds an event of the terminated process, but for remote threads and creations in the final slot, and none of those that act on it |
| `SequencePartials.TimersExactly` | pkg/rules/sequence.go:159-190 | in every run a max-span timer runs exactly for the state the machine is in, unless that is the first or there is no max span |
| `SequencePartials.RetriedExactly` | pkg/rules/sequence.go:488-518 | an out-of-order event is taken exactly when it is marked, joins upstream and meets its condition; then it gets its link, loses its mark and moves the machine unless its slot counted already |
| `SequencePartials.RetryUnmarks` | pkg/rules/sequence.go:488-518 | without joins a retry over any slots leaves marked exactly what does not meet its condition there |
| `SequenceOrdered.OrderedRun` | pkg/rules/sequence.go:439-555 | an ordered sequence accepts an event in at most one slot, the first that matches in time |
| `SequenceOrdered.ReplayChangesNothing` | pkg/rules/engine.go:194-206 | an event processed twice in a row leaves what once left, unless the first fired: indexing a rule twice is harmless |
| `SequenceRuns.OrderedAlways` | pkg/rules/sequence.go:315-378 | in every ordered run the slots below the state are present, and without garbage collection none is empty, even at the cap |
| `SequenceRuns.FiringHasWitnesses` | pkg/rules/sequence.go:439-555 | whenever an ordered sequence fires, the steps since the last clear accepted one event per slot, in slot order, with strictly increasing timestamps, ending in the event it fires on |
| `SequenceReports.FiringReportsEverySlot` | pkg/rules/sequence.go:524-551 | from any state kept by ordered runs, a joined sequence that fires reports one event per slot exactly when it has two or more slots; whether they join is the subject of `SequenceJoins` |
| `SequenceRuns.EveryFiringReports` | pkg/rules/sequence.go:524-551 | the same for every run, whatever was collected or expired before |
| `SequenceUnjoined.ReportExactly` | pkg/rules/sequence.go:524-551 | a sequence without a join reports exactly the slots that share a link with a neighbour, or meet one without links where both have none, each with one of its events |
| `SequenceUnjoined.ReportsEverySlotExactly` | pkg/rules/sequence.go:524-551 | so it reports every slot exactly when none stands apart |
| `SequenceUnjoined.UnlinkedReportsEverySlot` | pkg/rules/sequence.go:542-544 | in every run, on events without links, every slot is reported exactly when none is empty |
| `SequenceUnjoined.UnlinkedReports` | pkg/rules/sequence.go:542-544 | without garbage collection that is always so: one event per slot, the last being the one it fires on |
| `SequenceUnjoined.UnlinkedReportsEarliest` | pkg/rules/sequence.go:533-551 | of several partials in a slot the earliest is reported |
| `SequenceUnjoined.ForeignLinksLoseReport` | pkg/rules/sequence.go:541-547 | links of another rule on the first of two slots, none on the last: the rule fires and reports nothing |
| `SequenceJoins.ReportJoinsExactly` | pkg/rules/sequence.go:524-551 | the reported events all join the one that fires exactly when, between slots before the last, the pair met first belongs to it |
| `SequenceJoins.TwoSlotReportJoins` | pkg/rules/sequence.go:524-551 | with two slots the reported events always join |
| `SequenceJoins.EveryReportJoins` | pkg/rules/sequence.go:524-551 | both for every run |
| `SequenceRivals.StrayPairReported` | pkg/rules/sequence.go:524-551 | for every number of slots from three on and either kind of join, a run that reports two events of another match, although joining ones wait right behind them |
| `SequenceRivals.AllReportsJoinExactly` | pkg/rules/sequence.go:524-551 | for rules with disjoint conditions that ignore clock and key, all reports of all runs of events join exactly when no two matches can compete |
| `SequenceChains.ChainFiresExactly` | pkg/filter/filter.go:343-381 | on one event per slot in order of time, a joined rule fires on the last exactly when the links of any two are equal |
| `SequenceChains.SameNumberFires` | pkg/filter/util.go:201-259 | a rule joined on a 32-bit number fires exactly when all the events have the same one |
| `SequenceChains.LateLeavesLink` | pkg/rules/sequence.go:466-476 | an event that joins but is not newer than the last accepted one gets its link and changes nothing else |
| `SequenceReports.EventsCount` | pkg/rules/sequence.go:148-157 | the reported list is sorted and holds each event once per slot that reports it |
| `SequenceExact.FiresExactly` | pkg/rules/sequence.go:439-555 | without joins, spans and terminations the automaton fires exactly where a subsequence, each event counted for the first slot it fits, completes since the last firing; the cap changes nothing |
| `SequencePlain.ReadsPlainlyExactly` | pkg/rules/sequence.go:439-555 | over all runs, the automaton fires where the plain reading does exactly for rules without shadowed casts |
| `SequencePlain.CastFires` | pkg/rules/sequence.go:439-555 | on one event per slot in order of time the plain reading fires; the automaton does exactly when none of them fits an earlier slot |
| `SequencePlain.DisjointExactly` | pkg/rules/sequence.go:439-555 | for satisfiable conditions that ignore the clock, the rule is read plainly exactly when they are pairwise disjoint |
| `SequencePlain.FiresExactlyWhenDisjoint` | pkg/rules/sequence.go:439-555 | disjoint conditions suffice, whatever they look at |
| `SequencePlain.OverlapStarvesLaterSlots` | pkg/rules/sequence.go:472-487 | an event that fits both of two slots: the plain reading completes on it and the automaton does not fire |
| `SequenceUnordered.FiringEndsMet` | pkg/rules/sequence.go:439-555 | in every run, ordered or not, events since the last clear met the first and the last slot of a sequence that fires |
| `SequenceUnordered.TwoSlotsMeetAll` | pkg/rules/sequence.go:488-518 | so with up to two slots every firing has met all of them |
| `SequenceUnordered.MeetsAllExactly` | pkg/rules/sequence.go:488-518 | without order and joins, over three slots, every firing of every run has met all exactly when the middle slot cannot be gone round |
| `SequenceUnordered.GoesAround` | pkg/rules/sequence.go:267-275 | the run that fires without an event for the middle slot |
| `SequenceAnyOrder.FiresOnceBothMet` | pkg/rules/sequence.go:439-555 | in every run of events, an unordered rule over two slots without joins fires exactly when both conditions have been met since it last fired, in either order |
| `SequenceAnyOrder.LateFirstFires` | pkg/rules/sequence.go:488-518 | in particular on the event for the first slot when that for the second came before it |
| `SequenceAnyOrder.EarlyWaits` | pkg/rules/sequence.go:442-462 | in unordered rules an event that meets a slot too early waits there, marked, whether it joins or not |
| `SequenceRules.SequenceState.Transitioned` | pkg/rules/sequence.go:166-199 | the transition callback: timers, flags, clearing and the record of the match |
| `SequenceRules.SequenceState.FireTrigger` | pkg/rules/sequence.go:230-265 | the permitted transitions and the failure of all others |
| `SequenceRules.SequenceState.FireMatch` | pkg/rules/sequence.go:267-275 | a state that already matched is not fired again |
| `SequenceRules.SequenceState.AddToSlot` | pkg/rules/sequence.go:315-343 | cap, duplicate key, out-of-order mark, insertion by time |
| `SequenceRules.SequenceState.CollectGarbage` | pkg/rules/sequence.go:349-368 | deleting backwards from the slices filters out exactly the overdue partials, in any visiting order |
| `SequenceRules.SequenceState.ExpirePartials` | pkg/rules/sequence.go:557-623 | for every visiting order the loops do what `SequencePartials.TerminationExactly` says in event fields |
| `SequenceRules.SequenceState.DeadlineReached` | pkg/rules/sequence.go:413-437 | the timer callback: cancel and reset only in its own state |
| `SequenceRules.SequenceState.NextSlot` | pkg/rules/sequence.go:394-411 | a slot is tried when all before it matched and no flag is raised |
| `SequenceRules.SequenceState.EvalSequence` | pkg/filter/filter.go:343-381 | a slot holds when every upstream slot has a partial with an equal link and the condition holds; then the event gets its link |
| `SequenceRules.JoinsEqual` | pkg/filter/util.go:295-302 | all joins hold |
| `SequenceRules.SequenceState.RetryPending` | pkg/rules/sequence.go:488-518 | out-of-order partials are evaluated again, in any map order, and unmarked when they match |
| `SequenceRules.SequenceState.Collect` | pkg/rules/sequence.go:524-551 | the nested loops find, between neighbouring slots, the first pair that joins, and keep earlier choices; `SequenceJoins` and `SequenceUnjoined` say what is reported |
| `SequenceRules.SequenceState.RunSequence` | pkg/rules/sequence.go:439-555 | the loop over the expressions computes the modelled run, whose firings `SequenceExact`, `SequenceChains` and `SequenceAnyOrder` characterise |
| `SequenceRules.SequenceState.Events` | pkg/rules/sequence.go:148-157 | the events of the match by timestamp |
| `SequenceRules.SequenceState.Process` | pkg/rules/engine.go:222-262 | run, collect the events and clear, as one step that keeps the invariant |
| `PeCodec.Marshal` | pkg/pe/marshaller.go:36-124 | the encoder writes the layout, for any iteration order of the resources |
| `PeCodec.ReadSections` | pkg/pe/marshaller.go:155-190 | any number of sections comes back and the running offset ends where the symbols begin |
| `PeCodec.ReadListed` | pkg/pe/marshaller.go:197-212 | one round of the symbol and import loops: the text comes back, and the rest lies ahead exactly when it has at most 65533 bytes |
| `PeCodec.ReadTexts` | pkg/pe/marshaller.go:192-215 | the loops: the texts come back, and what follows lies ahead exactly when the last text too has at most 65533 bytes |
| `PeCodec.ShortStepExactly` | pkg/pe/marshaller.go:200-212 | the 16-bit step is what was written exactly for texts of up to 65533 bytes |
| `PeCodec.ReadResources` | pkg/pe/marshaller.go:217-242 | the pairs with non-empty key and value are stored, and the offset passes over all of them |
| `PeCodec.ReadCert` | pkg/sys/trust.go:438-477 | the certificate comes back |
| `PeCodec.ReadAnomalies` | pkg/pe/marshaller.go:270-279 | the anomalies come back unless the last one is empty, which panics |
| `PeCodec.NewFromCapture` | pkg/pe/marshaller.go:127-297 | short buffers fail; every encoded record comes back as `Recovered` says, in both versions, with or without certificate |
| `PeCodec.CaptureRoundTrip` | pkg/pe/marshaller.go:36-297 | encoding and then decoding gives `Recovered` |
| `PeCodec.RecoveredExactly` | pkg/pe/marshaller.go:217-283 | the record is recovered unchanged exactly when the last anomaly and all resource keys and values are non-empty |
| `PeCodec.FirstVersion` | pkg/pe/marshaller.go:244-297 | captures of the first version give header, sections, symbols, imports and resources, and nothing else |
| `Bytes.LowFirst` | pkg/util/bytes/bytes.go:68-73 | integers are written with the low byte first |
| `EventCodec.CaptureTypeExactly` | pkg/event/param.go:116-123 | a capture keeps the type number, except that handle types, DOS paths and keys become texts |
| `EventCodec.WrittenExactly` | pkg/event/marshaller_windows.go:98-160 | which type numbers are written as what, and how wide |
| `EventCodec.SwitchesAgree` | pkg/event/marshaller_windows.go:98-160 | encoder and decoder agree on how a type is laid out, under its capture type, except for the two floating-point types |
| `EventCodec.SkippedExactly` | pkg/event/marshaller_windows.go:273-379 | the decoder advances by what the encoder wrote exactly for the known types that are not floating-point |
| `EventCodec.SignSurvives` | pkg/event/marshaller_windows.go:288-326 | signed integers of every width survive two's complement |
| `EventCodec.MarshalRaw` | pkg/event/marshaller_windows.go:57-186 | the encoder writes the layout, for any iteration order of parameters and metadata |
| `EventCodec.ReadSlice` | pkg/event/marshaller_windows.go:347-371 | slices keep the framing; every string item comes back without its first byte and with the byte behind it, addresses as zeros |
| `EventCodec.ReadBlob` | pkg/event/marshaller_windows.go:372-378 | blobs keep the framing and are read from the middle of their length prefix |
| `EventCodec.ReadParams` | pkg/event/marshaller_windows.go:257-386 | any mix and order of parameters: each comes back under its name and capture type with its value as `SeenAs` says, and no others |
| `EventCodec.ReadMetadata` | pkg/event/marshaller_windows.go:388-408 | the tags come back and the offset ends at the section header |
| `EventCodec.TagsStored` | pkg/event/marshaller_windows.go:403-405 | every tag with a key is stored with its value |
| `EventCodec.TagsSent` | pkg/event/marshaller_windows.go:403-405 | every stored tag was sent and has a key |
| `EventCodec.NewFromCapture` | pkg/event/marshaller_windows.go:193-421 | the only failures are short buffers and buffers that hold a section whose body cannot be decoded in its version; every other encoded event is recovered in both versions, where types of the first, a byte shorter, get a zero byte |
| `EventCodec.CaptureRoundTrip` | pkg/event/marshaller_windows.go:57-421 | encoding and then decoding recovers header, texts, parameters, metadata and process state |
| `EventCodec.SliceSurvives` | pkg/event/marshaller_windows.go:347-371 | a string slice is read back unchanged exactly when every item only repeats the byte behind it |
| `EventCodec.BlobSurvives` | pkg/event/marshaller_windows.go:372-378 | a blob is read back unchanged exactly when it repeats the upper half of its own length |
| `EventCodec.ShortBlobSurvives` | pkg/event/marshaller_windows.go:372-378 | a blob under 64 KiB is read back unchanged exactly when it is all zeros |
| `StackwalkRuns.InvAlways` | pkg/event/stackwalk.go:87-241 | in every run: events wait in the bucket of their own stack, all given events are pending, handed out or discarded, as often as given, buckets are in push order, the channel is in hand-out order |
| `StackwalkRuns.PendingOrHandedOnce` | pkg/event/stackwalk.go:87-170 | without ends of threads an event is pending or handed out, exactly as often as it was given, and pending only in its own bucket |
| `StackwalkRuns.NothingDropped` | pkg/event/queue.go:140-143 | events are discarded only because a thread ended |
| `StackwalkRuns.NoWalkEscapes` | pkg/event/queue.go:109-126 | no stack walk ever reaches a listener or the channel |
| `StackwalkRuns.WalkDecoratesOldest` | pkg/event/stackwalk.go:115-170 | a stack walk decorates the pending event of its stack that was given first |
| `StackwalkRuns.FirstInFirstOut` | pkg/event/stackwalk.go:87-170 | while no thread ends, what was handed out and then what waits is, per stack, exactly what was given, in order, in all runs whose flushes find what has expired at the front |
| `StackwalkRuns.FlushKeepsOrderExactly` | pkg/event/stackwalk.go:202-241 | a flush keeps every stack a queue exactly when in every bucket what has expired comes first |
| `StackwalkRuns.TimelyIsOrderly` | pkg/event/stackwalk.go:202-241 | which is so in every run that gives the events of a stack in order of time |
| `StackwalkStacks.WaitsExactly` | pkg/event/types_windows.go:547-567 | fourteen types wait for a stack walk; all others pass at once, without one |
| `StackwalkStacks.WalkDecoratesExactly` | pkg/event/event_windows.go:257-262 | a walk decorates a waiting event exactly when process and thread ids, for process creations the parent's, add up to the same 32-bit number; otherwise it stays |
| `StackwalkStacks.CreatorDecorates` | pkg/event/event_windows.go:258-260 | the walk of the creating thread decorates the creation of a process |
| `StackwalkStacks.OwnThreadDecorates` | pkg/event/event_windows.go:261 | every other event is decorated by a walk of its own thread |
| `StackwalkStacks.ChannelExactly` | pkg/event/queue.go:128-151 | an event reaches the channel exactly when no listener fails and configuration, a listener that may decide, or the absence of listeners asks for it |
| `StackwalkStacks.DiscardsExactly` | pkg/event/queue.go:140-143 | the end of a thread empties the bucket of that thread and no other |
| `StackwalkStacks.FlushExactly` | pkg/event/stackwalk.go:202-241 | after a flush that returns exactly the events of the last ten seconds wait, and the others were handed out, as often as they waited |
| `StackwalkFlushes.FlushReorders` | pkg/event/stackwalk.go:202-241 | a legal run of two events and a flush after which the stack is out of order |
| `StackwalkFlushes.HandHangsExactly` | pkg/event/stackwalk.go:202-241 | flushing a bucket hangs exactly if one of its expired events ends a thread and no listener fails on it |
| `StackwalkFlushes.FlushHangsExactly` | pkg/event/stackwalk.go:202-241 | with listeners that never fail, a flush hangs exactly if stacks are enriched and an expired end of a thread is pending |
| `StackwalkFlushes.NoEndNoHang` | pkg/event/stackwalk.go:202-241 | without such an event no flush hangs, whatever the listeners do |
| `StackwalkFlushes.ThreadEndHangs` | pkg/event/queue.go:140-143 | the end of a thread arrives and the first flush after the time to live hangs |
| `StackwalkQueue.HangingQueue` | pkg/event/stackwalk.go:202-241 | the same on the queue itself |
| `StackwalkRuns.HandOldTotal` | pkg/event/stackwalk.go:202-241 | a flush hands out exactly the events its bucket does not keep |
| `StackwalkQueue.Queue.Store` | pkg/event/stackwalk.go:87-109 | the event goes to the end of the bucket of its stack; `StackwalkStacks.WalkDecoratesExactly` says which walk finds it there |
| `StackwalkQueue.Queue.Pop` | pkg/event/stackwalk.go:115-170 | the oldest event leaves the bucket with the call stack, or the walk comes back when nothing waits |
| `StackwalkQueue.Queue.DropBucket` | pkg/event/stackwalk.go:178-183 | the bucket is gone with all its events |
| `StackwalkQueue.Queue.Ask` | pkg/event/queue.go:128-139 | some listener fails, or the event is wanted because of configuration, a consenting listener or no listeners |
| `StackwalkQueue.Queue.Release` | pkg/event/queue.go:128-151 | hand-out, end of threads and the channel, for all answers of the listeners |
| `StackwalkQueue.Queue.Push` | pkg/event/queue.go:109-126 | storing, decorating, dropping or handing out, as the laws of `StackwalkStacks` and `StackwalkRuns` say of every run |
| `StackwalkQueue.Queue.FlushAll` | pkg/event/stackwalk.go:202-241 | every bucket is flushed, in any iteration order, or the flush hangs, exactly as `FlushHangs` says |
| `ProcessRecords.OneOfEachSettles` | pkg/ps/snapshotter_windows.go:147-208 | one write of each provider, in either order, among any steps for other processes, leaves the settled record, whose fields `StoredFields` states |
| `ProcessRecords.StoredFields` | pkg/ps/snapshotter_windows.go:147-208 | the fields of that record: all as the system logger says, but the token, and the internal path exactly where it names the same program and is longer |
| `ProcessRecords.LoneWrite` | pkg/ps/snapshotter_windows.go:377-490 | a process written by one provider is stored as that provider describes it, with the token that was asked for |
| `ProcessRecords.RewriteReplaces` | pkg/ps/snapshotter_windows.go:199-202 | a second write of the same provider replaces the first |
| `ProcessRecords.ArrivalOrderIrrelevant` | pkg/ps/snapshotter_windows.go:147-208 | two runs with the same two events for a process agree on its record whichever came first |
| `Snapshotters.Snapshotter.NewProcState` | pkg/ps/snapshotter_windows.go:377-411 | the state an event describes; only the system logger's states get a parent |
| `Snapshotters.Snapshotter.Write` | pkg/ps/snapshotter_windows.go:147-208 | on shared objects the write makes of the record what `Merge` says, for which `StoredFields`, `LoneWrite` and `RewriteReplaces` give the fields, touches no other process and no parent, and keeps parents older and linked |
| `Snapshotters.Snapshotter.Remove` | pkg/ps/snapshotter_windows.go:492-530 | the process moves to the dirty map, exactly its children lose their parent, and links stay sound |
| `Snapshotters.Snapshotter.Put` | pkg/ps/snapshotter_windows.go:532-538 | the state is stored under its id; links stay sound for states without parent |
| `Snapshotters.Snapshotter.Find` | pkg/ps/snapshotter_windows.go:548-575 | stored first, then dirty, then a new state without parent, or nothing |
| `Snapshotters.Snapshotter.FindAndPut` | pkg/ps/snapshotter_windows.go:540-546 | only states that were not found are stored |
| `Snapshotters.Snapshotter.Reap` | pkg/ps/snapshotter_windows.go:701-719 | the dead go; links stay sound exactly when no survivor with a parent names one of the dead |
| `Snapshotters.Snapshotter.Ancestry` | pkg/ps/snapshotter_windows.go:406 | following parents from any known process ends |
| `Snapshotters.AnyRun` | pkg/ps/snapshotter_windows.go:147-719 | after every run parent chains end, and without reaping every parent is the one named and is still stored |
| `Snapshotters.ReapingUnlinks` | pkg/ps/snapshotter_windows.go:701-719 | a run with reaping after which a stored process has a parent that is not |
| `JsonNumbers.NumeralCanonical` | pkg/event/marshaller.go:297-460 | numerals follow section 6 of RFC 8259, without leading zeros, and parse back to the value |
| `JsonNumbers.InitDigits` | pkg/event/marshaller.go:242-252 | the loop fills the table with packed digits and the count of leading zeros |
| `JsonNumbers.DecimalTriple` | pkg/event/marshaller.go:297-311 | base-1000 steps concatenate to the decimal numeral |
| `JsonNumbers.MagnitudeSurvives` | pkg/event/marshaller.go:318-328 | negating in fixed width gives the right magnitude for every value, the minimum included |
| `JsonStreams.JsonStream.WriteUint8` | pkg/event/marshaller.go:313-316 | appends exactly the numeral |
| `JsonStreams.JsonStream.WriteUint16` | pkg/event/marshaller.go:330-340 | appends exactly the numeral |
| `JsonStreams.JsonStream.WriteUint32` | pkg/event/marshaller.go:354-379 | appends exactly the numeral |
| `JsonStreams.JsonStream.WriteUint64` | pkg/event/marshaller.go:393-448 | appends exactly the numeral |
| `JsonStreams.JsonStream.WriteInt8` | pkg/event/marshaller.go:318-328 | appends exactly the numeral, for -128 too |
| `JsonStreams.JsonStream.WriteInt16` | pkg/event/marshaller.go:342-352 | appends exactly the numeral, for the minimum too |
| `JsonStreams.JsonStream.WriteInt32` | pkg/event/marshaller.go:381-391 | appends exactly the numeral, for the minimum too |
| `JsonStreams.JsonStream.WriteInt64` | pkg/event/marshaller.go:450-461 | appends exactly the numeral, for the minimum too |
| `JsonStreams.JsonStream.WriteEscapeString` | pkg/event/marshaller.go:60-81 | fast and slow path together append what the one-pass escaper gives, for every byte string |
| `JsonStreams.JsonStream.WriteSlowPath` | pkg/event/marshaller.go:254-295 | from any index on, runs and escapes add up to the one-pass escaper |
| `JsonStrings.EscapeReadsBack` | pkg/event/marshaller.go:254-295 | reading the body by section 7 of RFC 8259 gives the string back |
| `JsonStrings.EscapeIsClean` | pkg/event/marshaller.go:254-295 | the body has no raw control byte, and a quote only after a backslash |
| `JsonStrings.QuotesAreEscaped` | pkg/event/marshaller.go:254-295 | every quote in the body has an odd number of backslashes before it |
| `JsonStrings.EscapesExactly` | pkg/event/marshaller.go:254-295 | which bytes stand for themselves, and how long the escapes of the others are |
| `Flags.JoinSplits` | pkg/event/flags.go:42-57 | names are separated by single bars |
| `Flags.EvalMeaning` | pkg/event/flags.go:33-35 | a flag is named when its bits are set; the zero flag only for the zero mask |
| `Flags.FlagsString` | pkg/event/flags.go:42-57 | the loop joins the names of the flags taken greedily in table order |
| `Flags.MaskDecomposes` | pkg/event/flags.go:42-57 | the mask is the disjoint union of the named values and a residue |
| `Flags.NamedApart` | pkg/event/flags.go:42-57 | named non-zero flags have pairwise disjoint values |
| `Flags.ResidueFitsNone` | pkg/event/flags.go:42-57 | no non-zero entry of the table fits into the residue |
| `Flags.ZeroEntryNamed` | pkg/event/flags.go:42-57 | an entry with value zero is named exactly when the entries before it used up the mask |

## Left out

- Sequences with bound fields (`evalBoundSequence`), the condition language and its evaluator: conditions are
  arbitrary predicates.
- SequenceUnordered.MeetsAllExactly: the exact condition is for three slots without joins, and exact firing
  (`FiresOnceBothMet`) for two; beyond that only the first and the last slot, and the invariants, are claimed of
  unordered sequences.
- Looking up the process state of an out-of-order event before it is evaluated again: the condition stands for the
  event with its state.
- Timers, goroutines and locks: each callback is one atomic step, `runSequence` and the clearing after a match
  together are one. When timers go off across clears is not claimed, because clearing forgets them without stopping
  them.
- Links.CompareTransitive: addresses take part in the comparison, but a rule that joins on a single address makes the
  code panic at its first match, because links are map keys; `MapKey` keeps such rules out of the sequence model.
- Joined fields that are missing or of a type without a case add nothing to a compound key; `CompoundLinks` takes
  every field to have its type.
- Events with the zero timestamp; the machine uses it as "no match yet".
- Counters, logging, rule actions, `MatchAll` and the order of rules among each other.
- SequenceExact.FiresExactly: covers rules without join and max span on streams with increasing timestamps and no
  terminations, because the other steps remove partials.
- Parsing and formatting of times: times are their RFC 3339 text. Floating-point values are their bit patterns.
- Bytes that a decoder would take from memory behind its slice: reading there is a panic in the model.
- PeCodec.NewFromCapture: texts over 65535 bytes (65533 for symbols and imports), lists of 65536 entries and buffers
  of 4 GiB wrap their length fields and are outside the round trip. The receiver's fields are returned as a value.
- EventCodec.NewFromCapture: the same limits; parameters of floating-point or unknown type make the decoder lose its
  place and are outside the round trip. Captures of the first version are taken to differ in the length of the type
  alone.
- EventCodec.ReadOctets: the conversion of IPv6 octets to an address is a system call; the octets are recovered.
- EventCodec.MarshalRaw: rendering of paths, keys and metadata values to text happens before the model; the process
  state is an opaque byte string, which a given test says can be decoded or not.
- StackwalkQueue.Queue.Store: processes created on behalf of another one, whose stack comes from a remote thread, are
  not modelled; the requirement excludes them.
- StackwalkQueue.Queue.Push: the same processes are excluded.
- StackwalkQueue.Queue.Pop: the branch for remote threads that serves those processes is not modelled.
- StackwalkRuns.InvAlways: runs contain the flushes that return; after one that hangs nothing more happens.
- The decorator's own fields are kept in the queue that owns it; the channel is unbounded.
- Snapshotters.Snapshotter.Put: keeps links sound for states without a parent, which is what lookups produce.
- Snapshotters.Snapshotter.NewProcState: PEB, token, handle and PE reads are inputs; threads, modules, handles and the
  process UUID are not modelled.
- `WriteFromCapture`, threads, modules and memory maps of the snapshotter; case folding and path splitting are
  arbitrary functions.
- JSON objects, floats and the layout of alerts; formatters, outputs, configuration and filaments.
