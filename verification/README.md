# Bootwright: a verified model

Bootwright drives OpenShift clusters from declared objects. It selects add-ons
and orders them, runs each step in an adapter process that reports over a
channel of records, and shows what it does on a terminal or in a log. This
project models the parts whose correctness rests on interleavings, graphs,
automata and bookkeeping, and proves what the design promises of them.

- **Adapter runs** (`supervisor*.dfy`, `session.dfy`, `reader.dfy`). A run is
  any sequence of records, stream end, reap, drain and cancellation that the
  select loop can receive. `Supervisor` gives each handler as a function on a
  state with a trace of signals, kills, writes and closes; `Session` is the
  object whose methods update its fields. The judge is any function of what it
  has heard, the record and the moment. Proved over all runs: each kind of ending
  if and only if the events read and the verdicts given say so, a completed one
  as proof of a clean run; exactly which acknowledgements are written; a decided
  ending is final; signals, kills and acknowledgements keep their order and a stop
  that is owed is carried out; a run is bounded and never stranded; and exactly
  when the ending of a failed run does not depend on where the failed exit falls,
  with the lifecycle runner's own judge as the instance.
- **Add-on selection** (`expansion*.dfy`). The explicit-stack expansion of
  profiles against the recursive post-order one, its issues against a recursive
  walk, and the entry each issue points at.
- **Add-on order** (`graph.dfy`, `order.dfy`, `schedule.dfy`, `blame.dfy`,
  `binding_order.dfy`). Reachability by a queue search, the Kahn scheduler with
  its counters, cycle diagnosis, and the authored order of bindings. A
  scheduler that is stuck implies a cycle, which is what makes the indices of
  the diagnosis safe.
- **JSON length** (`json_*.dfy`). The predictor against a reference encoder it
  never runs, with the raw-value automaton against compaction on the texts of the
  grammar of RFC 8259; and the encoder against a reader: what is encoded reads as
  what the value means, and what is compacted as it did before.
- **Text** (`utf8.dfy`, `escape.dfy`, `native_string.dfy`). The display escaper
  with its inverse, and the surrogate check against the pairing of section 7 of
  RFC 8259.
- **Values and normalization** (`value*.dfy`, `stable_sort.dfy`,
  `normalize*.dfy`). Equality against a meaning that forgets field order, the
  path laws, idempotence of add-on normalization, and exactly when it preserves
  all that was authored.
- **Progress** (`screen.dfy`, `progress*.dfy`, `presenter.dfy`). A terminal with
  the controls of sections 8.3.22 (CUU) and 8.3.41 (EL) of ECMA-48 and a
  presenter that redraws its block on it, or appends rows. Proved over every
  sequence of calls: lines above the block never change on a terminal tall
  enough for every block that is drawn, and the outcome rows of the steps the
  calls settled are written exactly once, each row given by the calls alone.

## What was found

- *Where the failed exit falls.* All orders of the same records, stream end and
  failed exit end alike if and only if two things hold of the records, judged
  with the exit unread: no acknowledgement is written in doubt, and a failure
  that the judge withholds or changes once the exit is read is made good by the
  records after it (`SupervisorExact.OrderlessExactly`). A write is in doubt
  where it fails for another reason than a missing reader, and also where it
  would be delivered but a valid refusal has closed the channel
  (`SupervisorJudge.UncertainWriteOrders`, `SupervisorJudge.RefusedThenAcknowledged`).
  The lifecycle judge withholds the failure of a preparation from an adapter that
  is gone, so there the order shows (`SupervisorJudge.WithheldFailureOrders`);
  `SupervisorJudge.LifecycleOrders` gives its exact condition.
- *A judge that names a failure late.* The session does not check that the
  protocol is still open before it ends as named. For a judge that reads only the
  record and the openness, no decided ending is ever replaced if and only if it
  names failures only while the run is open (`SupervisorFinal.FinalExactly`).
- *Two bindings of one name.* A cycle of authored order is reported at an entry
  of the first binding on it. The entry exists for every choice of entries if
  and only if the bindings' names are distinct (`BindingOrder.ReportableExactly`);
  with a repeated name the index can be -1.
- *Values with a repeated field name or an absent field.* Maps of given names
  compare the same way round with every tidy value if and only if no name repeats
  (`ApiValueExact.SymmetricExactly`) and, the names being distinct, if and only
  if no field is absent (`ApiValueExact.PresentExactly`).
- *Normalization of what is not of the expected shape.* A list of capabilities or
  secret references is rewritten as a list of texts and a section that gains a
  default as a map, so an item that is no text, or a section that is no map, is
  lost (`AddonPreserve.OddCapabilityIsLost`). All that was authored is preserved
  if and only if it has the shape (`AddonPreserve.AddonPreservesExactly`).

## Model

| member | source | states |
|---|---|---|
| `SupervisorProof.CompletedIsProof` | internal/adapterprotocol/process_linux_amd64.go:184-390 | a finished run ends as completed if and only if the adapter exited zero with uncut output, the stream ended cleanly, no drain fired and nothing canceled, each of the records read was judged valid with no failure named, every attempted acknowledgement was delivered and a completed record came; the ending then carries the last such record |
| `SupervisorProof.HeardIsReceived` | internal/adapterprotocol/process_linux_amd64.go:325-326 | the judge hears exactly the records that were read, in order, in every run |
| `SupervisorEndings.KindsExactly` | internal/adapterprotocol/process_linux_amd64.go:184-390 | each kind of ending if and only if the events and verdicts say so: canceled iff a cancellation or a done context was read; retained, cut output, incomplete, invalid, named, uncertain iff that was the first thing to end an open run; a failed exit iff it was first and nothing the adapter wrote replaced it, the runner's own close of the stream changing nothing; no result and completed iff nothing ended it |
| `SupervisorEndings.OutcomeIsExplained` | internal/adapterprotocol/process_linux_amd64.go:380-390 | the ending itself, failure included, is that of the first reading that ended the run, or of the first that replaced its failed exit |
| `SupervisorAnswers.ReadingsAreHeard` | internal/adapterprotocol/process_linux_amd64.go:325-326 | the verdicts those readings carry are the judge's, in order |
| `SupervisorAnswers.WritesExactly` | internal/adapterprotocol/process_linux_amd64.go:344-378 | the acknowledgements written are exactly those due: one for each accepted record that asks, while nothing ended or canceled the run and every earlier one had a reader, on a channel closed by a refusal in vain |
| `SupervisorAnswers.StopIsCarriedOut` | internal/adapterprotocol/process_linux_amd64.go:237-310 | an unspared cancellation signals, and where a breach stops the tree so does a refused record or an unreadable channel; each closes the channel; a signaled adapter has its group killed once reaped; a canceled, signaled or reaped run with an open stream has its drain ahead or its output closed |
| `SupervisorAnswers.DrainKills` | internal/adapterprotocol/process_linux_amd64.go:286-293 | a drain that passes after the signal kills the group |
| `SupervisorProof.RunReflects` | internal/adapterprotocol/process_linux_amd64.go:295-378 | over any events the session's flags say exactly whether the run has been clean so far and which completed record is last |
| `SupervisorOrder.RunFollows` | internal/adapterprotocol/process_linux_amd64.go:295-378 | a run of records, a failed exit and a stream end stands where a fold over the records alone puts it, each judged before or after the exit |
| `SupervisorOrder.OrderEnds` | internal/adapterprotocol/process_linux_amd64.go:295-390 | such a run ends as the fold with the exit where the run read it |
| `SupervisorOrder.EveryPlace` | internal/adapterprotocol/process_linux_amd64.go:194-209 | the exit can be read at every place among the records |
| `SupervisorExact.OrderlessExactly` | internal/adapterprotocol/process_linux_amd64.go:295-378 | with a judge that names failures while open and reads validity off the records, all orders end alike if and only if at each record, the exit unread, no write is in doubt and a failure that the exit changes is made good by the records after it |
| `SupervisorExact.EveryBeginningExactly` | internal/adapterprotocol/process_linux_amd64.go:295-378 | however far the adapter got, all orders end alike if and only if no write is in doubt and no record names a failure that the exit would change |
| `SupervisorJudge.LifecycleReads` | internal/reconciliation/ansiblerunner/process_linux_amd64.go:342-383 | the lifecycle judge names failures only while open and reads validity off the records |
| `SupervisorJudge.LifecycleOrders` | internal/reconciliation/ansiblerunner/process_linux_amd64.go:342-383 | under it all orders end alike, however far the adapter got, if and only if no preparation fails and no write is in doubt |
| `SupervisorExit.ZeroExitIsInvisible` | internal/adapterprotocol/process_linux_amd64.go:295-310 | a zero exit inserted anywhere leaves the protocol's side of the run as it was |
| `SupervisorJudge.UncertainWriteOrders` | internal/adapterprotocol/process_linux_amd64.go:367-378 | the same record with a write that fails otherwise and the same failed exit end as uncertain in one order and as a failed exit in the other |
| `SupervisorJudge.RefusedThenAcknowledged` | internal/adapterprotocol/process_linux_amd64.go:348-360 | the same holds of a refusal and an acknowledged record after it, though every write would be delivered |
| `SupervisorJudge.WithheldFailureOrders` | internal/reconciliation/ansiblerunner/process_linux_amd64.go:360-366 | a preparation that fails ends the run as named in one order and as a failed exit in the other |
| `SupervisorFinal.EndingIsFinal` | internal/adapterprotocol/process_linux_amd64.go:286-378 | with a judge that names failures only while the moment is open, an ending other than a failed exit is never replaced by any later events |
| `SupervisorFinal.FailedExitIsExplained` | internal/adapterprotocol/process_linux_amd64.go:312-342 | a failed exit gives way only to a refused record, a named failure or a broken stream, and what replaced it stands |
| `SupervisorFinal.LateNameReplaces` | internal/adapterprotocol/process_linux_amd64.go:336-338 | a judge that names a failure after the end replaces an ending that was decided, in a legal run |
| `SupervisorFinal.FinalExactly` | internal/adapterprotocol/process_linux_amd64.go:325-342 | for a judge that reads the record and the openness, no legal run replaces a decided ending if and only if failures are named only while open |
| `SupervisorDiscipline.StopAndAcknowledgeDiscipline` | internal/adapterprotocol/process_linux_amd64.go:237-284 | at every mark of every legal run: one signal and one kill at most, no kill before the signal and before a reap or the drain, no signal or kill after a spared cancellation, an acknowledgement recorded exactly after a delivered write and no delivered write after the channel was closed |
| `SupervisorDiscipline.RunIsSound` | internal/adapterprotocol/process_linux_amd64.go:184-390 | the flags of every legal run agree with its trace |
| `SupervisorDiscipline.NeverStranded` | internal/adapterprotocol/process_linux_amd64.go:222-310 | whenever the adapter is reaped and the stream is open, the drain can still fire or the output is already closed |
| `SupervisorDiscipline.BoundedRun` | internal/adapterprotocol/process_linux_amd64.go:193-211 | a legal run handles at most four events beside its records |
| `RecordReader.BoundedByAdmission` | internal/adapterprotocol/record.go:80-88 | with the records the reader lets through, a run handles at most the admission's records and four events: 68 for a lifecycle run, 136 for a controller's |
| `RecordReader.Read` | internal/adapterprotocol/record.go:123-143 | what is sent on is the longest run of decodable lines within the bound, in order, and the error is broken exactly when a line was left |
| `SupervisorSession.Session.Supervise` | internal/adapterprotocol/process_linux_amd64.go:184-211 | the object's loop returns the ending its readings explain, each kind if and only if they say so, a completed one with its last completed record; its trace holds exactly the acknowledgements due and keeps the order of signals, kills, writes and acknowledgements; it handles at most four events beside the records |
| `SupervisorSession.Session.Handle` | internal/adapterprotocol/process_linux_amd64.go:194-209 | one turn of the loop moves the session as one step moves the state |
| `SupervisorSession.Session.CancelNow` | internal/adapterprotocol/process_linux_amd64.go:237-248 | a first cancellation stops the tree or, spared, closes the channel and arms the drain; a later one does nothing |
| `SupervisorSession.Session.BreachProtocol` | internal/adapterprotocol/process_linux_amd64.go:252-257 | the channel is closed, and the tree stopped where a breach stops it, with no ending changed |
| `SupervisorSession.Session.StopTree` | internal/adapterprotocol/process_linux_amd64.go:264-277 | the channel is closed, then once only the signal and the drain, and the kill where the adapter is reaped |
| `SupervisorSession.Session.DrainPassed` | internal/adapterprotocol/process_linux_amd64.go:286-293 | the group is killed where stopping, the output closed, and an open run ends as retained |
| `SupervisorSession.Session.AdapterReaped` | internal/adapterprotocol/process_linux_amd64.go:295-310 | the reap kills, arms the drain and ends an open run by how the adapter exited |
| `SupervisorSession.Session.StreamEnded` | internal/adapterprotocol/process_linux_amd64.go:312-323 | a broken stream ends an open or failed run as incomplete, the runner's own close only an open one |
| `SupervisorSession.Session.RecordReceived` | internal/adapterprotocol/process_linux_amd64.go:325-360 | a record is judged at its moment, ruled on and answered |
| `SupervisorSession.Session.WriteProceed` | internal/adapterprotocol/process_linux_amd64.go:367-378 | a delivered write is acknowledged, one without a reader breaches, any other ends as uncertain |
| `Graph.Search` | internal/addons/instances.go:471-494 | the queue search terminates and answers whether the target is reached by one or more edges |
| `Graph.EndlessSetHasCycle` | internal/addons/instances.go:405-425 | a finite set in which every node has a successor holds a cycle that the given node is on or reaches |
| `AddonOrder.AllDependencies` | internal/addons/instances.go:376-404 | the dependency sets are those that capabilities, running last and the authored order give, authored ones only where not already derived, none of a member on itself; the unmet capabilities are those nothing else offers, in the order and as often as they are required |
| `AddonOrder.GreedyIsLeast` | internal/addons/instances.go:405-412 | taking the first ready member each time gives the lexicographically least of all orders that respect the dependencies |
| `AddonOrder.GreedyRespects` | internal/addons/instances.go:405-412 | every member comes after all it depends on, once |
| `AddonSchedule.Schedule` | internal/addons/instances.go:405-468 | the loop is greedy until nothing is ready and its counters always are the unscheduled dependencies of each member; the instances are exactly those of the scheduled members that have a package, each once and in the order's order, each listing in ascending order exactly the members it depends on |
| `AddonSchedule.InstancesExactly` | internal/addons/instances.go:444-461 | the same of any order |
| `AddonSchedule.FindReady` | internal/addons/instances.go:406-412 | the least unscheduled member whose counter is zero is the least ready one |
| `AddonSchedule.Settle` | internal/addons/instances.go:462-466 | after a member is scheduled the counters count one dependency less exactly where it was one |
| `AddonSchedule.ScheduledExactly` | internal/addons/instances.go:405-468 | a member is scheduled if and only if it reaches no cycle |
| `AddonSchedule.ScheduleIsTotal` | internal/addons/instances.go:405-468 | every member is scheduled if and only if the graph is acyclic |
| `AddonSchedule.LeftHasCycle` | internal/addons/instances.go:413-426 | a scheduler that is stuck before the end leaves a member that is on a cycle |
| `AddonBlame.CycleMembers` | internal/addons/instances.go:470-511 | the first unscheduled member on a cycle, or none if there is none, and in ascending order exactly the unscheduled members mutually reachable with it |
| `AddonBlame.Diagnose` | internal/addons/instances.go:413-443 | a capability cycle is reported exactly when the derived dependencies have one; otherwise the member and entry of the first authored edge, row by row, between members the cycle names |
| `AddonBlame.AuthoredEdgeIsNamed` | internal/addons/instances.go:428-437 | where the derived dependencies have no cycle, the cycle of all of them has an authored edge between listed members |
| `AddonBlame.OrderMembers` | internal/addons/instances.go:370-468 | the whole call: dependencies and unmet capabilities as specified, the instances of the packages in the greedy order, each with exactly the members that offer what it needs, that it runs last after or that it was authored to follow; a complaint if and only if there is a cycle, and the complaint as diagnosed |
| `BindingOrder.AuthoredOrder` | internal/addons/instances.go:319-368 | a cycle is reported if and only if some binding is on one; it is the first such binding, with the names that share a cycle with it in their order, and the first entry that returns; the entry's index is valid if and only if the binding has an entry that returns |
| `BindingOrder.DistinctIsReportable` | internal/addons/instances.go:352-366 | with distinct binding names the reported entry always exists |
| `BindingOrder.ReportableExactly` | internal/addons/instances.go:319-368 | the reported entry exists whatever the entries are if and only if the names are distinct |
| `BindingOrder.DistinctIsBacked` | internal/addons/instances.go:398-437 | with distinct names every authored dependency has an entry of its own member, so the diagnosis points at one |
| `AddonExpansion.ExpandIndexed` | internal/addons/bindings.go:28-105 | complete if and only if no profile cycle is reachable and every reachable reference resolves; the result is the first-occurrence selection of the recursive post-order expansion, a prefix of it once the issue cap is met; the issues are exactly those a recursive walk raises for the faults it meets, in order, cut at the cap; each is so, and points at the first entry of the owner that leads to the profile naming it |
| `ExpansionRoots.FrameIsFirst` | internal/addons/bindings.go:51-57 | a profile is walked under the first entry of the owner that is or leads to it |
| `ExpansionWalk.FinishTakes` | internal/addons/bindings.go:46-80 | what the stack has still to walk is the next reference, under its entry, and then the rest |
| `AddonExpansion.EmitAddons` | internal/addons/bindings.go:81-97 | a finished frame adds each of its add-ons that was not seen, with an issue for one that does not resolve |
| `AddonExpansion.UniqueObjects` | internal/addons/bindings.go:107-120 | exactly the names that occur once, with their objects |
| `JsonSize.Size` | internal/canonicaljson/size.go:23-32 | succeeds if and only if the value is predictable, nests within the depth and encodes within the limit, and returns the exact encoded length |
| `JsonMeaning.EncodingMeans` | internal/canonicaljson/size.go:46-201 | the encoding whose length is predicted reads as what the value means: a field is left out if and only if its tag is a dash or it is omitempty and false, zero, empty or nil, and stands under its tag name or else its Go name; a text has the runes of its bytes |
| `JsonMeaning.DecimalReads` | internal/canonicaljson/size.go:70-75 | an integer reads back as itself |
| `JsonSqueeze.CompactionPreserves` | internal/canonicaljson/size.go:203-236 | a compacted JSON text says what the text said |
| `JsonRunes.BodyReads` | internal/canonicaljson/size.go:173-201 | an encoded string means the runes of the text, invalid bytes as the replacement rune |
| `JsonSize.Predictor.Add` | internal/canonicaljson/size.go:38-44 | the count never passes the limit and is kept on a refusal |
| `JsonSize.Predictor.Predict` | internal/canonicaljson/size.go:46-92 | succeeds exactly when the value fits the depth and the room left, adding its encoded length |
| `JsonSize.Predictor.Sequence` | internal/canonicaljson/size.go:99-112 | the same for the items of a list, with brackets and commas |
| `JsonSize.Predictor.Structure` | internal/canonicaljson/size.go:114-155 | the same for fields, names and omitted empty ones |
| `JsonSize.Predictor.Str` | internal/canonicaljson/size.go:173-201 | a string is counted at its escaped length, and the early refusal refuses only what does not fit |
| `JsonSize.Predictor.RawValue` | internal/canonicaljson/size.go:206-236 | a raw value is counted at its compacted length, and refused exactly when it is no JSON text, an absent one included, or does not fit |
| `JsonGrammar.Lex` | internal/canonicaljson/size.go:207-209 | the lexemes of a raw value are well formed and spell its bytes |
| `JsonGrammar.JsonCounts` | internal/canonicaljson/size.go:206-236 | on every JSON text the automaton counts the compacted length |
| `JsonGrammar.NotJson` | internal/canonicaljson/size.go:203-209 | an absent raw value is no JSON text, and neither is a bracket, brace, comma or colon alone |
| `JsonText.RawCountsCompacted` | internal/canonicaljson/size.go:206-236 | for every sequence of lexemes the automaton's count is the length without blanks outside strings and with `<`, `>`, `&`, U+2028 and U+2029 inside strings as six bytes |
| `DisplayEscape.EscapeDisplayLine` | internal/cli/output.go:274-305 | the loop's text is the escaping of the value, and unescaping gives the value back |
| `DisplayEscape.RoundTrip` | internal/cli/output.go:274-305 | unescaping inverts escaping on every byte string, invalid bytes and supplementary runes included |
| `DisplayEscape.Unambiguous` | internal/cli/output.go:274-305 | no two byte strings escape to the same text |
| `DisplayEscape.EscapedIsShown` | internal/cli/output.go:274-305 | an escaped text is valid UTF-8 of printable runes alone |
| `DisplayEscape.ShownHasNoBreak` | internal/cli/output.go:274-305 | such a text has no line break and no other ASCII control byte, where none of these prints |
| `DisplayEscape.PrintablePasses` | internal/cli/output.go:274-305 | a text of printable runes without a backslash, a tab or a line break is shown unchanged |
| `NativeString.Accepts` | internal/adapterprotocol/record.go:460-498 | the loop with its strides of 1, 2, 6 and 12 bytes stays in bounds and accepts as the scan does |
| `NativeString.LiteralIsPaired` | internal/adapterprotocol/record.go:460-498 | a valid string literal is accepted if and only if each high surrogate escape is at once followed by a low one and no low one stands alone |
| `ApiValue.Get` | api/v1alpha1/value.go:72-84 | the loop reads the value at the path, nothing where a step is missing |
| `ApiValue.WithField` | api/v1alpha1/value.go:86-95 | the first field of the name is replaced, or the field is added last |
| `ApiValue.WrittenIsRead` | api/v1alpha1/value.go:105-110 | what is written at a path is read back there |
| `ApiValue.WriteIsLocal` | api/v1alpha1/value.go:105-110 | a write leaves every path that parts from it as it was |
| `ApiValue.EqualIsMeaning` | api/v1alpha1/value.go:131-146 | on trees with distinct names and no absent field, equality is equality up to field order |
| `ApiValue.EqualIsEquivalence` | api/v1alpha1/value.go:131-146 | on such trees it is reflexive, symmetric and transitive |
| `ApiValue.RepeatedNameIsNotSymmetric` | api/v1alpha1/value.go:131-146 | with a repeated name it is not symmetric |
| `ApiValueExact.SymmetricExactly` | api/v1alpha1/value.go:131-146 | maps of given names compare the same way round with every tidy value, whatever tidy values they hold, if and only if no name repeats |
| `ApiValueExact.PresentExactly` | api/v1alpha1/value.go:131-146 | with distinct names they do if and only if no field is absent |
| `StableSort.SortStable` | internal/addons/admission.go:261-265 | items of equal key keep their order |
| `AddonNormalize.CanonicalTwice` | api/v1alpha1/lexical.go:348-354 | the canonical image is a fixed point |
| `AddonNormalize.OlmIsFields` | internal/addons/admission.go:30-56 | the chained defaults of catalog, namespace, operator group and subscription, each reading what the ones before wrote, come to one revision of each field from what was authored |
| `AddonNormalize.AddonTwice` | internal/addons/admission.go:14-91 | normalizing a normalized add-on changes nothing |
| `AddonPreserve.AddonPreservesExactly` | internal/addons/admission.go:14-91 | every authored type, text, flag, field and item is preserved through the whole spec, but for the case of the image's digest and the order of the sorted lists, if and only if what is rewritten as a map is one and what is rewritten as texts are texts |
| `AddonPreserve.SortedStringsExactly` | internal/addons/admission.go:255-259 | a sorted list keeps its items if and only if all of them are plain texts |
| `AddonPreserve.InputsExactly` | internal/addons/admission.go:23-29 | the inputs keep their items if and only if each is a map or already says whether it is required |
| `AddonPreserve.OlmExactly` | internal/addons/admission.go:30-56 | the operator section keeps all that was authored if and only if each part that gains a default is a map and the image is a text |
| `AddonPreserve.ReadinessExactly` | internal/addons/admission.go:57-68 | readiness keeps all that was authored if and only if it lacks no default or is a map |
| `AddonPreserve.StepsExactly` | internal/addons/admission.go:69-77 | the steps keep their order and all they say if and only if each with secret references is a map and those are plain texts |
| `AddonPreserve.OddCapabilityIsLost` | internal/addons/admission.go:18-22 | a capability that is a map becomes an empty text |
| `AddonDefaults.AddonSorts` | internal/addons/admission.go:18-29 | the capabilities end sorted by text and the inputs by name |
| `AddonDefaults.StepSorts` | internal/addons/admission.go:69-77 | so do a step's secret references |
| `AddonDefaults.OlmDefaults` | internal/addons/admission.go:34-45 | which default each part of the operator section gains where it lacks one, the operator group's from the namespace |
| `AddonDefaults.SubscriptionDefaults` | internal/addons/admission.go:46-55 | a subscription is named after its package, drawn from the catalog source and sought in the marketplace where it does not say otherwise |
| `AddonDefaults.ReadinessDefaults` | internal/addons/admission.go:57-68 | the timeout, and where no checks were authored one check with the section's namespace under its namespace and its subscription's name under its subscription, or none where a name is missing |
| `AddonDefaults.CanonicalDigest` | api/v1alpha1/lexical.go:348-354 | an image keeps all up to the first at sign and has the rest lowercased |
| `AddonDefaults.BindingSorts` | internal/addons/admission.go:78-87 | a binding's configurations end sorted by add-on, and no other field changes |
| `AddonDefaults.ConfigSorts` | internal/addons/admission.go:78-87 | a configuration's inputs end sorted by name, and no other field changes |
| `AddonNormalize.OlmKeeps` | internal/addons/admission.go:30-56 | under the operator every authored value stays, the catalog image up to the case of its digest |
| `AddonNormalize.BindingTwice` | internal/addons/admission.go:78-87 | normalizing a normalized binding changes nothing |
| `Screen.RepaintAt` | internal/cli/progress.go:346-435 | erasing the block, writing settled rows in its place and a new block under them only adds to the text above the block |
| `Screen.EraseAt` | internal/cli/progress.go:417-435 | erasing clears the block's lines and no other, and returns to the first of them |
| `Screen.ParagraphAt` | internal/cli/progress.go:292-315 | a heading or field of any length, wrapped or not, only adds lines |
| `ProgressSteps.FitTerminalRow` | internal/cli/progress.go:475-489 | the row leaves the last column empty, is whole where it fits, and keeps lead and note while there is room for them |
| `ProgressSteps.FindStep` | internal/cli/progress.go:155-162 | the first running step of the event's label, position and total, or none |
| `ProgressSteps.InsertKeepsOrder` | internal/cli/progress.go:164-172 | a step placed before the first later one keeps the positive positions in order |
| `ProgressSteps.Release` | internal/cli/progress.go:178-187 | the released steps are those settled and not held back, and the rest stay, both in order |
| `ProgressSteps.ReleaseIsOrderly` | internal/cli/progress.go:178-196 | what is released is in position order, and no running step of a live context, an earlier positive position and the same total is left; every running step stays, and what settled and stays has such a step left before it |
| `ProgressSteps.OutcomesPicked` | internal/cli/progress.go:178-187 | a release splits the outcomes of the block, losing and repeating none |
| `ProgressPresenter.Presenter.Report` | internal/cli/progress.go:119-150 | the heading is opened, the event's step found or placed, and the step run or settled; an unheard event changes nothing |
| `ProgressPresenter.Presenter.Settle` | internal/cli/progress.go:346-365 | one more outcome counts, exactly the free ones are written, on a terminal above the block which is drawn again |
| `ProgressPresenter.Presenter.Redraw` | internal/cli/progress.go:376-404 | the block becomes one line for each overview row and step, and nothing above it changes |
| `ProgressPresenter.Presenter.CloseLine` | internal/cli/progress.go:317-332 | appended output writes the outcomes still held, a terminal keeps the block as text, and the block is empty |
| `ProgressPresenter.Presenter.OpenHeading` | internal/cli/progress.go:305-312 | a new heading closes the block and adds a paragraph, the same one does nothing |
| `ProgressPresenter.Presenter.Field` | internal/cli/progress.go:292-298 | the block is closed and one paragraph added under it |
| `ProgressPresenter.Presenter.Beat` | internal/cli/progress.go:250-281 | a terminal redraws its block with elapsed times where a step is active; appended output repeats exactly the rows quiet for the whole bound, and settles nothing |
| `ProgressPresenter.Presenter.Finish` | internal/cli/progress.go:202-211 | nothing is left in the block |
| `ProgressStream.Stream` | internal/cli/progress.go:119-435 | over every sequence of reports, heartbeats and fields and then a finish: appended output holds exactly the outcome rows of the steps the calls settled, each as often as settled and, from an empty block, each as the calls alone say; on a terminal the text above the block is only ever added to, the block fitted exactly if every block the calls draw has no more rows than the terminal, and then that text is shown unchanged with every outcome among its lines |
| `ProgressLife.ExpectedFromCalls` | internal/cli/progress.go:119-150 | an outcome row has the settling report's status, identity and detail, the completion last declared since the step's first report, and the time since that report |
| `ProgressLife.SceneIsTracked` | internal/cli/progress.go:119-172 | the running steps the block keeps are, key by key, exactly those the calls leave running, with what the reports said of them |
| `ProgressLife.LifeBegins` | internal/cli/progress.go:119-131 | a running step was placed by the first report of its key since the block was emptied or such a step settled, and has started then |
| `ProgressLife.LifeCompletes` | internal/cli/progress.go:132-134 | its completion is that of the last report since then that declared one |
| `ProgressLife.RunningRowFromCalls` | internal/cli/progress.go:140-145 | the row of a running report names what the report says |
| `ProgressLife.BlockRowFromCalls` | internal/cli/progress.go:376-395 | the row of a running step in the block is what its reports and heartbeats say |
| `ProgressLife.BlockIs` | internal/cli/progress.go:376-395 | under the progress heading the block starts with the overview, and below it is one row for each step |
| `ProgressStream.Replay` | internal/cli/progress.go:119-298 | after any calls the heading, the steps, the outcomes counted and whether the block fitted are what a fold over the calls alone says |
| `ProgressSteps.EntryIsUnique` | internal/cli/progress.go:155-172 | an event belongs to one place in the block |

## Left out

- Launching the adapter, its pipes, environment and threads: only the events and what they enable are modelled.
- `SupervisorSession.Session.Supervise`: the loop's choice among ready channels is a given sequence of events, which every theorem quantifies over; durations of the drain are not modelled.
- `SupervisorSession.Session.WriteProceed`: a write on a channel the runner itself closed is taken to fail with an error other than a missing reader.
- `RecordReader.Read`: lines are given as decoded or not; splitting lines and decoding one record are not modelled.
- `AddonOrder.AllDependencies`: the text of an unmet capability's issue is left out, as is all message wording elsewhere.
- `AddonExpansion.ExpandIndexed`: an issue is its kind, the owner's reference it points at and a name.
- `JsonSize.Size`: a value is a datatype of what the predictor distinguishes in place of reflection; struct tag names are taken as distinct and valid; integers are unbounded, and the count stays within the limit.
- `SupervisorJudge.LifecycleReads`: what the caller's preparation and refusals answer is a function of the record; what the judge reports and logs on the way is left out, and so is the controller's judge.
- `NativeString.Accepts`: whether the library decodes the literal is a parameter.
- `DisplayEscape.EscapedIsShown`: which runes print is a parameter that is to include the printable ASCII characters; `DisplayEscape.ShownHasNoBreak` asks that it exclude the ASCII controls.
- `AddonNormalize.AddonTwice`: lower-casing is any function on characters that leaves what it produced; sorting is a stable insertion sort.
- `ProgressPresenter.Presenter.Report`: the clock and the live contexts are arguments of each call, read once in it; the wording of a row is a parameter; styling, which takes no cells, and holding the input echo are left out, and a cell is one character.
- `ProgressPresenter.Presenter.Beat`: any heartbeat at any time, so the timer and its generation are not modelled; a step is a value in the list where the source shares a pointer to it with no one else.
- `ProgressStream.Stream`: the terminal keeps its size throughout.
- Validation of declarations, member uniqueness, schema and lexical rules: single-branch checks.
- The command-line tables, structured presentations and argument parsing: mappings over libraries.
- Acquisition over the network, privilege elevation, signals and terminal modes: calls into other systems.
