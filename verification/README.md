# Muxly: verified models of the document, the layout, the bridge and the daemon's queues

Muxly keeps a live document tree in a daemon, projects it as boxes for viewers,
and carries requests to the daemon over several transports. This project models
the stateful core of that system in Dafny and proves what it promises:

- **The document** (`src/core/document.zig`, names in `src/core/muxml.zig`): a
  table of slots with ever-growing ids, links both ways between parents and
  children, byte accounting and shared view state. `DocumentOps` gives every
  operation as a function on the whole state, including the broken states in the
  middle of a removal; `LiveDocument` is the class with its loops and explicit
  stacks, each method proved to compute that function. `Validation`,
  `DocumentInvariant` and `DocumentRuns` prove what the self-check means and
  what every run keeps, `DocumentHistory` what a run leaves in every node;
  `Traversal`, `Selectors`, `Domains` and `Names` cover walks, path resolution,
  concurrency domains and generated names.
- **The boxed layout** (`src/core/projection.zig`): `Projection` divides one
  rectangle among children, `Layout` says what a whole projection emits,
  `Elision` holds a run in which it shows what is elided, `Drawing` the recursive
  loops with their 16-bit cursors, and `ContentView` the lines shown inside a
  region.
- **The H2 bridge** (`tools/transport_bridge/src/main.rs`): `Gate`, `Lane` and
  `Admission` are transition systems over any number of tasks and every
  interleaving, with the atomic sections also as classes. `Lines`,
  `LineDecoder` and `LineReader` are the two line readers; `Utf8`, `HttpText`,
  `Http` and `HttpStreams` the HTTP/1.1 messages (RFC 9112, sections 2.2, 3, 6.2
  and 9.3; RFC 3629 for UTF-8).
- **The daemon and client queues** (`src/daemon/server.zig`,
  `src/lib/client.zig`): `TtyQueue` and `TtyRuns`, `Executor`, and `LeasePool`.

`Basics`, `Forests`, `Decimal` and `Tasks` hold shared definitions and lemmas.

## Conventions

A step of a transition system is one section under one mutex, or one call on a
notification, so a schedule of steps is an arbitrary interleaving of the source's
threads or tasks. A tokio `Notified` completes once `notify_waiters` has been
called after its creation: it carries the count of such calls at that moment.
Lists and tables that the source updates in place are sequences assigned to
fields; a 16-bit or 64-bit sum without a wrapping or saturating operator is a
range-checked one here, so verification shows that it cannot overflow. Zig's
`parseInt` and Rust's `parse` are written out in `Decimal`. Reading from the
network, connecting, and allocating memory are parameters or always succeed.

Where the code does less than its comments or callers suggest, the code is
modelled as it is:

- A projection looks at a node's own elision only (src/core/projection.zig:138),
  and a view root or an override may lie below an elided node
  (src/core/document.zig:491-495), which is then drawn all the same
  (`Elision.ElidedAncestorIsIgnored`; `Layout.ElisionHonouredIff` gives the exact
  condition).
- A prepared leaf keeps the name chosen when it was prepared, and the commit does
  not look at it again, so siblings may come to share a name
  (`DocumentRuns.PreparedNamesMayClash`; `DocumentRuns.RunKeepsNamesIff` says over
  which runs they never do).
- The gate waits forever behind a sequence that never calls `acquire`; the
  wrong-path exit skips it (`Gate.SkippedSequenceStalls`; `Gate.GateServesIff`
  gives the exact condition).
- Gate and lane together are not first-in, first-out
  (`Admission.GateOrderIsNotLaneOrder`; `Lane.LaneOrderedIff` says when a lane
  is in order).
- Whether the line decoder accepts a stream depends on its chunking
  (`LineDecoder.ChunkingDecides`; `LineDecoder.SomeChunkingFitsIff`,
  `LineDecoder.AllChunkingsFitIff` and `LineDecoder.ChunkingIrrelevantIff` say
  when it is accepted under some, under every, and regardless of the chunking), and
  so does the message read from it (`LineDecoder.BodyChunkingIrrelevantIff`); at the
  end of a stream it keeps a carriage return that the other reader drops
  (`LineReader.ReaderMatchesDecoderIff`).
- `removeSubtree` detaches the node before it finds that the stored total is too
  small, and then leaves it live and listed by nobody
  (`DocumentInvariant.RemoveSubtreeSucceedsIff`); the invariant rules that out.
- A lane's worker drops its reference to a session before it gives the request's
  slot back (src/daemon/server.zig:855-857), so the session may be destroyed in
  between, as it is with one request per connection
  (`Executor.SlotReturnedTooLate`; `Executor.SlotReturnedToLiveIff` gives the exact
  condition).
- `removeNode` accepts a childless root and leaves an invalid document
  (`DocumentRuns.RemoveLeafValidIff`).
- `validate` never compares a slot's position with the id stored in it
  (`Validation.MisplacedNodeIsAccepted`). No run of operations produces such a
  table: a node is only ever stored in the slot of its own id, and the invariant
  behind `DocumentRuns.EveryRunValidates` says so.
- A generated name such as `node-2` is a direct reference, so a path through it
  may lead elsewhere (`Selectors.DefaultNameMayRedirect`;
  `Selectors.OwnNameResolvesIff` and `Selectors.SelectorRoundTripIff` give the
  exact conditions).
- A reference to id 0, such as `0`, `@0`, `node-0` or the valid name `-0`, trips an
  assertion (src/core/document.zig:800-803) where any other unknown id is an
  ordinary error; `Names.ZeroReferenceIff` says which segments are one, and
  `Names.ValidNameMayDenoteZero` shows the name.
- Children that are all menu or modeline rows leave the rest of their parent
  empty (`Projection.ChildRectsTileIff`).

## Model

| member | source | states |
|---|---|---|
| DocumentRuns.EveryRunValidates | src/core/document.zig:77-190 | every run of append, edit, rename, view, elision and removal operations from `init` keeps the tree well formed with exact live count and byte total, and `validate` succeeds with those numbers |
| DocumentHistory.NodesHoldWhatWasWritten | src/core/document.zig:77-190 | after every run from `init` a node exists exactly when it was created and not removed since, and it holds its last replacement followed by the texts appended since, in order, and its last title, name and follow-tail flag; nothing written to another node shows in it |
| DocumentHistory.ViewsFollowTheLastWord | src/core/document.zig:491-536 | after every run the elided nodes and the view root are what was last asked for, removed nodes forgotten |
| DocumentHistory.RefusedIff | src/core/document.zig:77-190 | every operation is refused exactly under its own condition and with its own error, and then changes nothing; appended text exactly when the node is unknown or the total with it would exceed the maximum, a name exactly when a sibling has it or it is malformed, in that order |
| DocumentHistory.AppendedLast | src/core/document.zig:77-90 | a successful append answers with the next id and puts the new leaf last in its parent's list, and changes no other list |
| DocumentRuns.RunKeepsNamesIff | src/core/document.zig:127-190 | over every run of all operations, names of siblings that start distinct stay pairwise distinct throughout if and only if each commit of a prepared leaf finds its name free at that moment |
| DocumentRuns.NewDocumentNamesIff | src/core/document.zig:77-190 | the same for every run from a new document, without further premise |
| DocumentRuns.NamesKeptByCommitIff | src/core/document.zig:127-140 | one commit keeps sibling names distinct exactly when the leaf has no name or none of the parent's children carries it |
| DocumentRuns.PreparedNamesMayClash | src/core/document.zig:96-140 | two leaves with one title prepared under the root before either is committed get the same name, and the run that commits both ends with siblings sharing it |
| DocumentRuns.DefaultChildNameLeast | src/core/document.zig:852-865 | the generated child name is free; it is the plain one if that is free, else the one with the least free suffix, at most the number of siblings plus one |
| DocumentOps.FreeSuffix | src/core/document.zig:857-863 | the unbounded suffix search terminates at a free candidate no later than the pigeonhole bound |
| DocumentRuns.RemoveNodeIsRemoveSubtree | src/core/document.zig:352-371 | on a childless non-root node single removal and subtree removal give the same document and result |
| DocumentRuns.RemoveLeafValidIff | src/core/document.zig:352-358 | removing a childless node always succeeds, and the result validates exactly when the node was not the root |
| DocumentOps.UnregisterEachIff | src/core/document.zig:450-461 | the loop that unregisters a list of nodes completes exactly when the ids are distinct and live, and then exactly those are gone |
| DocumentOps.DropMovesLast | src/core/document.zig:434-448 | dropping a list entry puts the last entry into its place and leaves every other where it was |
| DocumentInvariant.RemoveSubtreeExact | src/core/document.zig:360-461 | from any counted tree whose byte total covers the subtree, removal succeeds, removes exactly the node and its descendants, and changes only the parent's child set, the counts and the purged view and elision state |
| DocumentInvariant.RemoveSubtreeSucceedsIff | src/core/document.zig:360-461 | on any counted tree removal of a live non-root node succeeds if and only if the stored total covers the subtree's bytes; otherwise it reports drift, with the document unchanged if the bytes overflow 64 bits and else with exactly the node taken off its parent's list |
| DocumentInvariant.RemoveSubtreeKeeps | src/core/document.zig:360-461 | removal restores the invariant after its broken intermediate states, fails exactly on the root and on unknown nodes, then changes nothing, and never reports accounting drift |
| DocumentInvariant.CommitKeeps | src/core/document.zig:127-140 | committing a prepared leaf under any live parent keeps the invariant, so a reserved id may be committed in any order |
| DocumentInvariant.SetElidedKeeps | src/core/document.zig:520-530 | eliding and revealing keep the invariant, so elided ids stay live and duplicate-free under swap removal |
| Validation.ValidateIffConsistent | src/core/document.zig:685-767 | on every table whose nodes sit in the slots of their ids, `validate` succeeds if and only if every live node hangs from the root by mutual links exactly once and all counts and view ids are exact |
| Validation.ValidateNamesTheFault | src/core/document.zig:685-767 | on a well-formed tree whose bytes fit 64 bits the check reports exactly the first wrong number or dead view id |
| Validation.MisplacedNodeIsAccepted | src/core/document.zig:685-767 | without that side condition `validate` accepts a document with a live node the root never reaches |
| Validation.WalkUnfolds | src/core/document.zig:214-236 | whenever the visiting walk succeeds, on any table whose nodes sit in the slots of their ids, what it visited is a forest of distinct nodes accepted by the visitor, in preorder |
| Validation.WalkSucceeds | src/core/document.zig:214-236 | conversely the walk succeeds on every such forest and visits exactly its preorder |
| Traversal.SubtreeTraversal | src/core/document.zig:373-419 | preorder and postorder of a subtree list the node and its descendants, each once |
| Traversal.DocumentTraversal | src/core/document.zig:214-262 | the preorder of the document is a permutation of its live ids |
| Traversal.SubtreeContiguous | src/core/document.zig:214-262 | the preorder of a subtree is a contiguous part of the document's preorder |
| Traversal.PostChildrenFirst | src/core/document.zig:373-419 | postorder puts every child before its parent |
| LiveDocument.Document.AppendNode | src/core/document.zig:77-90 | reserve, prepare and commit on the live table give the new state, and the new id or the error, of the specification |
| LiveDocument.Document.DefaultChildNameFor | src/core/document.zig:852-882 | the suffix loop over the live siblings computes the specified name |
| LiveDocument.Document.AppendTextToNode | src/core/document.zig:142-154 | appending text checks the growth against the limit and updates content and total exactly |
| LiveDocument.Document.SetNodeContent | src/core/document.zig:156-169 | replacing content checks and updates the total exactly |
| LiveDocument.Document.SetNodeName | src/core/document.zig:182-190 | a name is set only if it is valid and no sibling has it; otherwise nothing changes |
| LiveDocument.Document.SetElidedFlag | src/core/document.zig:520-530 | the in-place list of elided ids changes as specified, including swap removal |
| LiveDocument.Document.ToggleElidedFlag | src/core/document.zig:508-518 | toggling is eliding or revealing, whichever applies |
| LiveDocument.Document.CollectPreorder | src/core/document.zig:214-262 | the explicit-stack preorder loop equals the recursive preorder |
| LiveDocument.Document.CollectSubtreePostorder | src/core/document.zig:373-419 | the two-phase explicit-stack postorder loop equals the recursive postorder |
| LiveDocument.Document.DetachChildFromParent | src/core/document.zig:434-448 | the search removes the child from the parent's list by swap removal if it is listed, leaves the child's own parent link alone, and reports only an unknown parent |
| LiveDocument.Document.RemoveDetachedPostorder | src/core/document.zig:450-461 | for any list of ids the loop unregisters each in order and then lowers the total once; it refuses a total above the document's, and stops at the first unknown id with those before it gone |
| LiveDocument.Document.RemoveSubtree | src/core/document.zig:360-371 | the method on the live table computes the specified removal, result and all |
| LiveDocument.Document.RemoveNode | src/core/document.zig:352-358 | likewise for single removal |
| LiveDocument.Document.WalkAndVisit | src/core/document.zig:214-236 | the explicit-stack walk with the validating visitor terminates on every table whose nodes sit in the slots of their ids, even a cyclic one, and computes the specified walk |
| LiveDocument.Document.Validate | src/core/document.zig:685-767 | the self-check on the live table computes the specified verdict and summary |
| LiveDocument.Document.NodeWithinSubtree | src/core/document.zig:264-273 | climbing parents decides ancestry |
| LiveDocument.Document.ConcurrentContainerDomainRoot | src/core/document.zig:297-314 | climbing computes the specified domain root |
| LiveDocument.Document.SubtreeContainsEnabledContainerKinds | src/core/document.zig:324-350 | the early-exit stack search decides whether an enabled container lies below the node |
| LiveDocument.Document.ResolveSelector | src/core/document.zig:582-608 | splitting and resolving segment by segment computes the specified resolution |
| Selectors.SelectorRoundTrip | src/core/document.zig:582-608 | joining with `/` the names on the path from the root to any node resolves back to that node, when those names are no direct references and sibling names are distinct |
| Selectors.SelectorRoundTripIff | src/core/document.zig:582-608 | for names that are single segments, references allowed, the joined names resolve back to the node if and only if the last reference among them refers to its own node and the names before it lead somewhere |
| Selectors.ValidNamesRoundTrip | src/core/document.zig:582-608 | in particular they do when every name on the path is valid and none is a signed number |
| Selectors.OwnNameResolvesIff | src/core/document.zig:884-930 | a child's own name leads to it exactly when it parses as no direct reference or as a reference to that child |
| Selectors.ResolveStep | src/core/document.zig:582-608 | a selector with one more segment leads on from where the shorter one leads, or fails as it does |
| Selectors.DotsClimb | src/core/document.zig:590-596 | after any selector `..` leads to the parent of its node, and escapes exactly at the root; `.` and an empty segment stay |
| Selectors.ReferenceJumps | src/core/document.zig:598-602 | after any selector a direct reference leads to its node if that is live and fails otherwise |
| Selectors.NameDescends | src/core/document.zig:884-906 | after any selector an ordinary name leads to the only child that carries it, and fails as unknown when there is none and as ambiguous when there are more |
| Selectors.ResolvedIsLive | src/core/document.zig:582-608 | every successful resolution returns a live node |
| Selectors.DefaultNameMayRedirect | src/core/document.zig:852-865 | two children titled alike get the names `node` and `node-2`, and `node-2` resolves to the first of them |
| Domains.DomainRootNearest | src/core/document.zig:297-322 | the domain root of a non-root node is its nearest ancestor-or-self that starts a domain |
| Domains.DomainStartsByKind | src/core/document.zig:316-322 | a node is its own domain root exactly when its parent is the root, a horizontal container with those enabled, or a vertical one with those enabled |
| Domains.EnabledBelowByKind | src/core/document.zig:324-350 | the downward search looks for exactly those containers |
| Domains.DomainRootStable | src/core/document.zig:275-314 | it is not the root, is its own domain root, and lies in the node's first-layer island |
| Domains.OneDomainIff | src/core/document.zig:324-350 | all descendants of a node share its domain root exactly when no enabled container below it has a child, which a negative answer of the search guarantees |
| Domains.MoreKindsFinerDomains | src/core/document.zig:316-322 | enabling more container kinds only moves domain roots down |
| Names.DefaultNameSound | src/core/muxml.zig:153-194 | a generated name is valid, has no leading, trailing or doubled dash, and normalising it again changes nothing |
| Names.DefaultNameIsDashedRuns | src/core/muxml.zig:153-194 | a generated name is the title's longest runs of letters, digits, dots, underscores and tildes, in lower case, with one dash between them, and a prefix exactly when that is not a valid name |
| Names.NoDefaultNameIff | src/core/muxml.zig:153-194 | there is no generated name exactly when the title has no usable byte |
| Names.ComputeDefaultName | src/core/muxml.zig:153-194 | the buffer loop with its pending-dash flag computes the specified name |
| Names.ValidNameReference | src/core/document.zig:906-918 | a valid name still parses as a direct reference exactly when it is a signed number |
| Names.ZeroReferenceIff | src/core/document.zig:906-918 | a segment refers to id 0 exactly when what follows its marker parses and has only zeros and underscores after any sign |
| Names.ValidNameMayDenoteZero | src/core/muxml.zig:196-219 | `-0` is a valid name and refers to id 0 |
| Names.PrintedReferences | src/core/muxml.zig:204-219 | every printed id, plain or with either prefix, is refused as a name and parses back to that id |
| Decimal.DecimalRoundTrip | src/core/document.zig:906-918 | both languages' integer parsers read back what was printed, and refuse exactly what exceeds 64 bits |
| Projection.EvenSizesExact | src/core/projection.zig:197-228 | even shares add up to the extent and differ by at most one, the larger first |
| Projection.ChromeHeightsExact | src/core/projection.zig:230-279 | outside the fallback each chrome child gets three rows, each flexible child at least one and no two differ by more, the larger first, and the rows are used up exactly when a child is flexible |
| Projection.FallsBackIff | src/core/projection.zig:230-252 | the saturating count takes the fallback exactly when three rows for each chrome child leave none, or too few for one row for each other |
| Projection.ChildRectsPartition | src/core/projection.zig:197-310 | children's rectangles lie inside their parent's and are pairwise disjoint |
| Projection.ChildRectsTileIff | src/core/projection.zig:179-310 | they abut in order and cover the parent exactly, side by side in a horizontal container and one under another elsewhere, except when there all children are chrome outside the fallback |
| Projection.ChildRectsByKind | src/core/projection.zig:179-310 | in a horizontal container each child has the full height and begins where the one before ends, up to the full width; in every other node each child has the full width and begins below the one before |
| Projection.ChildExtentsByKind | src/core/projection.zig:197-310 | widths in a horizontal container are even; elsewhere menus and modelines get three rows and the rest is even, unless that does not fit, and then all heights are even |
| Layout.ProjectionGeometry | src/core/projection.zig:128-310 | for every well-formed tree and viewport each region lies in the viewport and in the inset of every emitted ancestor, regions not related by ancestry never overlap, and no coordinate leaves 16 bits |
| Layout.ProjectionOrder | src/core/projection.zig:128-188 | emitted ids are a duplicate-free subsequence of the preorder of the projected tree and of the document's, all within the projected node |
| Layout.DrawnIff | src/core/projection.zig:85-310 | a region is drawn if and only if a path leads down to its node through unelided nodes that project their children and have room, each child in the rectangle the layout of its parent gives it, and its node emits |
| Layout.EmitsByKind | src/core/projection.zig:448-456 | a region of its own has every elided node, no container, no subdocument or scroll region that only wraps one child, and every other node |
| Layout.DescendsByKind | src/core/projection.zig:174-177 | exactly the unelided structural nodes with children and room draw them, inside a border of one cell if they have a region and in their whole rectangle if not |
| Layout.TopDrawnIff | src/core/projection.zig:85-148 | the projected node is drawn exactly when it has a region of its own, over the whole viewport of at least 24 columns by 8 rows |
| Layout.ChildDrawn | src/core/projection.zig:128-310 | each child with a region of the projected node is drawn exactly where the layout of that node puts it |
| Layout.EmittersAreDrawn | src/core/projection.zig:128-188 | something is drawn for every viewport whenever the projected node or one of its children emits a region |
| Layout.ElisionHonouredIff | src/core/projection.zig:85-195 | a projection draws nothing below an elided node if and only if no node is reached that emits a region, or no proper ancestor of the projected node is elided |
| Elision.ElidedAncestorIsIgnored | src/core/document.zig:491-530 | the run that appends a container and a leaf in it, elides the container and makes the leaf the view root projects the leaf |
| Drawing.WriteProjectionForRoot | src/core/projection.zig:85-126 | the recursive drawing from the override, the view root or the root emits exactly the specified regions, or reports the missing node |
| Drawing.WriteHorizontalChildren | src/core/projection.zig:197-228 | the cursor loop draws the specified columns and its wrapping additions never wrap |
| Drawing.WriteVerticalChildren | src/core/projection.zig:230-279 | the two-pass loop draws the specified rows, falling back when it should |
| Drawing.WriteEvenVerticalChildren | src/core/projection.zig:281-310 | the fallback loop draws the specified even rows |
| ContentView.BuildContentView | src/core/projection.zig:312-351 | splitting, trimming, scrolling and clipping compute the specified view |
| ContentView.ViewFits | src/core/projection.zig:312-351 | visible lines fit the inside of the region, are the window at the clamped scroll position, and leave no row unused while there are lines |
| ContentView.LinesAreRecovered | src/core/projection.zig:322-333 | lines joined with line feeds, each with or without a carriage return and with blank lines after them, are recovered exactly |
| ContentView.ViewBegins | src/core/projection.zig:334-341 | the view begins at the viewer's offset if there is one, whether or not the tail is followed, clamped to the last full page, and otherwise at the tail or the top |
| ContentView.EveryLineReachable | src/core/projection.zig:334-346 | some scroll position shows each line, and following the tail shows the last |
| ContentView.Clip | src/core/projection.zig:430-439 | a clipped line fits, is unchanged exactly when it fits already, and otherwise keeps its prefix and ends in a dollar sign |
| Gate.GateSafe | tools/transport_bridge/src/main.rs:799-835 | over every interleaving at most one task holds the gate, the k-th grant is sequence k, and a task parked on the current notification is owed nothing: the gate is busy, it is not its turn, or a releaser has yet to notify |
| Gate.GateServesIff | tools/transport_bridge/src/main.rs:799-835 | a run that can go no further has served a task exactly when no smaller sequence skips `acquire`; so there is no lost wakeup and no deadlock when none does |
| Gate.SkippedSequenceStalls | tools/transport_bridge/src/main.rs:799-835 | the run in which the first sequence skips and the second parks for ever |
| Gate.GateRunsEnd | tools/transport_bridge/src/main.rs:799-835 | every run ends within a bound that depends only on the number of tasks |
| Gate.OrderedSequenceGate.TryAcquire | tools/transport_bridge/src/main.rs:803-812 | the section under the mutex takes exactly the step of the transition system |
| Gate.OrderedSequenceGate.ClearAndAdvance | tools/transport_bridge/src/main.rs:818-826 | the first half of `release` takes exactly the step, and the 64-bit counter does not overflow |
| Lane.LaneSafe | tools/transport_bridge/src/main.rs:853-890 | over every interleaving at most one task holds the lane, it is busy exactly then, and no wakeup is lost |
| Lane.SmallerFirst | tools/transport_bridge/src/main.rs:853-884 | of two sequences waiting together the smaller is let in first, in every continuation |
| Lane.LaneFifo | tools/transport_bridge/src/main.rs:853-884 | registrations made in increasing order are granted in that order |
| Lane.LaneOrderedIff | tools/transport_bridge/src/main.rs:853-884 | once nobody waits, the grants were in increasing order exactly when no sequence registered after a larger one had been let in |
| Lane.LaneServesAll | tools/transport_bridge/src/main.rs:853-890 | a run that can go no further has let every task in and out again |
| Lane.LaneRunsEnd | tools/transport_bridge/src/main.rs:853-890 | every run ends within a bound that depends only on the number of tasks |
| Lane.LaneQueue.TryAcquire | tools/transport_bridge/src/main.rs:861-872 | the section under the mutex takes exactly the step of the transition system |
| Admission.BridgeSafe | tools/transport_bridge/src/main.rs:903-938 | exclusion, order and wakeups of the gate and of every lane hold over every interleaving of streams, some refused before the gate and some after it, and a stream is in a lane only if it is its own and it passed the gate |
| Admission.BridgeServesIff | tools/transport_bridge/src/main.rs:903-938 | a run that can go no further has taken a stream through the gate, and through its lane if it has one, exactly when neither it nor any smaller sequence was refused before the gate; streams refused after the gate hold up nobody |
| Admission.BridgeRunsEnd | tools/transport_bridge/src/main.rs:903-938 | every run of the whole admission path ends within a bound that depends only on the numbers of streams and lanes, whichever streams are refused |
| Admission.GateOrderIsNotLaneOrder | tools/transport_bridge/src/main.rs:926-937 | a run in which the second stream is let into the lane first although it passed the gate second |
| LineDecoder.H2LineDecoder.PushChunk | tools/transport_bridge/src/main.rs:1521-1542 | the drain loop returns the terminated lines of residual plus chunk and keeps the rest, or fails when they exceed the cap together |
| LineDecoder.DecodeBody | tools/transport_bridge/src/main.rs:1577-1600 | every chunking that never exceeds the cap yields the lines of the whole stream; every other fails |
| Lines.SplitResumes | tools/transport_bridge/src/main.rs:1521-1542 | splitting the residual with what follows gives the lines of the whole |
| Lines.LinesRoundTrip | tools/transport_bridge/src/main.rs:1521-1550 | lines written with either line ending are read back, and an unterminated rest is one more line as it is |
| LineDecoder.SomeChunkingFitsIff | tools/transport_bridge/src/main.rs:1521-1528 | some chunking of a stream is accepted exactly when every line fits the cap with its terminator |
| LineDecoder.AllChunkingsFitIff | tools/transport_bridge/src/main.rs:1521-1528 | every chunking of a stream is accepted exactly when the whole stream is no longer than the cap |
| LineDecoder.ChunkingIrrelevantIff | tools/transport_bridge/src/main.rs:1521-1528 | the verdict is the same for all chunkings exactly when the whole stream fits the cap or some line does not |
| LineDecoder.ChunkingDecides | tools/transport_bridge/src/main.rs:1521-1528 | one stream accepted under one chunking and refused under another |
| LineDecoder.ReadH2RequestBody | tools/transport_bridge/src/main.rs:1552-1575 | the loop over chunks computes the specified single message or error |
| LineDecoder.SameOutcome | tools/transport_bridge/src/main.rs:1552-1575 | on those streams the outcome is the first line, the unterminated whole, or the error, as stated |
| LineDecoder.BodyChunkingIrrelevantIff | tools/transport_bridge/src/main.rs:1552-1575 | the message or error read from a stream is the same for all chunkings if and only if there is no line feed, or the first line does not fit with its terminator, or the whole stream fits and has no second line feed |
| LineDecoder.BodyRecoveredIff | tools/transport_bridge/src/main.rs:1552-1575 | a message sent with a line feed appended is recovered, under every chunking, exactly when it has no line feed, no trailing carriage return, and fits the cap with its terminator |
| LineReader.ReaderMatchesDecoderIff | tools/transport_bridge/src/main.rs:1637-1653 | the buffered reader and the decoder agree on a whole stream exactly when it does not end in a carriage return |
| LineReader.MessagesExact | tools/transport_bridge/src/main.rs:1637-1669 | the buffered reader succeeds exactly when every line fits, with the lines of the stream |
| LineReader.ReadMessages | tools/transport_bridge/src/main.rs:532-534 | reading until the end of input computes those messages |
| Utf8.DecodeIff | tools/transport_bridge/src/main.rs:1757-1769 | UTF-8 decoding accepts exactly the encodings, each as the text it encodes |
| Utf8.EncodingBits | tools/transport_bridge/src/main.rs:1757-1769 | the encoding has the length its range asks for and carries the code point's bits in place, as RFC 3629 lays down |
| HttpText.RequestLineIff | tools/transport_bridge/src/main.rs:1671-1700 | a written request line parses back to its path exactly when the path is one word |
| HttpText.RequestLineExact | tools/transport_bridge/src/main.rs:1690-1701 | of three words the second is the path if the first is `POST` and the third begins with the version, and anything else, and fewer words, is refused with its own error |
| HttpText.LengthHeaderExact | tools/transport_bridge/src/main.rs:1709-1713 | a header gives the length exactly when its name matches in any case; beyond the cap, and beyond 64 bits, it is an error |
| HttpText.LengthLineParses | tools/transport_bridge/src/main.rs:1771-1780 | the printed length header parses back to the length, up to the cap |
| Http.ReadHttpRequest | tools/transport_bridge/src/main.rs:1671-1723 | the reading loops compute the specified request, end of stream or error, and leave the rest of the stream |
| Http.ReadHttpResponse | tools/transport_bridge/src/main.rs:1725-1755 | likewise for a response |
| Http.RequestRoundTripIff | tools/transport_bridge/src/main.rs:1782-1797 | a written request followed by anything reads back with its path and body, consuming exactly its bytes, if and only if its path is nonempty and free of whitespace |
| Http.RequestsRoundTripIff | tools/transport_bridge/src/main.rs:1671-1797 | any list of requests that fit, written back to back, reads back as the same list if and only if every path is nonempty and free of whitespace |
| HttpStreams.RequestExtends | tools/transport_bridge/src/main.rs:1671-1723 | a request that is read at all is read the same whatever follows it, which is left alone |
| HttpStreams.TruncatedRequest | tools/transport_bridge/src/main.rs:1671-1723 | no proper part of a written request is taken for a request: cut at the start it is the end of the stream, cut anywhere else an error |
| HttpStreams.TruncatedResponse | tools/transport_bridge/src/main.rs:1725-1755 | no proper part of a written response is taken for a response |
| HttpStreams.OkMeansStatus200 | tools/transport_bridge/src/main.rs:1725-1734 | a body is read from a response only if the stream begins with the status line of a 200 |
| HttpStreams.ErrorReadsAsError | tools/transport_bridge/src/main.rs:1816-1830 | an error response with any other three-digit status reads back as an error, whatever follows |
| HttpStreams.WrittenHeads | tools/transport_bridge/src/main.rs:1782-1814 | the heads written for requests and 200 responses, line by line |
| HttpStreams.LastLengthWins | tools/transport_bridge/src/main.rs:1703-1716 | of two length headers the last counts, and a head without one is refused |
| Http.ResponsesRoundTrip | tools/transport_bridge/src/main.rs:1725-1814 | 200 responses written back to back read back as the same bodies, leaving exactly what follows |
| TtyRuns.TtyConserves | src/daemon/server.zig:235-301 | until close, received and queued data are the chunks that entered, in order, minus whole dropped chunks, none younger than what is queued; the queue keeps to its limit; markers count the lossy puts; nothing was lost exactly when there is no marker |
| TtyRuns.MakeRoomExact | src/daemon/server.zig:258-263 | room is made by dropping the least number of oldest chunks, and only then |
| TtyRuns.ReadExact | src/daemon/server.zig:235-276 | a read of an open stream queues, behind everything else, parts that make up exactly the read, and drops the least number of oldest chunks so that all the rest fits |
| TtyRuns.ReadIsPuts | src/daemon/server.zig:235-245 | a read is the run of the puts of its parts, so all that holds over runs holds for whole reads |
| TtyRuns.MarkerBeforeChunk | src/daemon/server.zig:264-276 | a put ends the queue with its chunk, right after a new marker if and only if older data had to go |
| TtyRuns.ClosedForGood | src/daemon/server.zig:220-256 | a closed stream stays closed and empty, and nothing more enters it or is received from it |
| TtyQueue.PartsExact | src/daemon/server.zig:235-245 | cutting a read into chunks loses nothing |
| TtyQueue.TtyStreamHandle.EnqueueNormalized | src/daemon/server.zig:235-245 | the cutting loop enqueues those chunks in order |
| TtyQueue.TtyStreamHandle.EnqueueOwnedChunk | src/daemon/server.zig:247-276 | the dropping loop makes room, queues one marker if anything was dropped, then the chunk, and keeps the byte count exact |
| TtyQueue.TtyStreamHandle.WaitNextChunk | src/daemon/server.zig:278-296 | the head of the queue is handed over with the count adjusted, or the end reported |
| TtyQueue.TtyStreamHandle.DropOldestDataLocked | src/daemon/server.zig:298-311 | the search removes the first data chunk, past any markers, and says whether there was one |
| Executor.ExecutorSafe | src/daemon/server.zig:730-859 | over every interleaving no two lanes share a key, work for one key runs one at a time in enqueue order, each connection's count is exactly its reserved, unfinished requests, at most 32, and its references are exactly those of its thread, its streams and the requests that have not dropped theirs |
| Executor.FinishNeverUnderflows | src/daemon/server.zig:98-122 | every slot and every reference given back was counted, and a routed request always finds its lane |
| Executor.SlotGrantedIff | src/daemon/server.zig:109-115 | a slot is granted exactly on an open connection with fewer than 32 pending requests, and refusal changes nothing |
| Executor.ClosedGetsNoSlot | src/daemon/server.zig:109-115 | a closed connection stays closed and its pending requests never grow again |
| Executor.DestroyedIff | src/daemon/server.zig:98-107 | over every interleaving a session is destroyed exactly when its thread has left and no request of it is queued or executing with its reference |
| Executor.SlotReturnedToLiveIff | src/daemon/server.zig:849-859 | when a worker gives a slot back, after dropping its reference, the session still exists exactly when its thread is there or another request holds on to it |
| Executor.SlotReturnedTooLate | src/daemon/server.zig:1687-1695 | the run in which the thread leaves after enqueuing one request and the session is destroyed before the slot is given back |
| Executor.ConnectionSession.Release | src/daemon/server.zig:102-107 | dropping the last reference closes the session and says that it is to be destroyed |
| Executor.ServerExecutor.ResolveLane | src/daemon/server.zig:798-840 | the search returns the first lane with the key or appends a new one |
| Executor.ConnectionSession.TryReservePendingSlot | src/daemon/server.zig:109-115 | a slot is reserved exactly on an open connection below its limit |
| LeasePool.PoolSafe | src/lib/client.zig:762-817 | over every run available and leased clients partition all pooled clients, no client is leased twice, at most four exist (one lease in shared mode), and both lists stay within their reserved capacity |
| LeasePool.AllReturned | src/lib/client.zig:762-817 | once every lease is back every client is available and the next checkout does not wait |
| LeasePool.FreeIff | src/lib/client.zig:762-790 | a checkout goes on at once exactly while fewer clients are out than may exist |
| LeasePool.PoolIsItsPeak | src/lib/client.zig:762-804 | over every run the pool makes exactly as many clients as were ever out at once, so it connects only when none is available |
| LeasePool.LastBackFirstOut | src/lib/client.zig:762-817 | the client given back last is lent out next |
| LeasePool.ReleaseTwice | src/lib/client.zig:669-673 | releasing a lease again changes nothing |
| LeasePool.ClientLease.Deinit | src/lib/client.zig:669-673 | the lease's own flag makes release happen once |
| LeasePool.CompatibilityClientPool.Checkout | src/lib/client.zig:762-804 | one pass of the loop hands out an available client, a new one, or the connection error |

## Left out

- LiveDocument.Document.AppendNode: node sources, lifecycle, backend ids and the freeze operations, which no proved property depends on.
- LiveDocument.Document.ReserveNodeId: the 64-bit id counter is unbounded, so its overflow after 2^64 appends is not modelled.
- LiveDocument.Document.FindNode: id 0, on which the source asserts, is simply not found.
- LiveDocument.Document.ResolveSelector: a reference to id 0, on which the source's assertion fails, is an ordinary unknown-segment error.
- Drawing.WriteProjectionForRoot: the JSON text around the regions, and at most 65535 children per node, as the source's casts require.
- ContentView.BuildContentView: deriving the text of a node from its source description; the text is a parameter.
- Gate.GateServesIff: a task whose future is dropped while it waits.
- LineDecoder.DecodeBody: lines already written out when a later chunk fails are not part of its result.
- TtyRuns.TtyConserves: the marker stands before the new chunk, not where the gap is, so its place says nothing about what was lost.
- TtyQueue.TtyStreamHandle.WaitNextChunk: blocking on the condition variable is the precondition that something is ready.
- LeasePool.CompatibilityClientPool.Checkout: waiting for a free client is the precondition that one is free, and copies of a lease value are not modelled.
- Executor.ExecutorSafe: failures to enqueue, streams whose registration fails, and what a request computes; a request that cannot be classified makes its thread leave with the slot.
- Memory allocation and its failures, and the release of memory.
- Sockets, TLS, QUIC and WebTransport, the async runtime, process spawning and timeouts.
- JSON and XML text, JSON-RPC dispatch, and the classification of requests to lanes.
- tmux, file sources and capture, the command line, the C interface and the viewer.
