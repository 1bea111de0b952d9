# Agentplex: what it promises, proved

A Dafny model of the parts of agentplex that carry the most state, branching and
arithmetic, and proofs of what they are for. `dafny verify dfyconfig.toml`
checks all of it.

* **The shrinkwrap** (`Versions`, `Lockfiles`, `Layouts`, `LayoutInvariants`,
  `VisitInvariants`, `Derivations`, `Roots`, `Tops`, `Resolution`, `Sources`,
  `Closure`, `Termination`, `Divergence`, `Entries`, `Shrinkwraps`,
  `WrittenEntries`, `BundledPins`, `BundleClash`, `LocationNames`, `Deriver`).
  pnpm's snapshot graph is compiled into npm's nested `node_modules`. The functions in `Layouts` and `Derivations` say what one
  placement, one turn of the worklist and a whole run do; `Deriver` is the same
  derivation as it runs, a class whose `tree` and `queue` are updated in place,
  each method against its function. Node's walk is defined on its own
  (`Layouts.IsNearest`) and every result is stated with it. A location is the
  list of names on the way down; `LocationNames` is the string form.
* **The drain** (`Drains`): one object whose fields are the closure's variables.
  Everything outside it (time, exits, sessions mid-turn, a second signal) is an
  arbitrary choice at each await.
* **Readiness against shutdown** (`Readiness`): a step is what runs between two
  awaits, so a run is any interleaving; `SessionServer` is the same code over
  fields.
* **The socket pair** (`SocketPairs`): two objects and one queue of microtasks.
* **Strings**: `Utf16` (code units, lone surrogates included), `Json` (section 7
  of RFC 8259 and well-formed `JSON.stringify`), `SessionKeys`, `Activities`,
  `Directories`.
* **Redaction** (`Redaction`) over a heap of objects that may share and circle,
  **manifest merging** (`PublishedManifests`), **flags** (`Flags`) and the
  **wizard's typist** (`Prompts`).
* `Runs` says what a run of any state machine is; `Names`, `Finite` and
  `Outcomes` are shared vocabulary.

## What the code does not keep

Five promises do not hold as written. In each case the code is modelled as it
is, a lemma shows the failure, and the condition under which the promise holds
is proved: exactly for 1, 2, 4 and 5, and one way for 3.

1. A connection that has dialled and not yet handshaken is said to hold no stale
   fact (`apps/server/src/hub/hub-connection.ts:281-283`,
   `apps/server/src/server.ts:477-480`). It is built with the reading of the
   moment it was accepted (`apps/server/src/server.ts:618-666`), a re-read leaves
   it alone (`apps/server/src/hub/hub-connection.ts:1361`), and it then
   establishes with the old one. `Readiness.AStaleHub` is that run from boot on,
   `Readiness.MidwayGoesStale` the general case. Over every run a changed reading
   ends exactly the connections that have handshaken
   (`Readiness.ToldExactlyWhenEstablishedAtAChange`), an open connection that
   holds another reading was midway when one changed
   (`Readiness.StaleMeansPassedOver`), and a changed reading leaves every open
   connection current exactly when none was midway
   (`Readiness.LandingKeepsCurrentExactlyWhenNobodyIsMidway`).
2. "Every entry satisfies the edge that reaches it"
   (`scripts/shrinkwrap.ts:31-33`) fails when a name is bundled and is also
   placed from a snapshot edge at another version, because the bundled entry is
   written over it: `BundleClash.ClashIsWritten`. In terms of the lockfile and
   the manifest, with each bundled name reached at one version at most, it holds
   exactly when every edge that is written and names a bundled package asks for
   the version the manifest pins (`BundledPins.AllSatisfiedExactlyWhenPinsAreMet`).
   A pin that no reached version meets always puts the bundled entry over another
   version of its package, however many are reached
   (`BundledPins.AnUnmetPinClashes`).
3. The placement worklist need not end: `Divergence.CircleNeverEnds` is four
   packages in a circle, two names at two versions each, that nest one level
   deeper on each turn. It ends whenever the reached packages that depend on
   themselves, peers included, have names asked for at one version
   (`Termination.RunsEndWithCirclesAtOneVersion`). This is one way only: a circle
   at two versions may also end, depending on what is at the top when it is
   reached, and no condition that says exactly when is proved.
4. A redacted record keeps its keys, at every depth, exactly when none of them is
   `__proto__`, which an assignment does not make a key:
   `Redaction.KeysAreKeptExactlyWithoutProto`; `Redaction.ANestedKeyIsLost` is a
   record that loses one.
5. The merged manifest is said not to depend on the order of its parts
   (`scripts/assemble-package.ts:861-864`). Where a bundled name is also given two
   ranges, the same three manifests are accepted in one order and refused in
   another (`PublishedManifests.OneOrderIsAcceptedAnotherRefused`), or accepted in
   two orders and published with different ranges
   (`PublishedManifests.TwoOrdersAreAcceptedAndDiffer`). Once one order is
   accepted, every order comes to the same fields exactly when each name has one
   range (`PublishedManifests.AcceptedOrderSpeaksForAllExactlyWhenAgreed`); and
   where at most one name has two, the order decides nothing exactly unless that
   name is bundled and every workspace package is
   (`PublishedManifests.OrderDecidesNothingExactly`).

Two smaller ones. The text the wizard's typist reads does not only grow, as
`scripts/drive-setup.ts:366-374` has it (a `\r` may become part of a `\n`, half a
cursor move may go), but what ends in a space is final (`Prompts.WrittenGrows`)
and that is enough for `Prompts.EveryRunKeeps`. A question redrawn by a bare
carriage return is answered again (`Prompts.ARedrawByReturnIsAnsweredAgain`), and
only a line break can do that (`Prompts.AnsweredAgainExactlyAfterABreak`).

## Model

| member | source | states |
|---|---|---|
| Versions.ReadIsTheExpression | scripts/shrinkwrap.ts:220-231 | reading a resolved version loses no text and finds a registry version and peer context exactly where the expression matches, in the one way it can |
| Lockfiles.EdgesAreTheSections | scripts/shrinkwrap.ts:428-438 | the edges walked are exactly the entries of `dependencies` and `optionalDependencies`, each marked with its section |
| Lockfiles.EdgesAreInOrder | scripts/shrinkwrap.ts:428-438 | a snapshot's edges are walked by name, a required one before an optional one of the same name |
| Layouts.WalkIsNearest | scripts/shrinkwrap.ts:345-368 | the climb through the owners finds a copy exactly when it is the one in the longest prefix of the location that holds the name, and none exactly when no prefix does |
| Layouts.PlacedIsWhatNodeFinds | scripts/shrinkwrap.ts:345-387 | right after a placement Node finds what was placed, at the version asked for; the nearest copy is kept when it is that version, shadowed when it is another, and with none on the way up the package goes to the top |
| Layouts.PlaceRefusesExactly | scripts/shrinkwrap.ts:345-387 | a placement is refused exactly when the version is no registry version, another version sits where the copy would have to go, or the lockfile has no package to put there that brings only itself |
| LayoutInvariants.AddIsPlacing | scripts/shrinkwrap.ts:370-386 | a new copy goes to a free location at the root or directly under the nearest directory, spells its key, and waits once |
| LayoutInvariants.JoinIsPlacing | scripts/shrinkwrap.ts:354-364 | reusing a copy changes nothing but its contexts, and queues the pair exactly when it is new |
| LayoutInvariants.PlaceIsPlacing | scripts/shrinkwrap.ts:345-387 | whichever way a placement goes, no location is overwritten, no version changes, owners stay placed, contexts spell their node, and exactly one pair is added |
| VisitInvariants.VisitKeepsInv | scripts/shrinkwrap.ts:422-465 | a whole turn keeps the tree well formed, the queue without repeats, each recorded edge at the recorded version, and every visited snapshot's edges followed; it marks exactly one pair visited and adds only keys that pair's snapshot names |
| Resolution.AfterKeepsInv | scripts/shrinkwrap.ts:422-465 | so does every run of turns, and nothing placed is ever lost or changes version |
| Derivations.RootEdgesForAreTheSections | scripts/shrinkwrap.ts:389-401 | the root edges are exactly the manifest's two sections, name by name |
| Derivations.RootEdgesAreInOrder | scripts/shrinkwrap.ts:389-401 | the root edges go by name, a name's required edge before its optional one |
| Derivations.BeginNeedsEveryImporter | scripts/shrinkwrap.ts:299-318 | with an importer missing from the lockfile that is the refusal, and nothing begins without every importer |
| Derivations.ResolvedExactlyWhenUnanimous | scripts/shrinkwrap.ts:564-608 | a root name resolves to a version exactly when some importer lists it in one of its three sections, all entries that do agree on this range and this version, and it is a registry version |
| Roots.BeginSucceedsExactly | scripts/shrinkwrap.ts:299-420 | the root is placed exactly when every importer is there and every package the manifest asks for, and does not bundle, is listed by the importers at that range and one registry version, which the lockfile keeps |
| Resolution.BeginIsOk | scripts/shrinkwrap.ts:403-420 | after the root edges the layout keeps the invariant, lies at the top level only, and holds exactly the keys the unbundled root edges resolve to |
| Tops.RootHoldsTheManifest | scripts/shrinkwrap.ts:389-420 | the root requires exactly what `dependencies` names and takes as optional exactly what `optionalDependencies` names, bundled names left out, each at the top |
| Tops.VisitKeepsShape | scripts/shrinkwrap.ts:422-465 | a turn keeps a copy of every placed name at the top, and puts one further down only when the name is there at two versions |
| Tops.DerivedIsShaped | scripts/shrinkwrap.ts:389-465 | so does every run, which also leaves each unbundled root edge's package at the top, at the version the importers resolve to |
| Sources.DerivedIsSourced | scripts/shrinkwrap.ts:436-464 | every version a node is written with is one that an edge of a snapshot it was reached through names, no peer and not skipped |
| Sources.TurnsAreRefusedForAReason | scripts/shrinkwrap.ts:422-465 | a run is refused only over a snapshot that is not there, a placement that must be refused, or two contexts of one node that name two versions |
| WrittenEntries.EntryIsItsSnapshot | scripts/shrinkwrap.ts:436-464 | the two sections an entry is written with are exactly those of a snapshot the package was reached through, at registry versions, peers left out |
| WrittenEntries.EntryIsFromTheLockfile | scripts/shrinkwrap.ts:504-542 | the rest of an entry is what the lockfile has for that package: version, integrity, peers and optional peers; an install script exactly for the packages that may build |
| Resolution.EveryEdgeResolves | scripts/shrinkwrap.ts:422-490 | on success, at every placed node, for every snapshot it was reached through and every edge of it that is no peer's, Node's walk finds a copy at exactly the version the snapshot names |
| Resolution.EverySnapshotIsThere | scripts/shrinkwrap.ts:422-428 | every snapshot a node was reached through is in the lockfile and spells that node's name and version |
| Resolution.EveryPeerResolves | scripts/shrinkwrap.ts:439-446 | every peer that is not optional is found from the node's owner at a version one of the node's snapshots asks for |
| Resolution.ContextsAgreeOnEdges | scripts/shrinkwrap.ts:453-464 | two peer contexts of one node name one version for every edge that is no peer's |
| Closure.HoldsExactlyWhatIsReached | scripts/shrinkwrap.ts:404-465 | on success the keys in the tree are exactly those reachable from the root's resolved edges with optional peers skipped |
| Termination.NoDeeperThanAChain | scripts/shrinkwrap.ts:345-387 | no location is deeper than some chain of packages that depend on one another and end at the package placed there |
| Termination.TurnsAreCounted | scripts/shrinkwrap.ts:422-465 | a run still going after n turns has visited n different pairs |
| Termination.NothingIsVisitedTwice | scripts/shrinkwrap.ts:422-426 | no pair is taken off the worklist twice, circular lockfile or not |
| Termination.RunsEndWithCirclesAtOneVersion | scripts/shrinkwrap.ts:422-465 | when every reached package that depends on itself, peers included, has a name asked for at one version, every run has ended after a number of turns the lockfile and manifest alone decide |
| Termination.PlainRunsEnd | scripts/shrinkwrap.ts:422-465 | so a lockfile without circles always ends, and so does one reached at a single version of each name |
| Divergence.CircleNeverEnds | scripts/shrinkwrap.ts:345-387 | for one circular lockfile no number of turns ends the worklist |
| Divergence.CircleIsAtTwoVersions | scripts/shrinkwrap.ts:345-387 | and it is a circle of names asked for at two versions |
| Entries.RequiredLocations | scripts/shrinkwrap.ts:492-502 | the stack loop ends on any tree and answers exactly the locations a chain of required edges and peers reaches from the required root edges |
| Entries.RequiredIsLeast | scripts/shrinkwrap.ts:492-502 | that set lies inside every set holding the required root edges and closed under required edges and peers |
| Shrinkwraps.WrittenEdgeIsSatisfied | scripts/shrinkwrap.ts:31-33 | a version an entry pins is the version of the entry Node finds, unless that place is a bundled package pinned to another version, and then not |
| Shrinkwraps.ApartMeansNoClash | scripts/shrinkwrap.ts:404-420 | when no edge reached in the lockfile names a bundled package, nothing is placed where a bundled package stands |
| Shrinkwraps.EveryWrittenEdgeIsSatisfied | scripts/shrinkwrap.ts:31-33 | then every entry satisfies every edge that reaches it |
| BundledPins.BundleIsThePins | scripts/shrinkwrap.ts:404-410 | the bundle holds exactly the bundled packages the manifest has edges to, each at the version its last edge pins |
| BundledPins.AnUnmetPinClashes | scripts/shrinkwrap.ts:404-410 | a bundled name that is reached only at versions other than its pin is bundled over another version of itself |
| BundledPins.ClashesExactlyWhenAPinIsUnmet | scripts/shrinkwrap.ts:404-465 | with bundled names reached at one version, something is bundled over another version exactly when a bundled name is reached at a version that is not its pin |
| BundledPins.RootEdgesAreSatisfied | scripts/shrinkwrap.ts:389-420 | the root's edge to every package that is not bundled finds its entry, at the version the importers resolve to |
| BundledPins.AllSatisfiedExactlyWhenPinsAreMet | scripts/shrinkwrap.ts:31-33 | with bundled names reached at one version, every edge of every entry and of the root is satisfied exactly when every written edge to a bundled package asks for its pin |
| BundleClash.ClashIsWritten | scripts/shrinkwrap.ts:504-542 | one lockfile for which the derivation succeeds and writes an entry that does not satisfy the edge that reaches it |
| LocationNames.UnderIsUndone | scripts/shrinkwrap.ts:233-242 | taking the owner and the name of a location gives back what it was made of, at the root and below it |
| LocationNames.RenderedIsUndone | scripts/shrinkwrap.ts:233-242 | `ownerOf` of a rendered location is the rendered owner |
| LocationNames.RenderIsInjective | scripts/shrinkwrap.ts:233-242 | two lists of names with one string form are one list |
| LocationNames.OwnersFrom | scripts/shrinkwrap.ts:244-253 | the loop ends at the root and climbs one owner at a time |
| LocationNames.ClimbIsThePrefixes | scripts/shrinkwrap.ts:244-253 | such a climb is the string form of every prefix, longest first |
| LocationNames.AllowedScripts | scripts/shrinkwrap.ts:647-654 | the names are exactly those at the end of some location that may build |
| Deriver.OwnersFrom | scripts/shrinkwrap.ts:244-253 | the owners are all prefixes, longest first |
| Deriver.Lookup | scripts/shrinkwrap.ts:467-474 | trying the owners in order finds what Node's walk finds |
| Deriver.Derivation.constructor | scripts/shrinkwrap.ts:320-343 | a derivation starts with nothing placed, queued or bundled |
| Deriver.Derivation.Place | scripts/shrinkwrap.ts:345-387 | updating `tree` and `queue` in place does what one placement is, refusals included |
| Deriver.Derivation.PlaceRoot | scripts/shrinkwrap.ts:404-420 | one root edge, bundled or placed, and recorded as required or optional as it is: `Tops.RootHoldsTheManifest` says what that comes to |
| Deriver.Derivation.PlaceAll | scripts/shrinkwrap.ts:404-420 | every root edge in turn, stopping at the first refusal |
| Deriver.Derivation.PlaceRoots | scripts/shrinkwrap.ts:299-420 | a missing importer refused, and otherwise the layout after the root edges |
| Deriver.Derivation.Visit | scripts/shrinkwrap.ts:422-465 | one turn over the shared tree does what a turn is: every edge followed and recorded, contexts compared, nothing else changed |
| Deriver.Derivation.Drain | scripts/shrinkwrap.ts:422-465 | the loop is that many turns, and says whether anything is left |
| Deriver.Derivation.Check | scripts/shrinkwrap.ts:467-490 | answers whether every recorded edge and peer is found again by Node's walk in the finished tree |
| Deriver.CheckRefusesExactly | scripts/shrinkwrap.ts:476-490 | the check refuses exactly when Node would find some recorded edge or peer elsewhere than it was recorded |
| Deriver.CheckEdges | scripts/shrinkwrap.ts:476-489 | the same for one node's edges |
| Deriver.Derivation.Write | scripts/shrinkwrap.ts:504-542 | an entry at every location and no other, bundled where bundled, or the package that cannot be pinned |
| Deriver.Derivation.Finish | scripts/shrinkwrap.ts:467-542 | the check first, then the entries, optional exactly where no required chain leads |
| Deriver.FinishRefusesForAReason | scripts/shrinkwrap.ts:476-542 | with the worklist empty it refuses over something Node finds elsewhere or, with nothing like that, over a placed package without integrity, which it names |
| Deriver.Derivation.Derive | scripts/shrinkwrap.ts:282-542 | the whole outcome: which refusal, or too few turns, or the entries |
| Deriver.AnsweringMeansDeriving | scripts/shrinkwrap.ts:282-542 | entries are answered only by a run that placed everything and passed the check |
| Deriver.DeliveredIsSatisfiedExactlyWhenPinsAreMet | scripts/shrinkwrap.ts:31-33 | what the imperative derivation delivers satisfies every edge, the root's own included, exactly when every written edge to a bundled package asks for its pin |
| Deriver.OptionalExactlyWithoutARequiredChain | scripts/shrinkwrap.ts:492-540 | a delivered entry is optional exactly when no chain of required edges and peers leads to it from a package the manifest's `dependencies` names and does not bundle |
| Deriver.DerivationsAnswerWithCirclesAtOneVersion | scripts/shrinkwrap.ts:282-465 | where circles are of names at one version there are turns enough |
| Drains.Drain.constructor | apps/server/src/drain.ts:130-157 | a drain starts with nothing settled, signalled or waiting |
| Drains.Drain.Finish | apps/server/src/drain.ts:158-177 | a wait ends once; ending it again, however late, changes nothing |
| Drains.Drain.StopWaiting | apps/server/src/drain.ts:180-183 | after a second signal no wait is unfinished |
| Drains.Drain.Hear | apps/server/src/drain.ts:290-299 | an exit ends the wait that watched it, and does nothing to any later wait |
| Drains.Drain.Meanwhile | apps/server/src/drain.ts:158-177 | whatever happens during an await, only exits and the second signal end waits |
| Drains.Drain.Sleep | apps/server/src/drain.ts:158-177 | one wait, begun now and set for the time asked; it ends with its time passed, a watched exit, or the signal, and remembers whether the signal had come before it began |
| Drains.Drain.StoresStillHolding | apps/server/src/drain.ts:307-317 | exactly the stores holding a terminal neither settled nor gone, each once |
| Drains.Drain.ObserveAll | apps/server/src/drain.ts:203-223 | exactly the stores still holding something are asked, each once; no wait begins and no exit is forgotten |
| Drains.Drain.Stop | apps/server/src/drain.ts:233-240 | never called on a terminal seen to have gone or already stopped; refused exactly mid-turn |
| Drains.Drain.Pass | apps/server/src/drain.ts:225-242 | settled is exactly what had gone, and newly signalled exactly what was at a boundary |
| Drains.Drain.Round | apps/server/src/drain.ts:203-259 | each round ends the drain, shortens the remaining budget, or follows an exit; it asks the stores still holding something, settles all that had gone, stops all that is not mid-turn, and then waits once, for a poll or the rest of the budget if that is less, on exactly the terminals it has stopped and not settled, and never once told to stop waiting |
| Drains.Drain.Run | apps/server/src/drain.ts:185-264 | it always ends; drained exactly when none is killed, abandoned exactly when some are and it was told, expired only past the budget; counts are of the settled and the rest; every wait is for a poll or the rest of the budget if that is less, none begins after the signal, and what is neither settled nor stopped at the end was mid-turn |
| Readiness.SameReadinessIsEquality | packages/protocol/src/readiness.ts:126-142 | the field-by-field comparison is equality of readings, order included |
| Readiness.EveryRunIsSafe | apps/server/src/server.ts:793-865 | over every interleaving: at most one probe in flight, no open connection forgotten by the server, and whoever was told to re-handshake is closed |
| Readiness.ToldExactlyWhenEstablishedAtAChange | apps/server/src/server.ts:825-843 | over every run a connection is told to re-handshake exactly when the reading changes and it has handshaken, and is closed by it |
| Readiness.StaleMeansPassedOver | apps/server/src/hub/hub-connection.ts:1360-1373 | over every run an open connection holds the current reading, or was midway through its handshake when the reading changed |
| Readiness.AStaleHub | apps/server/src/hub/hub-connection.ts:1360-1373 | a run from boot on that ends with an established hub holding a reading the server no longer does, and told nothing |
| Readiness.StoppingFreezesTheReading | apps/server/src/server.ts:867-898 | a shutdown may begin in any state: over every run from there the flag is up, the reading stays, nobody is told to re-handshake, hubs that dial later included, and no re-read is started |
| Readiness.AnswersLandUnlessStopping | apps/server/src/server.ts:802-865 | a reading that comes back is the server's exactly when no shutdown has begun, and one that is the same touches no connection |
| Readiness.AHubIsHandedTheReadingOfItsDial | apps/server/src/hub/hub-connection.ts:833-850 | a hub that dials, handshakes and is authorised is established with the reading of its dial; every other connection is as it was, and only ended ones are forgotten |
| Readiness.ProgressIsOneConnections | apps/server/src/hub/hub-connection.ts:402-465 | handshaking, being authorised and closing move that connection's phase and change nothing else |
| Readiness.LandingKeepsCurrentExactlyWhenNobodyIsMidway | apps/server/src/server.ts:825-843 | a changed reading leaves every open connection current exactly when none was midway through its handshake |
| Readiness.MidwayGoesStale | apps/server/src/hub/hub-connection.ts:1360-1373 | each connection midway then establishes with the old reading |
| Readiness.CarefulRunsKeepHubsCurrent | apps/server/src/server.ts:477-480 | every run in which no changed reading lands on a connection midway keeps every established hub current |
| Readiness.SessionServer.constructor | apps/server/src/server.ts:488-618 | a booted server holds its first reading and no connection |
| Readiness.SessionServer.RefreshReadiness | apps/server/src/server.ts:793-802 | one probe starts, unless one is under way or a shutdown has begun; nothing else changes |
| Readiness.SessionServer.Resume | apps/server/src/server.ts:802-861 | the loop over live connections, deleting as it goes, ends exactly those that have handshaken, leaves those midway alone, and forgets exactly the ended ones |
| Readiness.SessionServer.Fail | apps/server/src/server.ts:845-861 | a rejected probe leaves the reading and every connection as they were and lets the next one start |
| Readiness.SessionServer.Accept | apps/server/src/server.ts:618-666 | a dial drops what has ended and hands the newcomer the reading of that moment |
| Readiness.SessionServer.BeginStop | apps/server/src/server.ts:867-871 | the flag is up, and every other field is as it was |
| SocketPairs.StepIsSound | packages/node-shared/src/fake-message-socket.ts:96-150 | a send, a close, a drain or a microtask keeps bytes equal to the queue's UTF-8 size, both ends' closure the same, and each end's hearing an initial part of what the other sent, then the close |
| SocketPairs.EveryRunIsSound | packages/node-shared/src/fake-message-socket.ts:67-143 | over every run, with either end reading or not |
| SocketPairs.DrainingIsFixed | packages/node-shared/src/fake-message-socket.ts:67-68 | whether an end writes through never changes |
| SocketPairs.PairConserves | packages/node-shared/src/fake-message-socket.ts:159-165 | in the pair, heard plus in flight is exactly what the other sent, in order, with one close behind all of it |
| SocketPairs.QuietPairHasHeardEverything | packages/node-shared/src/fake-message-socket.ts:159-165 | once the microtasks have run everything sent has been heard, and the close once, last |
| SocketPairs.WhatWasAskedIsHeard | packages/node-shared/src/fake-message-socket.ts:67-165 | for every sequence of sends, closes and drains, either end reading or not: once the waiting microtasks have run, an end has heard exactly the texts the other was asked to send before the first close (those drained before it, when nobody reads), in order, and then that close's reason; `sent` is the texts asked for before the close, and both closures are the first reason |
| SocketPairs.EveryRunIsAsAsked | packages/node-shared/src/fake-message-socket.ts:67-165 | the same of every moment of such a run: `sent`, the closure, and how much has got through are what the events alone say |
| SocketPairs.SendsReachTheirQueue | packages/node-shared/src/fake-message-socket.ts:96-106 | a step adds to what an end has sent exactly the text of a send there while it is open |
| SocketPairs.FirstCloseStays | packages/node-shared/src/fake-message-socket.ts:78-111 | a step gives both ends a closure exactly when it is the first close, from either end |
| SocketPairs.OnlyADrainReaches | packages/node-shared/src/fake-message-socket.ts:90-120 | an end nobody reads gets through all it has sent by being drained while open, and nothing any other way |
| SocketPairs.FakeMessageSocket.Receive | packages/node-shared/src/fake-message-socket.ts:124-129 | one delivery queued, or none once ended |
| SocketPairs.FakeMessageSocket.CloseFromPeer | packages/node-shared/src/fake-message-socket.ts:78-88 | the first closure stays and is announced once |
| SocketPairs.FakeMessageSocket.Flush | packages/node-shared/src/fake-message-socket.ts:90-94 | the queue goes out in order and is left empty |
| SocketPairs.SocketPair.constructor | packages/node-shared/src/fake-message-socket.ts:159-165 | two fresh sockets, each the other's peer |
| SocketPairs.SocketPair.Send | packages/node-shared/src/fake-message-socket.ts:96-106 | an open end has sent one text more, queued with its bytes counted, or written through; a closed one changes nothing; closures and what was heard stay |
| SocketPairs.SocketPair.Close | packages/node-shared/src/fake-message-socket.ts:107-111 | an open pair is closed at both ends for this reason, announced here and then there; a closed end changes nothing |
| SocketPairs.SocketPair.Drain | packages/node-shared/src/fake-message-socket.ts:118-120 | the queue goes out and is left empty, its bytes at zero; what was sent, heard and the closure stay |
| SocketPairs.SocketPair.RunMicrotask | packages/node-shared/src/fake-message-socket.ts:78-88 | the oldest microtask is heard by its end and by no other, and is gone |
| Json.ScanUndoesBody | packages/protocol/src/identity.ts:96-98 | reading a JSON string gives back what was written, for all code units and whatever follows |
| Json.EscapesOnlyWhatItMust | packages/protocol/src/activity.ts:85-92 | two characters for the seven short escapes, six for other controls and lone surrogates, any other unit as it is |
| Json.SizeOfJoin | packages/node-shared/src/fake-message-socket.ts:101-104 | UTF-8 sizes add up, but for two halves that become a pair at the seam |
| Json.SizeOfUnit | packages/node-shared/src/fake-message-socket.ts:101-104 | one, two or three bytes for a unit on its own, by its value |
| Json.SizeOfEncoded | packages/protocol/src/activity.ts:85-92 | a string of n code units takes at most 6n + 2 bytes in JSON |
| SessionKeys.KeyReadsBack | packages/protocol/src/identity.ts:88-98 | the key holds both ids, recoverable for every pair of strings |
| SessionKeys.KeyIsInjective | packages/protocol/src/identity.ts:88-98 | no two sessions share a key |
| Activities.DisplayableActivityText | packages/protocol/src/activity.ts:162-170 | the loop over code points judges surrogate pairs as their units would be, and then collapses and trims |
| Activities.DisplayableIsNoLonger | packages/protocol/src/activity.ts:142-170 | the display form is never longer than its input |
| Activities.DisplayableIsALine | packages/protocol/src/activity.ts:142-170 | nothing of the listed control and direction ranges, no two spaces together, and ink at either end |
| Activities.LinesAreLeftAlone | packages/protocol/src/activity.ts:142-170 | and those are exactly the strings it leaves alone |
| Activities.DisplayingTwiceIsDisplayingOnce | packages/protocol/src/activity.ts:158-160 | a second pass changes nothing |
| Activities.WordsAreKept | packages/protocol/src/activity.ts:105-170 | every word is kept whole, apart and in order: a tab or line break still separates, and only white space, controls and bidi marks go |
| Activities.ShowsExactlyItsInk | packages/protocol/src/activity.ts:162-190 | something is left to show exactly when some unit is neither white space nor in the listed ranges |
| Activities.ParsesExactly | packages/protocol/src/activity.ts:184-292 | an activity is accepted exactly when at most 200 units arrived, one of them shows, and its numbers are in bounds; its kind and numbers are then what they were, its text the display form |
| Activities.ParsingAgainChangesNothing | packages/protocol/src/activity.ts:184-292 | an activity one hop accepts the next accepts unchanged |
| Activities.SizeOfActivity | packages/protocol/src/activity.ts:74-103 | every accepted activity takes at most 1,259 bytes, inside the 1,300 charged |
| Activities.TheWidestActivity | packages/protocol/src/activity.ts:74-103 | the bound is met, by an accepted edit of 200 lone surrogates and two counts of seven digits |
| Activities.TranscriptFits | packages/protocol/src/hub-to-client.ts:772-777 | a transcript answer of up to 200 accepted activities takes at most 252,100 bytes of the 1,000,000 allowed |
| Directories.NormaliseDirectory | packages/protocol/src/directory.ts:188-199 | the loop spells the walk that pushes names and pops on `..` without leaving the root |
| Directories.SplitAtSeparator | packages/protocol/src/directory.ts:188-199 | splitting at a separator splits each side on its own |
| Directories.SplitUndoesJoin | packages/protocol/src/directory.ts:188-199 | splitting undoes joining |
| Directories.WalkGivesNames | packages/protocol/src/directory.ts:188-199 | no empty, `.` or `..` segment is left, and no separator inside one |
| Directories.WalkOfSpelled | packages/protocol/src/directory.ts:188-199 | walking a normalised spelling leads to what it spells |
| Directories.SpelledIsInjective | packages/protocol/src/directory.ts:188-199 | two directories never share a spelling |
| Directories.NormalisingIsIdempotent | packages/protocol/src/directory.ts:188-199 | normalising twice is normalising once |
| Directories.NormalisingAPrefixFirst | packages/protocol/src/directory.ts:188-199 | normalising a prefix first makes no difference |
| Directories.UpUndoesDown | packages/protocol/src/directory.ts:188-199 | `..` after a name undoes it, and at the root goes nowhere |
| Directories.StayingIsNoStep | packages/protocol/src/directory.ts:188-199 | a separator at the end, or a `.`, goes nowhere |
| Directories.SameSpellingExactlyWhenSameWalk | packages/protocol/src/directory.ts:188-199 | two strings normalise alike exactly when they walk to the same place |
| Directories.DocNameIsAcceptedExactly | packages/protocol/src/doc.ts:46-71 | a stem with one of the four extensions is accepted exactly when it is of the characters allowed, begins with a letter or digit, has a point only before something else than a point, and the whole is 120 characters at most |
| Directories.OnlyDocuments | packages/protocol/src/doc.ts:46-62 | and nothing else is accepted |
| Directories.DocNameIsAName | packages/protocol/src/doc.ts:46-71 | an accepted document name is one segment and neither `.` nor `..` |
| Directories.DocIsDirectlyInside | packages/protocol/src/doc.ts:55-71 | written after any directory, it lands directly inside it |
| Redaction.SecretInsideIsSecret | packages/node-shared/src/logger.ts:104-107 | a key stays secret whatever is written around it |
| Redaction.PlainKeyIsSecretExactlyWithAWord | packages/node-shared/src/logger.ts:49-107 | a key in small letters and digits is secret exactly when one of the seven words is in it |
| Redaction.CaseDoesNotMatter | packages/node-shared/src/logger.ts:104-107 | a capital and its small letter make the same key |
| Redaction.PunctuationDoesNotMatter | packages/node-shared/src/logger.ts:104-107 | any other character might as well not be there |
| Redaction.AssigningMakesAllButProto | packages/node-shared/src/logger.ts:119-125 | after every assignment the fresh object has every key but `__proto__`, once and in order, with what was made of it |
| Redaction.Redactor.RedactRecord | packages/node-shared/src/logger.ts:119-125 | a record's parts assigned in order to a fresh object, `__proto__` making a prototype and no key, `seen` threaded from each to the next |
| Redaction.Redactor.RedactItems | packages/node-shared/src/logger.ts:132 | an array's items the same way |
| Redaction.Redactor.RedactValue | packages/node-shared/src/logger.ts:127-134 | one value, on any heap, in the order the tests are made |
| Redaction.Redactor.RedactSecrets | packages/node-shared/src/logger.ts:96-102 | the root counted as seen first |
| Redaction.ValueIsPictured | packages/node-shared/src/logger.ts:127-134 | what is logged pictures the value: the same properties but for `__proto__`, in the same order, too deep exactly past the depth, secrets hidden |
| Redaction.PicturesAreSafe | packages/node-shared/src/logger.ts:119-134 | any such picture hides every secret, holds no plain object or array of the caller's, and is no deeper than what was left |
| Redaction.RedactedIsSafe | packages/node-shared/src/logger.ts:96-134 | so the whole line pictures the record, hides every secret, shares nothing and is nine deep at most, however the objects circle |
| Redaction.TooDeepExactlyPastEight | packages/node-shared/src/logger.ts:127-129 | an object is left unread exactly at the ninth level down |
| Redaction.KeysAreKeptExactlyWithoutProto | packages/node-shared/src/logger.ts:119-125 | every record logged, at any depth, has exactly the keys of the record it pictures exactly when none of those is `__proto__` |
| Redaction.ANestedKeyIsLost | packages/node-shared/src/logger.ts:119-125 | a record with an own `__proto__` inside another is logged as an empty record |
| Redaction.EarlierPartsComeFirst | packages/node-shared/src/logger.ts:119-134 | what is shown of the first fields does not depend on the fields after them, and what they call circular they or what came before had opened |
| Redaction.EachObjectIsOpenedOnce | packages/node-shared/src/logger.ts:127-134 | every object is opened at most once in the line, and whatever is called circular has been opened in it |
| PublishedManifests.PublishedManifest | scripts/assemble-package.ts:846-912 | the bundled versions collected, and the nested loops over the manifests and then the bundled ones, come to the fold of every declaration or its first refusal: `PublishedIsWhatIsDeclared` says what that is |
| PublishedManifests.PublishedIsWhatIsDeclared | scripts/assemble-package.ts:846-912 | whatever a manifest or a bundled package depends on is published, in the field the target decides, and nothing else is: a bundled name at its own manifest's version, another at the one range all ask for, an optional one at the first range asked for |
| PublishedManifests.RefusedForAReason | scripts/assemble-package.ts:865-912 | a refusal names a workspace dependency that is not bundled and who declares it, a name two manifests ask for at two ranges, or the missing node engine |
| PublishedManifests.MergedDescribes | scripts/assemble-package.ts:865-908 | for every name: bundled and pinned, required, or optional, and with which range; the one range declared, or the first one for an optional name that is also bundled |
| PublishedManifests.SucceedsExactlyWhenAgreed | scripts/assemble-package.ts:865-908 | with no name both bundled and given a range, it succeeds exactly when every name has one range and every workspace package is bundled |
| PublishedManifests.RequiredAndOptionalExactlyWhenMixed | scripts/assemble-package.ts:879-897 | a name is required and optional at once exactly when it is bundled, given a range somewhere, and optional for the target |
| PublishedManifests.OrderDecidesNothing | scripts/assemble-package.ts:861-864 | agreed ranges come to the same fields in every order of all the manifests |
| PublishedManifests.SomeOrderIsRefused | scripts/assemble-package.ts:861-908 | where two ranges of a name differ, some order is refused |
| PublishedManifests.EveryOrderSucceedsExactlyWhenAgreed | scripts/assemble-package.ts:861-908 | every order succeeds exactly when every name has one range and every workspace package is bundled |
| PublishedManifests.AcceptedOrderSpeaksForAllExactlyWhenAgreed | scripts/assemble-package.ts:861-908 | once one order is accepted, every order comes to the same fields exactly when every name has one range |
| PublishedManifests.OrderDecidesNothingExactly | scripts/assemble-package.ts:861-908 | where at most one name has two ranges, every order answers the same exactly unless that name is bundled and every workspace package is |
| PublishedManifests.SomeOrderIsAccepted | scripts/assemble-package.ts:861-908 | where only a bundled name's ranges differ, the order that bundles it first is accepted |
| PublishedManifests.OneOrderIsAcceptedAnotherRefused | scripts/assemble-package.ts:861-864 | three manifests accepted in one order and refused in another |
| PublishedManifests.TwoOrdersAreAcceptedAndDiffer | scripts/assemble-package.ts:861-864 | three manifests accepted in two orders that publish different optional ranges |
| PublishedManifests.BundledArePinned | scripts/assemble-package.ts:855-885 | each name in the published bundle is a bundled package, and a dependency at exactly its own manifest's version |
| PublishedManifests.OrdersOfBothDecideNothing | scripts/assemble-package.ts:846-912 | with agreed ranges and distinct bundled names the answer does not depend on the order of the manifests or of the bundled ones |
| Flags.ReadFlags | packages/node-shared/src/settings.ts:48-83 | the index loop reads the pieces of the command line in order, values per flag in order, every problem kept |
| Flags.NothingIsLost | packages/node-shared/src/settings.ts:57-80 | every argument is in exactly one piece, in order, problems included |
| Flags.ItemsReadBack | packages/node-shared/src/settings.ts:57-80 | a command line made of items is read as those items and no others |
| Flags.ReadsExactlyItems | packages/node-shared/src/settings.ts:34-83 | it succeeds, and with these values, exactly when the arguments split into `flag=value` and `flag`, `value` items carrying them |
| Flags.ReadsOneMore | packages/node-shared/src/settings.ts:48-83 | nothing reads to nothing, and one more `flag=value`, or `flag` and `value`, gives that flag one more value after those it has, the others as they were |
| Flags.RefusedForAReason | packages/node-shared/src/settings.ts:62-83 | a refusal names at least one problem, and each is there: an argument whose flag is not known, or a known flag with nothing or a flag after it |
| Flags.RewrittenReadsTheSame | packages/node-shared/src/settings.ts:34-83 | rewriting every item as `flag=value` reads to the same values |
| Prompts.WrittenGrows | scripts/drive-setup.ts:221-237 | text ending in a space is final: whatever arrives next is written after it |
| Prompts.ACursorMoveIsNotRead | scripts/drive-setup.ts:117-237 | a cursor move is read as if it had not been written |
| Prompts.ALineEndingIsOneBreak | scripts/drive-setup.ts:221-237 | a line ending is read as one newline, and any other return is left where it is |
| Prompts.LineStartMovesOnlyAtABreak | scripts/drive-setup.ts:239-248 | more text keeps the pending line's start or moves it further along, and only a break moves it |
| Prompts.Driver.OnData | scripts/drive-setup.ts:530-543 | the driver's fields follow the run, one answer at most for each chunk, its question kept trimmed |
| Prompts.EveryRunKeeps | scripts/drive-setup.ts:404-422 | however the transcript is cut: nothing typed before the banner was seen, every answer is to a prompt ending in `] `, and the offsets of answered lines strictly increase |
| Prompts.AnswersExactlyWhenAsked | scripts/drive-setup.ts:404-422 | from the first chunk on, an answer is typed exactly when the banner has been on the screen, the pending line ends in `] `, and a break has come since the answer before; and it is the answer that question gets |
| Prompts.AnsweredAsAsked | scripts/drive-setup.ts:145-219 | which answer each question gets: `n` to a login offer or another path, `y` to saving the plan, `skip` to another install offer, a bare return to any other |
| Prompts.LastLineFollowsTheLastBreak | scripts/drive-setup.ts:245-248 | the pending line is what follows the last return or newline |
| Prompts.AnsweredAgainExactlyAfterABreak | scripts/drive-setup.ts:414-421 | after an answer the next comes exactly when a line break has been written since and the pending line is a prompt |
| Prompts.EveryAnswerIsOneLine | scripts/drive-setup.ts:205-219 | every answer is one line, ended by a return and by nothing before it |
| Prompts.ARedrawByReturnIsAnsweredAgain | scripts/drive-setup.ts:414-421 | a question redrawn by a bare carriage return is answered again |

## Left out

- EveryPeerResolves: is about the peer recorded last, because two peer contexts of one node may overwrite each other's entry in `peers` (`scripts/shrinkwrap.ts:443`).
- AllSatisfiedExactlyWhenPinsAreMet: is about the versions an entry pins, its two dependency sections, and the root's edges; a peer is written as a range and ranges are not modelled. It takes each bundled name to be reached at one version, because with more which copy is at the top depends on the order of the worklist.
- RunsEndWithCirclesAtOneVersion: is one way; a circle of names at two versions may also end.
- Deriver.Derivation.Derive: takes a limit on the worklist's turns, because without one it does not end on a circular lockfile; `DerivationsAnswerWithCirclesAtOneVersion` says when a limit suffices.
- Deriver.Derivation.Place: a placed node is a value in the tree map, so two names for one node object are not captured; the code holds none across a write.
- LocationNames.UnderIsUndone: package names are taken to be free of `node_modules/`, as package names are.
- RequiredLocations: lists are walked in name order where the code walks insertion order; the set it answers does not depend on it.
- DocNameIsAName: characters are Unicode scalars in `Directories`, `Flags`, `Prompts` and the shrinkwrap, and lengths and sort order differ from UTF-16 only outside the Basic Multilingual Plane.
- Drains.Drain.Run: takes as given that the clock does not go back, that a timer does not fire early, that the poll is positive and that no terminal is added once the drain has begun.
- Readiness.SessionServer.RefreshReadiness: `preflight.run` is taken to yield before it answers.
- EveryRunIsSound: listeners are subscribed from the start and do nothing themselves; a socket's peer is connected once.
- KeysAreKeptExactlyWithoutProto: a `null` or a function under `__proto__` also sets the fresh record's prototype, which is not modelled; elsewhere names that are inherited properties of a JavaScript object are not modelled.
- Redaction.Redactor.RedactItems: arrays have no holes and no own keys.
- Prompts.Driver.OnData: decoding bytes, the two clocks and the printing of the log are not modelled.
- OrderDecidesNothingExactly: is about at most one name with two ranges; with more, manifests can stand in one another's way so that every order is refused. Orders are of all the manifests together, and two answers are the same when both refuse, whichever manifest the error names.
- PublishedManifest: only the three dependency fields and the missing node engine; name, version, license, bin and the rest are copied through.
- TranscriptFits: the size is of the text `JSON.stringify` gives for the parsed frame with its keys in schema order.
- Parsing of YAML, JSON and manifests, schemas as a library, and error message text: parsed values are the inputs, and a refusal keeps its kind and subject.
- `engines`, `os`, `cpu`, `libc`, `license` and the other fields an entry passes through.
- All filesystem, process, terminal, network, HTTP and push work; the hub's composition, boot and `main` files; frame catalogues; the user interface.
- `compareSnapshots`, `childEnvironment`, `truncateUtf8`, `readAbsolutePaths`, `releaseFromTag`, attention and approval rules, value readers and tokens: settled by one loop or one branch, they would only add easy members.
