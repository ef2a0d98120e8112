# Verified models of the orchestrator's hard parts

This project models, in Dafny 4.11, the pieces of the local orchestrator on which its durability and
safety rest, and proves what they promise. `dafny verify dfyconfig.toml` verifies all of it.

## What is modelled

**Crash-safe promotion** (`Promotion.dfy`, `PromotionManager.dfy`, `GitCommit.dfy`). A step machine holds the
durable state (journal record, marker file, private ref, commit objects) and the position inside `Promote`.
Every interaction with the journal, the file system or Git is one step that is carried out, carried out with
its reply lost, or refused; a crash or a foreign ref move may fall between any two. Class `Manager` is the
imperative `Promote`, and its contract says that whatever it performs is a run of that machine, and which
interactions must have been confirmed before it has any effect; the same is a law over all runs of the machine
(`ReachedBySuccesses` and the three after it). The history of
ref moves is part of the state, so "moved at most once" is a statement about a list. A commit id is an
injective function of tree, parent, message and time. Assumed of the environment: nobody else moves the ref to
the old commit or to the promotion's own commit.

**Patch capture and replay** (`Patch.dfy`, `PatchMethods.dfy`, `PatchBundle.dfy`, `Aliases.dfy`). `Describes` says
without any loop what the entries between two trees are, one-to-one renames included. The methods iterate over maps
in arbitrary order (`:|`) and are proved to produce exactly that list. Capture refuses exactly what `Capturable` rules
out, aliases between the base and the checkout among it: a rename that changes nothing but letter case is refused
(`CaseOnlyRename`). Whatever capture seals, replay gives back on its base without loss if the write policy allows the
changed paths (`SealedReplays`). On an arbitrary tree the outcome of replay is stated case by case (`ReplayExact`): it
succeeds exactly if the tree has not left the base on a changed path, the change is compatible with what the tree holds
besides (no aliases, no file where a directory is needed), and the checkout already holds that result, which is the
change laid over the tree. A captured bundle passes the structural validation, whose comparison of two counts is shown
to mean that every object is referenced. `CanonicalizePaths` is proved for paths in any spelling.

**Canonical encoding** (`Utf.dfy`, `Canonical.dfy`, `CanonicalParse.dfy`, `CanonicalWriter.dfy`). The writer of
values, the key order on UTF-16 code units (section 3.2.3 of RFC 8785, section 2.1 of RFC 2781), the string rules
of section 3.2.2.2 of RFC 8785 and a matching parser that gives every printed value back; what is written for a
character is the shortest text that reads as it. The preimage of `Hash` is
injective in kind, schema version and value. The writer appends to a mutable buffer and is proved against the
printing function.

**Dependency graphs** (`Graph.dfy`, `Services.dfy`, `Cycles.dfy`). `ServiceOrder` as a three-colour depth-first
search with mutable colours, `cyclic` and `reachable` with shared mutable sets; each is proved against walks.

**Accepted plans** (`Globs.dfy`, `Scopes.dfy`, `Overlaps.dfy`, `OverlapExamples.dfy`, `Plan.dfy`, `Schedules.dfy`).
`compilePlan`'s graph, criteria and scope checks, the write policies compiled from scopes, and schedules that respect
dependencies. `norm` stands for Unicode's normalisation to NFC; `Normalisation` lists what is used of it. That
unordered items of an accepted plan never write one path is false of the code as it stands, since the overlap test
compares scopes as they are written and reads every segment without `*` literally, while the policy compiles their
normal form and gives `?` and `[...]` their glob meaning. What holds instead is proved exactly:

- `Trusted` is a computable condition on one scope: no wildcard that the test reads literally can match a plain name
  in normal form, and the plain segments before it are written in normal form, or else nothing is covered. The test is
  right about a valid scope against every valid plain scope if and only if the scope is trusted (`OverlapTestExact`).
  For every other valid scope there is an accepted plan of two independent items that may write one path
  (`UntrustedPlan`, `IsolationExact`). "/?" and names not in normal form are not trusted; "/e[\u0301]" is, though it
  has a wildcard early on.
- `Common` decides for any two valid scopes whether they cover a common path, by a finite search over both patterns
  (`CommonExactly`). Along all schedules of an accepted plan running items keep to different paths if and only if no two
  unordered items `Collide` (`Schedules.RunningItemsAreIsolated`); for that, any two unordered items are shown to run
  side by side in some schedule. Items cannot collide if the scopes of one are trusted and those of the other plain.

**Shutdown** (`Shutdown.dfy`, `Daemon.dfy`). Request admission, the project execution slot with its double look at the stopping
flag, the drain of the execution loop and the closing order of `app.Serve`, as a machine whose steps are the
sections under a mutex and the moments blocking calls return. Statements range over every interleaving of any
number of handlers, and over completion: the shutdown cannot deadlock. Class `System` holds the shared fields and
the goroutines' own code, each proved to perform runs of the machine.

**Report publication** (`Report.dfy`, `ReportManager.dfy`, `Finalize.dfy`). Two files and a store record, several
publishers at once (the execution loop and request handlers), any operation failing or the process ending
between any two. Between operations a publisher's state changes by whatever the others may do (`Rely`); every
operation is shown to be something the others can live with (`Guarantee`). Random numbers in temporary names
are taken never to repeat. `calm` in a contract means that nobody interferes and nothing fails.
Recovery gives up on a record whose recorded temporary file was altered, although the record holds the payload;
`Recover`'s contract says exactly which records it completes.

**Invocation logs** (`InvocationLog.dfy`, `LogDelivery.dfy`). Scanning while the provider appends, gap detection,
bounded pages, the streaming server and the client, up to a reader that reconnects after any broken connection. A scan
never passes over a gap silently. The directory is listed in batches while files are added, so a provider that appends
without gaps can be accused of one: exactly if the next event and the one after it both appear while the directory is
being read (`FalseGapExact`), hence never with fewer than two appends during one listing. The record then stays
unavailable for good and every later query is refused.

**Line logs** (`Lines.dfy`, `StderrLog.dfy`, `DiagnosticLog.dfy`). Both line-buffered writers, against a
specification that splits the whole stream at its newlines; how the stream was cut into writes does not show.

**Reviewer fallback** (`Reviewer.dfy`). Profile selection and the loop that strips roles from a copy of the
configuration, against one walk over one sorted list.

**Idempotent writes** (`Idempotency.dfy`, `WriteHandler.dfy`). The request protocol over the idempotency records,
for every interleaving of requests and any crashes, store transactions that commit and still report an error
included, and `serveWrite` as one request runs it. Each answer is stated by the record that is found.

`Ordering.dfy` (lexicographic order, sorting, sorted listings of sets) and `Text.dfy` (splitting, joining,
decimal numbers) are shared.

SHA-256 digests are datatype constructors over what they digest, hence injective. Redaction is a function
parameter. Strings are sequences of Unicode scalars, or of bytes where the source works on bytes.

## Model

| member | source | states |
|---|---|---|
| Promotion.StepKeepsInv | internal/promotion/manager.go:62-155 | every single interaction, crash or foreign ref move keeps the invariant tying journal record, marker, ref, move history and the position in `Promote` |
| Promotion.ExecKeepsInv | internal/promotion/manager.go:62-155 | the invariant holds over any number of runs of one request, each cut anywhere |
| Promotion.MovesExplainRef | internal/gitrepo/commit.go:119-146 | the ref changes only by a compare-and-swap from the old commit to the marker's commit, which is recorded, or by a foreign move |
| Promotion.ReachedBySuccesses | internal/promotion/manager.go:62-155 | in every run, however cut by crashes, a place in `Promote` is reached only by the successes of the same run that lead there |
| Promotion.MovedOnlyWhenChecked | internal/promotion/manager.go:118-132 | over all runs: whenever the ref is moved, the same run has verified, ensured the record, read the marker, read and journalled the commit, seen the ref at the old commit, and had preflight and verification answer yes, in this order |
| Promotion.CreatedOnlyWhenChecked | internal/promotion/manager.go:84-100 | whenever a commit object is created, the same run has found no marker and had preflight and verification answer yes |
| Promotion.ObservationWasRead | internal/promotion/manager.go:140-155 | OBSERVED is journalled only after the same run journalled the ref update, read the ref at the reported commit, read the commit object and verified the checkout |
| Promotion.OnlySuccessGoesOn | internal/promotion/manager.go:62-155 | anything but success ends the run, at a check before an effect by journalling the failure |
| Promotion.EffectsHaveTheirPlace | internal/promotion/manager.go:62-155 | commit, marker, ref and record each change in their own places only |
| Promotion.RefusedOrLost | internal/promotion/manager.go:118-146 | a refusal changes nothing durable; a lost reply changes what the reply would have confirmed |
| Promotion.RefusedCheckFails | internal/promotion/manager.go:206-211 | a refused check before an effect leaves the record FAILED unless that cannot be journalled, and nothing else |
| Promotion.UnusableRecordEndsRun | internal/promotion/manager.go:77-88 | a failed, foreign or invalid record is never acted upon |
| Promotion.UnmatchedEndsRun | internal/promotion/manager.go:84-137 | neither is a marker of another request, a commit object that does not match, or a ref that is elsewhere |
| Promotion.JournalAdvances | internal/store/sqlite/promotion.go:245-326 | the journal goes forward one state at a time with one commit, stands still where it is asked for less, and leads nowhere from FAILED |
| Promotion.MarkerExactly | internal/promotion/manager.go:246-312 | a stored marker is accepted if and only if it is what would be written for the request and the commit it names |
| Promotion.RequestExactly | internal/promotion/promotion.go:81-116 | a request is valid if and only if all it names are clean labels and it has a revision and a time |
| Promotion.PromotionSafety | internal/promotion/manager.go:62-155 | in every reachable state: the ref was moved at most once, from the old commit to the one promotion commit; ref at that commit implies the marker; FAILED implies never moved; OBSERVED implies moved and a commit with the candidate tree, parent and trailers |
| Promotion.NeverFailedOnceMoved | internal/promotion/manager.go:206-211 | once the ref was moved no later preflight or verification failure can journal FAILED |
| Promotion.PromotionConverges | internal/promotion/manager.go:62-155 | from every reachable state that is not FAILED and whose ref nobody else moved, a crash and one undisturbed run end in the same completed state and observation as a run without crash |
| Promotion.PromotionIdempotent | internal/promotion/manager.go:90-155 | a further run in the completed state changes nothing and returns the same observation |
| Promotion.ConvergeStep | internal/promotion/manager.go:90-155 | each undisturbed interaction keeps a run on the track to completion |
| PromotionManager.Manager.Promote | internal/promotion/manager.go:62-155 | the run is a run of the machine, and undisturbed the one convergence speaks of; commit, marker, ref and a reported promotion each imply that every earlier interaction of the call was confirmed; an unusable record or marker stops it without effect; a refused check before the commit leaves FAILED |
| PromotionManager.Manager.Establish | internal/promotion/manager.go:89-110 | commit and marker only after preflight and verification said yes; a check that says no leaves FAILED and no marker |
| PromotionManager.Manager.Publish | internal/promotion/manager.go:100-155 | from a validated marker on: the ref moves only if the commit object matches and all checks of this call said yes; a reported promotion was read back |
| PromotionManager.Manager.MoveRef | internal/promotion/manager.go:124-133 | the ref moves only if preflight and verification said yes; otherwise the record becomes FAILED and the ref stays |
| PromotionManager.Manager.SwapRef | internal/gitrepo/commit.go:119-146 | the ref and its move history change together and only from the old commit |
| PromotionManager.Manager.WriteMarker | internal/promotion/manager.go:246-296 | the marker is linked without overwriting; an existing one makes the call fail |
| PromotionManager.Manager.ReadPromotionCommit | internal/promotion/manager.go:195-204 | true exactly if the object exists with the candidate tree, parent and the request's trailers |
| PromotionManager.CalmIsDrive | internal/promotion/manager.go:62-155 | a run in which every interaction succeeds reaches the state `Drive` computes |
| GitCommit.ReadTrailers | internal/gitrepo/commit.go:75-117 | reads exactly the trailers a message carries |
| GitCommit.TrailersExactly | internal/gitrepo/commit.go:95-117 | a message is readable if and only if no trailer line repeats a key or has an empty or unclean value; the trailers are then exactly those lines |
| GitCommit.TrailersRoundTrip | internal/promotion/manager.go:320-333 | the trailers read back from the commit message of a request are the request's trailers |
| Patch.OneEntryPerPath | internal/patch/bundle.go:145-214 | a path is touched by at most one entry, rename sources included |
| Patch.DiffUnique | internal/patch/bundle.go:80-103 | two trees have one entry list and one object set, whatever the iteration order |
| Patch.TouchedExactly | internal/patch/bundle.go:145-214 | the touched paths are exactly those that were added, deleted or changed |
| Patch.EmptyIffUnchanged | internal/patch/bundle.go:145-214 | the entry list is empty if and only if the trees are equal |
| Patch.ConflictExactly | internal/patch/replay.go:126-222 | an entry conflicts with a tree if and only if the tree differs from the base on a path it touches |
| Patch.ReplayExact | internal/patch/replay.go:38-202 | the outcome of replaying a capture on any tree: stale exactly if the tree left the base on a changed path, unsafe exactly if the change is incompatible with the rest of the tree, no change exactly if nothing was captured, else the change laid over the tree if and only if the checkout holds it |
| Patch.ReconstructExact | internal/patch/replay.go:101-202 | the loop over the entries fails exactly, and then as stale, if the tree left the base on a changed path, and otherwise lays the change over the tree |
| Patch.RebuiltAsStated | internal/patch/replay.go:101-202 | for any bundle: if a tree comes out, every entry was true of the tree that went in and is true of the one that comes out, nothing else changed, and the policy allows every touched path |
| Patch.ReplayedIsSafe | internal/patch/replay.go:38-99 | for any bundle: what is replayed is the checkout, changed, within the file limit, with safe links, valid paths, no aliases or conflicts, and within the policy |
| Patch.WritableExactly | internal/scope/scope.go:48-62 | the write check passes exactly paths that a write scope covers and no deny scope does |
| Patch.ReplayedWithinScope | internal/scope/scope.go:48-62 | nothing outside the write scope and nothing under a deny pattern is ever replayed |
| Patch.BuildableExact | internal/gitrepo/tree.go:168-187 | the rebuilt tree passes the alias and file/directory checks if and only if the new paths are compatible with the untouched ones |
| Patch.CompatibleWithBase | internal/gitrepo/tree.go:168-187 | on its own base a captured change always passes them, and gives the captured files |
| Patch.NewAlias | internal/gitrepo/tree.go:178-180 | a new path spelt like one the tree gained meanwhile is not stale and not compatible |
| Patch.NewConflict | internal/gitrepo/tree.go:181-187 | a new file where the tree gained a directory meanwhile is not stale and not compatible |
| Patch.CaptureReplayRoundTrip | internal/patch/replay.go:38-202 | replaying a capture on its base yields exactly the captured tree, or a policy violation exactly if a changed path may not be written |
| Patch.CaseOnlyRename | internal/gitrepo/checkout.go:261-284 | a rename to a spelling that folds alike is refused by the capture |
| Patch.ChangedPathsExact | internal/patch/replay.go:101-108 | the paths checked for aliases and against the policy are exactly the changed ones, rename sources included, each once |
| Aliases.CanonicalizePaths | internal/scope/scope.go:85-115 | accepts exactly valid paths with different normal forms, no prefix of which is spelt in two ways and no two prefixes of which fold alike |
| Aliases.NormalFormsApart | internal/scope/scope.go:85-115 | for paths in normal form that means: valid, different, and no two prefixes that fold alike |
| PatchMethods.CompareFiles | internal/patch/bundle.go:145-214 | the loops produce the one sorted entry list and object set of the change |
| PatchMethods.PairRenames | internal/patch/bundle.go:145-214 | exactly the one-to-one renames, each once |
| PatchMethods.Capture | internal/patch/bundle.go:41-104 | refused exactly if base and checkout are not capturable, nothing exactly if nothing changed, otherwise a structurally valid bundle of the change |
| PatchMethods.ReplayBundle | internal/patch/replay.go:38-99 | validation, snapshot, reconstruction and the checks on the result compute exactly the replay function |
| PatchMethods.SealedReplays | internal/patch/replay.go:38-99 | what capture seals passes validation and replays on its base to exactly the captured checkout, unless the policy forbids a changed path |
| PatchMethods.BundleInScope | internal/patch/replay.go:38-99 | the same for a captured bundle: the result is the checkout and differs from the tree only within the write scope and under no deny pattern |
| PatchMethods.BundleAsStated | internal/patch/replay.go:38-99 | every entry of a replayed bundle was true of the tree and left a regular mode and the content its hash names |
| PatchMethods.VerifyBefore | internal/patch/replay.go:204-222 | the cached hash comparison decides whether the file is unchanged |
| PatchMethods.ReplayEntry | internal/patch/replay.go:126-201 | one round of the replay loop finds exactly the entry's problem or applies it |
| PatchMethods.CheckWrite | internal/scope/scope.go:48-62 | refuses exactly if some changed path matches a deny pattern or no write pattern |
| PatchMethods.SnapshotTree | internal/gitrepo/checkout.go:257-318 | accepts exactly checkouts whose paths are canonical together with those of the base, with files within the limit, safe links and a tree that can be built, for every listing order |
| PatchMethods.BuildTree | internal/gitrepo/tree.go:168-187 | accepts exactly path sets without aliases in which no path is a directory of another |
| PatchMethods.ReconstructEntries | internal/patch/replay.go:101-202 | the loop with its hash cache is the replay function |
| PatchBundle.ValidateStructure | internal/protocol/m2.go:120-161 | accepts exactly the structurally valid bundles, unreferenced objects excluded |
| PatchBundle.ValidateEntries | internal/protocol/m2.go:139-156 | the loop over entries accepts exactly valid lists and collects exactly the references |
| PatchBundle.ValidEntryExactly | internal/protocol/m2.go:163-191 | an entry is accepted if and only if it has one of the four forms a capture builds, at safe paths and with regular modes |
| PatchBundle.ValidObjectExactly | internal/protocol/m2.go:129-133 | an object record is accepted if and only if it names a content by its hash twice, with a length |
| PatchBundle.CountingCheck | internal/protocol/m2.go:157-160 | equal counts mean that every object is referenced |
| PatchBundle.CaptureIsValid | internal/patch/bundle.go:80-103 | every capture of valid files passes the structural validation |
| Utf.UnitsInjective | internal/canonical/canonical.go:228-241 | different strings have different UTF-16 code units |
| Utf.UnitsOfChar | internal/canonical/canonical.go:228-241 | a character above U+FFFF is a surrogate pair that gives it back, any other is itself |
| Utf.BytesInjective | internal/canonical/canonical.go:39-55 | different strings have different UTF-8 bytes |
| Utf.BytesOfChar | internal/canonical/canonical.go:39-55 | the bytes of a character are the shortest of their form and give it back |
| Utf.Utf16TotalOrder | internal/canonical/canonical.go:228-241 | the key order is a strict total order on strings |
| Utf.CompareUtf16 | internal/canonical/canonical.go:228-241 | the comparison decides that order |
| Canonical.CanonicalIntegerIsDecimal | internal/canonical/canonical.go:243-259 | the accepted number texts are exactly the decimal printings of the integers |
| CanonicalParse.ParsePrint | internal/canonical/canonical.go:148-226 | the parser recovers every printable value from its printing and leaves the rest of the text, which after a number must not start with a digit |
| CanonicalParse.ParsePrintString | internal/canonical/canonical.go:200-226 | every string survives escaping |
| CanonicalParse.EscapeIsShortest | internal/canonical/canonical.go:200-226 | what is written for a character is the one shortest text that reads as it |
| CanonicalParse.EscapeTable | internal/canonical/canonical.go:200-226 | quote, backslash and five control characters get two-character escapes, exactly the other controls six, and all else none |
| CanonicalParse.PrintInjective | internal/canonical/canonical.go:148-226 | different values print differently |
| CanonicalWriter.IsCanonicalInteger | internal/canonical/canonical.go:243-259 | the scan decides the canonical integer texts |
| CanonicalWriter.WriteString | internal/canonical/canonical.go:200-226 | appends exactly the printing of the string |
| CanonicalWriter.ListKeys | internal/canonical/canonical.go:176-193 | the sorted key list is the same for every map iteration order |
| CanonicalWriter.WriteValue | internal/canonical/canonical.go:148-198 | appends exactly the printing of the value, or fails exactly if it has none |
| CanonicalWriter.Hash | internal/canonical/canonical.go:39-55 | hashes prefix, kind, version and printing, each on its line, for exactly the valid frames |
| CanonicalWriter.HashInjective | internal/canonical/canonical.go:39-55 | equal hashes mean equal kind, schema version and value |
| Services.SearchSound | internal/config/services.go:87-129 | the coloured search extends a dependency-first list by reachable services only, and fails only above an unknown service or a cycle, which it names |
| Services.StartOrderExact | internal/config/services.go:87-129 | succeeds if and only if no unknown service or cycle is reachable; then lists exactly the closure, each once, dependencies first |
| Services.RequestedInOrder | internal/config/services.go:119-129 | what a requested service needs comes before whatever no requested service up to it needs |
| Services.DependenciesInOrder | internal/config/services.go:106-117 | and so for the dependencies of one service |
| Services.RepetitionsDoNotMatter | internal/config/services.go:87-129 | repeated and reordered requests give the same list |
| Services.ServiceOrder | internal/config/services.go:87-129 | the imperative search, with the duplicate check, is that order |
| Cycles.CycleFinder.Cyclic | internal/goalcompile/compile.go:284-310 | the search over all nodes with shared sets finds a cycle exactly if there is one |
| Cycles.IsCyclic | internal/goalcompile/compile.go:284-310 | true if and only if some node has a non-empty path to itself |
| Cycles.IsReachable | internal/goalcompile/compile.go:312-326 | true if and only if there is a path |
| Overlaps.ComputeLiteralPrefix | internal/goalcompile/compile.go:340-349 | the segments before the first one with a star, joined |
| Overlaps.ScopesMayOverlap | internal/goalcompile/compile.go:328-338 | the loop decides whether some pair may overlap |
| Overlaps.OverlapTestSound | internal/goalcompile/compile.go:328-361 | a trusted scope and a plain one in normal form that pass the test cover no common path |
| Overlaps.OverlapTestExact | internal/goalcompile/compile.go:328-361 | for every valid scope: the test is right against all valid plain scopes, on every path in normal form, if and only if the scope is trusted |
| Overlaps.UntrustedOverlaps | internal/goalcompile/compile.go:328-361 | a scope that is not trusted has a valid plain scope and a path in normal form that both cover though the test tells the two apart |
| Overlaps.CommonExactly | internal/goalcompile/compile.go:328-361 | for any two valid scopes `Common` decides whether some path in normal form is covered by both |
| Overlaps.MissedAt | internal/goalcompile/compile.go:328-349 | when two scopes with a common path pass the test, their literal segments first differ where one is no plain name or where both are the same name spelt differently |
| Overlaps.NormalScopeCompiles | internal/goalcompile/compile.go:351-361 | a valid scope in normal form compiles unless it has a line break or a malformed class, and what compiles without ".git" is valid |
| Globs.AdmitsNameExactly | internal/scope/scope.go:66-80 | a finite search decides whether a segment pattern matches some (plain) repository name in normal form |
| Globs.CommonNameExactly | internal/scope/scope.go:192-211 | a finite search decides whether two segment patterns match a common repository name in normal form |
| Globs.CommonPathExactly | internal/scope/scope.go:192-211 | the recursion over both patterns, `**` included, decides whether they match a common path in normal form |
| OverlapExamples.QuestionMark | internal/goalcompile/compile.go:340-361 | "/?" is a valid scope that is not trusted |
| Scopes.CompilePatterns | internal/scope/scope.go:140-180 | succeeds exactly if every pattern compiles and no two to the same one, and gives their segments in normal form |
| Scopes.NewPolicy | internal/scope/scope.go:33-46 | a policy exactly if there is a write pattern and all write and deny patterns compile |
| Scopes.AllowsExactly | internal/scope/scope.go:33-62 | a policy allows exactly what one of its write scopes covers and none of its deny scopes |
| Scopes.PolicyExists | internal/scope/scope.go:33-46 | there is a policy if and only if there is a write pattern and all patterns compile to different ones |
| OverlapExamples.Misspelt | internal/goalcompile/compile.go:340-361 | a plain name that is not in normal form is a valid scope that is not trusted |
| OverlapExamples.AccentClass | internal/goalcompile/compile.go:340-361 | a class that holds only a combining accent after its letter is a valid scope with an early wildcard that is trusted |
| Plan.CompilePlan | internal/goalcompile/compile.go:172-243 | accepts exactly the plans with unique keys, every criterion taken on by a required item, known dependencies, no cycle and no conflicting unordered items |
| Plan.AcceptedMeans | internal/goalcompile/compile.go:172-243 | whatever is accepted is bounded and complete, with different keys, valid scopes, known criteria and prerequisites, and every criterion taken on by a required item |
| Plan.UnorderedItemsAreIsolated | internal/goalcompile/compile.go:216-243 | unordered items of an accepted plan may write no common path, whatever is denied, if the scopes of one are trusted and those of the other plain |
| Plan.IsolatedExactly | internal/orchestrator/execute.go:334-337 | two items have no path open to both, whatever is denied, if and only if they do not collide, which can be computed |
| Plan.TwoItemsAccepted | internal/goalcompile/compile.go:216-243 | the plan of two independent items with one scope each is accepted if and only if the test tells the scopes apart |
| Plan.IsolationExact | internal/goalcompile/compile.go:216-243 | every accepted plan of two independent items, one with the scope and one with a plain scope, is isolated if and only if the scope is trusted |
| Plan.UntrustedPlan | internal/goalcompile/compile.go:216-243 | for every scope that is not trusted there is an accepted plan of two independent items that may write one path |
| Schedules.ScheduleInvariant | internal/store/sqlite/scheduler.go:77-115 | an item becomes ready only when all its prerequisites are done, hence in every schedule everything a started item depends on is done |
| Schedules.BothRunning | internal/store/sqlite/scheduler.go:77-115 | any two unordered items of an accepted plan run side by side in some schedule |
| Schedules.RunningItemsAreIsolated | internal/goalcompile/compile.go:216-243 | along all schedules of an accepted plan running items keep to different paths if and only if no two unordered items collide |
| Shutdown.StepKeepsInv | internal/daemon/daemon.go:120-189 | every step of any goroutine keeps the shutdown invariant |
| Shutdown.ShutdownSafety | internal/app/app.go:33-109 | over every interleaving: whoever may write has an open store and an owned project, the store closes before ownership is released, at most one execution is active |
| Shutdown.StoppedAdmitsNobody | internal/daemon/daemon.go:146-189 | after stopping is set the set of active handlers only shrinks |
| Shutdown.DrainedForever | internal/orchestrator/project_slot.go:43-52 | after the drain returned no probe or Goal run is or ever becomes active |
| Shutdown.ExecutionWasAllowed | internal/orchestrator/project_slot.go:8-41 | in every run, whoever holds the slot has seen a live engine that is not stopping, taken the free slot, seen again that it is not stopping, and executes only if execution was available and nothing cancelled, in this order |
| Shutdown.ExecutionAtEnd | internal/orchestrator/project_slot.go:8-41 | whoever executes at the end of a run was allowed to in that run |
| Shutdown.RunningEarned | internal/orchestrator/project_slot.go:34-41 | a handler starts to execute only by an entry with execution available, nothing cancelled, after the second look |
| Shutdown.AdmissionEarned | internal/daemon/daemon.go:179-188 | a handler appears only by admission while the daemon is not stopping, and leaves only by answering |
| Shutdown.ResumptionEarned | internal/daemon/daemon.go:149-170 | a handler that waits for the execution loop goes on only when that has finished |
| Shutdown.PlacesAreReached | internal/orchestrator/project_slot.go:8-41 | conversely, what allows each section leads it one place further |
| Shutdown.NoWriterAfterClose | internal/app/app.go:33-109 | once the store is closed nobody may write, for ever |
| Shutdown.ShutdownCompletes | internal/app/app.go:95-109 | from every reachable state after the stop began, steps that need no outside help lead to the project being released |
| Shutdown.NextUnaided | internal/daemon/daemon.go:149-170 | short of the end some such step is always enabled and brings the end closer |
| Daemon.System.Others | internal/daemon/daemon.go:120-189 | while all other goroutines run, one keeps its own place, and stopping and cancellation are never taken back |
| Daemon.System.HandlerSection | internal/orchestrator/project_slot.go:8-41 | each critical section of a request handler assigns exactly what its step of the machine says |
| Daemon.System.LoopSection | internal/orchestrator/engine.go:214-232 | so does each section of the execution loop |
| Daemon.System.ServingSection | internal/app/app.go:33-109 | and each section of the serving goroutine |
| Daemon.System.TryProjectExecution | internal/orchestrator/project_slot.go:8-41 | takes the steps of a probe up to the one that refuses it; it runs only if execution is available on a live engine before cancellation, and undisturbed with a free slot exactly then |
| Daemon.System.ServeRequest | internal/daemon/daemon.go:179-215 | a request is admitted exactly if the daemon is not stopping, then worked on and answered, and gone afterwards; a stop request cancels |
| Daemon.System.RunGoal | internal/orchestrator/engine.go:318-404 | the run holds the slot from before its start to after its end |
| Daemon.System.RunEngine | internal/orchestrator/engine.go:214-232 | the loop ends only by leaving on cancellation and draining the slot |
| Daemon.System.DrainExecutions | internal/orchestrator/project_slot.go:43-52 | sets the flag first and passes through the slot afterwards |
| Daemon.System.StopServing | internal/app/app.go:33-109 | returns only after the closing steps in their one order; then nobody may write and store and project are given up |
| Report.GuaranteeIsRely | internal/report/files.go:167-257 | what one publisher does is what publishers with other temporary files rely on |
| Report.IntactKept | internal/report/files.go:167-213 | recorded temporary files stay intact or disappear, whatever the publishers do |
| Report.IntactPublishable | internal/report/files.go:167-213 | with intact temporary files recovery can publish every record |
| Report.SettledExactly | internal/report/files.go:167-213 | publishing writes the payload under the final name, removes a regular temporary file and touches nothing else |
| Report.PublishableExactly | internal/report/files.go:167-213 | undisturbed, a published file stays so, an existing temporary file must hold the payload, and a missing one may be rebuilt where allowed |
| Report.RecoveredExactly | internal/report/files.go:101-115 | both files are published, the first only, or none: publication stops at the first that cannot be |
| Report.ArtifactExactly | internal/report/files.go:47-77 | a report is published under one clean name, with a hash of 64 hexadecimal digits and payloads with the announced hashes |
| ReportManager.Manager.WriteTemp | internal/report/files.go:226-257 | a complete private file under a new name, or none |
| ReportManager.Manager.Publish | internal/report/files.go:167-213 | afterwards the final name holds the payload; undisturbed it succeeds exactly if the file is published, intact or rebuildable |
| ReportManager.Manager.PublishTemp | internal/report/files.go:197-213 | only verified content is ever renamed to a final name |
| ReportManager.Manager.Prepare | internal/report/files.go:47-77 | both payloads written privately, no final file touched |
| ReportManager.Manager.Commit | internal/report/files.go:79-99 | publishes both files without rebuilding |
| ReportManager.Manager.Recover | internal/report/files.go:101-115 | publishes both files, rebuilding missing temporary files from the record |
| ReportManager.Manager.Read | internal/report/files.go:117-130 | returns exactly the recorded payloads |
| ReportManager.Manager.Discard | internal/report/files.go:133-158 | removes exactly the temporary files that still hold what was prepared |
| ReportManager.Manager.Mark | internal/store/sqlite/final_report.go:235-274 | commits by compare-and-swap on the version, idempotently |
| Finalize.Finalizer.Transact | internal/store/sqlite/final_report.go:44-233 | completes the Goal and stores the report together, at most once, even if the reply is lost |
| Finalize.Finalizer.Finalize | internal/finalize/finalize.go:33-55 | completed means both files published and committed; undisturbed, it publishes exactly the artifact or leaves nothing behind |
| Finalize.Finalizer.Recover | internal/finalize/finalize.go:58-74 | undisturbed it commits exactly the records whose files can be published, going on after failures, and changes nothing if all are committed |
| Finalize.Finalizer.Read | internal/finalize/finalize.go:76-92 | a report that is read is committed and is the recorded payload; undisturbed, reading succeeds exactly if the record exists and can be published |
| Finalize.Finalizer.AnyHistory | internal/finalize/finalize.go:33-92 | over any history of interleaved, failing and cut-off operations published files and records last and final names hold only recorded payloads |
| Finalize.Finalizer.RecoveryConverges | internal/finalize/finalize.go:58-74 | after any such history one undisturbed recovery commits every report |
| Finalize.NoFinals | internal/report/files.go:47-77 | before the transaction no final file of the Goal exists |
| InvocationLog.LogDirectory.CheckGap | internal/invocation/files.go:191-250 | complains exactly about a missing directory, an unclean listing and a listing with a gap, whatever appears while the directory is read |
| InvocationLog.LogDirectory.Scan | internal/invocation/files.go:142-189 | advances over contiguous readable events with their bytes and session counted, a batch at most; otherwise it ends where nothing further was durable when it began, passing over no gap, or stops for a stated reason |
| InvocationLog.LogDirectory.ScanToEnd | internal/invocation/files.go:142-189 | repeated scans never end at a gap without reporting it, and of a contiguous log index everything that was durable, with the exact size sum |
| InvocationLog.SessionExactly | internal/invocation/files.go:142-189 | there is a session after a stretch if and only if all that is named in it is one name |
| InvocationLog.HealthyNeverStops | internal/invocation/files.go:142-189 | a contiguous log within the limits stops a scan only if the directory holds foreign files, or with a false gap after two appends during one listing |
| InvocationLog.FalseGapExact | internal/invocation/files.go:217-249 | some listing of a contiguous log shows a gap if and only if the next event and the one after it both appeared while the directory was read |
| InvocationLog.FalseGapTakesTwo | internal/invocation/files.go:217-249 | a false gap takes at least two appends during one listing |
| InvocationLog.LogDirectory.ReadPage | internal/invocation/files.go:252-273 | a page is the exact stretch after the cursor, as long as it fits, never empty below the boundary |
| LogDelivery.Projection.Refresh | internal/store/sqlite/invocation.go:142-165 | cursors never regress, finished calls never revive, and what is recorded is readable and counted |
| LogDelivery.Projection.Query | internal/invocation/context.go:103-139 | a truthful page that makes progress below the boundary; complete if and only if the call is over and nothing follows the boundary; an unavailable record is always refused |
| LogDelivery.Projection.ServeStream | internal/api/invocation.go:14-74 | each frame starts where the one before ended; an error or a completed page is the last |
| LogDelivery.Follow | internal/api/invocation_client.go:66-71 | accepts exactly consecutive numbers |
| LogDelivery.CopyStream | internal/api/invocation_client.go:38-92 | whatever arrives, what is written is numbered without gap or repetition; a conforming stream is never rejected and finishes exactly with its completed page |
| LogDelivery.FollowLog | internal/api/invocation_client.go:17-93 | over any number of broken connections every durable event is delivered once and in order, and a finished stream was delivered whole |
| LogDelivery.ClosedIsWhole | internal/api/invocation.go:47-49 | a completed page is the last frame that was sent |
| StderrLog.FeedIsByLines | internal/invocation/stderr.go:37-69 | byte by byte and line by line a stream is published the same way, first failure included |
| StderrLog.OutcomeExact | internal/invocation/stderr.go:37-109 | for every stream: one redacted record for each line before the first that is too long, too many or cannot be stored, and that line's own reason |
| StderrLog.LinesPublished | internal/invocation/stderr.go:70-88 | a stream whose lines fit is published whole, one redacted record per line |
| StderrLog.Log.Write | internal/invocation/stderr.go:37-69 | a chunk within the total is the same as its bytes; beyond the total it fails without publishing |
| StderrLog.Log.Stop | internal/invocation/stderr.go:89-95 | the first failure is marked with the number of records before it |
| StderrLog.Log.Publish | internal/invocation/stderr.go:70-88 | one more record, numbered next, or the failure that prevents it |
| StderrLog.Log.Collect | internal/invocation/stderr.go:37-109 | however a stream is cut into writes, records and failure depend on the stream alone |
| Lines.LinesAreTheStream | internal/invocation/stderr.go:51-67 | cutting a stream into lines loses and moves nothing |
| DiagnosticLog.FeedShowsLines | internal/environment/diagnostics.go:38-104 | the file shows the lines one after the other, each over-long one replaced by exactly one marker |
| DiagnosticLog.Log.Write | internal/environment/diagnostics.go:38-83 | a chunk is the same as its bytes; the one beyond the total becomes one marker and ends the file |
| DiagnosticLog.Log.Close | internal/environment/diagnostics.go:91-104 | an unfinished last line is written unless it is being dropped |
| DiagnosticLog.Log.Collect | internal/environment/diagnostics.go:38-104 | however the output is cut into writes, the file depends on the output alone |
| Reviewer.PreferenceIsRank | internal/config/profile.go:160-172 | the comparison is the lexicographic order of different provider if preferred, not the implementer, id |
| Reviewer.Config.SelectProfile | internal/config/profile.go:137-175 | a bound role has no choice, any other takes the best candidate, and each error exactly when there is none |
| Reviewer.WalkIsFirstReady | internal/orchestrator/reviewer_profile.go:18-67 | left alone the walk picks the first ready candidate and fails exactly if none is ready |
| Reviewer.WalkExact | internal/orchestrator/reviewer_profile.go:18-67 | the walk stops at the first candidate that is ready or unconfirmed or where the context is done, with the look before and after each probe |
| Reviewer.ChosenIsBest | internal/orchestrator/reviewer_profile.go:18-67 | the chosen reviewer is ready, and every reviewer preferred to it was found unavailable |
| Reviewer.OrderedByPreference | internal/config/profile.go:160-172 | the candidates are exactly the profiles with the role, each preferred to all after it |
| Reviewer.ProviderExactly | internal/config/profile.go:149-158 | the implementer's provider is that of the last profile with its id, or none |
| Reviewer.StrippedExactly | internal/orchestrator/reviewer_profile.go:54-65 | nothing but the reviewer role is taken away |
| Reviewer.RemainingOrdered | internal/orchestrator/reviewer_profile.go:54-65 | after k rejections the sorted candidates are the rest of the first sorted list |
| Reviewer.Reject | internal/orchestrator/reviewer_profile.go:54-65 | strips the reviewer role from exactly the rejected profile of the copy |
| Reviewer.Engine.ReviewerProfile | internal/orchestrator/reviewer_profile.go:18-67 | the loop is one walk over one sorted list, a bound profile has no fallback, and the configuration is not modified |
| Idempotency.StepKeepsInv | internal/api/api.go:99-185 | every step of any request, and a crash, keeps the invariant tying records, owners, executions and replies |
| Idempotency.AtMostOnce | internal/api/api.go:149-180 | the backend executes at most once for a scope and key |
| Idempotency.RepliesAgree | internal/store/sqlite/idempotency.go:92-161 | all completed replies for a slot answer the same request with the response of its one execution |
| Idempotency.RecordedAnswer | internal/store/sqlite/idempotency.go:37-89 | a request whose slot has a record gets the recorded response if it is the recorded one and completed, a conflict if it is another, and changes nothing |
| Idempotency.CompletedIsReplayed | internal/api/api.go:124-167 | over every run: once a request is completed, every later one that the store answers gets the recorded response, or a conflict if it is another request; none executes |
| Idempotency.OwnerCompletes | internal/store/sqlite/idempotency.go:92-161 | the owner's response is recorded and sent exactly if its status is valid and the store confirms it |
| Idempotency.CrashOrphans | internal/api/api.go:164-180 | a crash leaves every record in progress without an owner |
| Idempotency.LostBeginOrphans | internal/store/sqlite/idempotency.go:37-89 | a reservation that commits without its reply arriving leaves a record in progress without an owner |
| Idempotency.NeverReexecuted | internal/store/sqlite/idempotency.go:37-89 | a record without an owner is never executed again and never reported as completed |
| WriteHandler.Handler.Replay | internal/api/api.go:124-148 | an unresolved request reserves and executes nothing and gets exactly the recorded response, a conflict, or the resolution error |
| WriteHandler.Handler.BeginRequest | internal/store/sqlite/idempotency.go:37-89 | a request owns the record exactly if there was none and the reply arrived; otherwise its answer is exactly conflict, replay, busy or error, by the record found |
| WriteHandler.Handler.ServeWrite | internal/api/api.go:99-185 | the request takes the steps of the protocol in order; a retry of a completed request gets the recorded response whoever runs in between; the owner gets its own response exactly if that was recorded; undisturbed, a new resolved request owns its record |
| Idempotency.OnlyResolvedReserve | internal/api/api.go:124-148 | a record only comes from a request whose resource resolved |

## Left out

- Git, SQLite, sockets, file locks and fsync themselves: only atomic rename, link without overwrite, compare-and-swap and transactions are kept, as single steps.
- Parsing of Git commit objects: a commit is tree, parent, message and time, and only its message is parsed; merge commits do not occur.
- Promotion covers one request and its ref at a time; other requests appear as foreign ref moves. The migration branch for requests that do not use the current directory is only the rejection at the entry.
- The manifest and bundle hash fields of a sealed bundle, and the identity, commit and exclusion checks around capture and replay, including the second snapshot at the end of `Replay`.
- Unicode normalisation and case folding themselves: `norm` and `fold` are parameters. `Normalisation` states what is used of NFC and is not derived from the Unicode tables.
- Reflection over Go values before canonical encoding (`validateSource`, struct tags): the value tree is the starting point.
- The memo table of `matchSegments`, which changes its cost and not its result.
- Plan.CompilePlan: titles, validators and roles are one predicate of an item; ids, order and content of the produced work items are left out.
- Plan.UnorderedItemsAreIsolated: has a guard that is sufficient and not necessary for a pair of items; `Plan.IsolatedExactly` has the exact one.
- In the shutdown a step is a critical section or the return of a blocking call, and a blocked call is one that gives up waiting in `Daemon`. The listener, the bounded wait inside `httpServer.Shutdown`, early failures of `app.Serve` before serving, and the work a handler or a Goal run does are not modelled; `AwaitingEngine` stands for a handler that waits for the execution loop.
- Report rendering, the completion decision, and the checks of the Goal transaction other than that a Goal completes once: they are the parameter `verdict`. Directory permissions are not modelled.
- Report.Disk: foreign writes are modelled between publications and to temporary names only; a file changed between its verification and its rename, or a changed final file, is not.
- Log events: content is an opaque string, redaction before delivery and timestamps are left out. The status markers of a stream only show as the error text of the record.
- The write deadline and heartbeat of the stream are nondeterministic choices; frame encoding as JSON is left out.
- StderrLog.Log.Collect: assumes the total stays within the limit, because the chunk that exceeds it is dropped whole and the result then depends on the chunks; `Write` states what happens beyond it.
- DiagnosticLog.Log.Collect: assumes the total stays within the limit, for the same reason. Failing writes to the diagnostic file are not modelled.
- Reviewer.Engine.ReviewerProfile: assumes unique profile ids, as configuration validation guarantees (internal/config/config.go:325-338); a profile is probed at most once, so its probe is a function.
- Idempotency covers the path without atomic Goal acceptance; header and body validation before the first store access are left out, and so is the text of error replies.
- Command line, human rendering, daemon start-up, doctor, benchmarks and exporter: plumbing and presentation.
- Leases, clocks and time limits: no statement here depends on them.
- GitCommit.ReadTrailers: the tree and parent header lines are not parsed, since a commit is a record with those fields.
- PatchMethods.Capture: the identity checks of the checkout, reading the files and the two hash fields of sealing are not part of it; it starts from the two file maps, whose paths are in normal form.
- CanonicalWriter.Hash: starts from the decoded value tree; the validation of source text before it is left out.
- Finalize.Finalizer.Transact: the checks of the transaction are one verdict.
- LogDelivery.CopyStream: JSON framing and the client's limit of 32 MiB per frame, which can end a stream, are left out.
- StderrLog.Log.Stop: writing the status marker always succeeds.
- StderrLog.Log.Publish: a record that was linked before the sync of its directory failed counts as not stored.
- DiagnosticLog.Log.Write: write errors that the source remembers are left out.
- DiagnosticLog.Log.Close: sync and close errors are left out.
- ReportManager.Manager.WriteTemp: after a failure it is not promised that no temporary file remains, because removing it may fail too.
- Daemon.System.DrainExecutions: the call of `cancelAll` between the flag and the lock is left out; a run may end at any moment anyway.
- Daemon.System.ServeRequest: the work of a handler is a probe, a stop request or nothing; waiting for the execution loop appears in `Shutdown` only.
- Patch.ReplayExact: paths are in normal form, so the raw spelling that a rebuilt entry keeps is not modelled; of the tree it is taken that no path is a directory of another, as in every Git tree.
- PatchMethods.SnapshotTree: special files, exclusions and changes to the checkout while it is read are left out.
