# Verified models of the research workstation's hard cores

These Dafny modules model five parts of the repository and prove what each is for. All theorems are
for every input, every order of events or every run; nothing here was executed.

1. **Delegation parentage** (`Delegation*.dfy`). The Attempt worker is told spawn edges, parent
   assertions, final messages and the root in any order, parks what it cannot place and resolves to a
   fixpoint. `DelegationSpec` says what a history means as a *set* of events; `DelegationView` holds the
   tracker's invariant and the lemmas of each update; `DelegationTracker` is the tracker itself, a class
   that updates its maps, sets and lists in place. The verdict "no failure" is shown to be independent of
   the order of events. The failure *code* is not: the first one wins.
2. **Credential scrubbing** (`Scrubber*.dfy`). An online automaton with bounded lookahead (modes, tables
   and boundaries as in the source) refines an offline scanner that sees the whole text. `ScrubberSpec`
   is the automaton and the scanner, `ScrubberStability` shows that decisions do not depend on text still
   to come, `ScrubberPrivate` treats private-key blocks, `Scrubber` is the sanitizer class,
   `ScrubberValues` shows that what is suppressed of a value does not show, `ScrubberFields` says on the
   text alone what is published of each field, header and token, and `ScrubberTwice` is about
   scrubbing a scrubbed text. The bearer
   alphabet is that of b64token in section 2.1 of RFC 6750 and the key blocks use the textual boundaries
   of section 2 of RFC 7468. The offline scanner has the same 16-space bearer limit as the lookahead.
3. **Exact polynomial checks** (`Polynomials`, `Sturm`, `Hypergeometric`, `RecurrenceAlgebra`,
   `JacobiCharacteristic`, `Counterfamily`). Division, Sturm chains, two coefficient recurrences that
   should agree, their finite-free convolution, and a parametric counterexample, over `real`, whose
   rationals are the source's fractions. The two recurrences are shown to agree wherever the code divides
   by no zero, by a closed form for every minor.
4. **Crash-safe Attempts** (`AttemptLog`, `AttemptSafety`, `AttemptConflicts`, `AttemptJournal`,
   `AttemptAdapter`, `CodexProvider`, `WriteOnce`). The journal, the adapter and the provider are classes; a crash is an
   early return between any two durable steps, a restart is the next call, and the detached workers take
   any number of steps between any two reads. The journal keeps a ghost log of durable facts and provider
   calls in the order they happened. `AttemptLog` says which steps an operation may take from what it has
   just read, `AttemptSafety` proves what holds of every such log, and the classes are proved to write no
   other. One adapter and provider owner acts at a time. A journal conflict is an ordinary outcome that
   changes nothing: observation keys hash the observation but not the resulting state, so a repeated
   observation that has come to mean something else does raise. `AttemptConflicts` gives such a history and
   says exactly when it happens; the adapter raises a conflict only then, and then never returns normally. Direct
   ingress of an observation can move a settled Attempt; the lemmas about settled ancestors exclude it by
   name and all others include it.
5. **Goal boundary and two merges** (`GoalRegistry`, `GoalBoundary`, `Transcript`, `RhContent`). One root
   runtime with a serialised message queue: descendants, agent paths, tool grants, tool calls and
   admission, with grants and stop requests arriving from outside while a call waits. Then transcript
   windows and the joining of content ranges and receipts.

`Wrappers` holds the optional value and the open choice the modules share, `Text` the string helpers.

Three expectations are false as they stand. The tests of the content merge expect a contained retry to leave the view
alone; decoding the held bytes drops a leading byte order mark, so a retry whose bytes begin with the mark
raises instead. `RhContent.MarkedRetryFails` gives the stream and `RhContent.ContainedRetry` the exact
condition.

The comment on the receipt merge promises the first receipt on duplicates. When the list already held repeats
a receipt, the code keeps the last value. `RhContent.FirstReceiptLost` gives the list; the promise is kept
exactly when, for every key, the first and the last value held are equal (`RhContent.FirstsKept` for the held
list, `RhContent.MergePreservesFirsts` for the whole merge).

A reconciled Attempt is expected to take the state of the provider's answer. It does exactly when that answer
is not recorded yet; a known answer is a repetition that stores nothing, and after a direct ingress has moved
the Attempt on it stays where it is. `AttemptConflicts.SuccessSeenAgainIgnored` gives the history and the
contract of `AttemptAdapter.ResearchAttemptAdapter.Reconcile` both sides of the condition.

Iteration over dictionaries and sets is in arbitrary order, which covers the source's order. Crashes,
operating-system refusals, verification failures and the choices of the workers are nondeterministic.

`dafny verify dfyconfig.toml` checks the whole project.

## Model

| member | source | states |
|---|---|---|
| `DelegationTracker.Judge` | packages/research-attempt-adapter/research_attempt_adapter/codex_attempt_worker.py:103-326 | For every list of root registrations, spawn edges, assertions, finals and faults, in any order and with duplicates: the verdict after `finalize_parentage` is clean if and only if the *set* of events is one well formed delegation tree within the depth limit with every assertion and final accounted for; then the resolved map is exactly the edges and the delivered finals are exactly the submitted ones, each once |
| `DelegationTracker.Facts.FinalizeParentage` | packages/research-attempt-adapter/research_attempt_adapter/codex_attempt_worker.py:303-326 | The failure is absent afterwards iff the events told so far are good; a history that was not doomed but is incomplete gets `unresolved`; on success all three pending stores are empty and every final is delivered |
| `DelegationTracker.Facts.RegisterRootThread` | packages/research-attempt-adapter/research_attempt_adapter/codex_attempt_worker.py:103-130 | Keeps every tracker invariant for the events told plus this root; a first failure stays, and is malformed for no identity and a conflict for a second root or one that is held as a child |
| `DelegationTracker.Facts.RegisterDescendant` | packages/research-attempt-adapter/research_attempt_adapter/codex_attempt_worker.py:204-231 | The same for a spawn edge; a first failure is the one the code's branch order gives |
| `DelegationTracker.Facts.AssertDirectParent` | packages/research-attempt-adapter/research_attempt_adapter/codex_attempt_worker.py:233-259 | The same for a parent assertion |
| `DelegationTracker.Facts.QueueOrRecordFinal` | packages/research-attempt-adapter/research_attempt_adapter/codex_attempt_worker.py:272-301 | The same for a final message, delivered at once when its thread is placed and held otherwise |
| `DelegationTracker.Facts.ResolvePendingParentage` | packages/research-attempt-adapter/research_attempt_adapter/codex_attempt_worker.py:178-202 | Reaches a fixpoint in which no held child has a placed parent; from a fixpoint it changes nothing; its progress loop terminates |
| `DelegationTracker.Facts.ThreadDepth` | packages/research-attempt-adapter/research_attempt_adapter/codex_attempt_worker.py:79-97 | The parent walk terminates; it has no depth exactly for an unplaced thread and otherwise gives the distance to the root, so its cycle branch is never taken |
| `DelegationTracker.Facts.PendingParentageCycles` | packages/research-attempt-adapter/research_attempt_adapter/codex_attempt_worker.py:132-148 | True exactly when the walk over resolved and pending edges never ends |
| `DelegationTracker.ObserveCollaborationItem` | packages/research-attempt-adapter/research_attempt_adapter/codex_attempt_worker.py:328-370 | Whatever the tracker knows: another tool tells it nothing; a missing or different sender is a conflict; receivers that are no list of distinct identities are malformed, and so is a spawn with any number of them but one. A spawn tells exactly that the one receiver is a child of the sender, and where the sender is a lone root it ends placed there without a failure; `sendInput` asserts the sender as parent of every receiver, and `wait` also hands over the final text of every receiver that reports one |
| `DelegationView.FirstChildPlaced` | packages/research-attempt-adapter/research_attempt_adapter/codex_attempt_worker.py:178-231 | A tracker at its fixpoint that has seen a root and one child of it has no failure and exactly that edge placed |
| `DelegationView.CleanIsGood` | packages/research-attempt-adapter/research_attempt_adapter/codex_attempt_worker.py:303-326 | With nothing left over, a tracker without failure has seen a good history |
| `DelegationView.LeftoversAreBad` | packages/research-attempt-adapter/research_attempt_adapter/codex_attempt_worker.py:315-326 | With anything left over at the fixpoint the history is not good |
| `DelegationView.CleanDelivers` | packages/research-attempt-adapter/research_attempt_adapter/codex_attempt_worker.py:157-176 | The resolved map equals the edge set and the delivered finals are exactly the submitted (child, parent, text) triples, each once |
| `DelegationView.PendingUnreachable` | packages/research-attempt-adapter/research_attempt_adapter/codex_attempt_worker.py:178-202 | At the fixpoint no held child is reachable from the root over any number of edges |
| `DelegationView.GoodIsTree` | packages/research-attempt-adapter/research_attempt_adapter/codex_attempt_worker.py:103-231 | A good history is a tree hanging from its root with depths up to the limit, acyclic, with the root never a child |
| `DelegationView.EdgeKeeps` | packages/research-attempt-adapter/research_attempt_adapter/codex_attempt_worker.py:222-231 | Holding an edge, or refusing it because it closes a cycle, keeps resolved plus pending edges acyclic and the verdict right |
| `DelegationView.RootKeeps` | packages/research-attempt-adapter/research_attempt_adapter/codex_attempt_worker.py:113-129 | Installing the root keeps the verdict right: held finals of the root are delivered or are conflicts |
| `DelegationView.PlacementKeeps` | packages/research-attempt-adapter/research_attempt_adapter/codex_attempt_worker.py:195-202 | Placing one child under a placed parent keeps the tree, the assertions, the finals and the verdict |
| `DelegationView.AssertionKeeps` | packages/research-attempt-adapter/research_attempt_adapter/codex_attempt_worker.py:233-259 | Recording one assertion keeps the verdict and the fixpoint |
| `DelegationView.FinalEventKeeps` | packages/research-attempt-adapter/research_attempt_adapter/codex_attempt_worker.py:272-301 | Recording one final keeps the verdict and the fixpoint |
| `DelegationSpec.GoodEscapes` | packages/research-attempt-adapter/research_attempt_adapter/codex_attempt_worker.py:132-148 | Every parent walk of a good history ends, over any part of its edges |
| `DelegationSpec.GoodDepth` | packages/research-attempt-adapter/research_attempt_adapter/codex_attempt_worker.py:192-199 | In a good history the walked depth of a thread is at most any number of edges in which it reaches the root |
| `DelegationSpec.DoomedByCycle` | packages/research-attempt-adapter/research_attempt_adapter/codex_attempt_worker.py:227-230 | Once an endless walk has been seen no further events make the history good |
| `DelegationSpec.DoomedByDepth` | packages/research-attempt-adapter/research_attempt_adapter/codex_attempt_worker.py:197-199 | Once a child hangs below the depth limit no further events make the history good |
| `DelegationSpec.DoomedByClash` | packages/research-attempt-adapter/research_attempt_adapter/codex_attempt_worker.py:214-225 | Two events that contradict each other doom every extension of the history |
| `DelegationSpec.DoomedByBroken` | packages/research-attempt-adapter/research_attempt_adapter/codex_attempt_worker.py:205-213 | A malformed event, a root that is a child, or a child that is its own parent dooms every extension |
| `Scrubber.ScrubChunks` | packages/codex-remote-core/src/observation-content.ts:116-136 | However a text is cut into chunks, the published text, the redaction count and the reasons are those of the offline scanner with the whole text in view |
| `Scrubber.ScrubObservationText` | packages/codex-remote-core/src/observation-content.ts:307-317 | One push and a finish give the offline scanner's text, count and distinct reasons |
| `Scrubber.ObservationTextSanitizer.Push` | packages/codex-remote-core/src/observation-content.ts:116-126 | After every push at most 38 characters are retained, and everything published so far is a prefix of what the offline scanner decides whatever follows; after finishing, a push is refused |
| `Scrubber.ObservationTextSanitizer.Finish` | packages/codex-remote-core/src/observation-content.ts:128-136 | What was published in all is the offline scan of everything fed |
| `Scrubber.ObservationTextSanitizer.Drain` | packages/codex-remote-core/src/observation-content.ts:155-240 | Terminates, lexicographically in the pending length and the mode's rank, and stops only when the automaton waits |
| `Scrubber.ObservationTextSanitizer.DrainStep` | packages/codex-remote-core/src/observation-content.ts:156-239 | One pass of the loop is one step of the automaton on the retained text |
| `Scrubber.ObservationTextSanitizer.CharacterStep` | packages/codex-remote-core/src/observation-content.ts:175-238 | The seven character modes consume, publish, redact and change mode as specified |
| `Scrubber.ObservationTextSanitizer.StartRedaction` | packages/codex-remote-core/src/observation-content.ts:246-288 | A redaction starts exactly when one of the tables fits at the boundary, and the first that fits is taken |
| `Scrubber.TracksStep` | packages/codex-remote-core/src/observation-content.ts:155-240 | One online step keeps the online state in agreement with the offline scan of every possible continuation |
| `Scrubber.DistinctReasons` | packages/codex-remote-core/src/observation-content.ts:142-146 | Reported reasons are those redacted, each once |
| `Scrubber.DistinctPlus` | packages/codex-remote-core/src/observation-content.ts:310-315 | Joining the reasons of two results and removing repetitions gives the reasons of the whole |
| `ScrubberStability.StepStable` | packages/codex-remote-core/src/observation-content.ts:155-240 | A step taken online is the step the offline scanner takes there whatever text follows |
| `ScrubberStability.FinalStepAgrees` | packages/codex-remote-core/src/observation-content.ts:128-136 | At the end of the text the online and offline steps agree |
| `ScrubberStability.StartStable` | packages/codex-remote-core/src/observation-content.ts:246-288 | A start recognised online is recognised offline, with the same length and mode, for every continuation |
| `ScrubberStability.StartSeen` | packages/codex-remote-core/src/observation-content.ts:246-304 | A start the offline scanner takes is either taken online or still awaited by the lookahead, so none is missed |
| `ScrubberStability.MarkerStable` | packages/codex-remote-core/src/observation-content.ts:159-167 | An existing redaction marker is recognised online exactly as offline |
| `ScrubberStability.BearerCap` | packages/codex-remote-core/src/observation-content.ts:300-303 | On what is ever retained, the 16-space cap of the lookahead decides bearer values as the unbounded pattern does |
| `ScrubberStability.WaitBound` | packages/codex-remote-core/src/observation-content.ts:96-114 | The automaton waits only on at most 38 characters |
| `ScrubberSpec.StepProgress` | packages/codex-remote-core/src/observation-content.ts:155-240 | Every step takes characters or lowers the mode's rank, and a final step never waits |
| `ScrubberText.BeginRoute` | packages/codex-remote-core/src/observation-content.ts:247-254 | A private-key header fixes which table entry can fit |
| `ScrubberText.ProviderRoute` | packages/codex-remote-core/src/observation-content.ts:256-265 | A provider prefix fixes which table entry can fit |
| `ScrubberText.BearerRoute` | packages/codex-remote-core/src/observation-content.ts:269-276 | A bearer prefix excludes every other entry |
| `ScrubberText.FieldRoute` | packages/codex-remote-core/src/observation-content.ts:277-286 | A field name excludes every other entry |
| `ScrubberText.MarkerUnique` | packages/codex-remote-core/src/observation-content.ts:82-84 | At most one redaction marker begins a text |
| `ScrubberPrivate.BorderStep` | packages/codex-remote-core/src/observation-content.ts:232-238 | The retained suffix is always the longest suffix of the consumed text that is a proper prefix of the END marker, or the marker is complete |
| `ScrubberPrivate.PrivateBlockEnds` | packages/codex-remote-core/src/observation-content.ts:232-238 | Suppression ends exactly at the first occurrence of the END marker |
| `ScrubberPrivate.PrivateBlockOpen` | packages/codex-remote-core/src/observation-content.ts:232-238 | A block without its END marker is suppressed to the end of the text |
| `ScrubberPrivate.PrivateBlockHides` | packages/codex-remote-core/src/observation-content.ts:232-254 | From inside a block on: what follows is scrubbed alike whatever the block holds before its first END marker |
| `ScrubberPrivate.PrivateKeyRedacted` | packages/codex-remote-core/src/observation-content.ts:232-254 | Such a text publishes what its scan published before the header, one marker, and what the text after the block gives |
| `ScrubberPrivate.PrivateKeyHidden` | packages/codex-remote-core/src/observation-content.ts:155-254 | Two whole texts that differ only between a header and its first END marker are scrubbed alike, provided the scan of one of them stands in ordinary text where the header begins |
| `ScrubberPrivate.HeaderSettles` | packages/codex-remote-core/src/observation-content.ts:246-304 | Every decision before a private-key header is the same whatever follows the header |
| `ScrubberValues.ValueHidden` | packages/codex-remote-core/src/observation-content.ts:175-231 | Where the sanitizer stands in or before a quoted, scalar, header or token value with nothing retained, two texts that go on with different secrets and then alike are scrubbed alike. A secret may hold anything but a terminator that no escape hides, where an escape hides the next character unless it is hidden itself; both secrets hide what follows them or neither does |
| `ScrubberValues.ValueRedacted` | packages/codex-remote-core/src/observation-content.ts:175-231 | A value publishes at most the one marker that announces it, up to its first terminator that is not hidden; whether it hides the next character is told by its text alone |
| `ScrubberValues.EndExists` | packages/codex-remote-core/src/observation-content.ts:199-228 | Every text has exactly one end of a value: its first terminator not hidden by an escape, or the end of the text |
| `ScrubberValues.AfterValue` | packages/codex-remote-core/src/observation-content.ts:155-288 | What follows a value is scrubbed alike whatever the value's last character was, hidden or not |
| `ScrubberFields.AssignmentRedacted` | packages/codex-remote-core/src/observation-content.ts:175-228 | `name = "secret"` with any blanks, either separator, either quote and any escapes: the text up to the quote, one marker and the closing quote are published, and ordinary text goes on behind it. A backslash hides the next character whatever it is, so the value ends exactly at the first quote not hidden |
| `ScrubberFields.OpenAssignmentRedacted` | packages/codex-remote-core/src/observation-content.ts:199-207 | A quoted value that is never closed publishes one marker and nothing more |
| `ScrubberFields.AssignmentHidden` | packages/codex-remote-core/src/observation-content.ts:155-228 | Wherever the sanitizer stands in ordinary text, two texts that differ only inside a quoted value are scrubbed alike |
| `ScrubberFields.BareAssignmentRedacted` | packages/codex-remote-core/src/observation-content.ts:175-228 | `name = secret` without quotes: one marker, up to the first terminator that no backslash hides |
| `ScrubberFields.HeaderRedacted` | packages/codex-remote-core/src/observation-content.ts:189-218 | An authorization or cookie header outside quotes is one marker to the end of its line, under its own reason |
| `ScrubberFields.QuotedHeaderRedacted` | packages/codex-remote-core/src/observation-content.ts:189-218 | A header directly inside quotes is one marker up to the closing quote; inside double quotes a backslash or a backtick hides the next character, inside single quotes nothing does, and line ends do not end it |
| `ScrubberFields.KeyRedacted` | packages/codex-remote-core/src/observation-content.ts:175-207 | `"name": "secret"`: behind a quoted name any white space may stand before the separator, and before the value after a colon; headers are values like any other there |
| `ScrubberFields.RedactionKept` | packages/codex-remote-core/src/observation-content.ts:159-167 | A quoted value that is an earlier marker is published as it is and not counted again |
| `ScrubberFields.ProviderRedacted` | packages/codex-remote-core/src/observation-content.ts:256-265 | A provider prefix with at least its number of characters becomes one marker together with all that follow in its alphabet |
| `ScrubberFields.BearerRedacted` | packages/codex-remote-core/src/observation-content.ts:269-276 | A bearer word and up to 16 blanks stay, and its token of at least eight characters becomes one marker |
| `ScrubberFields.PlainPublished` | packages/codex-remote-core/src/observation-content.ts:168-175 | A text in which no private-key header begins anywhere, and no provider prefix, bearer word or field name at a boundary, is published unchanged with no redaction |
| `ScrubberFields.FieldReasons` | packages/codex-remote-core/src/observation-content.ts:65-69 | Exactly the authorization headers and the cookie headers have reasons of their own |
| `ScrubberTwice.SecondScrubRedacts` | packages/codex-remote-core/src/observation-content.ts:242-288 | For every 20-character key of the AWS form directly followed by a field: the first scrub publishes the field, whose name is inside a word, and the second redacts its value, as the marker ends the word |
| `Polynomials.TrimLoop` | examples/finite-free-localization/check.py:19-23 | Drops exactly the zero leading coefficients, keeping one coefficient |
| `Polynomials.EvalAdd` | examples/finite-free-localization/check.py:26-29 | The sum evaluates to the sum at every point |
| `Polynomials.EvalScale` | examples/finite-free-localization/check.py:32-33 | The multiple evaluates to the multiple at every point |
| `Polynomials.At` | examples/finite-free-localization/check.py:36-40 | Evaluation from the leading coefficient down is the polynomial's value |
| `Polynomials.DerivativeIsSlope` | examples/finite-free-localization/check.py:43-44 | The coefficient rule is the difference quotient at step zero |
| `Polynomials.SlopeIsDifference` | examples/finite-free-localization/check.py:43-44 | That quotient times the step is the difference of values, for every polynomial, point and step |
| `Polynomials.Remainder` | examples/finite-free-localization/check.py:47-55 | Refused exactly for the zero divisor, or when there is something to divide and the divisor's leading entry is zero or missing; otherwise terminates, with `p = k q + r` at every point and a remainder that is zero or of lower degree |
| `Sturm.SturmChain` | examples/finite-free-localization/check.py:58-68 | For every list: refused exactly when it has one zero too many at its end; otherwise terminates by strictly falling length, consecutive members satisfy `s[i-1] = k s[i] - c s[i+1]` with `c > 0`, the last divides the one before, and for a trimmed polynomial all are trimmed, nonzero and of strictly falling degree |
| `Sturm.LastDividesAll` | examples/finite-free-localization/check.py:58-68 | The last member divides every member |
| `Sturm.NoCommonZero` | examples/finite-free-localization/check.py:58-68 | Where the polynomial is not zero no two neighbours vanish together |
| `Sturm.OppositeNeighbours` | examples/finite-free-localization/check.py:58-68 | A zero interior member has neighbours of opposite sign |
| `Sturm.PerturbationKeepsChanges` | examples/finite-free-localization/check.py:77-80 | Dropping isolated zeros from a list counts as many sign changes as moving each zero off zero either way |
| `Sturm.ZerosCountOnce` | examples/finite-free-localization/check.py:77-80 | Hence `variations` counts exactly one change at each zero of a chain |
| `Sturm.RootCount` | examples/finite-free-localization/check.py:71-82 | Refused exactly for an empty interval, an endpoint that is a root, or a list whose chain is refused; otherwise the difference of the sign changes of one Sturm chain |
| `Hypergeometric.JacobiCoefficients` | examples/finite-free-localization/check.py:95-102 | The loop computes the Jacobi coefficient list |
| `Hypergeometric.ModelCoefficients` | examples/finite-free-localization/check.py:85-92 | The loop computes the 3F2 coefficient list |
| `Hypergeometric.Absorption` | examples/finite-free-localization/check.py:173-174 | The absorption identity of binomial coefficients, from Pascal's rule |
| `Hypergeometric.FiniteFreeConvolution` | examples/finite-free-localization/check.py:170-175 | For every degree and every column, whenever no divisor is zero: the direct recurrence is the finite-free convolution of the two Jacobi lists |
| `Hypergeometric.Convolution` | examples/finite-free-localization/check.py:173-175 | The list the source builds for the comparison is the list of the direct recurrence |
| `JacobiCharacteristic.JacobiCharacteristic` | examples/finite-free-localization/check.py:105-120 | For every degree and parameters for which the code divides by no zero: the normalised three-term determinant recurrence gives exactly the Jacobi coefficient list |
| `JacobiCharacteristic.Recurrence` | examples/finite-free-localization/check.py:110-119 | The closed form of every minor satisfies the three-term recurrence in every column |
| `JacobiCharacteristic.CoefUp` | examples/finite-free-localization/check.py:110-119 | How a coefficient of the closed form changes from one minor to the next |
| `JacobiCharacteristic.NextMinor` | examples/finite-free-localization/check.py:113-119 | One pass of the loop takes minors `k - 1` and `k` to minor `k + 1`, trimming nothing |
| `JacobiCharacteristic.Normalised` | examples/finite-free-localization/check.py:120-120 | Divided by its constant term the last minor has the Jacobi coefficients |
| `Counterfamily.Counterexample` | examples/finite-free-localization/check.py:129-156 | For every positive constant: the witness meets the coarse conditions, breaks `B / D <= 4`, has `sqrt(B d) = 2 t`, is positive at zero and negative at `B - 2 c t`, and its Sturm count below that point is exactly one |
| `Counterfamily.Witness` | examples/finite-free-localization/check.py:136-150 | The same for the polynomial itself, with its sign pattern |
| `Counterfamily.Coefficients` | examples/finite-free-localization/check.py:140-143 | The witness polynomial is `[1, -2 / B, q / B^2]` |
| `Counterfamily.QuadraticBelowLimit` | examples/finite-free-localization/check.py:142-143 | `0 < q < q0 < 1` for every admissible pair of parameters |
| `Counterfamily.QuadraticCount` | examples/finite-free-localization/check.py:151-152 | A quadratic with two roots loses exactly one sign change between zero and a point between its roots |
| `AttemptAdapter.ResearchAttemptAdapter.Run` | packages/research-attempt-adapter/research_attempt_adapter/adapter.py:161-560 | Any operations in any order, crashing between any two steps, with the workers running in between: the history stays one the journal can hold, it is safe, at most one worker was ever started for an Attempt, every exit verdict of the provider in the journal is still true, every SUCCEEDED, FAILED, CANCELLED or FORCE_STOPPED that the provider's answer gave stands on a completion record of exactly that outcome, and no request, launch or control record is on disk without the call for it in the history |
| `AttemptAdapter.LegalIsSafe` | packages/research-attempt-adapter/research_attempt_adapter/adapter.py:283-494 | Every such history: launch, cancel and force-stop each sent at most once; every launch directly after its durable intent and after no revocation of its fence; certainty NONE only without any provider call; lineages acyclic |
| `AttemptAdapter.VerdictsStay` | packages/research-attempt-adapter/research_attempt_adapter/codex_exec_provider.py:423-433 | No passage of time makes a journaled exit verdict or settled state false of the records |
| `AttemptAdapter.SuccessIsRecorded` | packages/research-attempt-adapter/research_attempt_adapter/adapter.py:599-670 | An Attempt that the journal calls SUCCEEDED, with no observation handed in directly, has a completion record that reports success |
| `AttemptAdapter.ResearchAttemptAdapter.NothingLaunched` | packages/research-attempt-adapter/research_attempt_adapter/adapter.py:302-321 | Before the only launch call of an Attempt the provider has neither a launch nor a completion record of it |
| `AttemptSafety.CallFollowsIntent` | packages/research-attempt-adapter/research_attempt_adapter/adapter.py:302-321 | A launch, cancel or force-stop call comes directly after the durable event that announces it |
| `AttemptSafety.CallsOnce` | packages/research-attempt-adapter/research_attempt_adapter/adapter.py:353-368 | Each of these calls is made at most once for an Attempt, over whole histories |
| `AttemptSafety.NoLaunchAfterRevocation` | packages/research-attempt-adapter/research_attempt_adapter/adapter.py:289-297 | No launch follows a revocation of the Attempt's fence |
| `AttemptSafety.NoEffectNoCall` | packages/research-attempt-adapter/research_attempt_adapter/adapter.py:520-530 | A result reports no effect only if no provider method was ever called for the Attempt |
| `AttemptSafety.StoredCertainty` | packages/research-attempt-adapter/research_attempt_adapter/adapter.py:566-670 | What each kind of stored fact says about effects: none where nothing can have been sent, a known one for an answer of the provider or a control request, an unknown one for a launch request, a lost effect, a mismatch and an answer that knows nothing |
| `AttemptSafety.AbsorbingForever` | packages/research-attempt-adapter/research_attempt_adapter/adapter.py:599-625 | No operation, direct ingress included, takes an Attempt out of UNKNOWN or FENCED |
| `AttemptSafety.AbsorbingNeverRetried` | packages/research-attempt-adapter/research_attempt_adapter/adapter.py:184-195 | An Attempt in those states is never the predecessor of a later one |
| `AttemptSafety.RefsAgree` | packages/research-attempt-adapter/research_attempt_adapter/adapter.py:606-622 | All trusted events of an Attempt agree on one provider reference |
| `AttemptSafety.LineageAcyclic` | packages/research-attempt-adapter/research_attempt_adapter/journal.py:200-289 | No Attempt is its own proper ancestor |
| `AttemptSafety.AncestorsSettled` | packages/research-attempt-adapter/research_attempt_adapter/adapter.py:184-195 | Without direct ingress every proper ancestor on a retry lineage stays FAILED, CANCELLED or FORCE_STOPPED |
| `AttemptSafety.LineageSession` | packages/research-attempt-adapter/research_attempt_adapter/adapter.py:196-203 | A whole lineage stays under one Session and one Session digest |
| `AttemptSafety.KeysUnique` | packages/research-attempt-adapter/research_attempt_adapter/journal.py:340-376 | The operation key of a stored event is never stored again |
| `AttemptConflicts.EventKeysUnique` | packages/research-attempt-adapter/research_attempt_adapter/journal.py:324-376 | No two stored events have the same operation key, creations included |
| `AttemptConflicts.ObservationClashes` | packages/research-attempt-adapter/research_attempt_adapter/adapter.py:599-670 | An observation raises a journal conflict exactly when it was recorded under the same origin from a state in which it meant another state or another evidence mark |
| `AttemptConflicts.UnknownVerdictClashes` | packages/research-attempt-adapter/research_attempt_adapter/adapter.py:624-670 | In particular, a verdict that made an Attempt UNKNOWN conflicts when it is seen again |
| `AttemptConflicts.LostClashes` | packages/research-attempt-adapter/research_attempt_adapter/adapter.py:582-597 | A lost effect conflicts exactly with a recorded one of the same key text but another Attempt or provider reference |
| `AttemptConflicts.MismatchNeverClashes` | packages/research-attempt-adapter/research_attempt_adapter/adapter.py:606-622 | An identity mismatch never conflicts |
| `AttemptConflicts.RunningSeenAgainClashes` | packages/research-attempt-adapter/research_attempt_adapter/adapter.py:599-670 | Reconciliation sees a running worker, a cancel is requested, reconciliation sees the same again: a legal history in which the second observation conflicts |
| `AttemptConflicts.SuccessSeenAgainIgnored` | packages/research-attempt-adapter/research_attempt_adapter/adapter.py:599-670 | Reconciliation sees success, a running observation is handed in, reconciliation sees the same success again: a legal history in which the known fact is not stored again and the Attempt stays RUNNING |
| `AttemptSafety.PreparedIsFresh` | packages/research-attempt-adapter/research_attempt_adapter/journal.py:280-288 | While an Attempt is prepared, its creation is all the journal says about it |
| `AttemptJournal.AttemptJournal.AppendEvent` | packages/research-attempt-adapter/research_attempt_adapter/journal.py:324-413 | Stores a fresh key; an identical repetition is a no-op, an unknown Attempt an error, and a conflict is raised exactly when another fact is stored under the key, all leaving the stream unchanged |
| `AttemptJournal.AttemptJournal.CreateAttempt` | packages/research-attempt-adapter/research_attempt_adapter/journal.py:200-289 | Row and first event together, a no-op when identical, a conflict when a Session or an Attempt is reused with other content |
| `AttemptJournal.AttemptJournal.GetAttempt` | packages/research-attempt-adapter/research_attempt_adapter/journal.py:430-465 | State of the last trusted event and the last provider reference a trusted event carries, none exactly when no trusted event carries one |
| `AttemptJournal.AttemptJournal.InstallFence` | packages/research-attempt-adapter/research_attempt_adapter/journal.py:145-164 | A fence identity is stored once; reuse with other content is refused |
| `AttemptJournal.AttemptJournal.RevokeFence` | packages/research-attempt-adapter/research_attempt_adapter/journal.py:185-198 | A fence is revoked once and stays revoked |
| `AttemptAdapter.ResearchAttemptAdapter.Retry` | packages/research-attempt-adapter/research_attempt_adapter/adapter.py:177-213 | Creates only after FAILED, CANCELLED or FORCE_STOPPED, under the exact Session and digest and an active fence of the intent's provider and binding, with another operational part or readiness |
| `AttemptAdapter.ResearchAttemptAdapter.Prepare` | packages/research-attempt-adapter/research_attempt_adapter/adapter.py:164-175 | Creates only without a predecessor, under the intent's own Session and digest and an active fence of the intent's provider and binding |
| `AttemptAdapter.ResearchAttemptAdapter.Dispatch` | packages/research-attempt-adapter/research_attempt_adapter/adapter.py:283-336 | Launches only a prepared Attempt under an active fence of its provider and binding; otherwise fences it or only reconciles. What returns from a launch is FAILED for a rejection, UNKNOWN for a lost or failed call, and RUNNING for an observation, which is always of the one worker this call has just started; the launch intent and what the outcome means are exactly what is stored |
| `AttemptAdapter.ResearchAttemptAdapter.RequestCancel` | packages/research-attempt-adapter/research_attempt_adapter/adapter.py:338-386 | A prepared Attempt is cancelled without effect, an UNKNOWN one is refused untouched, and an active one gets a durable request, once, with the one provider call after it and exactly what its outcome means |
| `AttemptAdapter.ResearchAttemptAdapter.ForceStop` | packages/research-attempt-adapter/research_attempt_adapter/adapter.py:388-436 | The same for force-stop |
| `AttemptAdapter.ResearchAttemptAdapter.Reconcile` | packages/research-attempt-adapter/research_attempt_adapter/adapter.py:438-450 | Asks the provider exactly for active and UNKNOWN Attempts, leaves settled ones untouched, never launches and never fences. A fresh answer with agreeing identities leaves exactly the state it reports (a running one keeps a requested cancel or force-stop, and an UNKNOWN Attempt stays so), a known one changes nothing, and disagreement or any other outcome leaves UNKNOWN; a journal conflict only if what the answer means clashes with a stored fact, and then nothing is returned or stored. What is reported running was running, and an owned worker that still lives without a completion is never reported as anything else |
| `AttemptAdapter.ResearchAttemptAdapter.Recover` | packages/research-attempt-adapter/research_attempt_adapter/adapter.py:452-458 | A completed recovery has asked the provider about every Attempt of it that was in flight; otherwise it stopped at an Attempt in flight, asked about, whose reconciliation crashed or raised; it never launches, and what is settled keeps its state |
| `AttemptAdapter.ResearchAttemptAdapter.ApplyObservation` | packages/research-attempt-adapter/research_attempt_adapter/adapter.py:599-670 | Writes at most the one event the observation means in the state it finds, and that one if it returns and the fact is new; identities that disagree leave UNKNOWN; a conflict exactly as the journal has it, and then the stream is unchanged |
| `AttemptAdapter.ResearchAttemptAdapter.Store` | packages/research-attempt-adapter/research_attempt_adapter/journal.py:324-413 | One insert with a crash possible on either side of it: a conflict only against another fact under the key, and against one never a normal return |
| `AttemptAdapter.ResearchAttemptAdapter.RevokeFence` | packages/research-attempt-adapter/research_attempt_adapter/adapter.py:467-494 | When it completes, every prepared or active Attempt of the fence is exactly FENCED, the active ones with a durable cancel request that was sent if it was new and its provider is registered, every other of the fence keeps its state, and the fence is inactive; Attempts of other fences keep their state however it ends |
| `AttemptAdapter.ResearchAttemptAdapter.IngestObservation` | packages/research-attempt-adapter/research_attempt_adapter/adapter.py:460-465 | The history is unchanged or longer by exactly the one event the observation means in the state it finds, so no provider is called; the state afterwards is the reported one under the same rules as reconciliation |
| `AttemptAdapter.ResearchAttemptAdapter.VerifyResult` | packages/research-attempt-adapter/research_attempt_adapter/adapter.py:496-530 | Unknown for an UNKNOWN Attempt; otherwise known if any trusted event says so, else unknown if any does, else none, and none only if no provider method was ever called |
| `CodexProvider.CodexExecProvider.Launch` | packages/research-attempt-adapter/research_attempt_adapter/codex_exec_provider.py:238-337 | Starts at most one worker, and none when a launch or a completion is already recorded, in which case the answer is true of the recorded worker; a first launch that is observed is the running of exactly the new worker |
| `CodexProvider.CodexExecProvider.ObserveRecordedLaunch` | packages/research-attempt-adapter/research_attempt_adapter/codex_exec_provider.py:386-433 | With the worker running between the reads: a completion that was there is what is reported, and a terminal answer is always one; what is reported as running was running and an owned worker that still lives without a completion is reported as running; the exit verdict is given exactly for a dead owned worker without a completion; an owner is reported unavailable only if none was recorded |
| `CodexProvider.CodexExecProvider.Reconcile` | packages/research-attempt-adapter/research_attempt_adapter/codex_exec_provider.py:345-352 | The same since the call began, for a launch record that binds the request; a completion of another request is invalid, a missing launch is an unknown effect, and a rejection is exactly a launch record that does not bind |
| `CodexProvider.CodexExecProvider.RequestControl` | packages/research-attempt-adapter/research_attempt_adapter/codex_exec_provider.py:354-384 | The same for cancel and force-stop, after one write-once control record of this action for this launch; a running answer says which action was asked for |
| `CodexProvider.CodexExecProvider.WriteOnce` | packages/research-attempt-adapter/research_attempt_adapter/durable_supervisor.py:48-87 | A run of the write-once cell, with the workers running between the check and the link and a crash possible on either side of it; a normal return leaves the path with exactly this content |
| `CodexProvider.RecordFixed` | packages/research-attempt-adapter/research_attempt_adapter/durable_supervisor.py:48-87 | Once a path of the provider has a record, no sequence of moments changes it |
| `CodexProvider.VanishedForever` | packages/research-attempt-adapter/research_attempt_adapter/codex_exec_provider.py:423-433 | A dead worker without a completion stays so: no completion record can appear afterwards |
| `CodexProvider.VerdictIsFinal` | packages/research-attempt-adapter/research_attempt_adapter/codex_exec_provider.py:423-433 | The same over any sequence of moments |
| `CodexProvider.EvolvesChain` | packages/research-attempt-adapter/research_attempt_adapter/codex_exec_provider.py:386-433 | What time does to records and processes composes over any number of steps |
| `WriteOnce.ContentFixed` | packages/research-attempt-adapter/research_attempt_adapter/durable_supervisor.py:48-87 | Once a path has content, no interleaving of writers and no crash changes it |
| `WriteOnce.ReturnAgrees` | packages/research-attempt-adapter/research_attempt_adapter/durable_supervisor.py:68-79 | A normal return stands, and agrees with the stored bytes at every later moment |
| `WriteOnce.ReturnsAgree` | packages/research-attempt-adapter/research_attempt_adapter/durable_supervisor.py:50-61 | Two writers both return normally, at whatever moments, only if they wrote the same content |
| `WriteOnce.ConflictIsReal` | packages/research-attempt-adapter/research_attempt_adapter/durable_supervisor.py:57-61 | A conflict is reported only against different stored content; both stand |
| `WriteOnce.ContentIsWritten` | packages/research-attempt-adapter/research_attempt_adapter/durable_supervisor.py:62-73 | What is stored was there before or is one writer's whole content |
| `WriteOnce.WritersKept` | packages/research-attempt-adapter/research_attempt_adapter/durable_supervisor.py:48-87 | No writer is lost or takes up other content, and one that returned or conflicted stays so |
| `WriteOnce.Raced` | packages/research-attempt-adapter/research_attempt_adapter/durable_supervisor.py:50-79 | A check, another writer coming first or not, and a link or a comparison make up a run of the cell |
| `WriteOnce.EndsFixed` | packages/research-attempt-adapter/research_attempt_adapter/durable_supervisor.py:50-79 | Any run of the cell keeps content that was there, returns only on agreement and conflicts only on a difference |
| `GoalBoundary.GoalRuntime.Process` | packages/codex-thread-core/src/boundary.ts:3456-3815 | Any messages in any order, with grants and stops arriving from outside in between: parents, depths, paths, families and roles last; stopping is monotone; the handler never runs twice for one thread and call id and never after a stop; every run for a child was of a tool that child was granted, and every run for the root of an offered tool of no family; no child is ever granted tools of two families |
| `GoalBoundary.GoalRuntime.RegisterDescendant` | packages/codex-thread-core/src/boundary.ts:2638-2680 | Registers a new child exactly when its parent is known and at less than the depth limit, at that depth plus one; keeps an existing registration and refuses a changed parent |
| `GoalBoundary.GoalRuntime.ThreadIdForAgentPath` | packages/codex-thread-core/src/boundary.ts:2960-2974 | Path lookup inverts path assignment for the root and every descendant |
| `GoalBoundary.GoalRuntime.SubAgentActivity` | packages/codex-thread-core/src/boundary.ts:3038-3080 | A started item whose child it does not register or confirm is ignored; a known child gets the path exactly when it extends the parent's path, the child has no other and nobody else has it; then only the path changes, and an interruption also settles the child and withdraws its grant |
| `GoalBoundary.GoalRuntime.InstallDescendantToolGrant` | packages/codex-thread-core/src/boundary.ts:2682-2754 | Succeeds exactly for a live direct child of a root that is not stopping, exact identities, tools of one offered family that the child's role names and its past allows, and no different grant standing; then it grants exactly those tools, and a repeated installation changes nothing |
| `GoalBoundary.GoalRuntime.ThreadStarted` | packages/codex-thread-core/src/boundary.ts:3485-3515 | Registers the child and fixes its native role: a known child's announcement succeeds exactly when source, parent and role agree with each other and with what was announced before, changes nothing but the role, and touches no other thread |
| `GoalBoundary.GoalRuntime.TurnStarted` | packages/codex-thread-core/src/boundary.ts:3516-3538 | Opens tools for the root only while it is not stopping |
| `GoalBoundary.GoalRuntime.TurnEnded` | packages/codex-thread-core/src/boundary.ts:3539-3571 | Settles a child with the status of its turn and withdraws its grant; closes tools for the root |
| `GoalBoundary.GoalRuntime.GoalUpdated` | packages/codex-thread-core/src/boundary.ts:3594-3597 | Tools are accepted exactly while not stopping, with an active turn and an active or blocked Goal |
| `GoalBoundary.GoalRuntime.StatusChanged` | packages/codex-thread-core/src/boundary.ts:3621-3663 | Every settling status ends the turn with that status and withdraws the grant; an unrelated status changes nothing |
| `GoalBoundary.GoalRuntime.HandleToolCall` | packages/codex-thread-core/src/boundary.ts:3690-3815 | The root is authorised exactly while tools are accepted, in the active turn, for an offered tool of no family; a child exactly as an active direct child in its turn, of a root that is not stopping, for an offered family tool that its standing grant allows. The handler runs exactly for an authorised, uncached call; a cached call with another identity, tool, content or grant is exactly what is refused as changed, so a result given is always that of one run of exactly this call; a checkpoint result closes admission; a descendant's result is given only under the very grant it called with |
| `GoalBoundary.GoalRuntime.CloseAdmission` | packages/codex-thread-core/src/boundary.ts:5353-5360 | Closes tools for good and withdraws every grant |
| `GoalRegistry.PathsInjective` | packages/codex-thread-core/src/boundary.ts:3063-3071 | Distinct descendants have distinct agent paths, and none has the root's |
| `GoalRegistry.PathsMirrorTree` | packages/codex-thread-core/src/boundary.ts:2976-2979 | A descendant's path without its last name is the path of its parent and of nobody else |
| `GoalRegistry.PathIsParentAndName` | packages/codex-thread-core/src/boundary.ts:2976-2979 | A descendant's path is its parent's path, a separator and one name |
| `GoalRegistry.ParentPathExact` | packages/codex-thread-core/src/boundary.ts:2976-2979 | The parent path is `p` exactly when the path is a nonempty `p`, a separator and a name without separators |
| `GoalRegistry.SelectionExact` | packages/codex-thread-core/src/boundary.ts:699-723 | A tool selection is accepted exactly when it is nonempty, free of duplicates and from one family |
| `GoalRegistry.FamilyExact` | packages/codex-thread-core/src/boundary.ts:649-702 | The families are told apart by their tools |
| `GoalRegistry.PathKeeps` | packages/codex-thread-core/src/boundary.ts:3063-3072 | Assigning a path under these checks keeps paths unique and fitting the tree |
| `GoalRegistry.RegisterKeeps` | packages/codex-thread-core/src/boundary.ts:2655-2677 | Registering a descendant keeps the tree, the paths and the grants sound |
| `Transcript.FollowPages` | packages/codex-remote-core/src/reducers.ts:338-363 | With unique, trimmed, nonblank ids and any limits: following `nextBeforeItemId` ends, the pages are disjoint runs cut at turn boundaries, every page but the oldest has its limit, and merging each older page rebuilds the transcript |
| `Transcript.WindowTranscriptItems` | packages/codex-remote-core/src/reducers.ts:338-363 | The page is the window that ends at the requested item's turn, starts at a turn boundary, has the limit unless it reaches the oldest item, and takes no more turns than that needs; it names its first item exactly when there are older ones |
| `Transcript.AlignToTurnStart` | packages/codex-remote-core/src/reducers.ts:320-336 | The last turn boundary at or before the index |
| `Transcript.ClampTranscriptWindowLimit` | packages/codex-remote-core/src/reducers.ts:307-318 | A usable limit rounded down into 1 to 200, and 40 otherwise |
| `Transcript.NextEndsHere` | packages/codex-remote-core/src/reducers.ts:342-352 | The next request ends exactly where the last page began |
| `Transcript.MergeAdjoining` | packages/codex-remote-core/src/reducers.ts:395-399 | An adjoining older page is put in front unchanged |
| `Transcript.PagesKeepTurns` | packages/codex-remote-core/src/reducers.ts:320-336 | No two items of one turn meet across a page cut |
| `RhContent.DeliveriesKeepPrefix` | packages/codex-remote-core/src/rh-observation.ts:328-355 | Any delivery of true slices of an append stream, with duplicates and in any order, keeps the view a prefix of the stream whose byte length is its end, complete only where its end is the total it claims; pages that raise leave it alone |
| `RhContent.DeliveriesGrow` | packages/codex-remote-core/src/rh-observation.ts:328-355 | The view never shrinks over further deliveries |
| `RhContent.CompleteIsWhole` | packages/codex-remote-core/src/rh-observation.ts:342-355 | When every page that claims completeness carries the stream's true length, a complete view is the whole stream |
| `RhContent.DeliveryKeepsPrefix` | packages/codex-remote-core/src/rh-observation.ts:328-355 | One delivery keeps the prefix and never shrinks it |
| `RhContent.ContainedRetry` | packages/codex-remote-core/src/rh-observation.ts:336-341 | A contained retry at no newer revision is a no-op exactly when its bytes do not begin with a byte order mark |
| `RhContent.AppendExact` | packages/codex-remote-core/src/rh-observation.ts:328-355 | For every true page of an append stream: a known part changes nothing (or raises, for the mark), an older revision is stale, a page elsewhere is a gap or overlap, and exactly the next page extends the view by its bytes |
| `RhContent.MarkedRetryFails` | packages/codex-remote-core/src/rh-observation.ts:336-341 | A stream that begins with the mark: repeating its first page exactly raises |
| `RhContent.InOrderAssembles` | packages/codex-remote-core/src/rh-observation.ts:342-355 | Consecutive slices delivered in order assemble exactly the stream up to the last page |
| `RhContent.NewerSnapshotReplaces` | packages/codex-remote-core/src/rh-observation.ts:334-355 | The first page of a later snapshot revision leaves exactly that page's text, range and revision; any other page of one is refused |
| `RhContent.SnapshotsNeverMix` | packages/codex-remote-core/src/rh-observation.ts:328-355 | Any delivery of true pages of any snapshot revisions, in any order: the view is always a prefix of the bytes of one revision, its revision never falls, and within a revision it never shrinks |
| `RhContent.KeyMeaning` | packages/codex-remote-core/src/rh-observation.ts:300-304 | Two receipts are one delivery exactly under one incarnation and one journal cursor, or one sequence number where neither has a cursor |
| `RhContent.MergeObservations` | packages/codex-remote-core/src/rh-observation.ts:307-314 | Receipts that repeat among those held come to their last value at their first place; then each new receipt is added once, with its first value, in order of arrival |
| `RhContent.PutAllKeeps` | packages/codex-remote-core/src/rh-observation.ts:308-308 | Of repeated receipts the last value is kept, every other receipt is kept as it is, and none is kept twice |
| `RhContent.PutAllOrder` | packages/codex-remote-core/src/rh-observation.ts:308-308 | Each kept receipt stands where the first with its key stood |
| `RhContent.FirstReceiptLost` | packages/codex-remote-core/src/rh-observation.ts:306-308 | Two held receipts of one key with values x and y: the merge keeps y, where the first was promised |
| `RhContent.FirstsKept` | packages/codex-remote-core/src/rh-observation.ts:306-308 | Every first receipt held is kept if and only if, for every key, its first and its last held value are equal |
| `RhContent.MergePreservesFirsts` | packages/codex-remote-core/src/rh-observation.ts:306-314 | The whole merge is the list of first receipts in order of first delivery if and only if that holds of what was held |
| `RhContent.RedeliveryIsNoOp` | packages/codex-remote-core/src/rh-observation.ts:307-314 | Delivering a batch again changes nothing |
| `RhContent.BatchingIsIrrelevant` | packages/codex-remote-core/src/rh-observation.ts:307-314 | How receipts are batched does not matter |

## Left out

- Processes, signals, job objects, pipes, SQLite and the file system: only durable events, write-once records, live or dead workers and crash points are kept.
- SHA-256 and canonical JSON: a digest is the value itself, so it is injective; encodings are not modelled.
- Staging copies, link checks, permissions, path overlap, source verification and artifact sealing: each is a step that may fail before it changes anything durable.
- Two concurrent owners: the journal treats an identical repetition as a no-op and does not exclude them, so at most one launch is a theorem about one owner at a time.
- The failure code of the delegation tracker: first-wins and order dependent, so only its presence is characterised over whole histories.
- `turn/started` registration and the dispatch of other messages in `observe`: which message registers the root depends on arrival order; the tracker's own operations are modelled instead.
- Non-string identities: an identity that is not a non-empty string is the empty string in the tracker's model.
- Surrogate pairs and non-ASCII case folding in the scrubber: characters are ASCII code units.
- `scrubObservationValue` and `isCredentialField`: recursion over parsed values and a suffix test.
- Idempotence of scrubbing: nothing promises it beyond the fixtures of the tests; `ScrubberTwice.SecondScrubRedacts` shows texts that a second scrub changes.
- Sturm.RootCount: that the count is the number of roots needs completeness of the reals; the algebraic facts about chains are proved instead.
- The localisation bound of the repaired cases: the source checks six fixed instances; only their coefficient identities are proved, for all parameters.
- Several providers: one provider identity is registered; any other behaves as an unregistered provider.
- GoalBoundary.GoalRuntime.HandleToolCall: the source skips closing admission when the runtime was removed during the wait; removal itself closes admission and is not modelled.
- Native material custody, pending agent messages, diagnostics and the start, resume and stop exchanges with the App Server: they depend on a peer that is not part of this model.
- Fatal containment after a message that raises: it arrives as a stop request from outside.
- Content text is its UTF-8 bytes; lone surrogates are not modelled.
- `mergeSnapshotTranscriptItems` and the reducers of raw items: projections without state.
- The other example checkers: they lean on a computer algebra system or interval arithmetic that is not part of this model.
