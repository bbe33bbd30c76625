/** The adapter: every operation reads the journal, appends durable intents, calls the provider and
    appends what it saw. It may crash between any two steps; what is durable is then all there is. */
module AttemptAdapter {
  import opened Wrappers
  import opened AttemptLog
  import opened AttemptSafety
  import opened AttemptConflicts
  import opened AttemptJournal
  import Codex = CodexProvider

  datatype Error = NoAttempt | Blocked | Contract | JournalConflict

  datatype Result = Returned(record: Record) | Raised(error: Error) | Crashed

  /** No provider launch among the steps after the first `n`. */
  ghost predicate NoLaunchSince(log: Log, n: nat) {
    forall k :: n <= k < |log| ==> !(log[k].Called? && log[k].call == Launch)
  }

  /** Nor a fencing mark of a revocation. */
  ghost predicate Quiet(log: Log, n: nat) {
    && NoLaunchSince(log, n)
    && forall k :: n <= k < |log| ==> !(log[k].Appended? && log[k].event.key.Revocation?)
  }

  /** The outcome of writing `e`: a journal conflict only against another fact under its key, and then
      nothing is stored and nothing returned. What returns has stored a fresh fact, and no known one again. */
  ghost predicate Conflicts(before: seq<Event>, after: seq<Event>, e: Event, r: Result) {
    && (r == Raised(JournalConflict) ==> Clashes(before, e))
    && (Clashes(before, e) ==> !r.Returned? && after == before)
    && (r.Returned? ==> after == if HasKey(before, e.key) then before else before + [e])
  }

  /** At most one step, and what it is. */
  lemma OneAppend(before: Log, after: Log, a: Id, e: Event)
    requires after == before || after == before + [Appended(e)]
    requires e.attempt == a
    ensures OnlyOwn(before, after, a) && NoLaunchSince(after, |before|)
    ensures !e.key.Revocation? ==> Quiet(after, |before|)
  {
  }

  lemma AfterLaunch(before: Log, called: Log, after: Log, a: Id)
    requires called == before + [Called(Launch, a)] && OnlyOwn(called, after, a)
    ensures OnlyOwn(before, after, a) && Called(Launch, a) in after
  {
    assert after[|before|] == called[|before|];
  }

  lemma AfterCall(before: Log, called: Log, after: Log, a: Id, c: Call)
    requires called == before + [Called(c, a)] && c != Launch
    requires OnlyOwn(called, after, a) && Quiet(after, |called|)
    ensures OnlyOwn(before, after, a) && Quiet(after, |before|)
  {
    assert after[|before|] == called[|before|];
  }

  /** Quiet steps store no fencing mark that was not there before. */
  lemma {:induction false} QuietKeepsMarks(before: Log, after: Log, e: Event)
    requires before <= after && Quiet(after, |before|) && e.key.Revocation? && e in Events(after)
    ensures e in Events(before)
    decreases |after|
  {
    if |after| > |before| {
      QuietKeepsMarks(before, after[..|after| - 1], e);
    } else {
      assert before == after;
    }
  }

  /** The mark put on an Attempt that was active until its own last steps is new, and is its state. */
  lemma MarkIsFresh(before: Log, middle: Log, after: Log, a: Id, e: Event)
    requires Legal(before) && Legal(after) && before <= middle && Quiet(middle, |before|)
    requires StateOf(before, a).Some? && Active(StateOf(before, a).value)
    requires Trusted(e, a) && e.key.Revocation? && e.state == Fenced && e in Events(after)
    requires after == middle + [Appended(e)] || after == middle
    ensures StateOf(after, a) == Some(Fenced)
  {
    if after == middle {
      QuietKeepsMarks(before, middle, e);
      AbsorbedBy(before, e);
    }
    EventsPush(middle, Appended(e));
  }

  // ---- The journal and the provider's records

  /** The completion record of `a` reports this state. */
  ghost predicate Completed(a: Id, state: ProviderState, files: Codex.Disk) {
    var p := Codex.Completion(a);
    p in files && files[p].CompletionContent? && files[p].observation.state == state
  }

  /** A stored observation of the provider is true of the records and processes as they are: an exit
      verdict of a worker that left nothing, and a settled state of the completion that reports it. */
  ghost predicate VerdictHolds(e: Event, files: Codex.Disk, workers: seq<Codex.Worker>) {
    e.key.Seen? && e.key.origin.Some? ==>
      && (Codex.ExitVerdict(e.key.observation) ==> Codex.Vanished(files, workers, e.key.id))
      && (!e.evidenceOnly ==>
        && (e.state == Succeeded ==> Completed(e.attempt, ProviderSucceeded, files))
        && (e.state == Failed ==> Completed(e.attempt, ProviderFailed, files))
        && (e.state == Cancelled ==> Completed(e.attempt, ProviderCancelled, files))
        && (e.state == ForceStopped ==> Completed(e.attempt, ProviderForceStopped, files)))
  }

  ghost predicate VerdictsHold(events: seq<Event>, files: Codex.Disk, workers: seq<Codex.Worker>) {
    forall k :: 0 <= k < |events| ==> VerdictHolds(events[k], files, workers)
  }

  /** No record stands on disk that the journal does not know a call for. */
  ghost predicate Prompted(p: Codex.Path, log: Log) {
    match p.slot
    case RequestSlot => Called(Launch, p.attempt) in log
    case LaunchSlot => Called(Launch, p.attempt) in log
    case ControlSlot(action) => Called(if action == Codex.CancelAction then Cancel else Stop, p.attempt) in log
    case _ => true
  }

  ghost predicate AllPrompted(files: Codex.Disk, log: Log) { forall p :: p in files ==> Prompted(p, log) }

  lemma PromptedLater(files: Codex.Disk, log: Log, log': Log)
    requires AllPrompted(files, log) && log <= log'
    ensures AllPrompted(files, log')
  {
    forall p | p in files ensures Prompted(p, log') {
      assert Prompted(p, log);
    }
  }

  /** Records that have appeared since are the workers' or this call's. */
  lemma PromptedNow(files: Codex.Disk, files': Codex.Disk, log: Log)
    requires AllPrompted(files, log)
    requires forall p :: p in files' && p !in files ==> Prompted(p, log)
    ensures AllPrompted(files', log)
  {
  }

  lemma VerdictsPush(events: seq<Event>, e: Event, files: Codex.Disk, workers: seq<Codex.Worker>)
    requires VerdictsHold(events, files, workers) && VerdictHolds(e, files, workers)
    ensures VerdictsHold(events + [e], files, workers)
  {
  }

  /** Time makes no stored verdict false. */
  lemma VerdictsStay(
    events: seq<Event>, f: Codex.Disk, w: seq<Codex.Worker>, f': Codex.Disk, w': seq<Codex.Worker>)
    requires VerdictsHold(events, f, w) && Codex.Evolves(f, w, f', w')
    ensures VerdictsHold(events, f', w')
  {
    forall k | 0 <= k < |events| ensures VerdictHolds(events[k], f', w') {
      assert VerdictHolds(events[k], f, w);
      if events[k].key.Seen? && Codex.Vanished(f, w, events[k].key.id) {
        Codex.VanishedForever(f, w, f', w', events[k].key.id);
      }
    }
  }

  /** A provider outcome that may be recorded for `a`: its terminal answers are the completion's. */
  ghost predicate OutcomeHolds(outcome: Codex.Outcome, files: Codex.Disk, workers: seq<Codex.Worker>, a: Id) {
    outcome.Observed? ==>
      && (Codex.ExitVerdict(outcome.observation) ==> Codex.Vanished(files, workers, a))
      && (Codex.Terminal(outcome.observation.state) ==> Completed(a, outcome.observation.state, files))
  }

  /** What is recorded of a true outcome is true. */
  lemma OutcomeRecorded(
    a: Id, s: AttemptState, origin: Origin, o: Observation, files: Codex.Disk, workers: seq<Codex.Worker>)
    requires origin.Some? ==> OutcomeHolds(Codex.Observed(o), files, workers, a)
    ensures VerdictHolds(ObservationEvent(a, s, origin, o), files, workers)
  {
  }

  /** An Attempt that the journal calls succeeded, without an observation that was only handed in, has a
      completion record that reports success. */
  lemma SuccessIsRecorded(log: Log, a: Id, files: Codex.Disk, workers: seq<Codex.Worker>)
    requires Legal(log) && VerdictsHold(Events(log), files, workers)
    requires StateOf(log, a) == Some(Succeeded)
    requires forall e :: e in Events(log) && e.key.Seen? ==> e.key.origin.Some?
    ensures Completed(a, ProviderSucceeded, files)
  {
    var k := StateEvent(Events(log), a);
    SucceededBySeen(log, k);
    assert VerdictHolds(Events(log)[k], files, workers) && Events(log)[k] in Events(log);
  }

  lemma {:induction false} SucceededBySeen(log: Log, k: nat)
    requires Legal(log) && k < |Events(log)| && Events(log)[k].state == Succeeded && !Events(log)[k].evidenceOnly
    ensures Events(log)[k].key.Seen?
    decreases |log|
  {
    var front := log[..|log| - 1];
    if k < |Events(front)| {
      SucceededBySeen(front, k);
    }
  }

  // ---- Why each append is one the journal takes

  lemma FreshWhilePrepared(log: Log, a: Id, key: Key)
    requires Legal(log) && StateOf(log, a) == Some(Prepared) && key != PrepareKey(a)
    requires forall e :: e in Events(log) && e.key == key ==> e.attempt == a
    ensures !HasKey(Events(log), key)
  {
    if HasKey(Events(log), key) {
      var k :| 0 <= k < |Events(log)| && Events(log)[k].key == key;
      PreparedIsFresh(log, a, k);
    }
  }

  /** The Attempt an operation key names; a lost effect's key only runs it together with a code. */
  function KeyId(key: Key): Option<Id> { if key.Lost? then None else Some(key.id) }

  /** A key that names an Attempt is only stored with that Attempt. */
  lemma {:induction false} KeyOwner(log: Log, k: nat)
    requires Legal(log) && k < |Events(log)|
    ensures KeyId(Events(log)[k].key) in {None, Some(Events(log)[k].attempt)}
    decreases |log|
  {
    var front := log[..|log| - 1];
    if k < |Events(front)| {
      KeyOwner(front, k);
    }
  }

  lemma KeyFresh(log: Log, a: Id, key: Key)
    requires Legal(log) && StateOf(log, a) == Some(Prepared) && key != PrepareKey(a) && KeyId(key) == Some(a)
    ensures !HasKey(Events(log), key)
  {
    forall e | e in Events(log) && e.key == key ensures e.attempt == a {
      var k :| 0 <= k < |Events(log)| && Events(log)[k] == e;
      KeyOwner(log, k);
    }
    FreshWhilePrepared(log, a, key);
  }

  lemma PreparedNoRef(log: Log, a: Id)
    requires Legal(log) && StateOf(log, a) == Some(Prepared)
    ensures RefOf(log, a) == None
  {
    forall k: nat | k < |Events(log)| && Events(log)[k].attempt == a ensures Events(log)[k].ref == None {
      PreparedIsFresh(log, a, k);
    }
    NoRef(Events(log), a);
  }

  lemma {:induction false} NoRef(events: seq<Event>, a: Id)
    requires forall k: nat :: k < |events| && events[k].attempt == a ==> events[k].ref == None
    ensures Ref(events, a) == None
  {
    if events != [] {
      NoRef(events[..|events| - 1], a);
    }
  }

  /** An Attempt that has left PREPARED does not come back to it. */
  lemma NeverPreparedAgain(before: Log, after: Log, a: Id)
    requires Legal(after) && before <= after
    requires StateOf(before, a).Some? && StateOf(before, a) != Some(Prepared)
    ensures StateOf(after, a) != Some(Prepared)
  {
    if StateOf(after, a) == Some(Prepared) {
      var k := StateEvent(Events(before), a);
      EventsPrefix(after, |before|);
      assert after[..|before|] == before;
      assert Events(after)[k] == Events(before)[k];
      PreparedIsFresh(after, a, k);
    }
  }

  /** Once a trusted event has an absorbing state, so does the Attempt. */
  lemma {:induction false} AbsorbedBy(log: Log, e: Event)
    requires Legal(log) && e in Events(log) && !e.evidenceOnly && Absorbing(e.state)
    ensures StateOf(log, e.attempt).Some? && Absorbing(StateOf(log, e.attempt).value)
    decreases |log|
  {
    var front, last := log[..|log| - 1], log[|log| - 1];
    if e in Events(front) {
      AbsorbedBy(front, e);
      AbsorbingStep(front, last, e.attempt);
      assert front + [last] == log;
    }
  }

  /** An UNKNOWN verdict on an active or unknown Attempt leaves it UNKNOWN. */
  lemma UnknownStays(before: Log, after: Log, e: Event)
    requires Legal(before) && Legal(after) && !e.evidenceOnly && e.state == Unknown && e in Events(after)
    requires after == before + [Appended(e)] || after == before
    requires StateOf(before, e.attempt).Some? && StateOf(before, e.attempt).value != Fenced
    ensures StateOf(after, e.attempt) == Some(Unknown)
  {
    if after == before {
      AbsorbedBy(after, e);
    } else {
      EventsPush(before, Appended(e));
    }
  }

  /** A fresh settled mark on a prepared Attempt is its state. */
  lemma SettledStays(before: Log, after: Log, a: Id, e: Event)
    requires Legal(before) && Legal(after) && StateOf(before, a) == Some(Prepared)
    requires Trusted(e, a) && e in Events(after) && e.state != Prepared
    requires after == before + [Appended(e)] || after == before
    ensures after == before + [Appended(e)] && StateOf(after, a) == Some(e.state)
  {
    if after == before {
      var k :| 0 <= k < |Events(after)| && Events(after)[k] == e;
      PreparedIsFresh(after, a, k);
      assert false;
    }
    EventsPush(before, Appended(e));
  }

  lemma KeyKept(before: Log, after: Log, key: Key)
    requires before <= after && HasKey(Events(before), key)
    ensures HasKey(Events(after), key)
  {
    EventsPrefix(after, |before|);
    assert after[..|before|] == before;
    var k :| 0 <= k < |Events(before)| && Events(before)[k].key == key;
    assert Events(after)[k] == Events(before)[k];
  }

  function LaunchRejectionEvent(a: Id, code: string): Event {
    Plain(LaunchRejection(a), a, Failed, None, NoEffect).(detail := Some(Code(code)))
  }

  function RejectionEvent(a: Id, c: Call, ref: Option<string>, code: string): Event {
    Plain(Rejection(c, a), a, RequestedState(c), ref, KnownEffect).(detail := Some(Code(code)))
  }

  /** The provider may be at work on the Attempt. */
  ghost predicate Acting(s: Option<AttemptState>) {
    || s == Some(LaunchRequested) || s == Some(Running)
    || s == Some(CancelRequested) || s == Some(ForceStopRequested)
  }

  /** Active or unknown: what recovery asks the provider about. */
  ghost predicate InFlight(log: Log, a: Id) {
    Acting(StateOf(log, a)) || StateOf(log, a) == Some(Unknown)
  }

  /** What the adapter writes of an observation: an identity mismatch, or the observation itself. */
  function ObservedEvent(a: Id, provider: Id, s: AttemptState, r: Option<string>, o: Observation, origin: Origin): Event {
    if o.provider != provider || (r.Some? && Some(o.ref) != r) then MismatchEvent(a, origin)
    else ObservationEvent(a, s, origin, o)
  }

  /** What the adapter writes of a provider outcome; nothing when it crashed before it could. */
  function ConcludedEvent(
    a: Id, provider: Id, s: AttemptState, r: Option<string>, c: Call, outcome: Codex.Outcome): Option<Event>
  {
    match outcome
    case Observed(o) => Some(ObservedEvent(a, provider, s, r, o, Some(c)))
    case EffectUnknown(code) => Some(LostEvent(a, r, Some(c), code))
    case Stopped => None
    case _ => Some(LostEvent(a, r, Some(c), OtherCode(c)))
  }

  /** What the adapter writes of a launch outcome, where a rejection is proof that nothing started. */
  function LaunchedEvent(a: Id, provider: Id, outcome: Codex.Outcome): Option<Event> {
    if outcome.Rejected? then Some(LaunchRejectionEvent(a, outcome.code))
    else ConcludedEvent(a, provider, LaunchRequested, None, Launch, outcome)
  }

  /** The durable intent of a launch. */
  function LaunchIntent(a: Id): Event { Plain(LaunchKey(a), a, LaunchRequested, None, UnknownEffect) }

  /** The outcome of recording what a provider call came to. */
  ghost predicate Concludes(before: seq<Event>, after: seq<Event>, e: Option<Event>, r: Result) {
    if e.None? then r == Crashed && after == before else Conflicts(before, after, e.value, r)
  }

  /** The state that a returned observation with agreeing identities leaves: a known one changes nothing. */
  ghost predicate ReturnedAs(
    before: seq<Event>, after: seq<Event>, a: Id, s: AttemptState, o: Observation, origin: Origin, s': AttemptState)
  {
    if HasKey(before, Seen(origin, a, o)) then after == before && s' == s
    else if s == Unknown || s == Fenced then s' == s
    else match o.state {
      case ProviderRunning => s' == if s == CancelRequested || s == ForceStopRequested then s else Running
      case ProviderSucceeded => s' == Succeeded
      case ProviderFailed => s' == Failed
      case ProviderCancelled => s' == Cancelled
      case ProviderForceStopped => s' == ForceStopped
      case NotFound => s' == Unknown
      case ProviderUnknown => s' == Unknown
    }
  }

  lemma ReturnedObservation(
    before: seq<Event>, after: seq<Event>, a: Id, provider: Id, s: AttemptState, ref: Option<string>, o: Observation,
    origin: Origin, r: Result)
    requires r.Returned? && Conflicts(before, after, ObservedEvent(a, provider, s, ref, o, origin), r)
    requires State(before, a) == Some(s) && State(after, a) == Some(r.record.state)
    requires o.provider == provider && (ref.Some? ==> ref.value == o.ref)
    ensures ReturnedAs(before, after, a, s, o, origin, r.record.state)
  {
    var e := ObservationEvent(a, s, origin, o);
    if !HasKey(before, e.key) {
      assert after[..|after| - 1] == before;
    }
  }

  /** The state of an Attempt once its launch has been settled. */
  lemma SettledLaunch(before: Log, after: Log, a: Id, outcome: Codex.Outcome, r: Result)
    requires Legal(before) && StateOf(before, a) == Some(Prepared) && r.Returned?
    requires StateOf(after, a) == Some(r.record.state)
    requires Concludes(Events(before) + [LaunchIntent(a)], Events(after),
               LaunchedEvent(a, Codex.PROVIDER_ID, outcome), r)
    requires outcome.Observed? ==>
      outcome.observation.state == ProviderRunning && outcome.observation.provider == Codex.PROVIDER_ID
    ensures outcome.Rejected? ==> r.record.state == Failed
    ensures outcome.Observed? ==> r.record.state == Running
  {
    if outcome.Rejected? || outcome.Observed? {
      var events, e := Events(before) + [LaunchIntent(a)], LaunchedEvent(a, Codex.PROVIDER_ID, outcome).value;
      KeyFresh(before, a, e.key);
      assert !HasKey(events, e.key);
      assert Events(after) == events + [e] && (events + [e])[..|events|] == events;
    }
  }

  predicate Controls(c: Call) { c == Cancel || c == Stop }

  function Unsent(c: Call, a: Id): Key { if c == Cancel then CancelUnsent(a) else StopUnsent(a) }

  function Requested(c: Call, a: Id): Key { if c == Cancel then CancelKey(a) else StopKey(a) }

  function Rejection(c: Call, a: Id): Key { if c == Cancel then CancelRejection(a) else StopRejection(a) }

  function SettledState(c: Call): AttemptState { if c == Cancel then Cancelled else ForceStopped }

  function RequestedState(c: Call): AttemptState { if c == Cancel then CancelRequested else ForceStopRequested }

  /** The durable intent of a control request. */
  function ControlIntent(c: Call, a: Id, ref: Option<string>): Event {
    Plain(Requested(c, a), a, RequestedState(c), ref, KnownEffect)
  }

  /** What the adapter writes of the outcome of a control request; a rejection leaves it requested. */
  function ControlledEvent(a: Id, provider: Id, c: Call, ref: Option<string>, outcome: Codex.Outcome): Option<Event> {
    if outcome.Rejected? then Some(RejectionEvent(a, c, ref, outcome.code))
    else ConcludedEvent(a, provider, RequestedState(c), ref, c, outcome)
  }

  function OtherCode(c: Call): string {
    match c
    case Launch => "provider_launch_exception"
    case Cancel => "provider_cancel_exception"
    case Stop => "provider_force_stop_exception"
    case Reconcile => "provider_reconcile_exception"
  }

  /** A moment in the history. */
  datatype Mark = Mark(log: Log, files: Codex.Disk, workers: seq<Codex.Worker>)

  ghost predicate KeepsSettled(before: Log, after: Log) {
    forall b :: !InFlight(before, b) ==> StateOf(after, b) == StateOf(before, b)
  }

  lemma SettledChain(start: Log, before: Log, after: Log, a: Id)
    requires KeepsSettled(start, before) && OnlyOwn(before, after, a)
    requires !InFlight(before, a) ==> after == before
    ensures KeepsSettled(start, after)
  {
    forall b | !InFlight(start, b) ensures StateOf(after, b) == StateOf(start, b) {
      assert StateOf(before, b) == StateOf(start, b);
      if b != a {
        OwnKeepsOthers(before, after, a, b);
      }
    }
  }

  /** The provider was asked to reconcile `a` after the first `n` steps. */
  ghost predicate Asked(log: Log, n: nat, a: Id) {
    exists k :: n <= k < |log| && log[k] == Called(Call.Reconcile, a)
  }

  /** Of these Attempts, those that were in flight and are not pending have been asked about. */
  ghost predicate AskedAll(ids: set<Id>, pending: set<Id>, before: Log, after: Log) {
    forall a :: a in ids && a !in pending && InFlight(before, a) ==> Asked(after, |before|, a)
  }

  ghost predicate Untouched(pending: set<Id>, before: Log, after: Log) {
    forall a :: a in pending ==> StateOf(after, a) == StateOf(before, a)
  }

  lemma AskedPrefix(before: Log, after: Log, n: nat, a: Id)
    requires before <= after && Asked(before, n, a)
    ensures Asked(after, n, a)
  {
    var k :| n <= k < |before| && before[k] == Called(Call.Reconcile, a);
    assert after[k] == before[k];
  }

  lemma RecoverStep(ids: set<Id>, pending: set<Id>, start: Log, before: Log, after: Log, a: Id)
    requires AskedAll(ids, pending, start, before) && Untouched(pending, start, before) && a in pending
    requires start <= before && OnlyOwn(before, after, a)
    requires a in ids && InFlight(before, a) ==>
      |before| < |after| && after[|before|] == Called(Call.Reconcile, a)
    ensures AskedAll(ids, pending - {a}, start, after) && Untouched(pending - {a}, start, after)
    ensures InFlight(before, a) <==> InFlight(start, a)
    ensures a in ids && InFlight(start, a) ==> Asked(after, |start|, a)
  {
    forall b | b in pending - {a} ensures StateOf(after, b) == StateOf(start, b) {
      OwnKeepsOthers(before, after, a, b);
    }
    forall b | b in ids && b !in pending - {a} && InFlight(start, b) ensures Asked(after, |start|, b) {
      if b != a {
        AskedPrefix(before, after, |start|, b);
      } else {
        assert after[|before|] == Called(Call.Reconcile, a);
      }
    }
  }

  /** Prepared and active Attempts end FENCED, the active ones with a durable cancel request; the rest
      are untouched. */
  ghost predicate AfterRevocation(s: AttemptState, after: Log, a: Id) {
    && StateOf(after, a) == Some(if s == Prepared || Acting(Some(s)) then Fenced else s)
    && (Acting(Some(s)) ==> HasKey(Events(after), CancelKey(a)))
  }

  /** An Attempt at work under the registered provider, not asked to cancel before, has been asked now. */
  ghost predicate CancelSent(record: Record, a: Id, before: Log, after: Log) {
    Acting(Some(record.state)) && !HasKey(Events(before), CancelKey(a))
      && record.intent.operational.provider == Codex.PROVIDER_ID ==>
      Called(Cancel, a) in after
  }

  /** The sweep's cancel requests: those of handled Attempts are sent, those of pending ones are as before. */
  ghost predicate Cancelling(records: map<Id, Record>, pending: set<Id>, ids: set<Id>, start: Log, log: Log) {
    && (forall b :: b in ids - pending && b in records ==> CancelSent(records[b], b, start, log))
    && (forall b :: b in pending && HasKey(Events(log), CancelKey(b)) ==> HasKey(Events(start), CancelKey(b)))
  }

  /** Steps of one Attempt store no cancel key of another. */
  lemma {:induction false} OwnKeys(before: Log, after: Log, a: Id, b: Id)
    requires Legal(after) && OnlyOwn(before, after, a) && a != b && HasKey(Events(after), CancelKey(b))
    ensures HasKey(Events(before), CancelKey(b))
    decreases |after|
  {
    if |after| == |before| {
      assert before == after;
    } else {
      var front, last := after[..|after| - 1], after[|after| - 1];
      var k :| 0 <= k < |Events(after)| && Events(after)[k].key == CancelKey(b);
      KeyOwner(after, k);
      assert Own(last, a);
      assert k < |Events(front)| && Events(front)[k].key == CancelKey(b);
      OwnKeys(before, front, a, b);
    }
  }

  lemma CancelStep(
    records: map<Id, Record>, pending: set<Id>, ids: set<Id>, start: Log, before: Log, after: Log, a: Id)
    requires Cancelling(records, pending, ids, start, before) && a in pending && a in records
    requires Legal(after) && OnlyOwn(before, after, a) && CancelSent(records[a], a, before, after)
    ensures Cancelling(records, pending - {a}, ids, start, after)
  {
    forall b | b in ids - (pending - {a}) && b in records ensures CancelSent(records[b], b, start, after) {
      if b != a {
        assert b in ids - pending;
      }
    }
    forall b | b in pending - {a} && HasKey(Events(after), CancelKey(b)) ensures HasKey(Events(start), CancelKey(b)) {
      OwnKeys(before, after, a, b);
    }
  }

  /** What a completed revocation does to one Attempt of the fence. */
  ghost predicate Fences(before: Log, after: Log, a: Id) {
    StateOf(before, a).Some? && AfterRevocation(StateOf(before, a).value, after, a)
  }

  ghost predicate Waiting(records: map<Id, Record>, ids: set<Id>, log: Log) {
    forall b :: b in ids && b in records ==>
      StateOf(log, b) == Some(records[b].state) && RefOf(log, b) == records[b].ref
  }

  ghost predicate Handled(records: map<Id, Record>, ids: set<Id>, log: Log) {
    forall b :: b in ids && b in records ==> AfterRevocation(records[b].state, log, b)
  }

  /** Only these Attempts have changed state. */
  ghost predicate Spares(before: Log, after: Log, ids: set<Id>) {
    forall b :: b !in ids ==> StateOf(after, b) == StateOf(before, b)
  }

  lemma SparesChain(start: Log, before: Log, after: Log, ids: set<Id>, a: Id)
    requires Spares(start, before, ids) && OnlyOwn(before, after, a) && a in ids
    ensures Spares(start, after, ids)
  {
    forall b | b !in ids ensures StateOf(after, b) == StateOf(start, b) {
      OwnKeepsOthers(before, after, a, b);
    }
  }

  /** The sweep in the middle: the pending ones wait as they were read, the others are handled. */
  ghost predicate Sweeping(records: map<Id, Record>, pending: set<Id>, ids: set<Id>, log: Log) {
    && pending <= ids && records.Keys == ids
    && Waiting(records, pending, log) && Handled(records, ids - pending, log)
  }

  lemma SweepStep(records: map<Id, Record>, pending: set<Id>, ids: set<Id>, before: Log, after: Log, a: Id)
    requires Sweeping(records, pending, ids, before) && a in pending
    requires OnlyOwn(before, after, a) && AfterRevocation(records[a].state, after, a)
    ensures Sweeping(records, pending - {a}, ids, after)
  {
    forall b | b in pending - {a} && b in records
      ensures StateOf(after, b) == Some(records[b].state) && RefOf(after, b) == records[b].ref
    {
      OwnKeepsOthers(before, after, a, b);
    }
    forall b | b in ids - (pending - {a}) && b in records ensures AfterRevocation(records[b].state, after, b) {
      if b != a {
        assert b in ids - pending;
        OwnKeepsOthers(before, after, a, b);
        if Acting(Some(records[b].state)) {
          KeyKept(before, after, CancelKey(b));
        }
      }
    }
  }

  /** The outcome of an operation over many Attempts; an error ends it where it is. */
  datatype Sweep = Swept | Interrupted(result: Result)

  datatype Operation =
    | InstallFence(fence: Fence)
    | Prepare(session: Id, digest: string, intent: Intent, fenceId: Id)
    | Retry(previous: Id, intent: Intent, fenceId: Id)
    | Dispatch(attempt: Id)
    | RequestCancel(attempt: Id)
    | ForceStop(attempt: Id)
    | ReconcileOne(attempt: Id)
    | Recover
    | Ingest(attempt: Id, observation: Observation)
    | RevokeFence(fenceId: Id)
    | Verify(attempt: Id)

  /** The safety of a whole history. */
  ghost predicate Safe(log: Log) {
    && (forall i, j, c, a :: 0 <= i < j < |log| && c != Reconcile && log[i] == Called(c, a) ==> log[j] != Called(c, a))
    && (forall i, a :: 0 <= i < |log| && log[i] == Called(Launch, a) ==> LaunchedSafely(log, i, a))
    && (forall a, c :: EffectCertainty(Events(log), a) == NoEffect ==> Called(c, a) !in log)
    && (forall a, n: nat :: n > 0 ==> !Ancestor(log, a, a, n))
  }

  /** The launch comes directly after its durable intent, and no revocation of its fence precedes it. */
  ghost predicate LaunchedSafely(log: Log, i: nat, a: Id)
    requires i < |log|
  {
    && i > 0 && log[i - 1].Appended? && log[i - 1].event.key == LaunchKey(a)
    && forall f :: FenceOf(log, a, f) ==> Revoked(f) !in log[..i]
  }

  /** Every history the adapter can write is safe. */
  lemma LegalIsSafe(log: Log)
    requires Legal(log)
    ensures Safe(log)
  {
    forall i, j, c, a | 0 <= i < j < |log| && c != Reconcile && log[i] == Called(c, a)
      ensures log[j] != Called(c, a)
    {
      CallsOnce(log, i, j, c, a);
    }
    forall i, a | 0 <= i < |log| && log[i] == Called(Launch, a) ensures LaunchedSafely(log, i, a) {
      CallFollowsIntent(log, i, Launch, a);
      forall f | FenceOf(log, a, f) ensures Revoked(f) !in log[..i] {
        NoLaunchAfterRevocation(log, i, a, f);
      }
    }
    forall a, c | EffectCertainty(Events(log), a) == NoEffect ensures Called(c, a) !in log {
      NoEffectNoCall(log, a, c);
    }
    forall a, n: nat | n > 0 ensures !Ancestor(log, a, a, n) {
      LineageAcyclic(log, a, n);
    }
  }

  method ShowsCertainty(events: seq<Event>, a: Id, c: Certainty) returns (shown: bool)
    ensures shown <==> Shows(events, a, c)
  {
    for i := 0 to |events|
      invariant forall k :: 0 <= k < i ==> !(Trusted(events[k], a) && events[k].certainty == c)
    {
      if Trusted(events[i], a) && events[i].certainty == c {
        return true;
      }
    }
    return false;
  }

  class ResearchAttemptAdapter {
    const journal: AttemptJournal
    const provider: Codex.CodexExecProvider

    ghost predicate Valid()
      reads this, journal, provider
    {
      && journal.Valid() && provider.Valid()
      && VerdictsHold(journal.events, provider.files, provider.workers)
      && AllPrompted(provider.files, journal.log)
    }

    /** The journal only grows, and the provider's records and processes only evolve. */
    twostate predicate Advances()
      reads this, journal, provider
    {
      && old(journal.log) <= journal.log
      && Codex.Evolves(old(provider.files), old(provider.workers), provider.files, provider.workers)
    }

    constructor ()
      ensures Valid() && fresh(journal) && fresh(provider) && journal.log == []
    {
      journal := new AttemptJournal();
      provider := new Codex.CodexExecProvider();
    }

    /** The result is the journal's present record of `a`. */
    ghost predicate Answers(r: Result, a: Id)
      reads this, journal
    {
      r.Returned? ==> journal.Reads(r.record, a)
    }

    lemma NoRowNoState(a: Id)
      requires Valid() && a !in journal.rows
      ensures StateOf(journal.log, a) == None
    {
      if StateOf(journal.log, a).Some? {
        StateExists(journal.log, a);
        journal.RowFound(a);
      }
    }

    method Reread(a: Id) returns (r: Result)
      requires Valid()
      ensures Answers(r, a) && (a in journal.rows ==> r.Returned?)
    {
      var record := journal.GetAttempt(a);
      return if record.Some? then Returned(record.value) else Raised(NoAttempt);
    }

    /** One append, then the record as it now stands. */
    method Append(a: Id, record: Record, e: Event) returns (r: Result)
      requires Valid() && journal.Reads(record, a) && e.attempt == a
      requires Writes(journal.log, record.state, record.ref, e)
      requires VerdictHolds(e, provider.files, provider.workers)
      modifies journal`events, journal`log
      ensures Valid() && OnlyOwn(old(journal.log), journal.log, a) && Answers(r, a)
      ensures NoLaunchSince(journal.log, |old(journal.log)|)
      ensures journal.log == old(journal.log) + [Appended(e)] || journal.log == old(journal.log)
      ensures r.Returned? ==> e in journal.events
      ensures r.Returned? && !HasKey(old(journal.events), e.key) ==> journal.log == old(journal.log) + [Appended(e)]
      ensures !e.key.Revocation? ==> Quiet(journal.log, |old(journal.log)|)
      ensures r.Returned? || r == Crashed || r == Raised(JournalConflict)
      ensures Conflicts(old(journal.events), journal.events, e, r)
    {
      var failed := Store(a, record, e);
      OneAppend(old(journal.log), journal.log, a, e);
      if failed.Some? {
        return failed.value;
      }
      r := Reread(a);
    }

    /** The insert, with a crash before or after it, or its conflict. */
    method Store(a: Id, record: Record, e: Event) returns (failed: Option<Result>)
      requires Valid() && journal.Reads(record, a) && e.attempt == a
      requires Writes(journal.log, record.state, record.ref, e)
      requires VerdictHolds(e, provider.files, provider.workers)
      modifies journal`events, journal`log
      ensures Valid() && (failed.Some? ==> failed.value == Crashed || failed.value == Raised(JournalConflict))
      ensures failed.Some? ==> Conflicts(old(journal.events), journal.events, e, failed.value)
      ensures failed.None? ==> !Clashes(old(journal.events), e)
      ensures journal.log == old(journal.log) + [Appended(e)] || journal.log == old(journal.log)
      ensures failed.None? ==> e in journal.events
      ensures failed.None? && !HasKey(old(journal.events), e.key) ==>
        journal.log == old(journal.log) + [Appended(e)] && journal.events == old(journal.events) + [e]
      ensures failed.None? && HasKey(old(journal.events), e.key) ==> journal.events == old(journal.events)
    {
      var crashed := Chance();
      if crashed {
        return Some(Crashed);
      }
      journal.StateFound(a);
      VerdictsPush(journal.events, e, provider.files, provider.workers);
      PromptedLater(provider.files, journal.log, journal.log + [Appended(e)]);
      var stored := journal.AppendEvent(e);
      if stored == Conflict {
        return Some(Raised(JournalConflict));
      }
      crashed := Chance();
      return if crashed then Some(Crashed) else None;
    }

    method RecordUnknown(a: Id, record: Record, c: Call, code: string) returns (r: Result)
      requires Valid() && journal.Reads(record, a) && Observable(record.state, Some(c))
      modifies journal`events, journal`log
      ensures Valid() && OnlyOwn(old(journal.log), journal.log, a) && Answers(r, a)
      ensures Quiet(journal.log, |old(journal.log)|)
      ensures r.Returned? ==> r.record.state == Unknown
      ensures Conflicts(old(journal.events), journal.events, LostEvent(a, record.ref, Some(c), code), r)
    {
      var e := LostEvent(a, record.ref, Some(c), code);
      r := Append(a, record, e);
      if r.Returned? {
        UnknownStays(old(journal.log), journal.log, e);
      }
    }

    /** The observation is of another provider, or under another reference than the journal's. */
    ghost predicate Disagrees(record: Record, o: Observation) {
      o.provider != record.intent.operational.provider || (record.ref.Some? && o.ref != record.ref.value)
    }

    method RecordMismatch(a: Id, record: Record, origin: Origin) returns (r: Result)
      requires Valid() && journal.Reads(record, a) && Observable(record.state, origin)
      modifies journal`events, journal`log
      ensures Valid() && OnlyOwn(old(journal.log), journal.log, a) && Answers(r, a)
      ensures Quiet(journal.log, |old(journal.log)|)
      ensures journal.log == old(journal.log) || journal.log == old(journal.log) + [Appended(MismatchEvent(a, origin))]
      ensures Conflicts(old(journal.events), journal.events, MismatchEvent(a, origin), r)
      ensures r.Returned? ==> MismatchEvent(a, origin) in journal.events
      ensures r.Returned? && record.state != Fenced ==> r.record.state == Unknown
    {
      r := Append(a, record, MismatchEvent(a, origin));
      if r.Returned? && record.state != Fenced {
        UnknownStays(old(journal.log), journal.log, MismatchEvent(a, origin));
      }
    }

    method ApplyObservation(a: Id, record: Record, o: Observation, origin: Origin) returns (r: Result)
      requires Valid() && journal.Reads(record, a) && Observable(record.state, origin)
      requires origin.Some? ==> OutcomeHolds(Codex.Observed(o), provider.files, provider.workers, a)
      modifies journal`events, journal`log
      ensures Valid() && OnlyOwn(old(journal.log), journal.log, a) && Answers(r, a)
      ensures Quiet(journal.log, |old(journal.log)|)
      ensures journal.log == old(journal.log) || journal.log == old(journal.log) + [Appended(
                ObservedEvent(a, record.intent.operational.provider, record.state, record.ref, o, origin))]
      ensures Conflicts(old(journal.events), journal.events,
                ObservedEvent(a, record.intent.operational.provider, record.state, record.ref, o, origin), r)
      ensures r.Returned? ==>
                ObservedEvent(a, record.intent.operational.provider, record.state, record.ref, o, origin) in journal.events
      ensures r.Returned? && record.state != Fenced && Disagrees(record, o) ==> r.record.state == Unknown
    {
      if o.provider != record.intent.operational.provider || (record.ref.Some? && o.ref != record.ref.value) {
        r := RecordMismatch(a, record, origin);
        return;
      }
      var unsealed := Chance();
      if unsealed {
        return Raised(Contract);
      }
      OutcomeRecorded(a, record.state, origin, o, provider.files, provider.workers);
      r := Append(a, record, ObservationEvent(a, record.state, origin, o));
    }

    method CallProvider(a: Id, record: Record, c: Call) returns (outcome: Codex.Outcome)
      requires Valid() && c != Launch && Takes(journal.log, Called(c, a)) && journal.Reads(record, a)
      modifies journal`log, provider
      ensures Valid() && Advances() && journal.log == old(journal.log) + [Called(c, a)]
      ensures journal.Reads(record, a)
      ensures OutcomeHolds(outcome, provider.files, provider.workers, a)
      ensures outcome.Observed? ==>
        Codex.Tells(old(provider.files), old(provider.workers), provider.files, provider.workers, a, outcome.observation)
      ensures outcome.Observed? && outcome.observation.state == ProviderRunning ==>
        outcome.observation.detail ==
          match c { case Cancel => CancelAsked case Stop => StopAsked case _ => WorkerRunning }
    {
      journal.Note(c, a);
      EventsPush(old(journal.log), Called(c, a));
      PromptedLater(provider.files, old(journal.log), journal.log);
      outcome := Ask(a, record, c);
    }

    /** The provider's answer to a call that the journal knows. */
    method Ask(a: Id, record: Record, c: Call) returns (outcome: Codex.Outcome)
      requires Valid() && c != Launch && Called(c, a) in journal.log && journal.Reads(record, a)
      modifies provider
      ensures Valid() && Advances() && OutcomeHolds(outcome, provider.files, provider.workers, a)
      ensures outcome.Observed? ==>
        Codex.Tells(old(provider.files), old(provider.workers), provider.files, provider.workers, a, outcome.observation)
      ensures outcome.Observed? && outcome.observation.state == ProviderRunning ==>
        outcome.observation.detail ==
          match c { case Cancel => CancelAsked case Stop => StopAsked case _ => WorkerRunning }
    {
      ghost var f, w := provider.files, provider.workers;
      if c == Call.Reconcile {
        outcome := provider.Reconcile(a, record.intent.operational.rest, record.ref);
      } else {
        outcome := provider.RequestControl(a, record.intent.operational.rest, record.ref,
          if c == Cancel then Codex.CancelAction else Codex.ForceStopAction);
      }
      PromptedNow(f, provider.files, journal.log);
      VerdictsStay(journal.events, f, w, provider.files, provider.workers);
    }

    /** Reconciles an Attempt in flight; `outcome` is what the provider made of it. An unregistered provider
        counts as any other error. */
    method Reconcile(a: Id) returns (r: Result, ghost outcome: Option<Codex.Outcome>)
      requires Valid()
      modifies journal`events, journal`log, provider
      ensures Valid() && Advances() && OnlyOwn(old(journal.log), journal.log, a) && Answers(r, a)
      ensures Quiet(journal.log, |old(journal.log)|)
      ensures a in journal.rows && !InFlight(old(journal.log), a) ==> r.Returned? && journal.log == old(journal.log)
      ensures a in journal.rows && InFlight(old(journal.log), a)
                && journal.rows[a].intent.operational.provider == Codex.PROVIDER_ID ==>
              |old(journal.log)| < |journal.log| && journal.log[|old(journal.log)|] == Called(Call.Reconcile, a)
      ensures outcome.Some? <==>
                && a in journal.rows
                && (Acting(old(StateOf(journal.log, a))) || old(StateOf(journal.log, a)) == Some(Unknown))
      ensures outcome.Some? ==>
                Concludes(old(journal.events), journal.events,
                          ConcludedEvent(a, journal.rows[a].intent.operational.provider, old(StateOf(journal.log, a)).value,
                                         old(RefOf(journal.log, a)), Call.Reconcile, outcome.value), r)
      ensures outcome.None? ==> r.Returned? || r == Raised(NoAttempt)
      ensures outcome.Some? && outcome.value.Observed? ==>
                Codex.Tells(old(provider.files), old(provider.workers), provider.files, provider.workers, a,
                            outcome.value.observation)
      ensures outcome.Some? && r.Returned? ==>
                match outcome.value {
                  case Observed(o) =>
                    if o.provider != journal.rows[a].intent.operational.provider
                       || (old(RefOf(journal.log, a)).Some? && old(RefOf(journal.log, a)) != Some(o.ref))
                    then r.record.state == Unknown
                    else if HasKey(old(journal.events), Seen(Some(Call.Reconcile), a, o)) then
                      r.record.state == old(StateOf(journal.log, a)).value && journal.events == old(journal.events)
                    else if old(StateOf(journal.log, a)) == Some(Unknown) then r.record.state == Unknown
                    else match o.state {
                      case ProviderRunning =>
                        if old(StateOf(journal.log, a)) == Some(CancelRequested) then r.record.state == CancelRequested
                        else if old(StateOf(journal.log, a)) == Some(ForceStopRequested) then
                          r.record.state == ForceStopRequested
                        else r.record.state == Running
                      case ProviderSucceeded => r.record.state == Succeeded
                      case ProviderFailed => r.record.state == Failed
                      case ProviderCancelled => r.record.state == Cancelled
                      case ProviderForceStopped => r.record.state == ForceStopped
                      case NotFound => r.record.state == Unknown
                      case ProviderUnknown => r.record.state == Unknown
                    }
                  case _ => r.record.state == Unknown
                }
    {
      var found := journal.GetAttempt(a);
      if found.None? {
        NoRowNoState(a);
        return Raised(NoAttempt), None;
      }
      var record := found.value;
      if !Active(record.state) && record.state != Unknown {
        return Returned(record), None;
      }
      r, outcome := ReconcileInFlight(a, record);
    }

    method ReconcileInFlight(a: Id, record: Record) returns (r: Result, ghost outcome: Option<Codex.Outcome>)
      requires Valid() && journal.Reads(record, a) && (Active(record.state) || record.state == Unknown)
      modifies journal`events, journal`log, provider
      ensures Valid() && Advances() && OnlyOwn(old(journal.log), journal.log, a) && Answers(r, a)
      ensures Quiet(journal.log, |old(journal.log)|)
      ensures record.intent.operational.provider == Codex.PROVIDER_ID ==>
                |old(journal.log)| < |journal.log| && journal.log[|old(journal.log)|] == Called(Call.Reconcile, a)
      ensures outcome.Some?
      ensures Concludes(old(journal.events), journal.events,
                ConcludedEvent(a, record.intent.operational.provider, record.state, record.ref, Call.Reconcile,
                               outcome.value), r)
      ensures r.Returned? && !outcome.value.Observed? ==> r.record.state == Unknown
      ensures r.Returned? && outcome.value.Observed? && Disagrees(record, outcome.value.observation) ==>
                r.record.state == Unknown
      ensures r.Returned? && outcome.value.Observed? && !Disagrees(record, outcome.value.observation) ==>
                ReturnedAs(old(journal.events), journal.events, a, record.state, outcome.value.observation,
                           Some(Call.Reconcile), r.record.state)
      ensures outcome.value.Observed? ==>
                Codex.Tells(old(provider.files), old(provider.workers), provider.files, provider.workers, a,
                            outcome.value.observation)
    {
      if record.intent.operational.provider != Codex.PROVIDER_ID {
        r := RecordUnknown(a, record, Call.Reconcile, OtherCode(Call.Reconcile));
        return r, Some(Codex.OtherError);
      }
      r, outcome := AskProvider(a, record);
      if r.Returned? && outcome.value.Observed? && !Disagrees(record, outcome.value.observation) {
        ReturnedObservation(old(journal.events), journal.events, a, record.intent.operational.provider, record.state,
                            record.ref, outcome.value.observation, Some(Call.Reconcile), r);
      }
    }

    method AskProvider(a: Id, record: Record) returns (r: Result, ghost outcome: Option<Codex.Outcome>)
      requires Valid() && journal.Reads(record, a) && (Active(record.state) || record.state == Unknown)
      modifies journal`events, journal`log, provider
      ensures Valid() && Advances() && OnlyOwn(old(journal.log), journal.log, a) && Answers(r, a)
      ensures Quiet(journal.log, |old(journal.log)|)
      ensures |old(journal.log)| < |journal.log| && journal.log[|old(journal.log)|] == Called(Call.Reconcile, a)
      ensures outcome.Some?
      ensures Concludes(old(journal.events), journal.events,
                ConcludedEvent(a, record.intent.operational.provider, record.state, record.ref, Call.Reconcile,
                               outcome.value), r)
      ensures r.Returned? && !outcome.value.Observed? ==> r.record.state == Unknown
      ensures r.Returned? && outcome.value.Observed? && Disagrees(record, outcome.value.observation) ==>
                r.record.state == Unknown
      ensures outcome.value.Observed? ==>
                Codex.Tells(old(provider.files), old(provider.workers), provider.files, provider.workers, a,
                            outcome.value.observation)
    {
      var answer := CallProvider(a, record, Call.Reconcile);
      ghost var called := journal.log;
      r := Conclude(a, record, Call.Reconcile, answer);
      AfterCall(old(journal.log), called, journal.log, a, Call.Reconcile);
      assert journal.log[|old(journal.log)|] == called[|old(journal.log)|];
      outcome := Some(answer);
    }

    /** What the adapter records of a provider outcome; a rejected reconcile counts as any exception. */
    method Conclude(a: Id, record: Record, c: Call, outcome: Codex.Outcome) returns (r: Result)
      requires Valid() && journal.Reads(record, a) && Observable(record.state, Some(c))
      requires c != Call.Reconcile ==> !outcome.Rejected?
      requires OutcomeHolds(outcome, provider.files, provider.workers, a)
      modifies journal`events, journal`log
      ensures Valid() && OnlyOwn(old(journal.log), journal.log, a) && Answers(r, a)
      ensures Quiet(journal.log, |old(journal.log)|)
      ensures r.Returned? && !outcome.Observed? ==> r.record.state == Unknown
      ensures Concludes(old(journal.events), journal.events,
                ConcludedEvent(a, record.intent.operational.provider, record.state, record.ref, c, outcome), r)
      ensures r.Returned? && outcome.Observed? ==>
                ObservedEvent(a, record.intent.operational.provider, record.state, record.ref, outcome.observation,
                              Some(c)) in journal.events
      ensures r.Returned? && outcome.Observed? && Disagrees(record, outcome.observation) ==> r.record.state == Unknown
    {
      match outcome
      case Observed(o) => r := ApplyObservation(a, record, o, Some(c));
      case EffectUnknown(code) => r := RecordUnknown(a, record, c, code);
      case Stopped => r := Crashed;
      case _ => r := RecordUnknown(a, record, c, OtherCode(c));
    }

    method ControlUnsent(a: Id, record: Record, c: Call) returns (r: Result)
      requires Valid() && Controls(c) && journal.Reads(record, a) && record.state == Prepared
      modifies journal`events, journal`log
      ensures Valid() && OnlyOwn(old(journal.log), journal.log, a) && Answers(r, a)
      ensures Quiet(journal.log, |old(journal.log)|)
      ensures r.Returned? ==> r.record.state == SettledState(c)
    {
      var e := Plain(Unsent(c, a), a, SettledState(c), record.ref, NoEffect);
      r := Append(a, record, e);
      if r.Returned? {
        SettledStays(old(journal.log), journal.log, a, e);
      }
    }

    /** The intent is durable before the provider is asked; `outcome` is what the request came to. */
    method SendControl(a: Id, record: Record, c: Call) returns (r: Result, ghost outcome: Option<Codex.Outcome>)
      requires Valid() && Controls(c) && journal.Reads(record, a) && Active(record.state)
      requires !HasKey(journal.events, Requested(c, a))
      modifies journal`events, journal`log, provider
      ensures Valid() && Advances() && OnlyOwn(old(journal.log), journal.log, a) && Answers(r, a)
      ensures Quiet(journal.log, |old(journal.log)|)
      ensures r.Returned? ==> HasKey(journal.events, Requested(c, a)) && outcome.Some?
      ensures r.Returned? && record.intent.operational.provider == Codex.PROVIDER_ID ==> Called(c, a) in journal.log
      ensures outcome.Some? ==>
                Concludes(old(journal.events) + [ControlIntent(c, a, record.ref)], journal.events,
                  ControlledEvent(a, record.intent.operational.provider, c, record.ref, outcome.value), r)
    {
      outcome := None;
      r := RequestIntent(a, record, c);
      if !r.Returned? {
        return;
      }
      ghost var sent := journal.log;
      ghost var came;
      r, came := DeliverControl(a, r.record, c);
      outcome := Some(came);
      OnlyOwnChain(old(journal.log), sent, journal.log, a);
      KeyKept(sent, journal.log, Requested(c, a));
    }

    method RequestIntent(a: Id, record: Record, c: Call) returns (r: Result)
      requires Valid() && Controls(c) && journal.Reads(record, a) && Active(record.state)
      requires !HasKey(journal.events, Requested(c, a))
      modifies journal`events, journal`log
      ensures Valid() && OnlyOwn(old(journal.log), journal.log, a) && Answers(r, a)
      ensures Quiet(journal.log, |old(journal.log)|)
      ensures r.Returned? ==>
                && journal.events == old(journal.events) + [ControlIntent(c, a, record.ref)]
                && HasKey(journal.events, Requested(c, a)) && LastKey(journal.log, Requested(c, a))
                && r.record.state == RequestedState(c) && r.record.ref == record.ref
    {
      var e := ControlIntent(c, a, record.ref);
      r := Append(a, record, e);
      EventsPush(old(journal.log), Appended(e));
      if r.Returned? {
        AppendedEvent(journal.log, |journal.log| - 1);
      }
    }

    /** The one provider call of a durable control request. */
    method DeliverControl(a: Id, record: Record, c: Call) returns (r: Result, ghost outcome: Codex.Outcome)
      requires Valid() && Controls(c) && journal.Reads(record, a) && record.state == RequestedState(c)
      requires LastKey(journal.log, Requested(c, a))
      modifies journal`events, journal`log, provider
      ensures Valid() && Advances() && OnlyOwn(old(journal.log), journal.log, a) && Answers(r, a)
      ensures Quiet(journal.log, |old(journal.log)|)
      ensures record.intent.operational.provider == Codex.PROVIDER_ID ==> Called(c, a) in journal.log
      ensures Concludes(old(journal.events), journal.events,
                ControlledEvent(a, record.intent.operational.provider, c, record.ref, outcome), r)
    {
      if record.intent.operational.provider != Codex.PROVIDER_ID {
        r := RefuseControl(a, record, c);
        outcome := Codex.OtherError;
      } else {
        r, outcome := AskControl(a, record, c);
      }
    }

    /** An unregistered provider counts as any other error. */
    method RefuseControl(a: Id, record: Record, c: Call) returns (r: Result)
      requires Valid() && Controls(c) && journal.Reads(record, a) && record.state == RequestedState(c)
      modifies journal`events, journal`log
      ensures Valid() && OnlyOwn(old(journal.log), journal.log, a) && Answers(r, a)
      ensures Quiet(journal.log, |old(journal.log)|)
      ensures Concludes(old(journal.events), journal.events,
                ControlledEvent(a, record.intent.operational.provider, c, record.ref, Codex.OtherError), r)
    {
      r := RecordUnknown(a, record, c, OtherCode(c));
    }

    method AskControl(a: Id, record: Record, c: Call) returns (r: Result, ghost outcome: Codex.Outcome)
      requires Valid() && Controls(c) && journal.Reads(record, a) && record.state == RequestedState(c)
      requires LastKey(journal.log, Requested(c, a))
      modifies journal`events, journal`log, provider
      ensures Valid() && Advances() && OnlyOwn(old(journal.log), journal.log, a) && Answers(r, a)
      ensures Quiet(journal.log, |old(journal.log)|) && Called(c, a) in journal.log
      ensures Concludes(old(journal.events), journal.events,
                ControlledEvent(a, record.intent.operational.provider, c, record.ref, outcome), r)
    {
      var answer := CallProvider(a, record, c);
      ghost var called := journal.log;
      r := SettleControl(a, record, c, answer);
      AfterCall(old(journal.log), called, journal.log, a, c);
      assert journal.log[|old(journal.log)|] == called[|old(journal.log)|];
      outcome := answer;
    }

    method SettleControl(a: Id, record: Record, c: Call, outcome: Codex.Outcome) returns (r: Result)
      requires Valid() && Controls(c) && journal.Reads(record, a) && record.state == RequestedState(c)
      requires OutcomeHolds(outcome, provider.files, provider.workers, a)
      modifies journal`events, journal`log
      ensures Valid() && OnlyOwn(old(journal.log), journal.log, a) && Answers(r, a)
      ensures Quiet(journal.log, |old(journal.log)|)
      ensures Concludes(old(journal.events), journal.events,
                ControlledEvent(a, record.intent.operational.provider, c, record.ref, outcome), r)
    {
      if outcome.Rejected? {
        r := Append(a, record, RejectionEvent(a, c, record.ref, outcome.code));
      } else {
        r := Conclude(a, record, c, outcome);
      }
    }

    /** Cancel and force-stop: a settled mark before any effect, at most one request after. */
    method Control(a: Id, c: Call) returns (r: Result, ghost outcome: Option<Codex.Outcome>)
      requires Valid() && Controls(c)
      modifies journal`events, journal`log, provider
      ensures Valid() && Advances() && OnlyOwn(old(journal.log), journal.log, a) && Answers(r, a)
      ensures Quiet(journal.log, |old(journal.log)|)
      ensures old(StateOf(journal.log, a)) == Some(Unknown) ==> r == Raised(Blocked) && journal.log == old(journal.log)
      ensures old(StateOf(journal.log, a)) == Some(Prepared) && r.Returned? ==> r.record.state == SettledState(c)
      ensures old(StateOf(journal.log, a)).Some? && Active(old(StateOf(journal.log, a)).value) && r.Returned? ==>
                HasKey(journal.events, Requested(c, a))
      ensures a in journal.rows && old(StateOf(journal.log, a)).Some? && Active(old(StateOf(journal.log, a)).value)
                && !HasKey(old(journal.events), Requested(c, a)) && r.Returned? ==>
              && outcome.Some?
              && (journal.rows[a].intent.operational.provider == Codex.PROVIDER_ID ==> Called(c, a) in journal.log)
      ensures outcome.Some? ==>
                && a in journal.rows
                && Concludes(old(journal.events) + [ControlIntent(c, a, old(RefOf(journal.log, a)))], journal.events,
                     ControlledEvent(a, journal.rows[a].intent.operational.provider, c, old(RefOf(journal.log, a)),
                                     outcome.value), r)
    {
      outcome := None;
      var found := journal.GetAttempt(a);
      if found.None? {
        NoRowNoState(a);
        return Raised(NoAttempt), None;
      }
      var record := found.value;
      if record.state == Prepared {
        r := ControlUnsent(a, record, c);
      } else if record.state == Unknown {
        r := Raised(Blocked);
      } else if !Active(record.state) {
        r := Returned(record);
      } else {
        var earlier := journal.FindKey(Requested(c, a));
        if earlier.Some? {
          ghost var seen;
          r, seen := Reconcile(a);
          KeyKept(old(journal.log), journal.log, Requested(c, a));
        } else {
          r, outcome := SendControl(a, record, c);
        }
      }
    }

    method RequestCancel(a: Id) returns (r: Result, ghost outcome: Option<Codex.Outcome>)
      requires Valid()
      modifies journal`events, journal`log, provider
      ensures Valid() && Advances() && OnlyOwn(old(journal.log), journal.log, a) && Answers(r, a)
      ensures Quiet(journal.log, |old(journal.log)|)
      ensures old(StateOf(journal.log, a)) == Some(Unknown) ==> r == Raised(Blocked) && journal.log == old(journal.log)
      ensures old(StateOf(journal.log, a)) == Some(Prepared) && r.Returned? ==> r.record.state == Cancelled
      ensures Acting(old(StateOf(journal.log, a))) && r.Returned? ==> HasKey(journal.events, CancelKey(a))
      ensures a in journal.rows && Acting(old(StateOf(journal.log, a)))
                && !HasKey(old(journal.events), CancelKey(a)) && r.Returned? ==>
              && outcome.Some?
              && (journal.rows[a].intent.operational.provider == Codex.PROVIDER_ID ==> Called(Cancel, a) in journal.log)
      ensures outcome.Some? ==>
                && a in journal.rows
                && Concludes(old(journal.events) + [ControlIntent(Cancel, a, old(RefOf(journal.log, a)))], journal.events,
                     ControlledEvent(a, journal.rows[a].intent.operational.provider, Cancel, old(RefOf(journal.log, a)),
                                     outcome.value), r)
    {
      r, outcome := Control(a, Cancel);
    }

    method ForceStop(a: Id) returns (r: Result, ghost outcome: Option<Codex.Outcome>)
      requires Valid()
      modifies journal`events, journal`log, provider
      ensures Valid() && Advances() && OnlyOwn(old(journal.log), journal.log, a) && Answers(r, a)
      ensures Quiet(journal.log, |old(journal.log)|)
      ensures old(StateOf(journal.log, a)) == Some(Unknown) ==> r == Raised(Blocked) && journal.log == old(journal.log)
      ensures old(StateOf(journal.log, a)) == Some(Prepared) && r.Returned? ==> r.record.state == ForceStopped
      ensures Acting(old(StateOf(journal.log, a))) && r.Returned? ==> HasKey(journal.events, StopKey(a))
      ensures a in journal.rows && Acting(old(StateOf(journal.log, a)))
                && !HasKey(old(journal.events), StopKey(a)) && r.Returned? ==>
              && outcome.Some?
              && (journal.rows[a].intent.operational.provider == Codex.PROVIDER_ID ==> Called(Stop, a) in journal.log)
      ensures outcome.Some? ==>
                && a in journal.rows
                && Concludes(old(journal.events) + [ControlIntent(Stop, a, old(RefOf(journal.log, a)))], journal.events,
                     ControlledEvent(a, journal.rows[a].intent.operational.provider, Stop, old(RefOf(journal.log, a)),
                                     outcome.value), r)
    {
      r, outcome := Control(a, Stop);
    }

    // ---- Dispatch

    /** A prepared Attempt whose fence is active is launched, once; anything later only reconciles.
        `outcome` is what the launch came to. */
    method Dispatch(a: Id) returns (r: Result, ghost outcome: Option<Codex.Outcome>)
      requires Valid()
      modifies journal`events, journal`log, provider
      ensures Valid() && Advances() && OnlyOwn(old(journal.log), journal.log, a) && Answers(r, a)
      ensures r.Returned? ==> r.record.state != Prepared
      ensures old(StateOf(journal.log, a)) != Some(Prepared) ==> NoLaunchSince(journal.log, |old(journal.log)|)
      ensures a in journal.rows && !journal.FenceActive(journal.rows[a].fence) ==>
                NoLaunchSince(journal.log, |old(journal.log)|)
      ensures a in journal.rows && !journal.FenceActive(journal.rows[a].fence)
                && old(StateOf(journal.log, a)) == Some(Prepared) && r.Returned? ==>
              r.record.state == Fenced
      ensures a in journal.rows && journal.FenceActive(journal.rows[a].fence)
                && journal.fences[journal.rows[a].fence].provider == journal.rows[a].intent.operational.provider
                && journal.fences[journal.rows[a].fence].binding == journal.rows[a].intent.operational.binding
                && old(StateOf(journal.log, a)) == Some(Prepared) && r.Returned? ==>
              outcome.Some? && HasKey(journal.events, LaunchKey(a))
      ensures outcome.Some? && r.Returned? && journal.rows[a].intent.operational.provider == Codex.PROVIDER_ID ==>
              Called(Launch, a) in journal.log
      ensures outcome.Some? ==>
                && a in journal.rows && old(StateOf(journal.log, a)) == Some(Prepared)
                && journal.FenceActive(journal.rows[a].fence)
                && journal.fences[journal.rows[a].fence].provider == journal.rows[a].intent.operational.provider
                && journal.fences[journal.rows[a].fence].binding == journal.rows[a].intent.operational.binding
                && Concludes(old(journal.events) + [LaunchIntent(a)], journal.events,
                     LaunchedEvent(a, journal.rows[a].intent.operational.provider, outcome.value), r)
      ensures outcome.Some? && r.Returned? ==>
                match outcome.value {
                  case Rejected(_) => r.record.state == Failed
                  case Observed(o) =>
                    && r.record.state == Running
                    && o == Observation("codex_exec", "codex:" + a, ProviderRunning, WorkerRunning, "")
                    && |provider.workers| == |old(provider.workers)| + 1
                  case _ => r.record.state == Unknown
                }
    {
      outcome := None;
      var found := journal.GetAttempt(a);
      if found.None? {
        return Raised(NoAttempt), None;
      }
      var record := found.value;
      if record.state != Prepared {
        r := DispatchAgain(a, record);
      } else if record.fence !in journal.fences {
        r := Raised(Contract);
      } else if !journal.FenceActive(record.fence) || !Matches(journal.fences[record.fence], record.intent) {
        r := FenceBeforeEffect(a, record);
      } else {
        r, outcome := LaunchPrepared(a, record);
      }
    }

    method DispatchAgain(a: Id, record: Record) returns (r: Result)
      requires Valid() && journal.Reads(record, a) && record.state != Prepared
      modifies journal`events, journal`log, provider
      ensures Valid() && Advances() && OnlyOwn(old(journal.log), journal.log, a) && Answers(r, a)
      ensures NoLaunchSince(journal.log, |old(journal.log)|)
      ensures r.Returned? ==> r.record.state != Prepared
    {
      if Active(record.state) || record.state == Unknown {
        ghost var outcome;
        r, outcome := Reconcile(a);
        NeverPreparedAgain(old(journal.log), journal.log, a);
      } else {
        r := Returned(record);
      }
    }

    predicate Matches(f: Fence, i: Intent) {
      f.provider == i.operational.provider && f.binding == i.operational.binding
    }

    method FenceBeforeEffect(a: Id, record: Record) returns (r: Result)
      requires Valid() && journal.Reads(record, a) && record.state == Prepared
      modifies journal`events, journal`log
      ensures Valid() && OnlyOwn(old(journal.log), journal.log, a) && Answers(r, a)
      ensures NoLaunchSince(journal.log, |old(journal.log)|)
      ensures r.Returned? ==> r.record.state == Fenced
    {
      var e := Plain(DispatchFenced(a), a, Fenced, record.ref, NoEffect);
      r := Append(a, record, e);
      if r.Returned? {
        SettledStays(old(journal.log), journal.log, a, e);
      }
    }

    /** The launch intent becomes durable, then the provider is called. */
    method LaunchPrepared(a: Id, record: Record) returns (r: Result, ghost outcome: Option<Codex.Outcome>)
      requires Valid() && journal.Reads(record, a) && record.state == Prepared && journal.FenceActive(record.fence)
      modifies journal`events, journal`log, provider
      ensures Valid() && Advances() && OnlyOwn(old(journal.log), journal.log, a) && Answers(r, a)
      ensures r.Returned? ==> HasKey(journal.events, LaunchKey(a)) && r.record.state != Prepared && outcome.Some?
      ensures r.Returned? && record.intent.operational.provider == Codex.PROVIDER_ID ==> Called(Launch, a) in journal.log
      ensures outcome.Some? ==>
                && FirstLaunch(outcome.value, a, record, old(|provider.workers|), |provider.workers|)
                && Concludes(old(journal.events) + [LaunchIntent(a)], journal.events,
                     LaunchedEvent(a, record.intent.operational.provider, outcome.value), r)
      ensures outcome.Some? && r.Returned? ==>
                r.record.state ==
                  if outcome.value.Rejected? then Failed else if outcome.value.Observed? then Running else Unknown
    {
      outcome := None;
      var unverified := Chance();
      if unverified {
        return Raised(Contract), None;
      }
      PreparedNoRef(journal.log, a);
      r := RequestLaunch(a, record);
      if !r.Returned? {
        return;
      }
      ghost var requested := journal.log;
      r, outcome := ProceedLaunch(a, r.record);
      OnlyOwnChain(old(journal.log), requested, journal.log, a);
      if r.Returned? && (outcome.value.Rejected? || outcome.value.Observed?) {
        SettledLaunch(old(journal.log), journal.log, a, outcome.value, r);
      }
    }

    /** Only the registered provider rejects or observes, and what it observes is the worker it has just started. */
    ghost predicate FirstLaunch(outcome: Codex.Outcome, a: Id, record: Record, before: nat, after: nat) {
      && (outcome.Rejected? || outcome.Observed? ==> record.intent.operational.provider == Codex.PROVIDER_ID)
      && (outcome.Observed? ==>
        && outcome.observation == Observation("codex_exec", "codex:" + a, ProviderRunning, WorkerRunning, "")
        && after == before + 1)
    }

    method RequestLaunch(a: Id, record: Record) returns (r: Result)
      requires Valid() && journal.Reads(record, a) && record.state == Prepared && journal.FenceActive(record.fence)
      modifies journal`events, journal`log
      ensures Valid() && OnlyOwn(old(journal.log), journal.log, a) && Answers(r, a)
      ensures r.Returned? ==>
                && r.record.state == LaunchRequested && r.record.ref == record.ref
                && LastKey(journal.log, LaunchKey(a)) && journal.events == old(journal.events) + [LaunchIntent(a)]
    {
      KeyFresh(journal.log, a, LaunchKey(a));
      journal.StateFound(a);
      var e := LaunchIntent(a);
      r := Append(a, record, e);
      EventsPush(old(journal.log), Appended(e));
    }

    method ProceedLaunch(a: Id, record: Record) returns (r: Result, ghost outcome: Option<Codex.Outcome>)
      requires Valid() && journal.Reads(record, a) && record.state == LaunchRequested && record.ref == None
      requires LastKey(journal.log, LaunchKey(a))
      modifies journal`events, journal`log, provider
      ensures Valid() && Advances() && OnlyOwn(old(journal.log), journal.log, a) && Answers(r, a)
      ensures r.Returned? ==> HasKey(journal.events, LaunchKey(a)) && r.record.state != Prepared && outcome.Some?
      ensures r.Returned? && record.intent.operational.provider == Codex.PROVIDER_ID ==> Called(Launch, a) in journal.log
      ensures outcome.Some? ==>
                && FirstLaunch(outcome.value, a, record, old(|provider.workers|), |provider.workers|)
                && Concludes(old(journal.events), journal.events,
                     LaunchedEvent(a, record.intent.operational.provider, outcome.value), r)
      ensures outcome.Some? && r.Returned? && !outcome.value.Rejected? && !outcome.value.Observed? ==>
                r.record.state == Unknown
    {
      outcome := None;
      var unverified := Chance();
      if unverified {
        return Raised(Contract), None;
      }
      AppendedEvent(journal.log, |journal.log| - 1);
      ghost var came;
      r, came := DeliverLaunch(a, record);
      outcome := Some(came);
      KeyKept(old(journal.log), journal.log, LaunchKey(a));
      LaunchedNotPrepared(journal.log, a);
    }

    lemma LaunchedNotPrepared(log: Log, a: Id)
      requires Legal(log) && HasKey(Events(log), LaunchKey(a))
      ensures StateOf(log, a) != Some(Prepared)
    {
      if StateOf(log, a) == Some(Prepared) {
        KeyFresh(log, a, LaunchKey(a));
      }
    }

    method DeliverLaunch(a: Id, record: Record) returns (r: Result, ghost outcome: Codex.Outcome)
      requires Valid() && journal.Reads(record, a) && record.state == LaunchRequested && record.ref == None
      requires LastKey(journal.log, LaunchKey(a))
      modifies journal`events, journal`log, provider
      ensures Valid() && Advances() && OnlyOwn(old(journal.log), journal.log, a) && Answers(r, a)
      ensures record.intent.operational.provider == Codex.PROVIDER_ID ==> Called(Launch, a) in journal.log
      ensures FirstLaunch(outcome, a, record, old(|provider.workers|), |provider.workers|)
      ensures Concludes(old(journal.events), journal.events,
                LaunchedEvent(a, record.intent.operational.provider, outcome), r)
      ensures r.Returned? && !outcome.Rejected? && !outcome.Observed? ==> r.record.state == Unknown
    {
      if record.intent.operational.provider != Codex.PROVIDER_ID {
        r := RecordUnknown(a, record, Launch, OtherCode(Launch));
        return r, Codex.OtherError;
      }
      var answer := CallLaunch(a, record);
      ghost var called := journal.log;
      r := SettleLaunch(a, record, answer);
      AfterLaunch(old(journal.log), called, journal.log, a);
      outcome := answer;
    }

    method CallLaunch(a: Id, record: Record) returns (outcome: Codex.Outcome)
      requires Valid() && journal.Reads(record, a) && LastKey(journal.log, LaunchKey(a))
      requires record.intent.operational.provider == Codex.PROVIDER_ID
      modifies journal`log, provider
      ensures Valid() && Advances() && journal.log == old(journal.log) + [Called(Launch, a)]
      ensures journal.Reads(record, a) && OutcomeHolds(outcome, provider.files, provider.workers, a)
      ensures FirstLaunch(outcome, a, record, old(|provider.workers|), |provider.workers|)
    {
      journal.Note(Launch, a);
      NothingLaunched(old(journal.log), a);
      EventsPush(old(journal.log), Called(Launch, a));
      PromptedLater(provider.files, old(journal.log), journal.log);
      outcome := AskLaunch(a, record);
    }

    /** Before an Attempt's only launch call the provider has no record of it. */
    lemma NothingLaunched(before: Log, a: Id)
      requires provider.Valid() && AllPrompted(provider.files, before)
      requires Legal(before + [Called(Launch, a)])
      ensures Codex.Launched(a) !in provider.files && Codex.Completion(a) !in provider.files
    {
      var log := before + [Called(Launch, a)];
      if Called(Launch, a) in before {
        var i :| 0 <= i < |before| && before[i] == Called(Launch, a);
        CallsOnce(log, i, |before|, Launch, a);
      }
      assert Codex.Launched(a) in provider.files ==> Prompted(Codex.Launched(a), before);
      assert Codex.Completion(a) in provider.files ==>
        Codex.GoodRecord(Codex.Completion(a), provider.files, provider.workers);
    }

    method AskLaunch(a: Id, record: Record) returns (outcome: Codex.Outcome)
      requires Valid() && Called(Launch, a) in journal.log
      requires record.intent.operational.provider == Codex.PROVIDER_ID
      requires Codex.Launched(a) !in provider.files && Codex.Completion(a) !in provider.files
      modifies provider
      ensures Valid() && Advances() && OutcomeHolds(outcome, provider.files, provider.workers, a)
      ensures FirstLaunch(outcome, a, record, old(|provider.workers|), |provider.workers|)
    {
      ghost var f, w := provider.files, provider.workers;
      var settings: string :| true;
      outcome := provider.Launch(a, record.intent.operational.rest, settings);
      PromptedNow(f, provider.files, journal.log);
      VerdictsStay(journal.events, f, w, provider.files, provider.workers);
    }

    method SettleLaunch(a: Id, record: Record, outcome: Codex.Outcome) returns (r: Result)
      requires Valid() && journal.Reads(record, a) && record.state == LaunchRequested && record.ref == None
      requires OutcomeHolds(outcome, provider.files, provider.workers, a)
      modifies journal`events, journal`log
      ensures Valid() && OnlyOwn(old(journal.log), journal.log, a) && Answers(r, a)
      ensures Concludes(old(journal.events), journal.events,
                LaunchedEvent(a, record.intent.operational.provider, outcome), r)
      ensures r.Returned? && !outcome.Rejected? && !outcome.Observed? ==> r.record.state == Unknown
    {
      if outcome.Rejected? {
        r := Append(a, record, LaunchRejectionEvent(a, outcome.code));
      } else {
        r := Conclude(a, record, Launch, outcome);
      }
    }

    method IngestObservation(a: Id, o: Observation) returns (r: Result)
      requires Valid()
      modifies journal`events, journal`log
      ensures Valid() && OnlyOwn(old(journal.log), journal.log, a) && Answers(r, a)
      ensures NoLaunchSince(journal.log, |old(journal.log)|)
      ensures journal.log != old(journal.log) ==>
                && a in journal.rows && old(StateOf(journal.log, a)).Some?
                && journal.log == old(journal.log) + [Appended(
                     ObservedEvent(a, journal.rows[a].intent.operational.provider,
                                   old(StateOf(journal.log, a)).value, old(RefOf(journal.log, a)), o, None))]
      ensures a in journal.rows && old(StateOf(journal.log, a)).Some? ==>
                Conflicts(old(journal.events), journal.events,
                  ObservedEvent(a, journal.rows[a].intent.operational.provider, old(StateOf(journal.log, a)).value,
                                old(RefOf(journal.log, a)), o, None), r)
      ensures r.Returned? ==>
                && a in journal.rows && old(StateOf(journal.log, a)).Some?
                && ObservedEvent(a, journal.rows[a].intent.operational.provider, old(StateOf(journal.log, a)).value,
                                 old(RefOf(journal.log, a)), o, None) in journal.events
      ensures r.Returned? ==>
                if o.provider != journal.rows[a].intent.operational.provider
                   || (old(RefOf(journal.log, a)).Some? && old(RefOf(journal.log, a)) != Some(o.ref))
                then old(StateOf(journal.log, a)) != Some(Fenced) ==> r.record.state == Unknown
                else if HasKey(old(journal.events), Seen(None, a, o)) then
                  r.record.state == old(StateOf(journal.log, a)).value && journal.events == old(journal.events)
                else if old(StateOf(journal.log, a)) in {Some(Unknown), Some(Fenced)} then
                  r.record.state == old(StateOf(journal.log, a)).value
                else match o.state {
                  case ProviderRunning =>
                    if old(StateOf(journal.log, a)) in {Some(CancelRequested), Some(ForceStopRequested)} then
                      r.record.state == old(StateOf(journal.log, a)).value
                    else r.record.state == Running
                  case ProviderSucceeded => r.record.state == Succeeded
                  case ProviderFailed => r.record.state == Failed
                  case ProviderCancelled => r.record.state == Cancelled
                  case ProviderForceStopped => r.record.state == ForceStopped
                  case NotFound => r.record.state == Unknown
                  case ProviderUnknown => r.record.state == Unknown
                }
    {
      var found := journal.GetAttempt(a);
      if found.None? {
        return Raised(NoAttempt);
      }
      r := ApplyObservation(a, found.value, o, None);
      if r.Returned? && !Disagrees(found.value, o) {
        ReturnedObservation(old(journal.events), journal.events, a, found.value.intent.operational.provider,
                            found.value.state, found.value.ref, o, None, r);
      }
    }

    // ---- Creating Attempts

    method Prepare(session: Id, digest: string, intent: Intent, fence: Id) returns (r: Result)
      requires Valid()
      modifies journal`sessions, journal`rows, journal`events, journal`log
      ensures Valid() && Answers(r, intent.id)
      ensures journal.log == old(journal.log) || journal.log == old(journal.log) + [Created(intent, fence)]
      ensures r.Returned? ==> journal.rows[intent.id] == Row(intent, fence) && intent.previous == None
      ensures journal.log != old(journal.log) ==>
                && intent.previous == None && session == intent.operational.session && digest == intent.operational.digest
                && journal.FenceActive(fence)
                && journal.fences[fence].provider == intent.operational.provider
                && journal.fences[fence].binding == intent.operational.binding
    {
      if intent.previous.Some? {
        return Raised(Contract);
      }
      r := PrepareUnder(session, digest, intent, fence);
    }

    /** A retry follows a settled failure only, under the same Session, with a material change. */
    method Retry(previous: Id, intent: Intent, fence: Id) returns (r: Result)
      requires Valid()
      modifies journal`sessions, journal`rows, journal`events, journal`log
      ensures Valid() && Answers(r, intent.id)
      ensures journal.log == old(journal.log) || journal.log == old(journal.log) + [Created(intent, fence)]
      ensures r.Returned? ==> journal.rows[intent.id] == Row(intent, fence)
      ensures journal.log != old(journal.log) ==>
                && journal.FenceActive(fence)
                && journal.fences[fence].provider == intent.operational.provider
                && journal.fences[fence].binding == intent.operational.binding
      ensures r.Returned? || journal.log != old(journal.log) ==>
                && previous in old(journal.rows) && intent.previous == Some(previous)
                && old(StateOf(journal.log, previous)) in {Some(Failed), Some(Cancelled), Some(ForceStopped)}
                && (var prior := old(journal.rows)[previous].intent;
                  && intent.operational.session == prior.operational.session
                  && intent.operational.digest == prior.operational.digest
                  && (intent.operational != prior.operational || intent.readiness != prior.readiness))
      ensures previous in old(journal.rows) && old(StateOf(journal.log, previous)).Some?
                && !Retryable(old(StateOf(journal.log, previous)).value) ==>
              r == Raised(Blocked) && journal.log == old(journal.log)
    {
      var found := journal.GetAttempt(previous);
      if found.None? {
        return Raised(NoAttempt);
      }
      var record := found.value;
      if !Retryable(record.state) {
        return Raised(Blocked);
      }
      var prior := record.intent.operational;
      if intent.previous != Some(previous) || intent.operational.session != prior.session
         || intent.operational.digest != prior.digest
      {
        return Raised(Contract);
      }
      if intent.operational == prior && intent.readiness == record.intent.readiness {
        return Raised(Blocked);
      }
      journal.StateFound(previous);
      assert RowCreated(previous, journal.rows[previous], journal.log);
      assert Corrects(record.intent, intent);
      r := PrepareUnder(prior.session, prior.digest, intent, fence);
    }

    method PrepareUnder(session: Id, digest: string, intent: Intent, fence: Id) returns (r: Result)
      requires Valid()
      requires intent.previous.Some? ==>
        && StateOf(journal.log, intent.previous.value).Some?
        && Retryable(StateOf(journal.log, intent.previous.value).value)
        && exists p :: IntentOf(journal.log, p) && Corrects(p, intent)
      modifies journal`sessions, journal`rows, journal`events, journal`log
      ensures Valid() && Answers(r, intent.id)
      ensures journal.log == old(journal.log) || journal.log == old(journal.log) + [Created(intent, fence)]
      ensures r.Returned? ==> journal.rows[intent.id] == Row(intent, fence)
      ensures journal.log != old(journal.log) ==>
                && session == intent.operational.session && digest == intent.operational.digest
                && journal.FenceActive(fence) && Matches(journal.fences[fence], intent)
    {
      if session != intent.operational.session || digest != intent.operational.digest || fence !in journal.fences {
        return Raised(Contract);
      }
      if !journal.FenceActive(fence) || !Matches(journal.fences[fence], intent) {
        return Raised(Blocked);
      }
      var unverified := Chance();
      if unverified {
        return Raised(Contract);
      }
      if intent.id !in journal.rows {
        NoRowNotExists(intent.id);
      }
      VerdictsPush(journal.events, PreparedEvent(intent.id), provider.files, provider.workers);
      var stored := journal.CreateAttempt(session, digest, intent, fence);
      if stored == Conflict {
        return Raised(JournalConflict);
      }
      var crashed := Chance();
      if crashed {
        return Crashed;
      }
      r := Reread(intent.id);
    }

    lemma NoRowNotExists(a: Id)
      requires Valid() && a !in journal.rows
      ensures !Exists(journal.log, a)
    {
      if Exists(journal.log, a) {
        journal.RowFound(a);
      }
    }

    // ---- Sweeps over many Attempts

    method RecordOf(a: Id) returns (record: Record)
      requires Valid() && a in journal.rows
      ensures journal.Reads(record, a)
    {
      var found := journal.GetAttempt(a);
      record := found.value;
    }

    /** The provider of `a` is the registered one. */
    predicate Registered(a: Id)
      reads journal
    {
      a in journal.rows && journal.rows[a].intent.operational.provider == Codex.PROVIDER_ID
    }

    /** Asks the provider about everything that is in flight, or stops at an Attempt in flight whose
        reconciliation raises. It never launches, and what is settled stays as it is. */
    method Recover() returns (r: Sweep)
      requires Valid()
      modifies journal`events, journal`log, provider
      ensures Valid() && Advances() && NoLaunchSince(journal.log, |old(journal.log)|)
      ensures KeepsSettled(old(journal.log), journal.log)
      ensures r == Swept ==> forall a :: Registered(a) && InFlight(old(journal.log), a) ==>
                Asked(journal.log, |old(journal.log)|, a)
      ensures r.Interrupted? ==> !r.result.Returned? && exists a :: Stuck(old(journal.log), a)
    {
      r := RecoverAll(Mark(journal.log, provider.files, provider.workers));
    }

    /** The Attempt was in flight, and the provider has been asked about it if there is one. */
    ghost predicate Stuck(before: Log, a: Id)
      reads journal
    {
      && a in journal.rows && InFlight(before, a)
      && (Registered(a) ==> Asked(journal.log, |before|, a))
    }

    method RecoverAll(ghost since: Mark) returns (r: Sweep)
      requires Valid() && Progress(since) && since.log == journal.log
      modifies journal`events, journal`log, provider
      ensures Valid() && Progress(since) && KeepsSettled(since.log, journal.log)
      ensures r == Swept ==> AskedAll(set a | a in journal.rows && Registered(a), {}, since.log, journal.log)
      ensures r.Interrupted? ==> !r.result.Returned? && exists a :: Stuck(since.log, a)
    {
      var pending := journal.rows.Keys;
      ghost var ids := set a | a in journal.rows && Registered(a);
      while pending != {}
        invariant Valid() && Progress(since) && pending <= journal.rows.Keys
        invariant KeepsSettled(since.log, journal.log) && AskedAll(ids, pending, since.log, journal.log)
        invariant Untouched(pending, since.log, journal.log)
        decreases |pending|
      {
        var result;
        ghost var a;
        result, pending, a := RecoverOne(pending, ids, since);
        if !result.Returned? {
          assert Stuck(since.log, a);
          return Sweep.Interrupted(result);
        }
      }
      return Swept;
    }

    method RecoverOne(pending: set<Id>, ghost ids: set<Id>, ghost since: Mark)
      returns (result: Result, rest: set<Id>, ghost a: Id)
      requires Valid() && pending <= journal.rows.Keys && pending != {} && Progress(since)
      requires ids == set a | a in journal.rows && Registered(a)
      requires KeepsSettled(since.log, journal.log) && AskedAll(ids, pending, since.log, journal.log)
      requires Untouched(pending, since.log, journal.log)
      modifies journal`events, journal`log, provider
      ensures Valid() && Progress(since) && KeepsSettled(since.log, journal.log)
      ensures rest <= pending && |rest| < |pending|
      ensures AskedAll(ids, rest, since.log, journal.log) && Untouched(rest, since.log, journal.log)
      ensures !result.Returned? ==> Stuck(since.log, a)
    {
      var next :| next in pending;
      rest, a := pending - {next}, next;
      ghost var l, f, w := journal.log, provider.files, provider.workers;
      ghost var outcome;
      result, outcome := Reconcile(next);
      ProgressChain(since, l, f, w);
      SettledChain(since.log, l, journal.log, next);
      RecoverStep(ids, pending, since.log, l, journal.log, next);
    }

    /** Since the mark the history has only grown, without a launch. */
    ghost predicate Progress(since: Mark)
      reads this, journal, provider
    {
      && since.log <= journal.log && NoLaunchSince(journal.log, |since.log|)
      && Codex.Evolves(since.files, since.workers, provider.files, provider.workers)
    }

    lemma ProgressChain(since: Mark, l: Log, f: Codex.Disk, w: seq<Codex.Worker>)
      requires since.log <= l <= journal.log
      requires NoLaunchSince(l, |since.log|) && NoLaunchSince(journal.log, |l|)
      requires Codex.Evolves(since.files, since.workers, f, w)
      requires Codex.Evolves(f, w, provider.files, provider.workers)
      ensures Progress(since)
    {
      Codex.EvolvesChain(since.files, since.workers, f, w, provider.files, provider.workers);
      forall k | |since.log| <= k < |journal.log|
        ensures !(journal.log[k].Called? && journal.log[k].call == Launch)
      {
        if k < |l| {
          assert journal.log[k] == l[k];
        }
      }
    }

    // ---- Revocation

    /** The Attempts of a fence. */
    function Under(f: Id): set<Id>
      reads journal
    {
      set a | a in journal.rows && journal.rows[a].fence == f
    }

    /** A revoked fence: its Attempts that were prepared or active are marked FENCED for good, the others
        keep their state, and so does every Attempt of another fence. */
    method RevokeFence(f: Id) returns (r: Sweep)
      requires Valid()
      modifies journal`revoked, journal`events, journal`log, provider
      ensures Valid() && Advances() && NoLaunchSince(journal.log, |old(journal.log)|)
      ensures r == Swept ==> f in journal.fences && !journal.FenceActive(f)
      ensures r == Swept ==> forall a :: a in journal.rows && journal.rows[a].fence == f ==>
                Fences(old(journal.log), journal.log, a) && Sent(old(journal.log), a)
      ensures forall a :: (a in journal.rows ==> journal.rows[a].fence != f) ==>
                StateOf(journal.log, a) == old(StateOf(journal.log, a))
    {
      var done := journal.RevokeFence(f);
      if done.None? {
        return Sweep.Interrupted(Raised(Contract));
      }
      PromptedLater(provider.files, old(journal.log), journal.log);
      r := SweepFence(f, Mark(old(journal.log), old(provider.files), old(provider.workers)));
    }

    /** An Attempt of the registered provider that was at work, and not asked to cancel, has been asked. */
    ghost predicate Sent(before: Log, a: Id)
      reads journal
    {
      Registered(a) && Acting(StateOf(before, a)) && !HasKey(Events(before), CancelKey(a)) ==>
        Called(Cancel, a) in journal.log
    }

    method SweepFence(f: Id, ghost since: Mark) returns (r: Sweep)
      requires Valid() && Progress(since) && Events(since.log) == journal.events
      modifies journal`events, journal`log, provider
      ensures Valid() && Progress(since) && Spares(since.log, journal.log, Under(f))
      ensures r == Swept ==> forall a :: a in Under(f) ==> Fences(since.log, journal.log, a)
      ensures r == Swept ==> forall a :: a in Under(f) ==> Sent(since.log, a)
    {
      var ids := Under(f);
      var records := Snapshot(ids);
      r := SweepAll(ids, records, since);
    }

    method SweepAll(ids: set<Id>, records: map<Id, Record>, ghost since: Mark) returns (r: Sweep)
      requires Valid() && Progress(since) && RowsOf(records)
      requires Sweeping(records, ids, ids, journal.log) && Spares(since.log, journal.log, ids)
      requires Events(since.log) == journal.events
      modifies journal`events, journal`log, provider
      ensures Valid() && Progress(since) && Spares(since.log, journal.log, ids)
      ensures r == Swept ==> Sweeping(records, {}, ids, journal.log)
      ensures r == Swept ==> Cancelling(records, {}, ids, since.log, journal.log)
    {
      var pending := ids;
      while pending != {}
        invariant Valid() && Progress(since) && Spares(since.log, journal.log, ids)
        invariant Sweeping(records, pending, ids, journal.log)
        invariant Cancelling(records, pending, ids, since.log, journal.log)
        decreases |pending|
      {
        var result;
        result, pending := SweepOne(records, pending, ids, since);
        if !result.Returned? {
          return Sweep.Interrupted(result);
        }
      }
      return Swept;
    }

    ghost predicate RowsOf(records: map<Id, Record>)
      reads journal
    {
      forall a :: a in records ==>
        a in journal.rows && journal.rows[a] == Row(records[a].intent, records[a].fence)
    }

    method SweepOne(records: map<Id, Record>, pending: set<Id>, ghost ids: set<Id>, ghost since: Mark)
      returns (result: Result, rest: set<Id>)
      requires Valid() && Progress(since) && Spares(since.log, journal.log, ids) && RowsOf(records)
      requires Sweeping(records, pending, ids, journal.log) && pending != {}
      requires Cancelling(records, pending, ids, since.log, journal.log)
      modifies journal`events, journal`log, provider
      ensures Valid() && Progress(since) && Spares(since.log, journal.log, ids)
      ensures |rest| < |pending| && (result.Returned? ==> Sweeping(records, rest, ids, journal.log))
      ensures result.Returned? ==> Cancelling(records, rest, ids, since.log, journal.log)
    {
      var a :| a in pending;
      rest := pending - {a};
      ghost var l, f, w := journal.log, provider.files, provider.workers;
      result := RevokeOne(a, records[a]);
      ProgressChain(since, l, f, w);
      SparesChain(since.log, l, journal.log, ids, a);
      if result.Returned? {
        SweepStep(records, pending, ids, l, journal.log, a);
        CancelStep(records, pending, ids, since.log, l, journal.log, a);
      }
    }

    method Snapshot(ids: set<Id>) returns (records: map<Id, Record>)
      requires Valid() && ids <= journal.rows.Keys
      ensures records.Keys == ids && forall a :: a in ids ==> journal.Reads(records[a], a)
    {
      records := map[];
      var pending := ids;
      while pending != {}
        invariant pending <= ids && records.Keys == ids - pending
        invariant forall a :: a in records ==> journal.Reads(records[a], a)
        decreases |pending|
      {
        var a :| a in pending;
        var record := RecordOf(a);
        records := records[a := record];
        pending := pending - {a};
      }
    }

    method RevokeOne(a: Id, record: Record) returns (r: Result)
      requires Valid() && journal.Reads(record, a)
      modifies journal`events, journal`log, provider
      ensures Valid() && Advances()
      ensures OnlyOwn(old(journal.log), journal.log, a) && NoLaunchSince(journal.log, |old(journal.log)|)
      ensures r.Returned? ==> AfterRevocation(record.state, journal.log, a)
      ensures r.Returned? ==> CancelSent(record, a, old(journal.log), journal.log)
    {
      if record.state == Prepared {
        r := FencePrepared(a, record);
      } else if Active(record.state) {
        r := RevokeActive(a, record);
      } else {
        r := Returned(record);
      }
    }

    method FencePrepared(a: Id, record: Record) returns (r: Result)
      requires Valid() && journal.Reads(record, a) && record.state == Prepared
      modifies journal`events, journal`log
      ensures Valid() && OnlyOwn(old(journal.log), journal.log, a) && Answers(r, a)
      ensures NoLaunchSince(journal.log, |old(journal.log)|)
      ensures r.Returned? ==> r.record.state == Fenced
    {
      var e := Plain(Revocation(a), a, Fenced, record.ref, NoEffect);
      r := Append(a, record, e);
      if r.Returned? {
        SettledStays(old(journal.log), journal.log, a, e);
      }
    }

    /** A cancel request first, then the mark. */
    method RevokeActive(a: Id, record: Record) returns (r: Result)
      requires Valid() && journal.Reads(record, a) && Active(record.state)
      modifies journal`events, journal`log, provider
      ensures Valid() && Advances() && Answers(r, a)
      ensures OnlyOwn(old(journal.log), journal.log, a) && NoLaunchSince(journal.log, |old(journal.log)|)
      ensures r.Returned? ==> r.record.state == Fenced && HasKey(journal.events, CancelKey(a))
      ensures r.Returned? ==> CancelSent(record, a, old(journal.log), journal.log)
    {
      ghost var outcome;
      r, outcome := RequestCancel(a);
      if !r.Returned? {
        return;
      }
      ghost var cancelled := journal.log;
      OwnKeepsActive(old(journal.log), cancelled, a);
      r := FenceAfterEffect(a, r.record, old(journal.log));
      KeyKept(cancelled, journal.log, CancelKey(a));
      OnlyOwnChain(old(journal.log), cancelled, journal.log, a);
    }

    method FenceAfterEffect(a: Id, record: Record, ghost before: Log) returns (r: Result)
      requires Valid() && journal.Reads(record, a) && ActiveSince(journal.log, a)
      requires Legal(before) && before <= journal.log && Quiet(journal.log, |before|)
      requires StateOf(before, a).Some? && Active(StateOf(before, a).value)
      modifies journal`events, journal`log
      ensures Valid() && OnlyOwn(old(journal.log), journal.log, a) && Answers(r, a)
      ensures NoLaunchSince(journal.log, |old(journal.log)|)
      ensures r.Returned? ==> r.record.state == Fenced
    {
      var e := Plain(Revocation(a), a, Fenced, record.ref, KnownEffect);
      r := Append(a, record, e);
      if r.Returned? {
        MarkIsFresh(before, old(journal.log), journal.log, a, e);
      }
    }

    method VerifyResult(a: Id) returns (certainty: Option<Certainty>)
      requires Valid()
      ensures certainty.Some? ==> a in journal.rows && certainty.value == EffectCertainty(journal.events, a)
      ensures certainty.Some? && StateOf(journal.log, a) == Some(Unknown) ==> certainty == Some(UnknownEffect)
      ensures certainty.Some? && StateOf(journal.log, a) != Some(Unknown) ==>
                if exists e :: e in journal.events && e.attempt == a && !e.evidenceOnly && e.certainty == KnownEffect then
                  certainty == Some(KnownEffect)
                else if exists e :: e in journal.events && e.attempt == a && !e.evidenceOnly && e.certainty == UnknownEffect
                then certainty == Some(UnknownEffect)
                else certainty == Some(NoEffect)
      ensures certainty == Some(NoEffect) ==> forall c :: Called(c, a) !in journal.log
    {
      var found := journal.GetAttempt(a);
      var unverified := Chance();
      if found.None? || unverified {
        return None;
      }
      var known := ShowsCertainty(journal.events, a, KnownEffect);
      var unknown := ShowsCertainty(journal.events, a, UnknownEffect);
      certainty := Some(
        if found.value.state == Unknown then UnknownEffect
        else if known then KnownEffect
        else if unknown then UnknownEffect
        else NoEffect);
      forall c | certainty == Some(NoEffect) ensures Called(c, a) !in journal.log {
        NoEffectNoCall(journal.log, a, c);
      }
    }

    // ---- Whole runs

    /** One operation, which may end early in a crash. */
    method Perform(op: Operation)
      requires Valid()
      modifies journal, provider
      ensures Valid() && Advances()
    {
      match op
      case InstallFence(fence) => var _ := journal.InstallFence(fence);
      case Prepare(session, digest, intent, fence) => var _ := this.Prepare(session, digest, intent, fence);
      case Retry(previous, intent, fence) => var _ := this.Retry(previous, intent, fence);
      case Dispatch(a) => var _, _ := this.Dispatch(a);
      case RequestCancel(a) => var _, _ := this.RequestCancel(a);
      case ForceStop(a) => var _, _ := this.ForceStop(a);
      case ReconcileOne(a) => var _, _ := this.Reconcile(a);
      case Recover => var _ := this.Recover();
      case Ingest(a, o) => var _ := IngestObservation(a, o);
      case RevokeFence(f) => var _ := this.RevokeFence(f);
      case Verify(a) => var _ := VerifyResult(a);
    }

    /** Any operations in any order, crashing anywhere, with the workers running in between. */
    method Run(ops: seq<Operation>)
      requires Valid()
      modifies journal, provider
      ensures Valid() && Advances() && Safe(journal.log) && Codex.OneWorker(provider.workers)
      ensures VerdictsHold(journal.events, provider.files, provider.workers)
      ensures AllPrompted(provider.files, journal.log)
    {
      for i := 0 to |ops|
        invariant Valid() && Advances()
      {
        PerformAmongWorkers(ops[i], Mark(old(journal.log), old(provider.files), old(provider.workers)));
      }
      LegalIsSafe(journal.log);
    }

    method PerformAmongWorkers(op: Operation, ghost since: Mark)
      requires Valid() && Grown(since)
      modifies journal, provider
      ensures Valid() && Grown(since)
    {
      provider.Meanwhile();
      VerdictsStay(journal.events, old(provider.files), old(provider.workers), provider.files, provider.workers);
      Codex.EvolvesChain(since.files, since.workers, old(provider.files), old(provider.workers),
                         provider.files, provider.workers);
      ghost var f, w := provider.files, provider.workers;
      Perform(op);
      Codex.EvolvesChain(since.files, since.workers, f, w, provider.files, provider.workers);
    }

    ghost predicate Grown(since: Mark)
      reads this, journal, provider
    {
      && since.log <= journal.log
      && Codex.Evolves(since.files, since.workers, provider.files, provider.workers)
    }
  }
}
