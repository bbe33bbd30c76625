/** The durable history of formal Attempts, and which histories the adapter can write. */
module AttemptLog {
  import opened Wrappers

  type Id = string

  datatype AttemptState =
    | Prepared | LaunchRequested | Running | CancelRequested | ForceStopRequested
    | Succeeded | Failed | Cancelled | ForceStopped | Unknown | Fenced

  datatype ProviderState =
    | NotFound | ProviderRunning | ProviderSucceeded | ProviderFailed
    | ProviderCancelled | ProviderForceStopped | ProviderUnknown

  datatype Certainty = NoEffect | KnownEffect | UnknownEffect

  predicate Active(s: AttemptState) {
    s == LaunchRequested || s == Running || s == CancelRequested || s == ForceStopRequested
  }

  predicate Retryable(s: AttemptState) { s == Failed || s == Cancelled || s == ForceStopped }

  /** The states no operation leaves. */
  predicate Absorbing(s: AttemptState) { s == Unknown || s == Fenced }

  datatype Detail =
    | WorkerRunning | OwnerUnavailable | ExitedWithoutRecord | CancelAsked | StopAsked
    | Code(code: string)

  /** `facts` stands for the exit code, artifacts and resource facts. */
  datatype Observation = Observation(provider: Id, ref: string, state: ProviderState, detail: Detail, facts: string)

  /** Everything in an intent but its identity, lineage, correction and readiness. */
  datatype Operational = Operational(session: Id, digest: string, provider: Id, binding: string, rest: string)

  datatype Intent = Intent(
    id: Id, previous: Option<Id>, operational: Operational, correction: string, readiness: string)

  datatype Fence = Fence(id: Id, provider: Id, binding: string)

  datatype Call = Launch | Cancel | Stop | Reconcile

  /** `None` is the direct ingress of an observation, which calls no provider. */
  type Origin = Option<Call>

  /** Operation keys. A key with a detail code runs identity and code together in one text. */
  datatype Key =
    | PrepareKey(id: Id)
    | DispatchFenced(id: Id)
    | LaunchKey(id: Id)
    | LaunchRejection(id: Id)
    | CancelUnsent(id: Id)
    | CancelKey(id: Id)
    | CancelRejection(id: Id)
    | StopUnsent(id: Id)
    | StopKey(id: Id)
    | StopRejection(id: Id)
    | Revocation(id: Id)
    | Mismatch(origin: Origin, id: Id)
    | Lost(origin: Origin, text: string)
    | Seen(origin: Origin, id: Id, observation: Observation)

  datatype Event = Event(
    attempt: Id, key: Key, state: AttemptState, ref: Option<string>,
    evidenceOnly: bool, certainty: Certainty, detail: Option<Detail>)

  /** What happened, in order: durable journal facts, and the provider calls between them. */
  datatype Step =
    | Created(intent: Intent, fence: Id)
    | Appended(event: Event)
    | Revoked(fence: Id)
    | Called(call: Call, attempt: Id)

  type Log = seq<Step>

  // ---- Reading the journal

  function PreparedEvent(a: Id): Event {
    Event(a, PrepareKey(a), Prepared, None, false, NoEffect, None)
  }

  function Events(log: Log): seq<Event> {
    if log == [] then []
    else
      var front, last := Events(log[..|log| - 1]), log[|log| - 1];
      match last
      case Created(i, _) => front + [PreparedEvent(i.id)]
      case Appended(e) => front + [e]
      case _ => front
  }

  /** The state of the last trusted event. */
  function State(events: seq<Event>, a: Id): Option<AttemptState> {
    if events == [] then None
    else
      var e := events[|events| - 1];
      if e.attempt == a && !e.evidenceOnly then Some(e.state) else State(events[..|events| - 1], a)
  }

  /** The last provider reference a trusted event carries. */
  function Ref(events: seq<Event>, a: Id): Option<string> {
    if events == [] then None
    else
      var e := events[|events| - 1];
      if e.attempt == a && !e.evidenceOnly && e.ref.Some? then e.ref else Ref(events[..|events| - 1], a)
  }

  function StateOf(log: Log, a: Id): Option<AttemptState> { State(Events(log), a) }

  function RefOf(log: Log, a: Id): Option<string> { Ref(Events(log), a) }

  predicate HasKey(events: seq<Event>, key: Key) {
    exists i :: 0 <= i < |events| && events[i].key == key
  }

  ghost predicate Exists(log: Log, a: Id) {
    exists k :: 0 <= k < |log| && log[k].Created? && log[k].intent.id == a
  }

  ghost predicate FenceOf(log: Log, a: Id, fence: Id) {
    exists k :: 0 <= k < |log| && log[k].Created? && log[k].intent.id == a && log[k].fence == fence
  }

  predicate Trusted(e: Event, a: Id) { e.attempt == a && !e.evidenceOnly }

  predicate Shows(events: seq<Event>, a: Id, c: Certainty) {
    exists k :: 0 <= k < |events| && Trusted(events[k], a) && events[k].certainty == c
  }

  /** The certainty a result reports about provider effects. */
  function EffectCertainty(events: seq<Event>, a: Id): Certainty {
    if State(events, a) == Some(Unknown) then UnknownEffect
    else if Shows(events, a, KnownEffect) then KnownEffect
    else if Shows(events, a, UnknownEffect) then UnknownEffect
    else NoEffect
  }

  // ---- The events each operation writes

  function ObservedState(s: AttemptState, o: ProviderState): AttemptState {
    if Absorbing(s) then s
    else
      match o
      case ProviderRunning => if s == CancelRequested || s == ForceStopRequested then s else Running
      case ProviderSucceeded => Succeeded
      case ProviderFailed => Failed
      case ProviderCancelled => Cancelled
      case ProviderForceStopped => ForceStopped
      case _ => Unknown
  }

  function ObservedCertainty(o: ProviderState): Certainty {
    if o == NotFound || o == ProviderUnknown then UnknownEffect else KnownEffect
  }

  function ObservationEvent(a: Id, s: AttemptState, origin: Origin, o: Observation): Event {
    Event(a, Seen(origin, a, o), ObservedState(s, o.state), Some(o.ref), Absorbing(s),
          ObservedCertainty(o.state), Some(o.detail))
  }

  function MismatchEvent(a: Id, origin: Origin): Event {
    Event(a, Mismatch(origin, a), Unknown, None, false, UnknownEffect, Some(Code("provider_identity_mismatch")))
  }

  function LostEvent(a: Id, r: Option<string>, origin: Origin, code: string): Event {
    Event(a, Lost(origin, a + ":" + code), Unknown, r, false, UnknownEffect, Some(Code(code)))
  }

  /** An event without a detail code. */
  function Plain(key: Key, a: Id, s: AttemptState, r: Option<string>, c: Certainty): Event {
    Event(a, key, s, r, false, c, None)
  }

  // ---- Which steps the operations take, from what each has just read

  /** States in which an operation with this origin takes an observation. */
  predicate Observable(s: AttemptState, origin: Origin) {
    origin == None || Active(s) || s == Unknown
  }

  ghost predicate Writes(log: Log, s: AttemptState, r: Option<string>, e: Event) {
    match e.key
    case PrepareKey(_) => false
    case DispatchFenced(a) => s == Prepared && e == Plain(e.key, a, Fenced, r, NoEffect)
    case LaunchKey(a) =>
      && s == Prepared && e == Plain(e.key, a, LaunchRequested, None, UnknownEffect)
      && (exists f :: FenceOf(log, a, f) && Revoked(f) !in log)
    case LaunchRejection(a) =>
      s == LaunchRequested && e == Plain(e.key, a, Failed, None, NoEffect).(detail := e.detail)
    case CancelUnsent(a) => s == Prepared && e == Plain(e.key, a, Cancelled, r, NoEffect)
    case CancelKey(a) => Active(s) && e == Plain(e.key, a, CancelRequested, r, KnownEffect)
    case CancelRejection(a) =>
      s == CancelRequested && e == Plain(e.key, a, CancelRequested, r, KnownEffect).(detail := e.detail)
    case StopUnsent(a) => s == Prepared && e == Plain(e.key, a, ForceStopped, r, NoEffect)
    case StopKey(a) => Active(s) && e == Plain(e.key, a, ForceStopRequested, r, KnownEffect)
    case StopRejection(a) =>
      s == ForceStopRequested && e == Plain(e.key, a, ForceStopRequested, r, KnownEffect).(detail := e.detail)
    case Revocation(a) =>
      || (s == Prepared && e == Plain(e.key, a, Fenced, r, NoEffect))
      || (ActiveSince(log, a) && e == Plain(e.key, a, Fenced, r, KnownEffect))
    case Mismatch(origin, a) => Observable(s, origin) && e == MismatchEvent(a, origin)
    case Lost(origin, _) =>
      && origin != None && Observable(s, origin)
      && (exists code :: e == LostEvent(e.attempt, r, origin, code))
    case Seen(origin, a, o) =>
      Observable(s, origin) && (r == None || r == Some(o.ref)) && e == ObservationEvent(a, s, origin, o)
  }

  predicate Own(step: Step, a: Id) {
    (step.Appended? && step.event.attempt == a) || (step.Called? && step.attempt == a)
  }

  /** The Attempt was active, and since then only its own facts and calls were recorded. */
  ghost predicate ActiveSince(log: Log, a: Id) {
    || (StateOf(log, a).Some? && Active(StateOf(log, a).value))
    || (log != [] && Own(log[|log| - 1], a) && ActiveSince(log[..|log| - 1], a))
  }

  ghost predicate LastKey(log: Log, key: Key) {
    log != [] && log[|log| - 1].Appended? && log[|log| - 1].event.key == key
  }

  ghost predicate Takes(log: Log, step: Step) {
    match step
    case Created(i, f) =>
      && !Exists(log, i.id) && Revoked(f) !in log
      && (i.previous.Some? ==>
            && StateOf(log, i.previous.value).Some? && Retryable(StateOf(log, i.previous.value).value)
            && (exists p :: IntentOf(log, p) && Corrects(p, i)))
    case Appended(e) =>
      && Exists(log, e.attempt) && !HasKey(Events(log), e.key)
      && StateOf(log, e.attempt).Some?
      && Writes(log, StateOf(log, e.attempt).value, RefOf(log, e.attempt), e)
    case Revoked(f) => true
    case Called(c, a) =>
      match c
      case Launch => LastKey(log, LaunchKey(a))
      case Cancel => LastKey(log, CancelKey(a))
      case Stop => LastKey(log, StopKey(a))
      case Reconcile =>
        StateOf(log, a).Some? && (Active(StateOf(log, a).value) || StateOf(log, a).value == Unknown)
  }

  ghost predicate IntentOf(log: Log, intent: Intent) {
    exists k :: 0 <= k < |log| && log[k].Created? && log[k].intent == intent
  }

  /** A retry stays under the exact Session and changes the operational binding or the readiness. */
  predicate Corrects(previous: Intent, next: Intent) {
    && next.previous == Some(previous.id)
    && next.operational.session == previous.operational.session
    && next.operational.digest == previous.operational.digest
    && (next.operational != previous.operational || next.readiness != previous.readiness)
  }

  /** Every step is one an operation takes at that point. */
  ghost predicate Legal(log: Log) {
    log == [] || (Legal(log[..|log| - 1]) && Takes(log[..|log| - 1], log[|log| - 1]))
  }
}
