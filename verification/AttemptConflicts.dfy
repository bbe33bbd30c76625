/** When an operation key is reused for another fact: the journal raises and stores nothing. */
module AttemptConflicts {
  import opened Wrappers
  import opened AttemptLog
  import opened AttemptSafety

  /** The journal holds another fact under the key of `e`. */
  ghost predicate Clashes(events: seq<Event>, e: Event) {
    exists k :: 0 <= k < |events| && events[k].key == e.key && events[k] != e
  }

  lemma {:induction false} PrepareKeyOwner(log: Log, a: Id, k: nat)
    requires Legal(log) && k < |Events(log)| && Events(log)[k].key == PrepareKey(a)
    ensures Exists(log, a)
    decreases |log|
  {
    var front, last := log[..|log| - 1], log[|log| - 1];
    if k < |Events(front)| {
      PrepareKeyOwner(front, a, k);
      var i :| 0 <= i < |front| && front[i].Created? && front[i].intent.id == a;
      assert log[i] == front[i];
    } else {
      assert last.Created? && last.intent.id == a;
    }
  }

  /** No two stored events have the same operation key, the keys of creations included. */
  lemma {:induction false} EventKeysUnique(log: Log, i: nat, j: nat)
    requires Legal(log) && i < j < |Events(log)|
    ensures Events(log)[i].key != Events(log)[j].key
    decreases |log|
  {
    var front, last := log[..|log| - 1], log[|log| - 1];
    if j < |Events(front)| {
      EventKeysUnique(front, i, j);
    } else if last.Created? && Events(front)[i].key == PrepareKey(last.intent.id) {
      PrepareKeyOwner(front, last.intent.id, i);
    }
  }

  /** The one stored event of a key decides whether another fact under that key clashes. */
  lemma FoundDecides(log: Log, e: Event, found: Event)
    requires Legal(log) && found in Events(log) && found.key == e.key
    ensures Clashes(Events(log), e) <==> found != e
  {
    var events := Events(log);
    var i :| 0 <= i < |events| && events[i] == found;
    if Clashes(events, e) {
      var k :| 0 <= k < |events| && events[k].key == e.key && events[k] != e;
      if i < k {
        EventKeysUnique(log, i, k);
      } else if k < i {
        EventKeysUnique(log, k, i);
      }
    }
  }

  // ---- Which facts can be under the key of an observation

  lemma {:induction false} SeenIsObservation(log: Log, k: nat)
    requires Legal(log) && k < |Events(log)| && Events(log)[k].key.Seen?
    ensures var e := Events(log)[k]; exists s :: e == ObservationEvent(e.key.id, s, e.key.origin, e.key.observation)
    decreases |log|
  {
    var front, last := log[..|log| - 1], log[|log| - 1];
    if k < |Events(front)| {
      SeenIsObservation(front, k);
    } else {
      assert last.Appended? && last.event == Events(log)[k];
      var s := StateOf(front, last.event.attempt).value;
      assert last.event == ObservationEvent(last.event.key.id, s, last.event.key.origin, last.event.key.observation);
    }
  }

  /** The same observation means another state or another evidence mark. */
  predicate MeansOther(s: AttemptState, s': AttemptState, o: Observation) {
    ObservedState(s, o.state) != ObservedState(s', o.state) || Absorbing(s) != Absorbing(s')
  }

  /** An observation clashes exactly when it was recorded under the same origin from a state in which it
      meant something else. */
  lemma ObservationClashes(log: Log, a: Id, s: AttemptState, origin: Origin, o: Observation)
    requires Legal(log)
    ensures Clashes(Events(log), ObservationEvent(a, s, origin, o)) <==>
      exists s' :: ObservationEvent(a, s', origin, o) in Events(log) && MeansOther(s', s, o)
  {
    var events, e := Events(log), ObservationEvent(a, s, origin, o);
    if Clashes(events, e) {
      var k :| 0 <= k < |events| && events[k].key == e.key && events[k] != e;
      SeenIsObservation(log, k);
      var s' :| events[k] == ObservationEvent(a, s', origin, o);
      assert ObservationEvent(a, s', origin, o) in events && MeansOther(s', s, o);
    }
    if s' :| ObservationEvent(a, s', origin, o) in events && MeansOther(s', s, o) {
      var k :| 0 <= k < |events| && events[k] == ObservationEvent(a, s', origin, o);
      assert events[k].key == e.key && events[k] != e;
    }
  }

  lemma {:induction false} MismatchIsFixed(log: Log, k: nat)
    requires Legal(log) && k < |Events(log)| && Events(log)[k].key.Mismatch?
    ensures Events(log)[k] == MismatchEvent(Events(log)[k].key.id, Events(log)[k].key.origin)
    decreases |log|
  {
    var front := log[..|log| - 1];
    if k < |Events(front)| {
      MismatchIsFixed(front, k);
    }
  }

  /** An identity mismatch never clashes: its fact does not depend on the state. */
  lemma MismatchNeverClashes(log: Log, a: Id, origin: Origin)
    requires Legal(log)
    ensures !Clashes(Events(log), MismatchEvent(a, origin))
  {
    if Clashes(Events(log), MismatchEvent(a, origin)) {
      var k :| 0 <= k < |Events(log)| && Events(log)[k].key == Mismatch(origin, a)
        && Events(log)[k] != MismatchEvent(a, origin);
      MismatchIsFixed(log, k);
    }
  }

  /** An UNKNOWN verdict that made an Attempt UNKNOWN cannot be recorded under the same origin again. */
  lemma UnknownVerdictClashes(log: Log, a: Id, s: AttemptState, s': AttemptState, origin: Origin, o: Observation)
    requires Legal(log) && ObservationEvent(a, s', origin, o) in Events(log) && !Absorbing(s') && Absorbing(s)
    ensures Clashes(Events(log), ObservationEvent(a, s, origin, o))
  {
    assert MeansOther(s', s, o);
    ObservationClashes(log, a, s, origin, o);
  }

  lemma {:induction false} LostIsLost(log: Log, k: nat)
    requires Legal(log) && k < |Events(log)| && Events(log)[k].key.Lost?
    ensures var e := Events(log)[k]; exists r, code :: e == LostEvent(e.attempt, r, e.key.origin, code)
    decreases |log|
  {
    var front, last := log[..|log| - 1], log[|log| - 1];
    if k < |Events(front)| {
      LostIsLost(front, k);
    } else {
      var e := last.event;
      var code :| e == LostEvent(e.attempt, RefOf(front, e.attempt), e.key.origin, code);
    }
  }

  /** A recorded lost effect whose identity and code run together to the same text, but not the same fact. */
  ghost predicate LostAlike(events: seq<Event>, e: Event, origin: Origin, a: Id, r: Option<string>, code: string) {
    var other := LostEvent(a, r, origin, code);
    other in events && other.key == e.key && other != e
  }

  /** A lost effect clashes exactly when such another one was recorded: of another Attempt, or with another
      provider reference. */
  lemma LostClashes(log: Log, a: Id, r: Option<string>, origin: Origin, code: string)
    requires Legal(log)
    ensures Clashes(Events(log), LostEvent(a, r, origin, code)) <==>
      exists a', r', code' :: LostAlike(Events(log), LostEvent(a, r, origin, code), origin, a', r', code')
  {
    var events, e := Events(log), LostEvent(a, r, origin, code);
    if Clashes(events, e) {
      var k :| 0 <= k < |events| && events[k].key == e.key && events[k] != e;
      LostIsLost(log, k);
      var r', code' :| events[k] == LostEvent(events[k].attempt, r', origin, code');
      assert LostAlike(events, e, origin, events[k].attempt, r', code');
    }
    if a', r', code' :| LostAlike(events, e, origin, a', r', code') {
      var k :| 0 <= k < |events| && events[k] == LostEvent(a', r', origin, code');
      assert events[k].key == e.key && events[k] != e;
    }
  }

  // ---- A history in which reconciliation raises

  /** The history is legal, and this is what the journal says of the Attempt. */
  ghost predicate At(log: Log, a: Id, s: AttemptState, r: Option<string>, events: seq<Event>) {
    && Legal(log) && Exists(log, a) && Events(log) == events
    && State(events, a) == Some(s) && Ref(events, a) == r
  }

  lemma ExistsPush(log: Log, step: Step, a: Id)
    requires Exists(log, a)
    ensures Exists(log + [step], a)
  {
    var k :| 0 <= k < |log| && log[k].Created? && log[k].intent.id == a;
    assert (log + [step])[k] == log[k];
  }

  lemma CallAt(log: Log, a: Id, s: AttemptState, r: Option<string>, events: seq<Event>, c: Call)
    requires At(log, a, s, r, events) && Takes(log, Called(c, a))
    ensures At(log + [Called(c, a)], a, s, r, events)
  {
    assert (log + [Called(c, a)])[..|log|] == log;
    EventsPush(log, Called(c, a));
    ExistsPush(log, Called(c, a), a);
  }

  lemma AppendAt(log: Log, a: Id, s: AttemptState, r: Option<string>, events: seq<Event>, e: Event)
    requires At(log, a, s, r, events) && !HasKey(events, e.key) && Writes(log, s, r, e) && Trusted(e, a)
    ensures At(log + [Appended(e)], a, e.state, if e.ref.Some? then e.ref else r, events + [e])
    ensures LastKey(log + [Appended(e)], e.key)
  {
    assert (log + [Appended(e)])[..|log|] == log;
    EventsPush(log, Appended(e));
    ExistsPush(log, Appended(e), a);
    assert (events + [e])[..|events|] == events;
  }

  lemma CreatedAt(i: Intent, f: Id)
    requires i.previous == None
    ensures At([Created(i, f)], i.id, Prepared, None, [PreparedEvent(i.id)])
    ensures FenceOf([Created(i, f)], i.id, f) && Revoked(f) !in [Created(i, f)]
  {
    var log: Log := [Created(i, f)];
    assert log[..0] == [] && log[0].Created?;
    assert Events([]) == [];
    assert Takes([], Created(i, f));
  }

  /** Created, the launch requested and made, and reconciliation seeing this much. */
  lemma SeenFirst(i: Intent, f: Id, o: Observation) returns (log: Log, events: seq<Event>)
    requires i.previous == None
    ensures At(log, i.id, ObservedState(LaunchRequested, o.state), Some(o.ref), events)
    ensures |events| == 3 && events[2] == ObservationEvent(i.id, LaunchRequested, Some(Reconcile), o)
    ensures !events[0].key.Seen? && !events[1].key.Seen? && !HasKey(events, CancelKey(i.id))
  {
    var a := i.id;
    var launch := Plain(LaunchKey(a), a, LaunchRequested, None, UnknownEffect);
    var seen := ObservationEvent(a, LaunchRequested, Some(Reconcile), o);
    CreatedAt(i, f);
    log, events := [Created(i, f)], [PreparedEvent(a)];
    AppendAt(log, a, Prepared, None, events, launch);
    log, events := log + [Appended(launch)], events + [launch];
    CallAt(log, a, LaunchRequested, None, events, Launch);
    log := log + [Called(Launch, a)];
    CallAt(log, a, LaunchRequested, None, events, Reconcile);
    log := log + [Called(Reconcile, a)];
    AppendAt(log, a, LaunchRequested, None, events, seen);
    log, events := log + [Appended(seen)], events + [seen];
  }

  /** Reconciliation sees the worker running, a cancel is requested, and reconciliation sees the same
      again: the observation now means a requested cancel, and its key is taken. */
  lemma RunningSeenAgainClashes(i: Intent, f: Id, o: Observation) returns (log: Log)
    requires i.previous == None && o.state == ProviderRunning
    ensures Legal(log) && log != [] && log[|log| - 1] == Called(Reconcile, i.id)
    ensures StateOf(log, i.id) == Some(CancelRequested) && RefOf(log, i.id) == Some(o.ref)
    ensures Clashes(Events(log), ObservationEvent(i.id, CancelRequested, Some(Reconcile), o))
  {
    var a := i.id;
    var events;
    log, events := SeenFirst(i, f, o);
    assert ObservationEvent(a, LaunchRequested, Some(Reconcile), o) in events by { assert events[2] in events; }
    var cancel := Plain(CancelKey(a), a, CancelRequested, Some(o.ref), KnownEffect);
    AppendAt(log, a, Running, Some(o.ref), events, cancel);
    log, events := log + [Appended(cancel)], events + [cancel];
    CallAt(log, a, CancelRequested, Some(o.ref), events, Cancel);
    log := log + [Called(Cancel, a)];
    CallAt(log, a, CancelRequested, Some(o.ref), events, Reconcile);
    log := log + [Called(Reconcile, a)];
    assert MeansOther(LaunchRequested, CancelRequested, o);
    ObservationClashes(log, a, CancelRequested, Some(Reconcile), o);
  }

  /** A fact that is stored once under its key is no clash with itself. */
  lemma KnownOnce(events: seq<Event>, k: nat)
    requires k < |events| && forall j :: 0 <= j < |events| && j != k ==> events[j].key != events[k].key
    ensures HasKey(events, events[k].key) && !Clashes(events, events[k])
  {
  }

  /** An observation that is only handed in takes an Attempt out of success again. */
  lemma HandedBack(log: Log, a: Id, events: seq<Event>, u: Observation) returns (log': Log, handed: Event)
    requires At(log, a, Succeeded, Some(u.ref), events) && !HasKey(events, Seen(None, a, u))
    requires u.state == ProviderRunning
    ensures handed.key == Seen(None, a, u)
    ensures log' != [] && log'[|log'| - 1] == Called(Reconcile, a)
    ensures At(log', a, Running, Some(u.ref), events + [handed])
  {
    handed := ObservationEvent(a, Succeeded, None, u);
    AppendAt(log, a, Succeeded, Some(u.ref), events, handed);
    log' := log + [Appended(handed)];
    CallAt(log', a, Running, Some(u.ref), events + [handed], Reconcile);
    log' := log' + [Called(Reconcile, a)];
  }

  /** Reconciliation sees the worker succeeded, a running observation is handed in, and reconciliation sees
      the same success again: the fact is known already, so nothing is stored and the Attempt stays running. */
  lemma SuccessSeenAgainIgnored(i: Intent, f: Id, o: Observation, u: Observation) returns (log: Log)
    requires i.previous == None && o.state == ProviderSucceeded && u.state == ProviderRunning && u.ref == o.ref
    ensures Legal(log) && log != [] && log[|log| - 1] == Called(Reconcile, i.id)
    ensures StateOf(log, i.id) == Some(Running) && RefOf(log, i.id) == Some(o.ref)
    ensures HasKey(Events(log), Seen(Some(Reconcile), i.id, o))
    ensures !Clashes(Events(log), ObservationEvent(i.id, Running, Some(Reconcile), o))
  {
    var events, handed;
    log, events := SeenFirst(i, f, o);
    log, handed := HandedBack(log, i.id, events, u);
    KnownOnce(events + [handed], 2);
    assert (events + [handed])[2] == ObservationEvent(i.id, Running, Some(Reconcile), o);
  }
}
