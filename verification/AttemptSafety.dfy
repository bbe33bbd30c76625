/** What holds of every history the adapter can write, with crashes between any two steps. */
module AttemptSafety {
  import opened Wrappers
  import opened AttemptLog

  // ---- Prefixes

  lemma {:induction false} LegalPrefix(log: Log, n: nat)
    requires Legal(log) && n <= |log|
    ensures Legal(log[..n])
    decreases |log|
  {
    if n < |log| {
      LegalPrefix(log[..|log| - 1], n);
      assert log[..|log| - 1][..n] == log[..n];
    } else {
      assert log[..n] == log;
    }
  }

  lemma TakesAt(log: Log, i: nat)
    requires Legal(log) && i < |log|
    ensures Legal(log[..i]) && Takes(log[..i], log[i])
  {
    LegalPrefix(log, i + 1);
    assert log[..i + 1][..i] == log[..i];
  }

  lemma EventsPush(log: Log, step: Step)
    ensures step.Created? ==> Events(log + [step]) == Events(log) + [PreparedEvent(step.intent.id)]
    ensures step.Appended? ==> Events(log + [step]) == Events(log) + [step.event]
    ensures step.Revoked? || step.Called? ==> Events(log + [step]) == Events(log)
  {
    assert (log + [step])[..|log|] == log;
  }

  lemma {:induction false} EventsPrefix(log: Log, n: nat)
    requires n <= |log|
    ensures Events(log[..n]) <= Events(log)
    decreases |log|
  {
    if n < |log| {
      EventsPrefix(log[..|log| - 1], n);
      assert log[..|log| - 1][..n] == log[..n];
    } else {
      assert log[..n] == log;
    }
  }

  lemma AppendedEvent(log: Log, i: nat)
    requires i < |log| && log[i].Appended?
    ensures log[i].event in Events(log) && HasKey(Events(log), log[i].event.key)
  {
    EventsPrefix(log, i + 1);
    var front := Events(log[..i]);
    assert log[..i + 1][..i] == log[..i];
    assert Events(log[..i + 1]) == front + [log[i].event];
    assert Events(log)[|front|] == log[i].event;
  }

  /** The operation key of a stored event is never stored again. */
  lemma KeysUnique(log: Log, i: nat, j: nat)
    requires Legal(log) && i < j < |log| && log[i].Appended? && log[j].Appended?
    ensures log[i].event.key != log[j].event.key
  {
    TakesAt(log, j);
    assert log[..j][i] == log[i];
    AppendedEvent(log[..j], i);
  }

  // ---- Calls

  function KeyOfCall(c: Call, a: Id): Key
    requires c != Reconcile
  {
    match c
    case Launch => LaunchKey(a)
    case Cancel => CancelKey(a)
    case Stop => StopKey(a)
  }

  /** A launch, cancel or force-stop call comes directly after its durable intent. */
  lemma CallFollowsIntent(log: Log, i: nat, c: Call, a: Id)
    requires Legal(log) && i < |log| && log[i] == Called(c, a) && c != Reconcile
    ensures i > 0 && log[i - 1].Appended? && log[i - 1].event.key == KeyOfCall(c, a)
  {
    TakesAt(log, i);
  }

  /** Launch, cancel and force-stop are each sent at most once for an Attempt. */
  lemma CallsOnce(log: Log, i: nat, j: nat, c: Call, a: Id)
    requires Legal(log) && i < j < |log| && c != Reconcile && log[i] == Called(c, a)
    ensures log[j] != Called(c, a)
  {
    if log[j] == Called(c, a) {
      CallFollowsIntent(log, i, c, a);
      CallFollowsIntent(log, j, c, a);
      KeysUnique(log, i - 1, j - 1);
    }
  }

  lemma CreatedOnce(log: Log, i: nat, j: nat)
    requires Legal(log) && i < j < |log| && log[i].Created? && log[j].Created?
    ensures log[i].intent.id != log[j].intent.id
  {
    TakesAt(log, j);
    assert log[..j][i] == log[i];
  }

  lemma OneFence(log: Log, a: Id, f: Id, g: Id)
    requires Legal(log) && FenceOf(log, a, f) && FenceOf(log, a, g)
    ensures f == g
  {
    var i :| 0 <= i < |log| && log[i].Created? && log[i].intent.id == a && log[i].fence == f;
    var j :| 0 <= j < |log| && log[j].Created? && log[j].intent.id == a && log[j].fence == g;
    if i < j {
      CreatedOnce(log, i, j);
    } else if j < i {
      CreatedOnce(log, j, i);
    }
  }

  lemma FencePrefix(log: Log, n: nat, a: Id, f: Id)
    requires n <= |log| && FenceOf(log[..n], a, f)
    ensures FenceOf(log, a, f)
  {
    var k :| 0 <= k < n && log[..n][k].Created? && log[..n][k].intent.id == a && log[..n][k].fence == f;
    assert log[k] == log[..n][k];
  }

  /** No launch follows a revocation of the Attempt's fence. */
  lemma NoLaunchAfterRevocation(log: Log, i: nat, a: Id, f: Id)
    requires Legal(log) && i < |log| && log[i] == Called(Launch, a) && FenceOf(log, a, f)
    ensures Revoked(f) !in log[..i]
  {
    CallFollowsIntent(log, i, Launch, a);
    TakesAt(log, i - 1);
    var g :| FenceOf(log[..i - 1], a, g) && Revoked(g) !in log[..i - 1];
    FencePrefix(log, i - 1, a, g);
    OneFence(log, a, f, g);
    assert log[..i] == log[..i - 1] + [log[i - 1]];
  }

  // ---- States and certainty

  lemma {:induction false} EventsExist(log: Log, a: Id, k: nat)
    requires Legal(log) && k < |Events(log)| && Events(log)[k].attempt == a
    ensures Exists(log, a)
    decreases |log|
  {
    var front := log[..|log| - 1];
    if k < |Events(front)| {
      EventsExist(front, a, k);
      var i :| 0 <= i < |front| && front[i].Created? && front[i].intent.id == a;
      assert log[i] == front[i];
    } else if log[|log| - 1].Appended? {
      var i :| 0 <= i < |front| && front[i].Created? && front[i].intent.id == a;
      assert log[i] == front[i];
    }
  }

  /** While an Attempt is prepared, its creation is all the journal says about it. */
  lemma {:induction false} PreparedIsFresh(log: Log, a: Id, k: nat)
    requires Legal(log) && StateOf(log, a) == Some(Prepared)
    requires k < |Events(log)| && Events(log)[k].attempt == a
    ensures Events(log)[k] == PreparedEvent(a)
    decreases |log|
  {
    var front, last := log[..|log| - 1], log[|log| - 1];
    if last.Created? && last.intent.id == a {
      if k < |Events(front)| {
        EventsExist(front, a, k);
      }
    } else {
      assert StateOf(front, a) == Some(Prepared);
      PreparedIsFresh(front, a, k);
    }
  }

  /** What a stored fact says about effects: none where nothing can have been sent, a known one where the
      provider answered or was asked to stop, and an unknown one everywhere else. */
  lemma {:induction false} StoredCertainty(log: Log, k: nat)
    requires Legal(log) && k < |Events(log)|
    ensures match Events(log)[k].key {
      case PrepareKey(_) => Events(log)[k].certainty == NoEffect
      case DispatchFenced(_) => Events(log)[k].certainty == NoEffect
      case LaunchRejection(_) => Events(log)[k].certainty == NoEffect
      case CancelUnsent(_) => Events(log)[k].certainty == NoEffect
      case StopUnsent(_) => Events(log)[k].certainty == NoEffect
      case CancelKey(_) => Events(log)[k].certainty == KnownEffect
      case CancelRejection(_) => Events(log)[k].certainty == KnownEffect
      case StopKey(_) => Events(log)[k].certainty == KnownEffect
      case StopRejection(_) => Events(log)[k].certainty == KnownEffect
      case Revocation(_) => Events(log)[k].certainty != UnknownEffect
      case Seen(_, _, o) =>
        if o.state == NotFound || o.state == ProviderUnknown then Events(log)[k].certainty == UnknownEffect
        else Events(log)[k].certainty == KnownEffect
      case _ => Events(log)[k].certainty == UnknownEffect
    }
    decreases |log|
  {
    var front := log[..|log| - 1];
    if k < |Events(front)| {
      StoredCertainty(front, k);
    }
  }

  /** An active or unknown Attempt has a trusted event that admits an effect. */
  lemma {:induction false} ActiveShowsEffect(log: Log, a: Id)
    requires Legal(log) && StateOf(log, a).Some?
    requires Active(StateOf(log, a).value) || StateOf(log, a).value == Unknown
    ensures ShowsEffect(Events(log), a)
    decreases |log|
  {
    var front, last := log[..|log| - 1], log[|log| - 1];
    if last.Appended? && Trusted(last.event, a) {
      assert Events(log)[|Events(front)|] == last.event;
    } else {
      assert StateOf(front, a) == StateOf(log, a);
      ActiveShowsEffect(front, a);
      ShowsPrefix(Events(front), Events(log), a);
    }
  }

  ghost predicate ShowsEffect(events: seq<Event>, a: Id) {
    exists k :: 0 <= k < |events| && Trusted(events[k], a) && events[k].certainty != NoEffect
  }

  lemma ShowsPrefix(short: seq<Event>, long: seq<Event>, a: Id)
    requires short <= long && ShowsEffect(short, a)
    ensures ShowsEffect(long, a)
  {
    var k :| 0 <= k < |short| && Trusted(short[k], a) && short[k].certainty != NoEffect;
    assert long[k] == short[k];
  }

  lemma CallShowsEffect(log: Log, i: nat, c: Call, a: Id)
    requires Legal(log) && i < |log| && log[i] == Called(c, a)
    ensures ShowsEffect(Events(log), a)
  {
    TakesAt(log, i);
    EventsPrefix(log, i);
    if c == Reconcile {
      ActiveShowsEffect(log[..i], a);
      ShowsPrefix(Events(log[..i]), Events(log), a);
    } else {
      TakesAt(log, i - 1);
      AppendedEvent(log, i - 1);
      var e := log[i - 1].event;
      assert Trusted(e, a) && e.certainty != NoEffect;
      var k :| 0 <= k < |Events(log)| && Events(log)[k] == e;
    }
  }

  /** A result reports no effect only if no provider method was ever called for the Attempt. */
  lemma NoEffectNoCall(log: Log, a: Id, c: Call)
    requires Legal(log) && EffectCertainty(Events(log), a) == NoEffect
    ensures Called(c, a) !in log
  {
    if Called(c, a) in log {
      var i :| 0 <= i < |log| && log[i] == Called(c, a);
      CallShowsEffect(log, i, c, a);
    }
  }

  /** No operation takes an Attempt out of UNKNOWN or FENCED. */
  lemma {:induction false} AbsorbingForever(log: Log, n: nat, a: Id)
    requires Legal(log) && n <= |log|
    requires StateOf(log[..n], a).Some? && Absorbing(StateOf(log[..n], a).value)
    ensures StateOf(log, a).Some? && Absorbing(StateOf(log, a).value)
    decreases |log|
  {
    if n == |log| {
      assert log[..n] == log;
    } else {
      var front := log[..|log| - 1];
      assert front[..n] == log[..n];
      AbsorbingForever(front, n, a);
      AbsorbingStep(front, log[|log| - 1], a);
      assert front + [log[|log| - 1]] == log;
    }
  }

  lemma StateExists(log: Log, a: Id)
    requires Legal(log) && StateOf(log, a).Some?
    ensures Exists(log, a)
  {
    var k := StateEvent(Events(log), a);
    EventsExist(log, a, k);
  }

  lemma {:induction false} StateEvent(events: seq<Event>, a: Id) returns (k: nat)
    requires State(events, a).Some?
    ensures k < |events| && Trusted(events[k], a) && events[k].state == State(events, a).value
    decreases |events|
  {
    if Trusted(events[|events| - 1], a) {
      k := |events| - 1;
    } else {
      k := StateEvent(events[..|events| - 1], a);
    }
  }

  lemma AbsorbingStep(log: Log, step: Step, a: Id)
    requires Legal(log) && Takes(log, step)
    requires StateOf(log, a).Some? && Absorbing(StateOf(log, a).value)
    ensures StateOf(log + [step], a).Some? && Absorbing(StateOf(log + [step], a).value)
  {
    EventsPush(log, step);
    StateExists(log, a);
    if step.Appended? && step.event.attempt == a {
      AbsorbingWrite(log, StateOf(log, a).value, RefOf(log, a), step.event);
    }
  }

  lemma AbsorbingWrite(log: Log, s: AttemptState, r: Option<string>, e: Event)
    requires Absorbing(s) && Writes(log, s, r, e)
    ensures e.evidenceOnly || Absorbing(e.state)
  {
  }

  /** An Attempt that is UNKNOWN or FENCED is never the predecessor of a later one. */
  lemma AbsorbingNeverRetried(log: Log, n: nat, k: nat, a: Id)
    requires Legal(log) && n <= k < |log| && log[k].Created?
    requires StateOf(log[..n], a).Some? && Absorbing(StateOf(log[..n], a).value)
    ensures log[k].intent.previous != Some(a)
  {
    TakesAt(log, k);
    assert log[..k][..n] == log[..n];
    AbsorbingForever(log[..k], n, a);
  }

  // ---- Provider references

  /** Every trusted event that names a provider reference names the Attempt's one reference. */
  lemma {:induction false} TrustedRef(log: Log, a: Id, k: nat)
    requires Legal(log) && k < |Events(log)| && Trusted(Events(log)[k], a) && Events(log)[k].ref.Some?
    ensures RefOf(log, a) == Events(log)[k].ref
    decreases |log|
  {
    var front, last := log[..|log| - 1], log[|log| - 1];
    if k < |Events(front)| {
      TrustedRef(front, a, k);
      if last.Appended? && last.event.attempt == a {
        RefKept(front, StateOf(front, a).value, RefOf(front, a), last.event);
      }
    }
  }

  lemma RefKept(log: Log, s: AttemptState, r: Option<string>, e: Event)
    requires Writes(log, s, r, e) && r.Some?
    ensures e.evidenceOnly || e.ref == None || e.ref == r
  {
  }

  /** All trusted events of an Attempt agree on one provider reference. */
  lemma RefsAgree(log: Log, a: Id, j: nat, k: nat)
    requires Legal(log) && j < |Events(log)| && k < |Events(log)|
    requires Trusted(Events(log)[j], a) && Trusted(Events(log)[k], a)
    requires Events(log)[j].ref.Some? && Events(log)[k].ref.Some?
    ensures Events(log)[j].ref == Events(log)[k].ref
  {
    TrustedRef(log, a, j);
    TrustedRef(log, a, k);
  }

  // ---- Retry lineages

  ghost predicate Precedes(log: Log, p: Id, a: Id) {
    exists k :: 0 <= k < |log| && log[k].Created? && log[k].intent.id == a && log[k].intent.previous == Some(p)
  }

  /** `p` is `n` retries before `a`. */
  ghost predicate Ancestor(log: Log, p: Id, a: Id, n: nat)
    decreases n
  {
    if n == 0 then p == a else exists q :: Precedes(log, q, a) && Ancestor(log, p, q, n - 1)
  }

  lemma {:induction false} StateOfExisting(log: Log, a: Id, k: nat)
    requires k < |log| && log[k].Created? && log[k].intent.id == a
    ensures StateOf(log, a).Some?
    decreases |log|
  {
    var front, last := log[..|log| - 1], log[|log| - 1];
    if k < |front| {
      StateOfExisting(front, a, k);
    }
    EventsPush(front, last);
    assert front + [last] == log;
  }

  lemma {:induction false} AncestorEarlier(log: Log, p: Id, a: Id, n: nat, k: nat)
    returns (j: nat)
    requires Legal(log) && n > 0 && Ancestor(log, p, a, n)
    requires k < |log| && log[k].Created? && log[k].intent.id == a
    ensures j < k && log[j].Created? && log[j].intent.id == p
    decreases n
  {
    var q :| Precedes(log, q, a) && Ancestor(log, p, q, n - 1);
    var i :| 0 <= i < |log| && log[i].Created? && log[i].intent.id == a && log[i].intent.previous == Some(q);
    SameCreation(log, i, k);
    TakesAt(log, k);
    StateExists(log[..k], q);
    j :| 0 <= j < |log[..k]| && log[..k][j].Created? && log[..k][j].intent.id == q;
    if n > 1 {
      j := AncestorEarlier(log, p, q, n - 1, j);
    }
  }

  lemma SameCreation(log: Log, i: nat, k: nat)
    requires Legal(log) && i < |log| && k < |log| && log[i].Created? && log[k].Created?
    requires log[i].intent.id == log[k].intent.id
    ensures i == k
  {
    if i < k {
      CreatedOnce(log, i, k);
    } else if k < i {
      CreatedOnce(log, k, i);
    }
  }

  /** No Attempt is its own proper ancestor. */
  lemma LineageAcyclic(log: Log, a: Id, n: nat)
    requires Legal(log) && n > 0
    ensures !Ancestor(log, a, a, n)
  {
    if Ancestor(log, a, a, n) {
      var q :| Precedes(log, q, a) && Ancestor(log, a, q, n - 1);
      var k :| 0 <= k < |log| && log[k].Created? && log[k].intent.id == a && log[k].intent.previous == Some(q);
      var j := AncestorEarlier(log, a, a, n, k);
      SameCreation(log, j, k);
    }
  }

  /** No observation was handed to the adapter directly. */
  ghost predicate NoIngress(log: Log) {
    forall k :: 0 <= k < |log| && log[k].Appended? ==> !Ingress(log[k].event.key)
  }

  predicate Ingress(key: Key) {
    match key
    case Mismatch(origin, _) => origin == None
    case Seen(origin, _, _) => origin == None
    case _ => false
  }

  /** Without direct ingress the predecessor of a retry keeps its settled failure. */
  lemma {:induction false} PredecessorSettled(log: Log, k: nat, p: Id)
    requires Legal(log) && NoIngress(log)
    requires k < |log| && log[k].Created? && log[k].intent.previous == Some(p)
    ensures StateOf(log, p).Some? && Retryable(StateOf(log, p).value)
    decreases |log|, 1
  {
    var front, last := log[..|log| - 1], log[|log| - 1];
    EventsPush(front, last);
    assert front + [last] == log;
    if k == |log| - 1 {
      StateExists(front, p);
    } else {
      assert forall j :: 0 <= j < |front| ==> front[j] == log[j];
      PredecessorSettled(front, k, p);
      StateExists(front, p);
      if last.Appended? && last.event.attempt == p {
        NotActiveSince(front, k, p);
        SettledWrite(front, StateOf(front, p).value, RefOf(front, p), last.event);
        assert false;
      }
    }
  }

  lemma {:induction false} NotActiveSince(log: Log, k: nat, p: Id)
    requires Legal(log) && NoIngress(log)
    requires k < |log| && log[k].Created? && log[k].intent.previous == Some(p)
    ensures !ActiveSince(log, p)
    decreases |log|, 2
  {
    PredecessorSettled(log, k, p);
    if Own(log[|log| - 1], p) {
      NotActiveSince(log[..|log| - 1], k, p);
    }
  }

  lemma SettledWrite(log: Log, s: AttemptState, r: Option<string>, e: Event)
    requires Retryable(s) && Writes(log, s, r, e)
    ensures Ingress(e.key) || ActiveSince(log, e.attempt)
  {
  }

  /** Without direct ingress every proper ancestor on a lineage stays FAILED, CANCELLED or FORCE_STOPPED. */
  lemma {:induction false} AncestorsSettled(log: Log, p: Id, a: Id, n: nat)
    requires Legal(log) && NoIngress(log) && n > 0 && Ancestor(log, p, a, n)
    ensures StateOf(log, p).Some? && Retryable(StateOf(log, p).value)
    decreases n
  {
    var q :| Precedes(log, q, a) && Ancestor(log, p, q, n - 1);
    if n == 1 {
      var k :| 0 <= k < |log| && log[k].Created? && log[k].intent.id == a && log[k].intent.previous == Some(q);
      PredecessorSettled(log, k, p);
    } else {
      AncestorsSettled(log, p, q, n - 1);
    }
  }

  /** A whole lineage stays under one Session and one Session digest. */
  lemma {:induction false} LineageSession(log: Log, p: Intent, a: Intent, n: nat)
    requires Legal(log) && Ancestor(log, p.id, a.id, n) && IntentOf(log, p) && IntentOf(log, a)
    ensures p.operational.session == a.operational.session && p.operational.digest == a.operational.digest
    decreases n
  {
    if n == 0 {
      SameIntent(log, p, a);
    } else {
      var q :| Precedes(log, q, a.id) && Ancestor(log, p.id, q, n - 1);
      var b := CorrectedIntent(log, a, q);
      LineageSession(log, p, b, n - 1);
    }
  }

  lemma CorrectedIntent(log: Log, a: Intent, q: Id) returns (b: Intent)
    requires Legal(log) && IntentOf(log, a) && Precedes(log, q, a.id)
    ensures IntentOf(log, b) && b.id == q && Corrects(b, a)
  {
    var k :| 0 <= k < |log| && log[k].Created? && log[k].intent.id == a.id && log[k].intent.previous == Some(q);
    SameIntent(log, log[k].intent, a);
    TakesAt(log, k);
    b :| IntentOf(log[..k], b) && Corrects(b, log[k].intent);
    var i :| 0 <= i < k && log[..k][i].Created? && log[..k][i].intent == b;
    assert log[i] == log[..k][i];
  }

  lemma SameIntent(log: Log, p: Intent, a: Intent)
    requires Legal(log) && IntentOf(log, p) && IntentOf(log, a) && p.id == a.id
    ensures p == a
  {
    var i :| 0 <= i < |log| && log[i].Created? && log[i].intent == p;
    var j :| 0 <= j < |log| && log[j].Created? && log[j].intent == a;
    SameCreation(log, i, j);
  }
}
