/** The append-only journal: tables that only grow, and state read back from the last trusted event. */
module AttemptJournal {
  import opened Wrappers
  import opened AttemptLog
  import opened AttemptSafety
  import opened AttemptConflicts

  datatype Row = Row(intent: Intent, fence: Id)

  /** What a caller reads back about one Attempt. */
  datatype Record = Record(intent: Intent, fence: Id, state: AttemptState, ref: Option<string>)

  datatype Stored = Fresh | Repeated | Conflict | Missing

  // ---- Growing histories

  lemma {:induction false} OtherState(events: seq<Event>, e: Event, a: Id)
    requires e.attempt != a
    ensures State(events + [e], a) == State(events, a) && Ref(events + [e], a) == Ref(events, a)
  {
    assert (events + [e])[..|events|] == events;
  }

  /** `after` extends `before` by steps of one Attempt only. */
  ghost predicate OnlyOwn(before: Log, after: Log, a: Id) {
    before <= after && forall k :: |before| <= k < |after| ==> Own(after[k], a)
  }

  lemma OnlyOwnChain(x: Log, y: Log, z: Log, a: Id)
    requires OnlyOwn(x, y, a) && OnlyOwn(y, z, a)
    ensures OnlyOwn(x, z, a)
  {
  }

  lemma {:induction false} OwnKeepsOthers(before: Log, after: Log, a: Id, b: Id)
    requires OnlyOwn(before, after, a) && a != b
    ensures StateOf(after, b) == StateOf(before, b) && RefOf(after, b) == RefOf(before, b)
    decreases |after|
  {
    if |after| > |before| {
      var front, last := after[..|after| - 1], after[|after| - 1];
      OwnKeepsOthers(before, front, a, b);
      EventsPush(front, last);
      assert front + [last] == after;
      if last.Appended? {
        OtherState(Events(front), last.event, b);
      }
    } else {
      assert before == after;
    }
  }

  lemma {:induction false} OwnKeepsActive(before: Log, after: Log, a: Id)
    requires OnlyOwn(before, after, a) && ActiveSince(before, a)
    ensures ActiveSince(after, a)
    decreases |after|
  {
    if |after| > |before| {
      OwnKeepsActive(before, after[..|after| - 1], a);
    } else {
      assert before == after;
    }
  }

  /** The rows are exactly the created Attempts. */
  ghost predicate Coupled(log: Log, rows: map<Id, Row>) {
    && (forall k :: 0 <= k < |log| && log[k].Created? ==> RowOf(log[k], rows))
    && (forall a :: a in rows ==> RowCreated(a, rows[a], log))
  }

  ghost predicate RowOf(step: Step, rows: map<Id, Row>)
    requires step.Created?
  {
    step.intent.id in rows && rows[step.intent.id] == Row(step.intent, step.fence)
  }

  ghost predicate RowCreated(a: Id, row: Row, log: Log) {
    row.intent.id == a && Created(row.intent, row.fence) in log
  }

  ghost predicate SessionsHold(rows: map<Id, Row>, sessions: map<Id, string>) {
    forall a :: a in rows ==> SessionRow(rows[a].intent, sessions)
  }

  ghost predicate SessionRow(intent: Intent, sessions: map<Id, string>) {
    intent.operational.session in sessions && sessions[intent.operational.session] == intent.operational.digest
  }

  lemma CoupledCreate(log: Log, rows: map<Id, Row>, i: Intent, f: Id)
    requires Coupled(log, rows) && i.id !in rows
    ensures Coupled(log + [Created(i, f)], rows[i.id := Row(i, f)])
  {
    var log', rows' := log + [Created(i, f)], rows[i.id := Row(i, f)];
    forall k | 0 <= k < |log'| && log'[k].Created? ensures RowOf(log'[k], rows') {
      if k < |log| {
        assert RowOf(log[k], rows);
      }
    }
    forall a | a in rows' ensures RowCreated(a, rows'[a], log') {
      if a != i.id {
        assert RowCreated(a, rows[a], log);
      } else {
        assert log'[|log|] == Created(i, f);
      }
    }
  }

  lemma CoupledOther(log: Log, rows: map<Id, Row>, step: Step)
    requires Coupled(log, rows) && !step.Created?
    ensures Coupled(log + [step], rows)
  {
    var log' := log + [step];
    forall k | 0 <= k < |log'| && log'[k].Created? ensures RowOf(log'[k], rows) {
      assert log'[k] == log[k];
    }
    forall a | a in rows ensures RowCreated(a, rows[a], log') {
      assert RowCreated(a, rows[a], log);
    }
  }

  lemma SessionsCreate(rows: map<Id, Row>, sessions: map<Id, string>, i: Intent, f: Id)
    requires SessionsHold(rows, sessions)
    requires i.operational.session in sessions ==> sessions[i.operational.session] == i.operational.digest
    ensures SessionsHold(rows[i.id := Row(i, f)], sessions[i.operational.session := i.operational.digest])
  {
  }

  ghost predicate LastTrusted(events: seq<Event>, a: Id, k: nat)
    requires k < |events|
  {
    Trusted(events[k], a) && forall j :: k < j < |events| ==> !Trusted(events[j], a)
  }

  /** The state of the last trusted event: `trusted[-1]`. */
  method HeadState(events: seq<Event>, a: Id) returns (s: AttemptState)
    requires State(events, a).Some?
    ensures Some(s) == State(events, a)
    ensures exists k :: 0 <= k < |events| && LastTrusted(events, a, k) && events[k].state == s
  {
    var i := |events|;
    assert events[..i] == events;
    while !(events[i - 1].attempt == a && !events[i - 1].evidenceOnly)
      invariant 0 < i <= |events| && State(events[..i], a) == State(events, a)
      invariant forall j :: i <= j < |events| ==> !Trusted(events[j], a)
      decreases i
    {
      assert events[..i][..i - 1] == events[..i - 1];
      i := i - 1;
    }
    assert LastTrusted(events, a, i - 1);
    s := events[i - 1].state;
  }

  /** The last provider reference of a trusted event. */
  method LastRef(events: seq<Event>, a: Id) returns (ref: Option<string>)
    ensures ref == Ref(events, a)
    ensures ref == None ==> forall e :: e in events && Trusted(e, a) ==> e.ref == None
    ensures ref.Some? ==> exists e :: e in events && Trusted(e, a) && e.ref == ref
  {
    ref := None;
    var j := |events|;
    assert events[..j] == events;
    while j > 0
      invariant 0 <= j <= |events| && Ref(events[..j], a) == Ref(events, a)
      invariant forall e :: e in events[j..] && Trusted(e, a) ==> e.ref == None
      decreases j
    {
      assert events[..j][..j - 1] == events[..j - 1];
      j := j - 1;
      if events[j].attempt == a && !events[j].evidenceOnly && events[j].ref.Some? {
        return events[j].ref;
      }
    }
  }

  class AttemptJournal {
    var sessions: map<Id, string>
    var fences: map<Id, Fence>
    var revoked: set<Id>
    var rows: map<Id, Row>
    var events: seq<Event>
    /** The journal's facts and the provider calls, in the order they happened. */
    ghost var log: Log

    ghost predicate Valid()
      reads this
    {
      && Legal(log) && events == Events(log)
      && Coupled(log, rows) && SessionsHold(rows, sessions)
      && (forall f :: f in revoked <==> Revoked(f) in log)
      && (forall f :: f in fences ==> fences[f].id == f)
    }

    constructor ()
      ensures Valid() && log == []
    {
      sessions, fences, revoked, rows, events, log := map[], map[], {}, map[], [], [];
    }

    method InstallFence(fence: Fence) returns (stored: bool)
      requires Valid()
      modifies `fences
      ensures Valid()
      ensures stored <==> (fence.id in old(fences) ==> old(fences)[fence.id] == fence)
      ensures fences == if stored then old(fences)[fence.id := fence] else old(fences)
    {
      if fence.id in fences {
        assert fences[fence.id := fences[fence.id]] == fences;
        return fences[fence.id] == fence;
      }
      fences := fences[fence.id := fence];
      return true;
    }

    predicate FenceActive(f: Id)
      reads this
    {
      f in fences && f !in revoked
    }

    method RevokeFence(f: Id) returns (r: Option<bool>)
      requires Valid()
      modifies `revoked, `log
      ensures Valid() && old(log) <= log
      ensures r.None? <==> f !in fences
      ensures r.None? || !r.value ==> log == old(log)
      ensures r == Some(true) ==> log == old(log) + [Revoked(f)]
      ensures r.Some? ==> f in revoked
      ensures events == Events(log) == old(events)
    {
      if f !in fences {
        return None;
      }
      if f in revoked {
        return Some(false);
      }
      Push(log, Revoked(f));
      CoupledOther(log, rows, Revoked(f));
      revoked, log := revoked + {f}, log + [Revoked(f)];
      return Some(true);
    }

    static lemma Push(log: Log, step: Step)
      requires Legal(log) && Takes(log, step)
      ensures Legal(log + [step])
      ensures forall x :: x in log + [step] <==> x in log || x == step
      ensures step.Created? ==> Events(log + [step]) == Events(log) + [PreparedEvent(step.intent.id)]
      ensures step.Appended? ==> Events(log + [step]) == Events(log) + [step.event]
      ensures step.Revoked? || step.Called? ==> Events(log + [step]) == Events(log)
    {
      assert (log + [step])[..|log|] == log;
    }

    /** Records that a provider method is about to run. */
    ghost method Note(c: Call, a: Id)
      requires Valid() && Takes(log, Called(c, a))
      modifies `log
      ensures Valid() && log == old(log) + [Called(c, a)]
    {
      Push(log, Called(c, a));
      CoupledOther(log, rows, Called(c, a));
      log := log + [Called(c, a)];
    }

    method FindKey(key: Key) returns (found: Option<Event>)
      ensures found.Some? <==> HasKey(events, key)
      ensures found.Some? ==> found.value in events && found.value.key == key
    {
      for i := 0 to |events|
        invariant forall j :: 0 <= j < i ==> events[j].key != key
      {
        if events[i].key == key {
          return Some(events[i]);
        }
      }
      return None;
    }

    /** One insert, or nothing: an identical repetition is a no-op and any other reuse conflicts. */
    method AppendEvent(e: Event) returns (r: Stored)
      requires Valid()
      requires !HasKey(events, e.key) && e.attempt in rows ==> Takes(log, Appended(e))
      modifies `events, `log
      ensures Valid()
      ensures r == Fresh <==> !HasKey(old(events), e.key) && e.attempt in rows
      ensures r == Fresh ==> log == old(log) + [Appended(e)] && events == old(events) + [e]
      ensures r != Fresh ==> log == old(log) && events == old(events)
      ensures r == Repeated ==> e in events
      ensures r == Missing <==> !HasKey(old(events), e.key) && e.attempt !in rows
      ensures r == Conflict <==> Clashes(old(events), e)
    {
      var existing := FindKey(e.key);
      if existing.Some? {
        FoundDecides(log, e, existing.value);
        return if existing.value == e then Repeated else Conflict;
      }
      if e.attempt !in rows {
        return Missing;
      }
      Push(log, Appended(e));
      CoupledOther(log, rows, Appended(e));
      events, log := events + [e], log + [Appended(e)];
      return Fresh;
    }

    /** Creates the intent row and its first event together; an identical repetition is a no-op. */
    method CreateAttempt(session: Id, digest: string, intent: Intent, fence: Id) returns (r: Stored)
      requires Valid() && session == intent.operational.session && digest == intent.operational.digest
      requires intent.id !in rows ==> Takes(log, Created(intent, fence))
      modifies `sessions, `rows, `events, `log
      ensures Valid() && old(log) <= log && r != Missing
      ensures r == Fresh ==> log == old(log) + [Created(intent, fence)]
      ensures r == Fresh ==> intent.id !in old(rows) && rows == old(rows)[intent.id := Row(intent, fence)]
      ensures r != Fresh ==> log == old(log) && rows == old(rows)
      ensures r == Repeated ==> intent.id in rows && rows[intent.id] == Row(intent, fence)
      ensures r == Conflict ==>
                || (session in sessions && sessions[session] != digest)
                || (intent.id in rows && rows[intent.id] != Row(intent, fence))
      ensures r == Fresh <==>
                intent.id !in old(rows) && (session in old(sessions) ==> old(sessions)[session] == digest)
    {
      if session in sessions && sessions[session] != digest {
        return Conflict;
      }
      if intent.id in rows {
        return if rows[intent.id] == Row(intent, fence) then Repeated else Conflict;
      }
      Push(log, Created(intent, fence));
      CoupledCreate(log, rows, intent, fence);
      SessionsCreate(rows, sessions, intent, fence);
      sessions := sessions[session := digest];
      rows := rows[intent.id := Row(intent, fence)];
      events, log := events + [PreparedEvent(intent.id)], log + [Created(intent, fence)];
      return Fresh;
    }

    /** The state and reference of one Attempt, from its trusted events. */
    method GetAttempt(a: Id) returns (r: Option<Record>)
      requires Valid()
      ensures r.Some? <==> a in rows
      ensures r.Some? ==> Reads(r.value, a)
      ensures r.Some? ==> exists k :: 0 <= k < |events| && LastTrusted(events, a, k) && events[k].state == r.value.state
      ensures r.Some? && r.value.ref == None ==> forall e :: e in events && Trusted(e, a) ==> e.ref == None
      ensures r.Some? && r.value.ref.Some? ==> exists e :: e in events && Trusted(e, a) && e.ref == r.value.ref
    {
      if a !in rows {
        return None;
      }
      StateFound(a);
      var state := HeadState(events, a);
      var ref := LastRef(events, a);
      return Some(Record(rows[a].intent, rows[a].fence, state, ref));
    }

    /** The record is what the journal now says about `a`. */
    ghost predicate Reads(r: Record, a: Id)
      reads this
    {
      && a in rows && r.intent == rows[a].intent && r.fence == rows[a].fence
      && StateOf(log, a) == Some(r.state) && RefOf(log, a) == r.ref
    }

    lemma StateFound(a: Id)
      requires Valid() && a in rows
      ensures StateOf(log, a).Some? && Exists(log, a) && FenceOf(log, a, rows[a].fence)
      ensures IntentOf(log, rows[a].intent)
    {
      assert RowCreated(a, rows[a], log);
      var k :| 0 <= k < |log| && log[k] == Created(rows[a].intent, rows[a].fence);
      StateOfExisting(log, a, k);
    }

    lemma RowFound(a: Id)
      requires Valid() && Exists(log, a)
      ensures a in rows
    {
    }
  }
}
