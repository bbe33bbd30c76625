/** The Codex provider: write-once records on disk, one detached worker per Attempt, and what a
    reader may conclude while the worker keeps running. */
module CodexProvider {
  import opened Wrappers
  import opened AttemptLog
  import Cells = WriteOnce

  datatype Action = CancelAction | ForceStopAction

  datatype Slot = RequestSlot | LaunchSlot | OwnerSlot | CompletionSlot | ControlSlot(action: Action)

  datatype Path = Path(attempt: Id, slot: Slot)

  /** Stored records. A digest of a record is the record itself. */
  datatype Content =
    | RequestContent(attempt: Id, spec: string, settings: string)
    | LaunchContent(attempt: Id, spec: string, request: Content)
    | OwnerContent(attempt: Id, launch: Content, identity: nat)
    | CompletionContent(attempt: Id, spec: string, launch: Content, observation: Observation)
    | ControlContent(attempt: Id, action: Action, launch: Content)

  /** A process; its birth identity is its place in the list of all processes ever started. */
  datatype Worker = Worker(attempt: Id, alive: bool, owned: bool)

  type Disk = map<Path, Content>

  datatype Outcome =
    | Observed(observation: Observation)
    | Rejected(code: string)
    | EffectUnknown(code: string)
    | OtherError
    | Stopped            // the owner crashed

  predicate Terminal(s: ProviderState) {
    s == ProviderSucceeded || s == ProviderFailed || s == ProviderCancelled || s == ProviderForceStopped
  }

  const PROVIDER_ID: Id := "codex_exec"

  function ProviderRef(a: Id): string { "codex:" + a }

  function Launched(a: Id): Path { Path(a, LaunchSlot) }

  function Owner(a: Id): Path { Path(a, OwnerSlot) }

  function Completion(a: Id): Path { Path(a, CompletionSlot) }

  // ---- What the disk and the processes always satisfy

  ghost predicate WorkerLaunched(w: Worker, files: Disk) { Launched(w.attempt) in files }

  ghost predicate GoodRecord(p: Path, files: Disk, workers: seq<Worker>)
    requires p in files
  {
    match p.slot
    case LaunchSlot => files[p].LaunchContent? && files[p].attempt == p.attempt
    case OwnerSlot =>
      && Launched(p.attempt) in files && files[p].OwnerContent?
      && files[p].attempt == p.attempt && files[p].launch == files[Launched(p.attempt)]
      && files[p].identity < |workers| && workers[files[p].identity].attempt == p.attempt
    case CompletionSlot =>
      && Launched(p.attempt) in files && files[p].CompletionContent?
      && files[p].attempt == p.attempt && files[p].launch == files[Launched(p.attempt)]
      && files[Launched(p.attempt)].LaunchContent? && files[p].spec == files[Launched(p.attempt)].spec
      && Terminal(files[p].observation.state) && files[p].observation.ref == ProviderRef(p.attempt)
      && files[p].observation.provider == PROVIDER_ID
    case _ => true
  }

  ghost predicate Consistent(files: Disk, workers: seq<Worker>) {
    && (forall p :: p in files ==> GoodRecord(p, files, workers))
    && (forall i :: 0 <= i < |workers| ==> WorkerLaunched(workers[i], files))
    && OneWorker(workers)
  }

  /** At most one worker was ever started for an Attempt. */
  ghost predicate OneWorker(workers: seq<Worker>) {
    forall i, j :: 0 <= i < j < |workers| ==> workers[i].attempt != workers[j].attempt
  }

  ghost predicate Lives(workers: seq<Worker>, a: Id) {
    exists i :: 0 <= i < |workers| && workers[i].attempt == a && workers[i].alive
  }

  ghost predicate Started(workers: seq<Worker>, a: Id) {
    exists i :: 0 <= i < |workers| && workers[i].attempt == a
  }

  /** What time does: records stay, the dead stay dead, a worker starts only for an Attempt that had
      none, and a completion appears only if its worker was alive or had not been started. */
  ghost predicate Evolves(files: Disk, workers: seq<Worker>, files': Disk, workers': seq<Worker>) {
    && (forall p :: p in files ==> p in files' && files'[p] == files[p])
    && |workers| <= |workers'|
    && (forall i :: 0 <= i < |workers| ==> Ages(workers[i], workers'[i]))
    && (forall i :: |workers| <= i < |workers'| ==> !Started(workers, workers'[i].attempt))
    && (forall a :: Completion(a) in files' && Completion(a) !in files ==>
          Lives(workers, a) || !Started(workers, a))
  }

  ghost predicate Ages(w: Worker, w': Worker) { w'.attempt == w.attempt && (w'.alive ==> w.alive) }

  lemma EvolvesChain(f: Disk, w: seq<Worker>, f': Disk, w': seq<Worker>, f'': Disk, w'': seq<Worker>)
    requires Evolves(f, w, f', w') && Evolves(f', w', f'', w'')
    ensures Evolves(f, w, f'', w'')
  {
    forall i | 0 <= i < |w| ensures Ages(w[i], w''[i]) {
      assert Ages(w[i], w'[i]) && Ages(w'[i], w''[i]);
    }
    forall a | Started(w, a) ensures Started(w', a) {
      var i :| 0 <= i < |w| && w[i].attempt == a;
      assert Ages(w[i], w'[i]);
    }
    forall i | |w| <= i < |w''| ensures !Started(w, w''[i].attempt) {
      if i < |w'| {
        assert Ages(w'[i], w''[i]);
      }
    }
    forall a | Completion(a) in f'' && Completion(a) !in f ensures Lives(w, a) || !Started(w, a) {
      if Completion(a) !in f' && Lives(w', a) {
        LivesBefore(f, w, f', w', a);
      }
    }
  }

  /** Only workers started later can be alive without having been alive. */
  lemma LivesBefore(f: Disk, w: seq<Worker>, f': Disk, w': seq<Worker>, a: Id)
    requires Evolves(f, w, f', w') && Lives(w', a)
    ensures Lives(w, a) || !Started(w, a)
  {
    var i :| 0 <= i < |w'| && w'[i].attempt == a && w'[i].alive;
    assert i < |w| ==> Ages(w[i], w'[i]);
  }

  /** The Attempt's worker was started and is dead, and there is no completion. */
  ghost predicate Vanished(files: Disk, workers: seq<Worker>, a: Id) {
    Started(workers, a) && !Lives(workers, a) && Completion(a) !in files
  }

  /** A vanished worker stays so: no completion record can appear afterwards. */
  lemma VanishedForever(f: Disk, w: seq<Worker>, f': Disk, w': seq<Worker>, a: Id)
    requires Evolves(f, w, f', w') && Vanished(f, w, a)
    ensures Vanished(f', w', a)
  {
    var i :| 0 <= i < |w| && w[i].attempt == a;
    assert Ages(w[i], w'[i]);
    if Lives(w', a) {
      LivesBefore(f, w, f', w', a);
    }
  }

  /** The same over any sequence of moments. */
  lemma {:induction false} VerdictIsFinal(fs: seq<Disk>, ws: seq<seq<Worker>>, m: nat, n: nat, a: Id)
    requires |fs| == |ws| && m <= n < |fs|
    requires forall i :: 0 <= i < |fs| - 1 ==> Evolves(fs[i], ws[i], fs[i + 1], ws[i + 1])
    requires Vanished(fs[m], ws[m], a)
    ensures Completion(a) !in fs[n] && Vanished(fs[n], ws[n], a)
    decreases n
  {
    if m < n {
      VerdictIsFinal(fs, ws, m, n - 1, a);
      VanishedForever(fs[n - 1], ws[n - 1], fs[n], ws[n], a);
    }
  }

  // ---- The worker's writes keep the records consistent

  lemma PhaseKeeps(files: Disk, workers: seq<Worker>, i: nat, w: Worker)
    requires Consistent(files, workers) && i < |workers| && Ages(workers[i], w)
    ensures Consistent(files, workers[i := w])
    ensures WorkersOnly(files, workers, files, workers[i := w])
  {
    var workers' := workers[i := w];
    forall p | p in files ensures GoodRecord(p, files, workers') {
      assert GoodRecord(p, files, workers);
    }
    forall k | 0 <= k < |workers'| ensures WorkerLaunched(workers'[k], files) {
      assert WorkerLaunched(workers[k], files);
    }
  }

  /** What the workers alone may do. */
  ghost predicate WorkersOnly(f: Disk, w: seq<Worker>, f': Disk, w': seq<Worker>) {
    && Evolves(f, w, f', w') && |w'| == |w|
    && forall p :: p in f' && p !in f ==> p.slot.OwnerSlot? || p.slot.CompletionSlot?
  }

  lemma WorkersOnlyChain(f: Disk, w: seq<Worker>, f': Disk, w': seq<Worker>, f'': Disk, w'': seq<Worker>)
    requires WorkersOnly(f, w, f', w') && WorkersOnly(f', w', f'', w'')
    ensures WorkersOnly(f, w, f'', w'')
  {
    EvolvesChain(f, w, f', w', f'', w'');
  }

  /** A record the owner or the worker may put where there is none. */
  ghost predicate Storable(p: Path, c: Content, files: Disk, workers: seq<Worker>) {
    match p.slot
    case LaunchSlot => c.LaunchContent? && c.attempt == p.attempt
    case OwnerSlot =>
      && Launched(p.attempt) in files && c.OwnerContent? && c.attempt == p.attempt
      && c.launch == files[Launched(p.attempt)]
      && c.identity < |workers| && workers[c.identity].attempt == p.attempt
    case CompletionSlot => false
    case _ => true
  }

  lemma StorableStays(p: Path, c: Content, f: Disk, w: seq<Worker>, f': Disk, w': seq<Worker>)
    requires Storable(p, c, f, w) && Evolves(f, w, f', w')
    ensures Storable(p, c, f', w')
  {
    if p.slot.OwnerSlot? {
      assert Ages(w[c.identity], w'[c.identity]);
    }
  }

  lemma StoreKeeps(files: Disk, workers: seq<Worker>, p: Path, c: Content)
    requires Consistent(files, workers) && p !in files && Storable(p, c, files, workers)
    ensures Consistent(files[p := c], workers) && Evolves(files, workers, files[p := c], workers)
    ensures p.slot.OwnerSlot? ==> WorkersOnly(files, workers, files[p := c], workers)
  {
    var files' := files[p := c];
    forall q | q in files' ensures GoodRecord(q, files', workers) {
      if q in files {
        assert GoodRecord(q, files, workers);
      }
    }
    forall k | 0 <= k < |workers| ensures WorkerLaunched(workers[k], files') {
      assert WorkerLaunched(workers[k], files);
    }
  }

  lemma SpawnKeeps(files: Disk, workers: seq<Worker>, a: Id)
    requires Consistent(files, workers) && Launched(a) in files && !Started(workers, a)
    ensures Consistent(files, workers + [Worker(a, true, false)])
    ensures Evolves(files, workers, files, workers + [Worker(a, true, false)])
  {
    var workers' := workers + [Worker(a, true, false)];
    forall p | p in files ensures GoodRecord(p, files, workers') {
      assert GoodRecord(p, files, workers);
    }
    forall k | 0 <= k < |workers'| ensures WorkerLaunched(workers'[k], files) {
      if k < |workers| {
        assert WorkerLaunched(workers[k], files);
      }
    }
    forall i, j | 0 <= i < j < |workers'| ensures workers'[i].attempt != workers'[j].attempt {
      if j == |workers| {
        assert workers[i].attempt != a;
      }
    }
  }

  lemma CompletionKeeps(files: Disk, workers: seq<Worker>, i: nat, o: Observation)
    requires Consistent(files, workers) && i < |workers| && workers[i].alive
    requires Launched(workers[i].attempt) in files && files[Launched(workers[i].attempt)].LaunchContent?
    requires Completion(workers[i].attempt) !in files
    requires Terminal(o.state) && o.ref == ProviderRef(workers[i].attempt) && o.provider == PROVIDER_ID
    ensures var a := workers[i].attempt;
            var record := CompletionContent(a, files[Launched(a)].spec, files[Launched(a)], o);
            Consistent(files[Completion(a) := record], workers)
            && Evolves(files, workers, files[Completion(a) := record], workers)
  {
    var a := workers[i].attempt;
    var record := CompletionContent(a, files[Launched(a)].spec, files[Launched(a)], o);
    var files' := files[Completion(a) := record];
    forall p | p in files' ensures GoodRecord(p, files', workers) {
      if p in files {
        assert GoodRecord(p, files, workers);
      }
    }
    forall k | 0 <= k < |workers| ensures WorkerLaunched(workers[k], files') {
      assert WorkerLaunched(workers[k], files);
    }
    assert Lives(workers, a);
  }

  // ---- Records are write-once cells

  function Cell(files: Disk, p: Path): Option<Content> { if p in files then Some(files[p]) else None }

  function PhaseOf(r: WriteResult): Cells.Phase {
    match r
    case Written => Cells.Returned
    case Different => Cells.Conflicted
    case Interrupted => Cells.Crashed
  }

  /** Once a path has a record, no sequence of moments changes it. */
  lemma {:induction false} RecordFixed(fs: seq<Disk>, ws: seq<seq<Worker>>, m: nat, n: nat, p: Path)
    requires |fs| == |ws| && m <= n < |fs| && Cell(fs[m], p).Some?
    requires forall i :: 0 <= i < |fs| - 1 ==> Evolves(fs[i], ws[i], fs[i + 1], ws[i + 1])
    ensures Cell(fs[n], p) == Cell(fs[m], p)
    decreases n
  {
    if m < n {
      RecordFixed(fs, ws, m, n - 1, p);
      assert Evolves(fs[n - 1], ws[n - 1], fs[n], ws[n]);
    }
  }

  /** The verdict that the worker exited without a terminal record. */
  predicate ExitVerdict(o: Observation) { o.detail == ExitedWithoutRecord && o.state == ProviderUnknown }

  /** What an observation made between two moments tells. A completion that was there is what is
      reported, and a terminal answer is always one. What is reported as running was running, an owned
      worker that still lives without a completion is reported as running, and one that was dead all
      along and left none as exited; an unavailable owner was not recorded. */
  ghost predicate Tells(
    f: Disk, w: seq<Worker>, f': Disk, w': seq<Worker>, a: Id, o: Observation)
  {
    && o.ref == ProviderRef(a) && o.provider == PROVIDER_ID && o.state != NotFound
    && (Completion(a) in f ==> f[Completion(a)].CompletionContent? && o == f[Completion(a)].observation)
    && (Terminal(o.state) ==>
          Completion(a) in f' && f'[Completion(a)].CompletionContent? && f'[Completion(a)].observation == o)
    && (o.state == ProviderRunning ==> Lives(w, a) && Owner(a) in f')
    && (Owner(a) in f && Lives(w', a) && Completion(a) !in f' ==> o.state == ProviderRunning)
    && (Owner(a) in f && !Lives(w, a) && Completion(a) !in f' ==> ExitVerdict(o))
    && (ExitVerdict(o) ==> Vanished(f', w', a))
    && (o.state == ProviderUnknown ==> ExitVerdict(o) || (o.detail == OwnerUnavailable && Owner(a) !in f))
  }

  /** A completion that is there tells everything. */
  lemma CompletionTells(f: Disk, w: seq<Worker>, f': Disk, w': seq<Worker>, a: Id)
    requires Consistent(f', w') && Evolves(f, w, f', w') && Completion(a) in f'
    ensures f'[Completion(a)].CompletionContent? && Tells(f, w, f', w', a, f'[Completion(a)].observation)
  {
    assert GoodRecord(Completion(a), f', w');
  }

  /** What an observation tells of its own moments it also tells of a longer time before. */
  lemma TellsSince(
    f0: Disk, w0: seq<Worker>, f: Disk, w: seq<Worker>, f': Disk, w': seq<Worker>, a: Id, o: Observation)
    requires Evolves(f0, w0, f, w) && |w| == |w0| && Tells(f, w, f', w', a, o)
    ensures Tells(f0, w0, f', w', a, o)
  {
    if Lives(w, a) {
      LivesEarlier(f0, w0, f, w, a);
    }
  }

  lemma LivesEarlier(f0: Disk, w0: seq<Worker>, f: Disk, w: seq<Worker>, a: Id)
    requires Evolves(f0, w0, f, w) && |w| == |w0| && Lives(w, a)
    ensures Lives(w0, a)
  {
    var i :| 0 <= i < |w| && w[i].attempt == a && w[i].alive;
    assert Ages(w0[i], w[i]);
  }

  lemma RunningTells(f: Disk, w: seq<Worker>, f': Disk, w': seq<Worker>, i: nat, o: Observation)
    requires Evolves(f, w, f', w') && |w'| == |w| && i < |w'| && w'[i].alive
    requires Completion(w'[i].attempt) !in f && Owner(w'[i].attempt) in f'
    requires o == Observation(PROVIDER_ID, ProviderRef(w'[i].attempt), ProviderRunning, WorkerRunning, "")
    ensures Tells(f, w, f', w', w'[i].attempt, o)
  {
    LivesEarlier(f, w, f', w', w'[i].attempt);
  }

  /** There is only one worker of the Attempt, and it is dead. */
  lemma ExitedTells(f: Disk, w: seq<Worker>, f': Disk, w': seq<Worker>, i: nat, o: Observation)
    requires Evolves(f, w, f', w') && OneWorker(w') && i < |w'| && !w'[i].alive
    requires Completion(w'[i].attempt) !in f'
    requires o == Observation(PROVIDER_ID, ProviderRef(w'[i].attempt), ProviderUnknown, ExitedWithoutRecord, "")
    ensures Tells(f, w, f', w', w'[i].attempt, o)
  {
    assert !Lives(w', w'[i].attempt) && Started(w', w'[i].attempt);
  }

  datatype WriteResult = Written | Different | Interrupted

  /** What a write that did not return normally means to the provider's caller: an interrupted one is a
      crash, or an operating-system error that no provider error stands for. */
  method Unwritten(written: WriteResult) returns (r: Outcome)
    ensures r == EffectUnknown("codex_state_binding_conflict") <==> written != Interrupted
    ensures r == EffectUnknown("codex_state_binding_conflict") || r == Stopped || r == OtherError
  {
    var crashed := Chance();
    return if written != Interrupted then EffectUnknown("codex_state_binding_conflict")
           else if crashed then Stopped else OtherError;
  }

  class CodexExecProvider {
    var files: Disk
    var workers: seq<Worker>

    ghost predicate Valid()
      reads this
    {
      Consistent(files, workers)
    }

    constructor ()
      ensures Valid() && files == map[] && workers == []
    {
      files, workers := map[], [];
    }

    // ---- The workers

    method WorkerDies(i: nat)
      requires Valid() && i < |workers|
      modifies this
      ensures Valid() && WorkersOnly(old(files), old(workers), files, workers)
    {
      PhaseKeeps(files, workers, i, workers[i].(alive := false));
      workers := workers[i := workers[i].(alive := false)];
    }

    /** The worker records its own identity once; another record there ends it. */
    method WorkerOwns(i: nat)
      requires Valid() && i < |workers| && workers[i].alive
      modifies this
      ensures Valid() && WorkersOnly(old(files), old(workers), files, workers)
    {
      var a := workers[i].attempt;
      assert WorkerLaunched(workers[i], files);
      var owner := OwnerContent(a, files[Launched(a)], i);
      if Owner(a) !in files {
        StoreKeeps(files, workers, Owner(a), owner);
        ghost var before := files;
        files := files[Owner(a) := owner];
        PhaseKeeps(files, workers, i, workers[i].(owned := true));
        WorkersOnlyChain(before, workers, files, workers, files, workers[i := workers[i].(owned := true)]);
        workers := workers[i := workers[i].(owned := true)];
      } else if files[Owner(a)] == owner {
        PhaseKeeps(files, workers, i, workers[i].(owned := true));
        workers := workers[i := workers[i].(owned := true)];
      } else {
        WorkerDies(i);
      }
    }

    /** The worker records its terminal observation once. */
    method WorkerCompletes(i: nat, o: Observation)
      requires Valid() && i < |workers| && workers[i].alive && workers[i].owned
      requires Terminal(o.state) && o.ref == ProviderRef(workers[i].attempt) && o.provider == PROVIDER_ID
      modifies this
      ensures Valid() && WorkersOnly(old(files), old(workers), files, workers)
    {
      var a := workers[i].attempt;
      assert WorkerLaunched(workers[i], files) && GoodRecord(Launched(a), files, workers);
      if Completion(a) in files {
        WorkerDies(i);
        return;
      }
      CompletionKeeps(files, workers, i, o);
      files := files[Completion(a) := CompletionContent(a, files[Launched(a)].spec, files[Launched(a)], o)];
    }

    /** One step of some worker. */
    method WorkerStep()
      requires Valid()
      modifies this
      ensures Valid() && WorkersOnly(old(files), old(workers), files, workers)
    {
      var i: nat :| true;
      if i >= |workers| || !workers[i].alive {
        return;
      }
      var dies := Chance();
      if dies {
        WorkerDies(i);
      } else if !workers[i].owned {
        WorkerOwns(i);
      } else {
        var o: Observation :| true;
        if Terminal(o.state) && o.ref == ProviderRef(workers[i].attempt) && o.provider == PROVIDER_ID {
          WorkerCompletes(i, o);
        }
      }
    }

    /** Between any two reads the workers may have taken any number of steps. */
    method Meanwhile()
      requires Valid()
      modifies this
      ensures Valid() && WorkersOnly(old(files), old(workers), files, workers)
    {
      var n: nat :| true;
      for k := 0 to n
        invariant Valid() && WorkersOnly(old(files), old(workers), files, workers)
      {
        ghost var f, w := files, workers;
        WorkerStep();
        WorkersOnlyChain(old(files), old(workers), f, w, files, workers);
      }
    }

    // ---- The owner's reads and writes

    /** Write-once with the workers running between the check and the link: a run of the write-once cell. */
    method WriteOnce(p: Path, c: Content) returns (r: WriteResult)
      requires Valid() && Storable(p, c, files, workers)
      modifies this
      ensures Valid() && Evolves(old(files), old(workers), files, workers) && |workers| == |old(workers)|
      ensures Cells.Ends(old(Cell(files, p)), c, PhaseOf(r), Cell(files, p))
      ensures r == Written ==> p in files && files[p] == c
      ensures forall q :: q in files && q !in old(files) ==> q == p || q.slot.OwnerSlot? || q.slot.CompletionSlot?
    {
      ghost var before := Cell(files, p);
      if p in files {
        r := if files[p] == c then Written else Different;
        Cells.Raced(before, before, c, PhaseOf(r), before);
        return;
      }
      Meanwhile();
      StorableStays(p, c, old(files), old(workers), files, workers);
      ghost var f, w := files, workers;
      r := Link(p, c);
      EvolvesChain(old(files), old(workers), f, w, files, workers);
      Cells.Raced(before, Cell(f, p), c, PhaseOf(r), Cell(files, p));
    }

    /** The link itself; the owner may crash before it or after. */
    method Link(p: Path, c: Content) returns (r: WriteResult)
      requires Valid() && Storable(p, c, files, workers)
      modifies `files
      ensures Valid() && Evolves(old(files), workers, files, workers)
      ensures files == old(files) || (p !in old(files) && files == old(files)[p := c])
      ensures r == Written ==> Cell(files, p) == Some(c)
      ensures r == Different ==> files == old(files) && p in files && files[p] != c
      ensures r == Interrupted && p in old(files) ==> files == old(files)
    {
      var crashed := Chance();
      if crashed {
        return Interrupted;
      }
      if p in files {
        return if files[p] == c then Written else Different;
      }
      StoreKeeps(files, workers, p, c);
      files := files[p := c];
      crashed := Chance();
      return if crashed then Interrupted else Written;
    }

    method ReadCompletion(a: Id, spec: string) returns (r: Outcome)
      requires Valid() && Completion(a) in files
      ensures r == if files[Completion(a)].spec == spec then Observed(files[Completion(a)].observation)
                   else EffectUnknown("codex_completion_invalid")
      ensures files[Completion(a)].CompletionContent? && Terminal(files[Completion(a)].observation.state)
    {
      assert GoodRecord(Completion(a), files, workers);
      var record := files[Completion(a)];
      return if record.spec == spec then Observed(record.observation) else EffectUnknown("codex_completion_invalid");
    }

    function Unknown(a: Id, d: Detail): Observation { Observation(PROVIDER_ID, ProviderRef(a), ProviderUnknown, d, "") }

    function RunningWith(a: Id, d: Detail): Observation { Observation(PROVIDER_ID, ProviderRef(a), ProviderRunning, d, "") }

    /** Completion, owner, identity and completion again, with the workers running between the reads. */
    method ObserveRecordedLaunch(a: Id, launch: Content) returns (o: Observation)
      requires Valid() && Launched(a) in files && files[Launched(a)] == launch
      modifies this
      ensures Valid() && WorkersOnly(old(files), old(workers), files, workers)
      ensures Tells(old(files), old(workers), files, workers, a, o)
      ensures o.state == ProviderRunning ==> o == Observation("codex_exec", "codex:" + a, ProviderRunning, WorkerRunning, "")
    {
      assert GoodRecord(Launched(a), files, workers);
      if Completion(a) in files {
        o := ReadObservation(a);
        CompletionTells(files, workers, files, workers, a);
        return;
      }
      Meanwhile();
      if Owner(a) !in files {
        return Unknown(a, OwnerUnavailable);
      }
      assert GoodRecord(Owner(a), files, workers);
      o := ObserveWorker(a, files[Owner(a)].identity, old(files), old(workers));
    }

    /** The recorded process, and the completion again if it is dead. */
    method ObserveWorker(a: Id, identity: nat, ghost f: Disk, ghost w: seq<Worker>) returns (o: Observation)
      requires Valid() && WorkersOnly(f, w, files, workers) && Completion(a) !in f && Owner(a) in files
      requires identity < |workers| && workers[identity].attempt == a
      modifies this
      ensures Valid() && WorkersOnly(f, w, files, workers) && Tells(f, w, files, workers, a, o)
      ensures o.state == ProviderRunning ==> o == RunningWith(a, WorkerRunning)
    {
      MeanwhileSince(f, w, identity);
      if workers[identity].alive {
        RunningTells(f, w, files, workers, identity, RunningWith(a, WorkerRunning));
        return RunningWith(a, WorkerRunning);
      }
      MeanwhileSince(f, w, identity);
      if Completion(a) in files {
        o := ReadObservation(a);
        CompletionTells(f, w, files, workers, a);
        return;
      }
      ExitedTells(f, w, files, workers, identity, Unknown(a, ExitedWithoutRecord));
      return Unknown(a, ExitedWithoutRecord);
    }

    /** The time until the next read, as part of the time since an earlier moment; the process that is
        watched keeps its Attempt, and stays dead once it is. */
    method MeanwhileSince(ghost f: Disk, ghost w: seq<Worker>, ghost identity: nat)
      requires Valid() && WorkersOnly(f, w, files, workers) && identity < |workers|
      modifies this
      ensures Valid() && WorkersOnly(f, w, files, workers)
      ensures identity < |workers| && Ages(old(workers)[identity], workers[identity])
      ensures forall p :: p in old(files) ==> p in files
    {
      Meanwhile();
      WorkersOnlyChain(f, w, old(files), old(workers), files, workers);
    }

    method ReadObservation(a: Id) returns (o: Observation)
      requires Valid() && Completion(a) in files
      ensures o == files[Completion(a)].observation && Terminal(o.state)
      ensures o.ref == ProviderRef(a) && o.provider == PROVIDER_ID
    {
      assert GoodRecord(Completion(a), files, workers);
      o := files[Completion(a)].observation;
    }

    // ---- The provider's methods

    /** Validation of the request or the stored settings fails, or the operating system does. */
    method Refusal() returns (r: Outcome)
      ensures r.Rejected? || r == OtherError
    {
      var code: string :| true;
      var known := Chance();
      return if known then Rejected(code) else OtherError;
    }

    /** Starts the Attempt's worker unless a launch is already recorded, in which case it only observes. */
    method Launch(a: Id, spec: string, settings: string) returns (r: Outcome)
      requires Valid()
      modifies this
      ensures Valid() && Evolves(old(files), old(workers), files, workers)
      ensures |workers| <= |old(workers)| + 1
      ensures Launched(a) in old(files) || Completion(a) in old(files) ==> |workers| == |old(workers)|
      ensures |workers| == |old(workers)| + 1 ==> workers[|old(workers)|].attempt == a
      ensures forall p :: p in files && p !in old(files) ==>
        p == Path(a, RequestSlot) || p == Launched(a) || p.slot.OwnerSlot? || p.slot.CompletionSlot?
      ensures r.Observed? && (Launched(a) in old(files) || Completion(a) in old(files)) ==>
        Tells(old(files), old(workers), files, workers, a, r.observation)
      ensures r.Observed? && Completion(a) !in old(files) ==>
        Launched(a) in files && files[Launched(a)].LaunchContent? && files[Launched(a)].spec == spec
      ensures Launched(a) !in old(files) && Completion(a) !in old(files) && r.Observed? ==>
        && |workers| == |old(workers)| + 1 && Owner(a) in files
        && r.observation == Observation("codex_exec", "codex:" + a, ProviderRunning, WorkerRunning, "")
    {
      var refused := Chance();
      if refused {
        r := Refusal();
        return;
      }
      if Completion(a) in files {
        r := ReadCompletion(a, spec);
        CompletionTells(files, workers, files, workers, a);
        return;
      }
      Meanwhile();
      ghost var f, w := files, workers;
      if Launched(a) in files {
        assert GoodRecord(Launched(a), files, workers);
        if files[Launched(a)].spec != spec {
          return Rejected("codex_launch_binding_mismatch");
        }
        var o := ObserveRecordedLaunch(a, files[Launched(a)]);
        EvolvesChain(old(files), old(workers), f, w, files, workers);
        TellsSince(old(files), old(workers), f, w, files, workers, a, o);
        return Observed(o);
      }
      r := Start(a, spec, settings);
      EvolvesChain(old(files), old(workers), f, w, files, workers);
    }

    /** Writes the request and the launch record, then starts the worker and records its owner. */
    method Start(a: Id, spec: string, settings: string) returns (r: Outcome)
      requires Valid() && Launched(a) !in files
      modifies this
      ensures Valid() && Evolves(old(files), old(workers), files, workers)
      ensures |workers| <= |old(workers)| + 1
      ensures |workers| == |old(workers)| + 1 ==> workers[|old(workers)|].attempt == a
      ensures forall p :: p in files && p !in old(files) ==>
        p == Path(a, RequestSlot) || p == Launched(a) || p.slot.OwnerSlot? || p.slot.CompletionSlot?
      ensures r.Observed? ==>
        && r.observation == RunningWith(a, WorkerRunning)
        && |workers| == |old(workers)| + 1 && Owner(a) in files
        && Launched(a) in files && files[Launched(a)].LaunchContent? && files[Launched(a)].spec == spec
    {
      var request := RequestContent(a, spec, settings);
      var written := WriteOnce(Path(a, RequestSlot), request);
      if written != Written {
        r := Unwritten(written);
        return;
      }
      ghost var f, w := files, workers;
      var launch := LaunchContent(a, spec, request);
      written := WriteOnce(Launched(a), launch);
      EvolvesChain(old(files), old(workers), f, w, files, workers);
      if written != Written {
        r := Unwritten(written);
        return;
      }
      var crashed := Chance();
      var refused := Chance();
      if crashed || refused {
        return if crashed then Stopped else Rejected("codex_worker_start_rejected");
      }
      r := Spawn(a, launch, old(files), old(workers));
    }

    method Spawn(a: Id, launch: Content, ghost f0: Disk, ghost w0: seq<Worker>) returns (r: Outcome)
      requires Valid() && Launched(a) in files && files[Launched(a)] == launch
      requires Evolves(f0, w0, files, workers) && |workers| == |w0| && !Started(workers, a)
      modifies this
      ensures Valid() && Evolves(f0, w0, files, workers)
      ensures |workers| == |w0| + 1 && workers[|w0|].attempt == a
      ensures forall p :: p in files && p !in old(files) ==> p.slot.OwnerSlot? || p.slot.CompletionSlot?
      ensures r.Observed? ==> r.observation == RunningWith(a, WorkerRunning) && Owner(a) in files
      ensures Launched(a) in files && files[Launched(a)] == launch
    {
      SpawnKeeps(files, workers, a);
      EvolvesChain(f0, w0, files, workers, files, workers + [Worker(a, true, false)]);
      workers := workers + [Worker(a, true, false)];
      var identity := |workers| - 1;
      var crashed := Chance();
      var unknown := Chance();
      if crashed || unknown {
        return if crashed then Stopped else EffectUnknown("codex_worker_identity_unknown");
      }
      ghost var f, w := files, workers;
      var written := WriteOnce(Owner(a), OwnerContent(a, launch, identity));
      EvolvesChain(f0, w0, f, w, files, workers);
      assert Ages(w[identity], workers[identity]);
      if written != Written {
        r := Unwritten(written);
        return;
      }
      return Observed(RunningWith(a, WorkerRunning));
    }

    /** Whether the launch record is there and binds what is asked for. */
    ghost predicate Binds(a: Id, spec: string, ref: Option<string>)
      reads this
    {
      && Launched(a) in files && files[Launched(a)].LaunchContent? && files[Launched(a)].spec == spec
      && (ref == None || ref == Some("") || ref == Some("codex:" + a))
    }

    /** A completion is read at once; otherwise the launch record must bind the request. */
    method Reconcile(a: Id, spec: string, ref: Option<string>) returns (r: Outcome)
      requires Valid()
      modifies this
      ensures Valid() && Evolves(old(files), old(workers), files, workers) && |workers| == |old(workers)|
      ensures forall p :: p in files && p !in old(files) ==> p.slot.OwnerSlot? || p.slot.CompletionSlot?
      ensures r.Observed? ==> Tells(old(files), old(workers), files, workers, a, r.observation)
      ensures r.Observed? && r.observation.state == ProviderRunning ==> r.observation.detail == WorkerRunning
      ensures Completion(a) in old(files) ==>
        r == if old(files)[Completion(a)].spec == spec then Observed(old(files)[Completion(a)].observation)
             else EffectUnknown("codex_completion_invalid")
      ensures Completion(a) !in old(files) && r.Observed? ==> Binds(a, spec, ref)
      ensures r.Rejected? ==> Launched(a) in files && !Binds(a, spec, ref)
      ensures Completion(a) !in old(files) && r.EffectUnknown? ==> Launched(a) !in files
    {
      if Completion(a) in files {
        r := ReadCompletion(a, spec);
        CompletionTells(files, workers, files, workers, a);
        return;
      }
      Meanwhile();
      ghost var f, w := files, workers;
      var failure := Validated(a, spec, ref);
      if failure.Some? {
        return failure.value;
      }
      var o := ObserveRecordedLaunch(a, files[Launched(a)]);
      EvolvesChain(old(files), old(workers), f, w, files, workers);
      TellsSince(old(files), old(workers), f, w, files, workers, a, o);
      return Observed(o);
    }

    /** The launch record must be readable, be there and bind the request. */
    method Validated(a: Id, spec: string, ref: Option<string>) returns (failure: Option<Outcome>)
      requires Valid()
      ensures failure == None ==> Binds(a, spec, ref)
      ensures failure.Some? && failure.value != OtherError ==>
        failure.value == if Launched(a) !in files then EffectUnknown("codex_launch_state_missing")
                         else Rejected("codex_launch_binding_mismatch")
      ensures failure.Some? && failure.value.Rejected? ==> !Binds(a, spec, ref)
    {
      var broken := Chance();
      if broken {
        return Some(OtherError);
      }
      if Launched(a) !in files {
        return Some(EffectUnknown("codex_launch_state_missing"));
      }
      assert GoodRecord(Launched(a), files, workers);
      if files[Launched(a)].spec != spec || (ref.Some? && ref.value != "" && ref.value != ProviderRef(a)) {
        return Some(Rejected("codex_launch_binding_mismatch"));
      }
      return None;
    }

    /** Cancel or force-stop: one write-once control record, then an observation. */
    method RequestControl(a: Id, spec: string, ref: Option<string>, action: Action) returns (r: Outcome)
      requires Valid()
      modifies this
      ensures Valid() && Evolves(old(files), old(workers), files, workers) && |workers| == |old(workers)|
      ensures forall p :: p in files && p !in old(files) ==>
        p == Path(a, ControlSlot(action)) || p.slot.OwnerSlot? || p.slot.CompletionSlot?
      ensures r.Observed? ==> Tells(old(files), old(workers), files, workers, a, r.observation)
      ensures r.Observed? && r.observation.state == ProviderRunning ==>
        r.observation.detail == (match action case CancelAction => CancelAsked case ForceStopAction => StopAsked)
      ensures Completion(a) in old(files) ==>
        r == if old(files)[Completion(a)].spec == spec then Observed(old(files)[Completion(a)].observation)
             else EffectUnknown("codex_completion_invalid")
      ensures Completion(a) !in old(files) && r.Observed? ==>
        && Binds(a, spec, ref) && Path(a, ControlSlot(action)) in files
        && files[Path(a, ControlSlot(action))] == ControlContent(a, action, files[Launched(a)])
      ensures r.Rejected? ==> Launched(a) in files && !Binds(a, spec, ref)
    {
      if Completion(a) in files {
        r := ReadCompletion(a, spec);
        CompletionTells(files, workers, files, workers, a);
        return;
      }
      Meanwhile();
      var failure := Validated(a, spec, ref);
      if failure.Some? {
        return failure.value;
      }
      ghost var f, w := files, workers;
      var launch := files[Launched(a)];
      var written := WriteOnce(Path(a, ControlSlot(action)), ControlContent(a, action, launch));
      EvolvesChain(old(files), old(workers), f, w, files, workers);
      if written != Written {
        r := Unwritten(written);
        return;
      }
      var broken := Chance();
      if broken {
        return OtherError;
      }
      r := ObserveControlled(a, launch, action, old(files), old(workers));
    }

    /** The observation behind a control record, as part of the time since an earlier moment. */
    method ObserveControlled(a: Id, launch: Content, action: Action, ghost f0: Disk, ghost w0: seq<Worker>)
      returns (r: Outcome)
      requires Valid() && Launched(a) in files && files[Launched(a)] == launch
      requires Evolves(f0, w0, files, workers) && |workers| == |w0|
      modifies this
      ensures Valid() && WorkersOnly(old(files), old(workers), files, workers) && Evolves(f0, w0, files, workers)
      ensures r.Observed? && Tells(f0, w0, files, workers, a, r.observation)
      ensures r.observation.state == ProviderRunning ==>
        r.observation.detail == (match action case CancelAction => CancelAsked case ForceStopAction => StopAsked)
    {
      ghost var f, w := files, workers;
      var o := ObserveRecordedLaunch(a, launch);
      EvolvesChain(f0, w0, f, w, files, workers);
      TellsSince(f0, w0, f, w, files, workers, a, o);
      if o.state == ProviderRunning {
        return Observed(RunningWith(a, if action == CancelAction then CancelAsked else StopAsked));
      }
      return Observed(o);
    }
  }
}
