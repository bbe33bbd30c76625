/** Write-once files under concurrent writers: check, write a temporary, link it into place. */
module WriteOnce {
  import opened Wrappers

  datatype Phase =
    | Looking     // before the existence check
    | Staged      // the file was absent; a temporary is written
    | Comparing   // a file was there, at the check or at the link
    | Returned | Conflicted | Crashed

  datatype Writer<C> = Writer(content: C, phase: Phase)

  datatype State<C> = State(cell: Option<C>, writers: seq<Writer<C>>)

  /** One atomic step of writer `w`; a crash may come before any step. */
  ghost predicate Moves<C>(cell: Option<C>, w: Writer<C>, cell': Option<C>, w': Writer<C>) {
    && w'.content == w.content
    && match w.phase
       case Looking =>
         cell' == cell && w'.phase in {if cell.Some? then Comparing else Staged, Crashed}
       case Staged =>
         || (w'.phase == Crashed && cell' == cell)
         || (cell == None && cell' == Some(w.content) && w'.phase in {Returned, Crashed})
         || (cell.Some? && cell' == cell && w'.phase == Comparing)
       case Comparing =>
         && cell' == cell && cell.Some?
         && w'.phase in {if cell.value == w.content then Returned else Conflicted, Crashed}
       case _ => false
  }

  ghost predicate Next<C>(s: State<C>, s': State<C>) {
    exists i :: 0 <= i < |s.writers| && NextBy(s, s', i)
  }

  ghost predicate NextBy<C>(s: State<C>, s': State<C>, i: nat)
    requires i < |s.writers|
  {
    && |s'.writers| == |s.writers|
    && Moves(s.cell, s.writers[i], s'.cell, s'.writers[i])
    && forall j :: 0 <= j < |s.writers| && j != i ==> s'.writers[j] == s.writers[j]
  }

  /** Any number of writers start, on a file that may already be there. */
  ghost predicate Init<C>(s: State<C>) {
    forall i :: 0 <= i < |s.writers| ==> s.writers[i].phase == Looking
  }

  ghost predicate Run<C>(run: seq<State<C>>) {
    && run != [] && Init(run[0])
    && forall i :: 0 <= i < |run| - 1 ==> Next(run[i], run[i + 1])
  }

  ghost predicate Agrees<C>(cell: Option<C>, w: Writer<C>) {
    match w.phase
    case Comparing => cell.Some?
    case Returned => cell == Some(w.content)
    case Conflicted => cell.Some? && cell != Some(w.content)
    case _ => true
  }

  ghost predicate Inv<C>(s: State<C>) {
    forall i :: 0 <= i < |s.writers| ==> Agrees(s.cell, s.writers[i])
  }

  lemma NextKeeps<C>(s: State<C>, s': State<C>)
    requires Inv(s) && Next(s, s')
    ensures Inv(s') && (s.cell.Some? ==> s'.cell == s.cell)
  {
    var i :| 0 <= i < |s.writers| && NextBy(s, s', i);
    forall j | 0 <= j < |s'.writers| ensures Agrees(s'.cell, s'.writers[j]) {
      assert Agrees(s.cell, s.writers[j]);
    }
  }

  lemma {:induction false} RunKeeps<C>(run: seq<State<C>>, n: nat)
    requires Run(run) && n < |run|
    ensures Inv(run[n])
    decreases n
  {
    if n > 0 {
      RunKeeps(run, n - 1);
      NextKeeps(run[n - 1], run[n]);
    }
  }

  /** Once a path has content, no interleaving and no crash changes it. */
  lemma {:induction false} ContentFixed<C>(run: seq<State<C>>, m: nat, n: nat)
    requires Run(run) && m <= n < |run| && run[m].cell.Some?
    ensures run[n].cell == run[m].cell
    decreases n
  {
    if m < n {
      ContentFixed(run, m, n - 1);
      RunKeeps(run, n - 1);
      NextKeeps(run[n - 1], run[n]);
    }
  }

  /** No writer is lost or takes up other content, and one that is done stays as it ended. */
  lemma {:induction false} WritersKept<C>(run: seq<State<C>>, m: nat, n: nat, i: nat)
    requires Run(run) && m <= n < |run| && i < |run[m].writers|
    ensures i < |run[n].writers| && run[n].writers[i].content == run[m].writers[i].content
    ensures run[m].writers[i].phase in {Returned, Conflicted} ==> run[n].writers[i] == run[m].writers[i]
    decreases n
  {
    if m < n {
      WritersKept(run, m, n - 1, i);
      var j :| 0 <= j < |run[n - 1].writers| && NextBy(run[n - 1], run[n], j);
    }
  }

  /** A normal return stands, and agrees with the stored bytes at every later moment. */
  lemma ReturnAgrees<C>(run: seq<State<C>>, m: nat, n: nat, i: nat)
    requires Run(run) && m <= n < |run| && i < |run[m].writers| && run[m].writers[i].phase == Returned
    ensures i < |run[n].writers| && run[n].writers[i] == run[m].writers[i]
    ensures run[n].cell == Some(run[n].writers[i].content)
  {
    RunKeeps(run, m);
    assert Agrees(run[m].cell, run[m].writers[i]);
    ContentFixed(run, m, n);
    WritersKept(run, m, n, i);
  }

  /** Two writers both return normally, whenever that is, only if they wrote the same content. */
  lemma ReturnsAgree<C>(run: seq<State<C>>, m: nat, n: nat, i: nat, j: nat)
    requires Run(run) && m < |run| && n < |run| && i < |run[m].writers| && j < |run[n].writers|
    requires run[m].writers[i].phase == Returned && run[n].writers[j].phase == Returned
    ensures run[m].writers[i].content == run[n].writers[j].content
  {
    var last := if m <= n then n else m;
    ReturnAgrees(run, m, last, i);
    ReturnAgrees(run, n, last, j);
  }

  /** A conflict is reported only against different stored content; both stand. */
  lemma ConflictIsReal<C>(run: seq<State<C>>, m: nat, n: nat, i: nat)
    requires Run(run) && m <= n < |run| && i < |run[m].writers| && run[m].writers[i].phase == Conflicted
    ensures i < |run[n].writers| && run[n].writers[i] == run[m].writers[i]
    ensures run[n].cell.Some? && run[n].cell != Some(run[n].writers[i].content)
  {
    RunKeeps(run, m);
    assert Agrees(run[m].cell, run[m].writers[i]);
    ContentFixed(run, m, n);
    WritersKept(run, m, n, i);
  }

  /** What is stored was there before, or is one writer's content. */
  lemma {:induction false} ContentIsWritten<C>(run: seq<State<C>>, n: nat)
    requires Run(run) && n < |run| && run[n].cell.Some?
    ensures run[n].cell == run[0].cell || exists i :: 0 <= i < |run[n].writers| && Wrote(run[n], i)
    decreases n
  {
    if n > 0 {
      var j :| 0 <= j < |run[n - 1].writers| && NextBy(run[n - 1], run[n], j);
      RunKeeps(run, n - 1);
      NextKeeps(run[n - 1], run[n]);
      if run[n - 1].cell.Some? {
        ContentIsWritten(run, n - 1);
        if run[n - 1].cell != run[0].cell {
          var i :| 0 <= i < |run[n - 1].writers| && Wrote(run[n - 1], i);
          assert Wrote(run[n], i);
        }
      } else {
        assert Wrote(run[n], j);
      }
    }
  }

  ghost predicate Wrote<C>(s: State<C>, i: nat)
    requires i < |s.writers|
  {
    s.cell == Some(s.writers[i].content)
  }

  // ---- What one write comes to, seen from outside

  /** Some run, with any other writers, takes the path from `before` to `after` while the first writer,
      of `c`, ends in `phase`. */
  ghost predicate Ends<C(!new)>(before: Option<C>, c: C, phase: Phase, after: Option<C>) {
    exists run: seq<State<C>> :: EndsBy(run, before, c, phase, after)
  }

  ghost predicate EndsBy<C>(run: seq<State<C>>, before: Option<C>, c: C, phase: Phase, after: Option<C>) {
    && Run(run) && run[0].writers != [] && run[0].writers[0].content == c && run[0].cell == before
    && var last := run[|run| - 1]; last.cell == after && last.writers != [] && last.writers[0].phase == phase
  }

  /** An existence check that finds `before` and a link that meets `between`, with another writer coming
      first when the two differ, are such a run. */
  lemma Raced<C(!new)>(before: Option<C>, between: Option<C>, c: C, phase: Phase, after: Option<C>)
    requires before.Some? ==> between == before
    requires between.Some? ==> after == between && phase in {if between.value == c then Returned else Conflicted, Crashed}
    requires between.None? ==> (after == Some(c) && phase in {Returned, Crashed}) || (after == None && phase == Crashed)
    ensures Ends(before, c, phase, after)
  {
    if before.Some? {
      Found(before, c, phase);
    } else if between.None? {
      Alone(c, phase, after);
    } else {
      Overtaken(between.value, c, phase);
    }
  }

  lemma Found<C(!new)>(before: Option<C>, c: C, phase: Phase)
    requires before.Some? && phase in {if before.value == c then Returned else Conflicted, Crashed}
    ensures Ends(before, c, phase, before)
  {
    var s0, s1 := State(before, [Writer(c, Looking)]), State(before, [Writer(c, Comparing)]);
    var s2 := State(before, [Writer(c, phase)]);
    assert NextBy(s0, s1, 0) && NextBy(s1, s2, 0);
    assert EndsBy([s0, s1, s2], before, c, phase, before);
  }

  lemma Alone<C(!new)>(c: C, phase: Phase, after: Option<C>)
    requires (after == Some(c) && phase in {Returned, Crashed}) || (after == None && phase == Crashed)
    ensures Ends(None, c, phase, after)
  {
    var s0, s1 := State(None, [Writer(c, Looking)]), State(None, [Writer(c, Staged)]);
    var s2 := State(after, [Writer(c, phase)]);
    assert NextBy(s0, s1, 0) && NextBy(s1, s2, 0);
    assert EndsBy([s0, s1, s2], None, c, phase, after);
  }

  lemma Overtaken<C(!new)>(x: C, c: C, phase: Phase)
    requires phase in {if x == c then Returned else Conflicted, Crashed}
    ensures Ends(None, c, phase, Some(x))
  {
    var s0 := State(None, [Writer(c, Looking), Writer(x, Looking)]);
    var s1 := State(None, [Writer(c, Staged), Writer(x, Looking)]);
    var s2 := State(None, [Writer(c, Staged), Writer(x, Staged)]);
    var s3 := State(Some(x), [Writer(c, Staged), Writer(x, Returned)]);
    var s4 := State(Some(x), [Writer(c, Comparing), Writer(x, Returned)]);
    var s5 := State(Some(x), [Writer(c, phase), Writer(x, Returned)]);
    assert NextBy(s0, s1, 0) && NextBy(s1, s2, 1) && NextBy(s2, s3, 1) && NextBy(s3, s4, 0) && NextBy(s4, s5, 0);
    assert EndsBy([s0, s1, s2, s3, s4, s5], None, c, phase, Some(x));
  }

  /** So a write never changes content, returns only on agreement and conflicts only on a difference. */
  lemma EndsFixed<C(!new)>(before: Option<C>, c: C, phase: Phase, after: Option<C>)
    requires Ends(before, c, phase, after)
    ensures before.Some? ==> after == before
    ensures phase == Returned ==> after == Some(c)
    ensures phase == Conflicted ==> after.Some? && after != Some(c)
  {
    var run: seq<State<C>> :| EndsBy(run, before, c, phase, after);
    var n := |run| - 1;
    WritersKept(run, 0, n, 0);
    if before.Some? {
      ContentFixed(run, 0, n);
    }
    if phase == Returned {
      ReturnAgrees(run, n, n, 0);
    }
    if phase == Conflicted {
      ConflictIsReal(run, n, n, 0);
    }
  }
}
