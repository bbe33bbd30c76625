/** The tracker's stored facts as one value, and what they mean for a history. */
module DelegationView {
  import opened Wrappers
  import opened DelegationSpec

  /** (thread, expected parent, text) of a final message whose thread is not placed yet. */
  type PendingFinal = (string, Option<string>, string)

  /** (thread, parent, text) of a final message of a placed thread. */
  type PlacedFinal = (string, string, string)

  datatype View = View(
    root: Option<string>,
    parents: map<string, string>,
    pending: map<string, string>,
    assertions: map<string, set<string>>,
    rootFinals: seq<string>,
    pendingFinals: seq<PendingFinal>,
    placedFinals: seq<PlacedFinal>)
  {
    /** Resolved and pending edges together. */
    ghost function Edges(): map<string, string> { parents + pending }
  }

  predicate Distinct<T(==)>(s: seq<T>) {
    forall i, j :: 0 <= i < j < |s| ==> s[i] != s[j]
  }

  predicate Agrees(expected: Option<string>, parent: string) {
    expected == None || expected == Some(parent)
  }

  /** The pending finals that are not about thread `c`, in order. */
  function Without(s: seq<PendingFinal>, c: string): seq<PendingFinal> {
    if s == [] then []
    else
      var front := Without(s[..|s| - 1], c);
      var last := s[|s| - 1];
      if last.0 == c then front else front + [last]
  }

  /** `placed` extended by the pending finals about `c` that agree with parent `p`, each once. */
  function Drained(placed: seq<PlacedFinal>, s: seq<PendingFinal>, c: string, p: string): seq<PlacedFinal> {
    if s == [] then placed
    else
      var before := Drained(placed, s[..|s| - 1], c, p);
      var last := s[|s| - 1];
      if last.0 == c && Agrees(last.1, p) && (c, p, last.2) !in before then before + [(c, p, last.2)]
      else before
  }

  lemma {:induction false} WithoutContents(s: seq<PendingFinal>, c: string)
    ensures forall x :: x in Without(s, c) <==> x in s && x.0 != c
    ensures Distinct(s) ==> Distinct(Without(s, c))
  {
    if s != [] {
      WithoutContents(s[..|s| - 1], c);
    }
  }

  /** Exactly the agreeing finals about `c` are added, none twice. */
  lemma {:induction false} DrainedContents(placed: seq<PlacedFinal>, s: seq<PendingFinal>, c: string, p: string)
    ensures forall x :: x in Drained(placed, s, c, p) <==>
      x in placed
      || (x.0 == c && x.1 == p && exists expected :: (c, expected, x.2) in s && Agrees(expected, p))
    ensures Distinct(placed) ==> Distinct(Drained(placed, s, c, p))
  {
    if s != [] {
      var front := s[..|s| - 1];
      var last := s[|s| - 1];
      assert s == front + [last];
      DrainedContents(placed, front, c, p);
      assert forall e, t :: (c, e, t) in s <==> (c, e, t) in front || (c, e, t) == last;
    }
  }

  /** Every pending final about `c` agrees with parent `p`. */
  predicate AllAgree(s: seq<PendingFinal>, c: string, p: string) {
    forall x :: x in s && x.0 == c ==> Agrees(x.1, p)
  }

  /** The keys of a queue whose first `i` entries about `c` have been taken. */
  ghost predicate Remaining(keys: set<PendingFinal>, queue: seq<PendingFinal>, i: nat, c: string)
    requires i <= |queue|
  {
    forall x :: x in keys <==> x in queue && (x.0 != c || x !in queue[..i])
  }

  lemma RemainingNext(keys: set<PendingFinal>, queue: seq<PendingFinal>, i: nat, c: string)
    requires i < |queue| && Remaining(keys, queue, i, c)
    ensures Remaining(if queue[i].0 == c then keys - {queue[i]} else keys, queue, i + 1, c)
  {
    assert queue[..i + 1] == queue[..i] + [queue[i]];
  }

  lemma RemainingAll(keys: set<PendingFinal>, queue: seq<PendingFinal>, c: string)
    requires Remaining(keys, queue, |queue|, c)
    ensures queue[..|queue|] == queue && forall x :: x in keys <==> x in Without(queue, c)
  {
    assert queue[..|queue|] == queue;
    WithoutContents(queue, c);
  }

  /** Draining the finals about `c` after `i` entries: what is kept, what is delivered, and the failure. */
  ghost predicate Draining(
    queue: seq<PendingFinal>, i: nat, c: string, p: string, placed0: seq<PlacedFinal>, failure0: Option<FailureCode>,
    retained: seq<PendingFinal>, keys: set<PendingFinal>, placed: seq<PlacedFinal>, failure: Option<FailureCode>)
  {
    && i <= |queue| && retained == Without(queue[..i], c) && Remaining(keys, queue, i, c)
    && placed == Drained(placed0, queue[..i], c, p)
    && failure == if failure0 == None && !AllAgree(queue[..i], c, p) then Some(Conflict) else failure0
  }

  /** One more entry is kept, delivered once, or a conflict. */
  lemma DrainingNext(
    queue: seq<PendingFinal>, i: nat, c: string, p: string, placed0: seq<PlacedFinal>, failure0: Option<FailureCode>,
    retained: seq<PendingFinal>, keys: set<PendingFinal>, placed: seq<PlacedFinal>, failure: Option<FailureCode>)
    requires i < |queue| && Draining(queue, i, c, p, placed0, failure0, retained, keys, placed, failure)
    ensures queue[i].0 != c ==>
      Draining(queue, i + 1, c, p, placed0, failure0, retained + [queue[i]], keys, placed, failure)
    ensures queue[i].0 == c ==>
      Draining(queue, i + 1, c, p, placed0, failure0, retained, keys - {queue[i]},
               if Agrees(queue[i].1, p) && (c, p, queue[i].2) !in placed then placed + [(c, p, queue[i].2)] else placed,
               if failure == None && !Agrees(queue[i].1, p) then Some(Conflict) else failure)
  {
    assert queue[..i + 1][..i] == queue[..i] && queue[..i + 1][i] == queue[i];
    AllAgreeNext(queue, i, c, p);
    RemainingNext(keys, queue, i, c);
  }

  lemma AllAgreeNext(s: seq<PendingFinal>, i: nat, c: string, p: string)
    requires i < |s|
    ensures AllAgree(s[..i + 1], c, p) <==> AllAgree(s[..i], c, p) && (s[i].0 == c ==> Agrees(s[i].1, p))
  {
    assert s[..i + 1] == s[..i] + [s[i]];
  }

  lemma {:induction false} WithoutAbsent(s: seq<PendingFinal>, c: string)
    requires forall x :: x in s ==> x.0 != c
    ensures Without(s, c) == s
  {
    if s != [] {
      assert s[|s| - 1] in s;
      WithoutAbsent(s[..|s| - 1], c);
    }
  }

  lemma {:induction false} DrainedAbsent(placed: seq<PlacedFinal>, s: seq<PendingFinal>, c: string, p: string)
    requires forall x :: x in s ==> x.0 != c
    ensures Drained(placed, s, c, p) == placed
  {
    if s != [] {
      assert s[|s| - 1] in s;
      DrainedAbsent(placed, s[..|s| - 1], c, p);
    }
  }

  // ---- What holds of the stored facts in every reachable state, failed or not

  /** The resolved edges hang from the root at depths 1 to `max`. */
  ghost predicate TreeFrom(max: nat, root: string, parents: map<string, string>) {
    forall c :: c in parents ==> exists n: nat :: 1 <= n <= max && DepthIs(parents, root, c, n)
  }

  ghost predicate Structure(max: nat, v: View) {
    && (v.root == None ==> v.parents == map[])
    && (v.root != None ==>
      && v.root.value !in v.parents && v.root.value !in v.pending
      && TreeFrom(max, v.root.value, v.parents))
    && v.parents.Keys !! v.pending.Keys
    && v.assertions.Keys !! v.parents.Keys
    && Acyclic(v.Edges())
    && FinalsStructure(v)
  }

  ghost predicate FinalsStructure(v: View) {
    && Distinct(v.pendingFinals) && Distinct(v.placedFinals)
    && (forall x :: x in v.pendingFinals ==> x.0 !in v.parents && v.root != Some(x.0))
    && (forall x :: x in v.placedFinals ==> x.0 in v.parents && v.parents[x.0] == x.1)
  }

  /** No pending child has a placed parent: there is nothing left to resolve. */
  ghost predicate Settled(v: View) {
    v.root != None ==>
      forall c :: c in v.pending ==> v.pending[c] != v.root.value && v.pending[c] !in v.parents
  }

  // ---- What the stored facts say about the history while nothing has failed

  ghost predicate CleanEdges(s: set<Event>, v: View) {
    && (forall q :: Root(q) in s <==> v.root == Some(q))
    && v.root != Some("")
    && (forall c, p :: Spawn(c, p) in s <==> c in v.Edges() && v.Edges()[c] == p)
    && (forall c, p :: Spawn(c, p) in s ==> c != "" && p != "")
    && (forall code :: Fault(code) !in s)
  }

  ghost predicate CleanAssertions(s: set<Event>, v: View) {
    && (forall c, p :: Asserted(c, p) in s ==>
      (c in v.parents && v.parents[c] == p) || (c in v.assertions && v.assertions[c] == {p}))
    && (forall c :: c in v.assertions ==> exists p :: v.assertions[c] == {p} && Asserted(c, p) in s)
  }

  ghost predicate Accounted(v: View, c: string, expected: Option<string>, text: string) {
    if v.root == Some(c) then expected == None && text in v.rootFinals
    else if c in v.parents then Agrees(expected, v.parents[c]) && (c, v.parents[c], text) in v.placedFinals
    else (c, expected, text) in v.pendingFinals
  }

  ghost predicate CleanFinals(s: set<Event>, v: View) {
    && (forall c, expected, text :: Final(c, expected, text) in s ==> Accounted(v, c, expected, text))
    && (forall x :: x in v.pendingFinals ==> Final(x.0, x.1, x.2) in s)
    && (forall x :: x in v.placedFinals ==> exists expected :: Final(x.0, expected, x.2) in s)
    && (forall text :: text in v.rootFinals ==> v.root != None && Final(v.root.value, None, text) in s)
  }

  ghost predicate Clean(s: set<Event>, v: View) {
    CleanEdges(s, v) && CleanAssertions(s, v) && CleanFinals(s, v)
  }

  /** The invariant: a recorded failure is a history beyond repair, and while no failure is
      recorded the stored facts are exactly the history. */
  ghost predicate Consistent(max: nat, s: set<Event>, v: View, failure: Option<FailureCode>) {
    && Structure(max, v)
    && (failure == None ==> Clean(s, v))
    && (failure != None ==> Doomed(max, s))
  }

  // ---- Placing a pending child under a placed parent

  lemma PlacedTree(max: nat, root: string, parents: map<string, string>, c: string, p: string, n: nat)
    requires TreeFrom(max, root, parents) && c !in parents && c != root
    requires DepthIs(parents, root, p, n) && n < max
    ensures TreeFrom(max, root, parents[c := p])
  {
    var after := parents[c := p];
    DepthMonotone(parents, after, root, p, n);
    assert DepthIs(after, root, c, n + 1);
    forall x | x in after ensures exists k: nat :: 1 <= k <= max && DepthIs(after, root, x, k) {
      if x != c {
        var k: nat :| 1 <= k <= max && DepthIs(parents, root, x, k);
        DepthMonotone(parents, after, root, x, k);
      }
    }
  }

  /** What one placement does to the facts, once assertions and finals for `c` are dealt with. */
  ghost predicate Placement(v: View, w: View, c: string, p: string) {
    && c in v.pending && v.pending[c] == p
    && w.root == v.root && w.rootFinals == v.rootFinals
    && w.parents == v.parents[c := p] && w.pending == v.pending - {c}
    && w.assertions == v.assertions - {c}
    && w.pendingFinals == Without(v.pendingFinals, c)
    && w.placedFinals == Drained(v.placedFinals, v.pendingFinals, c, p)
  }

  ghost predicate PlacementFails(v: View, c: string, p: string) {
    || (c in v.assertions && exists q :: q in v.assertions[c] && q != p)
    || !AllAgree(v.pendingFinals, c, p)
  }

  lemma PlacementKeeps(
    max: nat, s: set<Event>, v: View, w: View,
    failure: Option<FailureCode>, failure': Option<FailureCode>, c: string, p: string, n: nat)
    requires Consistent(max, s, v, failure) && Placement(v, w, c, p)
    requires v.root != None && DepthIs(v.parents, v.root.value, p, n) && n < max
    requires failure' == if failure == None && PlacementFails(v, c, p) then Some(Conflict) else failure
    ensures Consistent(max, s, w, failure')
  {
    PlacedTree(max, v.root.value, v.parents, c, p, n);
    WithoutContents(v.pendingFinals, c);
    DrainedContents(v.placedFinals, v.pendingFinals, c, p);
    assert w.Edges() == v.Edges();
    if failure == None {
      assert Spawn(c, p) in s by { assert c in v.Edges() && v.Edges()[c] == p; }
      if PlacementFails(v, c, p) {
        PlacementDoomed(max, s, v, c, p);
      } else {
        PlacementClean(s, v, w, c, p);
      }
    }
  }

  /** A child that would sit too deep is dropped, and its history cannot be repaired. */
  lemma DepthRejectionKeeps(
    max: nat, s: set<Event>, v: View, failure: Option<FailureCode>, c: string, p: string, n: nat)
    requires Consistent(max, s, v, failure) && v.root != None
    requires c in v.pending && v.pending[c] == p && DepthIs(v.parents, v.root.value, p, n) && n >= max
    ensures Consistent(max, s, v.(pending := v.pending - {c}),
                       if failure == None then Some(DepthExceeded) else failure)
  {
    var w := v.(pending := v.pending - {c});
    AcyclicSub(v.Edges(), w.Edges());
    if failure == None {
      assert v.Edges()[c] == p;
      DoomedByDepth(max, s, v.parents, v.root.value, c, p, n);
    }
  }

  lemma PlacementDoomed(max: nat, s: set<Event>, v: View, c: string, p: string)
    requires Clean(s, v) && PlacementFails(v, c, p) && Spawn(c, p) in s
    ensures Doomed(max, s)
  {
    if c in v.assertions && exists q :: q in v.assertions[c] && q != p {
      var q :| q in v.assertions[c] && q != p;
      var a :| v.assertions[c] == {a} && Asserted(c, a) in s;
      assert a == q;
      DoomedByClash(max, s, Asserted(c, q), Spawn(c, p));
    } else {
      var x :| x in v.pendingFinals && x.0 == c && !Agrees(x.1, p);
      DoomedByClash(max, s, Final(x.0, x.1, x.2), Spawn(c, p));
    }
  }

  lemma PlacementClean(s: set<Event>, v: View, w: View, c: string, p: string)
    requires FinalsStructure(v) && v.parents.Keys !! v.pending.Keys && v.root != Some(c)
    requires Clean(s, v) && Placement(v, w, c, p) && !PlacementFails(v, c, p)
    ensures Clean(s, w)
  {
    WithoutContents(v.pendingFinals, c);
    DrainedContents(v.placedFinals, v.pendingFinals, c, p);
    assert w.Edges() == v.Edges();
    assert c !in v.parents;
    forall d, q | Asserted(d, q) in s
      ensures (d in w.parents && w.parents[d] == q) || (d in w.assertions && w.assertions[d] == {q})
    {
      if d == c {
        assert q in v.assertions[c];
      }
    }
    forall d, expected, text | Final(d, expected, text) in s ensures Accounted(w, d, expected, text) {
      assert Accounted(v, d, expected, text);
      if d == c {
        assert (c, expected, text) in v.pendingFinals;
        assert Agrees((c, expected, text).1, p);
      }
    }
  }

  // ---- Registering the root

  /** The texts of the pending finals about `c` that expect no parent, in order. */
  function RootTexts(s: seq<PendingFinal>, c: string): seq<string> {
    if s == [] then []
    else
      var front := RootTexts(s[..|s| - 1], c);
      var last := s[|s| - 1];
      if last.0 == c && last.1 == None then front + [last.2] else front
  }

  lemma {:induction false} RootTextsContents(s: seq<PendingFinal>, c: string)
    ensures forall text :: text in RootTexts(s, c) <==> (c, None, text) in s
  {
    if s != [] {
      RootTextsContents(s[..|s| - 1], c);
    }
  }

  /** No pending final about `c` expects a parent. */
  predicate NoneExpected(s: seq<PendingFinal>, c: string) {
    forall x :: x in s && x.0 == c ==> x.1 == None
  }

  function WithRoot(v: View, id: string): View {
    v.(root := Some(id), pending := v.pending - {id},
       rootFinals := v.rootFinals + RootTexts(v.pendingFinals, id),
       pendingFinals := Without(v.pendingFinals, id))
  }

  ghost predicate RootFails(v: View, id: string) {
    id in v.pending || !NoneExpected(v.pendingFinals, id)
  }

  lemma RootKeeps(max: nat, s: set<Event>, v: View, failure: Option<FailureCode>, id: string)
    requires Consistent(max, s, v, failure) && v.root == None && id != ""
    ensures Consistent(max, s + {Root(id)}, WithRoot(v, id),
                       if failure == None && RootFails(v, id) then Some(Conflict) else failure)
  {
    var s', w := s + {Root(id)}, WithRoot(v, id);
    AcyclicSub(v.Edges(), w.Edges());
    WithoutContents(v.pendingFinals, id);
    RootTextsContents(v.pendingFinals, id);
    if failure != None {
      DoomedGrows(max, s, s');
    } else if id in v.pending {
      assert v.Edges()[id] == v.pending[id];
      DoomedByBroken(max, s', Spawn(id, v.pending[id]));
    } else if !NoneExpected(v.pendingFinals, id) {
      var x :| x in v.pendingFinals && x.0 == id && x.1 != None;
      DoomedByBroken(max, s', Final(x.0, x.1, x.2));
    } else {
      forall c, expected, text | Final(c, expected, text) in s' ensures Accounted(w, c, expected, text) {
        assert Accounted(v, c, expected, text);
        assert NoneExpected(v.pendingFinals, id) && (c, expected, text).0 == c;
      }
      assert w.Edges() == v.Edges();
    }
  }

  lemma RootRepeated(max: nat, s: set<Event>, v: View, failure: Option<FailureCode>, id: string)
    requires Consistent(max, s, v, failure) && v.root != None
    ensures Consistent(max, s + {Root(id)}, v,
                       if failure == None && v.root != Some(id) then Some(Conflict) else failure)
  {
    if failure == None && v.root == Some(id) {
      assert s + {Root(id)} == s;
    } else {
      if failure == None {
        assert Clash(Root(id), Root(v.root.value));
      }
      BrokenKeeps(max, s, v, failure, Root(id), Conflict);
    }
  }

  // ---- Other single events

  /** An event that changes nothing because it already holds of the stored facts. */
  lemma RedundantSpawnKeeps(max: nat, s: set<Event>, v: View, failure: Option<FailureCode>, c: string, p: string)
    requires Consistent(max, s, v, failure) && c in v.Edges() && v.Edges()[c] == p
    ensures Consistent(max, s + {Spawn(c, p)}, v, failure)
  {
    if failure == None {
      assert s + {Spawn(c, p)} == s;
    } else {
      DoomedGrows(max, s, s + {Spawn(c, p)});
    }
  }

  /** A second parent for a known child. */
  lemma SpawnClashKeeps(max: nat, s: set<Event>, v: View, failure: Option<FailureCode>, c: string, p: string)
    requires Consistent(max, s, v, failure) && c in v.Edges() && v.Edges()[c] != p
    ensures Consistent(max, s + {Spawn(c, p)}, v, if failure == None then Some(Conflict) else failure)
    ensures Consistent(max, s + {Asserted(c, p)}, v, if failure == None then Some(Conflict) else failure)
  {
    if failure != None {
      DoomedGrows(max, s, s + {Spawn(c, p)});
      DoomedGrows(max, s, s + {Asserted(c, p)});
    } else {
      DoomedByClash(max, s + {Spawn(c, p)}, Spawn(c, p), Spawn(c, v.Edges()[c]));
      DoomedByClash(max, s + {Asserted(c, p)}, Asserted(c, p), Spawn(c, v.Edges()[c]));
    }
  }

  lemma BrokenKeeps(max: nat, s: set<Event>, v: View, failure: Option<FailureCode>, e: Event, code: FailureCode)
    requires Consistent(max, s, v, failure)
    requires Broken(s + {e}, e) || (failure != None) || (exists f :: f in s && Clash(e, f))
    ensures Consistent(max, s + {e}, v, if failure == None then Some(code) else failure)
  {
    if failure != None {
      DoomedGrows(max, s, s + {e});
    } else if Broken(s + {e}, e) {
      DoomedByBroken(max, s + {e}, e);
    } else {
      var f :| f in s && Clash(e, f);
      DoomedByClash(max, s + {e}, e, f);
    }
  }

  /** A new edge that closes a parent cycle is dropped, and the history cannot be repaired. */
  lemma CycleKeeps(
    max: nat, s: set<Event>, v: View, failure: Option<FailureCode>, c: string, p: string, m: map<string, string>)
    requires Consistent(max, s, v, failure) && c !in v.Edges() && m == v.Edges()[c := p]
    requires Endless(m, c)
    ensures Consistent(max, s + {Spawn(c, p)}, v, if failure == None then Some(Cycle) else failure)
  {
    if failure != None {
      DoomedGrows(max, s, s + {Spawn(c, p)});
    } else {
      DoomedByCycle(max, s + {Spawn(c, p)}, m, c);
    }
  }

  /** A new edge that closes no cycle is held as pending. */
  lemma PendingEdgeKeeps(
    max: nat, s: set<Event>, v: View, failure: Option<FailureCode>,
    c: string, p: string, m: map<string, string>, n: nat)
    requires Consistent(max, s, v, failure) && c !in v.Edges() && m == v.Edges()[c := p]
    requires c != "" && p != "" && v.root != Some(c)
    requires Escapes(m, c, n)
    ensures Consistent(max, s + {Spawn(c, p)}, v.(pending := v.pending[c := p]), failure)
  {
    PendingEdgeStructure(max, v, c, p, m, n);
    if failure != None {
      DoomedGrows(max, s, s + {Spawn(c, p)});
    } else {
      PendingEdgeClean(s, v, c, p);
    }
  }

  lemma PendingEdgeStructure(max: nat, v: View, c: string, p: string, m: map<string, string>, n: nat)
    requires Structure(max, v) && c !in v.Edges() && m == v.Edges()[c := p] && v.root != Some(c) && Escapes(m, c, n)
    ensures Structure(max, v.(pending := v.pending[c := p]))
  {
    var w := v.(pending := v.pending[c := p]);
    assert w.Edges() == m;
    AcyclicExtend(v.Edges(), c, p, n - 1);
  }

  lemma PendingEdgeClean(s: set<Event>, v: View, c: string, p: string)
    requires Clean(s, v) && c !in v.Edges() && c != "" && p != ""
    ensures Clean(s + {Spawn(c, p)}, v.(pending := v.pending[c := p]))
  {
    var w := v.(pending := v.pending[c := p]);
    assert w.Edges() == v.Edges()[c := p];
    forall d, e, t | Final(d, e, t) in s ensures Accounted(w, d, e, t) {
      assert Accounted(v, d, e, t);
    }
  }

  /** The pending edges after an edge that contradicts nothing is reported. */
  function WithEdge(v: View, c: string, p: string, cycles: bool): View {
    v.(pending := if cycles then v.pending[c := p] - {c} else v.pending[c := p])
  }

  lemma EdgeKeeps(
    max: nat, s: set<Event>, v: View, failure: Option<FailureCode>,
    c: string, p: string, m: map<string, string>, cycles: bool)
    requires Consistent(max, s, v, failure) && m == v.parents + v.pending[c := p]
    requires c != "" && p != "" && v.root != Some(c) && c !in v.parents
    requires c in v.pending ==> v.pending[c] == p
    requires cycles <==> Endless(m, c)
    ensures Consistent(max, s + {Spawn(c, p)}, WithEdge(v, c, p, cycles),
                       if failure == None && cycles then Some(Cycle) else failure)
    ensures cycles ==> WithEdge(v, c, p, cycles) == v
  {
    assert m == v.Edges()[c := p];
    if c in v.pending {
      assert m == v.Edges() && v.pending[c := p] == v.pending;
      RedundantSpawnKeeps(max, s, v, failure, c, p);
    } else if cycles {
      assert v.pending[c := p] - {c} == v.pending;
      CycleKeeps(max, s, v, failure, c, p, m);
    } else {
      var n: nat :| Escapes(m, c, n);
      PendingEdgeKeeps(max, s, v, failure, c, p, m, n);
    }
  }

  /** The failure a spawn report meets at once, if any. */
  ghost function SpawnRejection(v: View, c: string, p: string): Option<FailureCode> {
    if c == "" || p == "" then Some(Malformed)
    else if c == p || v.root == Some(c) then Some(Conflict)
    else if c in v.Edges() && v.Edges()[c] != p then Some(Conflict)
    else if Endless(v.Edges()[c := p], c) then Some(Cycle)
    else None
  }

  /** What the search for a cycle needs of a new edge. */
  lemma HeldEdges(max: nat, v: View, c: string, p: string)
    requires Structure(max, v) && c !in v.parents && v.root != Some(c)
    ensures v.parents.Keys !! v.pending.Keys
    ensures v.root != None ==> v.root.value !in v.Edges()[c := p]
    ensures v.parents + v.pending[c := p] == v.Edges()[c := p]
  {
  }

  /** A repeated report of a placed edge is not rejected. */
  lemma ConfirmedSpawn(max: nat, v: View, c: string, p: string)
    requires Structure(max, v) && c in v.parents && v.parents[c] == p
    requires c != "" && p != "" && c != p && v.root != Some(c)
    ensures SpawnRejection(v, c, p) == None
  {
    assert v.Edges()[c] == p && v.Edges()[c := p] == v.Edges();
  }

  /** The stored facts and the failure after a parent assertion, case by case. */
  ghost predicate AssertionTold(
    v: View, w: View, failure: Option<FailureCode>, failure': Option<FailureCode>, c: string, p: string)
  {
    if c == "" || p == "" || c == p || v.root == Some(c) || (c in v.Edges() && v.Edges()[c] != p) then
      w == v && failure' == if failure == None then Some(Conflict) else failure
    else if c in v.parents then
      w == v && failure' == failure
    else
      var asserted := (if c in v.assertions then v.assertions[c] else {}) + {p};
      && w == v.(assertions := v.assertions[c := asserted])
      && failure' == if failure == None && |asserted| != 1 then Some(Conflict) else failure
  }

  lemma AssertionKeeps(
    max: nat, s: set<Event>, v: View, w: View,
    failure: Option<FailureCode>, failure': Option<FailureCode>, c: string, p: string)
    requires Consistent(max, s, v, failure) && AssertionTold(v, w, failure, failure', c, p)
    ensures Consistent(max, s + {Asserted(c, p)}, w, failure')
    ensures Settled(v) ==> Settled(w)
  {
    if c == "" || p == "" || c == p || v.root == Some(c) {
      BrokenKeeps(max, s, v, failure, Asserted(c, p), Conflict);
    } else if c in v.Edges() && v.Edges()[c] != p {
      SpawnClashKeeps(max, s, v, failure, c, p);
    } else if c in v.parents {
      if failure != None {
        DoomedGrows(max, s, s + {Asserted(c, p)});
      }
    } else {
      AssertionPendingKeeps(max, s, v, failure, c, p, w.assertions[c]);
    }
  }

  lemma TwoAssertionsDoom(max: nat, s: set<Event>, c: string, a: string, p: string)
    requires Asserted(c, a) in s && Asserted(c, p) in s && a != p
    ensures Doomed(max, s)
  {
    DoomedByClash(max, s, Asserted(c, p), Asserted(c, a));
  }

  lemma AssertionPendingKeeps(
    max: nat, s: set<Event>, v: View, failure: Option<FailureCode>, c: string, p: string, asserted: set<string>)
    requires Consistent(max, s, v, failure) && c !in v.parents
    requires asserted == (if c in v.assertions then v.assertions[c] else {}) + {p}
    ensures Consistent(max, s + {Asserted(c, p)}, v.(assertions := v.assertions[c := asserted]),
                       if failure == None && |asserted| != 1 then Some(Conflict) else failure)
  {
    if failure != None {
      DoomedGrows(max, s, s + {Asserted(c, p)});
    } else if c in v.assertions {
      AssertedAgainKeeps(max, s, v, c, p, asserted);
    } else {
      FirstAssertionKeeps(max, s, v, c, p);
      assert asserted == {p};
    }
  }

  lemma FirstAssertionKeeps(max: nat, s: set<Event>, v: View, c: string, p: string)
    requires Consistent(max, s, v, None) && c !in v.parents && c !in v.assertions
    ensures Consistent(max, s + {Asserted(c, p)}, v.(assertions := v.assertions[c := {p}]), None)
  {
  }

  lemma AssertedAgainKeeps(max: nat, s: set<Event>, v: View, c: string, p: string, asserted: set<string>)
    requires Consistent(max, s, v, None) && c !in v.parents && c in v.assertions
    requires asserted == v.assertions[c] + {p}
    ensures Consistent(max, s + {Asserted(c, p)}, v.(assertions := v.assertions[c := asserted]),
                       if |asserted| != 1 then Some(Conflict) else None)
  {
    var a :| v.assertions[c] == {a} && Asserted(c, a) in s;
    if a == p {
      assert asserted == {p} && v.assertions[c := asserted] == v.assertions;
    } else {
      assert asserted == {a, p} && |asserted| == 2;
      TwoAssertionsDoom(max, s + {Asserted(c, p)}, c, a, p);
    }
  }

  lemma FinalKeeps(
    max: nat, s: set<Event>, v: View, w: View, failure: Option<FailureCode>,
    c: string, expected: Option<string>, text: string)
    requires Consistent(max, s, v, failure)
    requires w == v.(rootFinals := w.rootFinals, placedFinals := w.placedFinals, pendingFinals := w.pendingFinals)
    requires
      if v.root == Some(c) then
        expected == None && w == v.(rootFinals := v.rootFinals + [text])
      else if c in v.parents then
        && Agrees(expected, v.parents[c])
        && var key := (c, v.parents[c], text);
          w == if key in v.placedFinals then v else v.(placedFinals := v.placedFinals + [key])
      else
        var key := (c, expected, text);
        w == if key in v.pendingFinals then v else v.(pendingFinals := v.pendingFinals + [key])
    ensures Consistent(max, s + {Final(c, expected, text)}, w, failure)
  {
    assert w.Edges() == v.Edges();
    if failure != None {
      DoomedGrows(max, s, s + {Final(c, expected, text)});
    } else {
      var s' := s + {Final(c, expected, text)};
      forall d, e, t | Final(d, e, t) in s' ensures Accounted(w, d, e, t) {
        if Final(d, e, t) in s { assert Accounted(v, d, e, t); }
      }
    }
  }

  /** A final of the root is recorded, or wrongly expects a parent. */
  lemma RootFinalKeeps(
    max: nat, s: set<Event>, v: View, w: View, failure: Option<FailureCode>,
    c: string, expected: Option<string>, text: string)
    requires Consistent(max, s, v, failure) && v.root == Some(c)
    requires w == if expected == None then v.(rootFinals := v.rootFinals + [text]) else v
    ensures Consistent(max, s + {Final(c, expected, text)}, w,
      if failure == None && expected != None then Some(Conflict) else failure)
  {
    if expected == None {
      FinalKeeps(max, s, v, w, failure, c, expected, text);
    } else {
      BrokenKeeps(max, s, v, failure, Final(c, expected, text), Conflict);
    }
  }

  /** A final of a placed thread is recorded, or contradicts the thread's parent. */
  lemma BrokenOrFinalKeeps(
    max: nat, s: set<Event>, v: View, w: View, failure: Option<FailureCode>,
    c: string, expected: Option<string>, text: string)
    requires Consistent(max, s, v, failure) && c in v.parents
    requires
      var key := (c, v.parents[c], text);
      w == if Agrees(expected, v.parents[c]) && key !in v.placedFinals
        then v.(placedFinals := v.placedFinals + [key]) else v
    ensures Consistent(max, s + {Final(c, expected, text)}, w,
      if failure == None && !Agrees(expected, v.parents[c]) then Some(Conflict) else failure)
  {
    if Agrees(expected, v.parents[c]) {
      FinalKeeps(max, s, v, w, failure, c, expected, text);
    } else {
      if failure == None {
        assert v.Edges()[c] == v.parents[c];
        assert Clash(Final(c, expected, text), Spawn(c, v.parents[c]));
      }
      BrokenKeeps(max, s, v, failure, Final(c, expected, text), Conflict);
    }
  }

  /** The stored facts and the failure after a final message, case by case. */
  ghost predicate FinalTold(
    v: View, w: View, failure: Option<FailureCode>, failure': Option<FailureCode>,
    c: string, expected: Option<string>, text: string)
  {
    if c == "" then
      w == v && failure' == if failure == None then Some(Malformed) else failure
    else if v.root == Some(c) then
      && w == (if expected == None then v.(rootFinals := v.rootFinals + [text]) else v)
      && failure' == if failure == None && expected != None then Some(Conflict) else failure
    else if c in v.parents then
      && (var key := (c, v.parents[c], text);
        w == if Agrees(expected, v.parents[c]) && key !in v.placedFinals
          then v.(placedFinals := v.placedFinals + [key]) else v)
      && failure' == if failure == None && !Agrees(expected, v.parents[c]) then Some(Conflict) else failure
    else
      && (var key := (c, expected, text);
        w == if key in v.pendingFinals then v else v.(pendingFinals := v.pendingFinals + [key]))
      && failure' == failure
  }

  lemma FinalEventKeeps(
    max: nat, s: set<Event>, v: View, w: View, failure: Option<FailureCode>, failure': Option<FailureCode>,
    c: string, expected: Option<string>, text: string)
    requires Consistent(max, s, v, failure) && FinalTold(v, w, failure, failure', c, expected, text)
    ensures Consistent(max, s + {Final(c, expected, text)}, w, failure')
    ensures Settled(v) ==> Settled(w)
  {
    if c == "" {
      BrokenKeeps(max, s, v, failure, Final(c, expected, text), Malformed);
    } else if v.root == Some(c) {
      RootFinalKeeps(max, s, v, w, failure, c, expected, text);
    } else if c in v.parents {
      BrokenOrFinalKeeps(max, s, v, w, failure, c, expected, text);
    } else {
      FinalKeeps(max, s, v, w, failure, c, expected, text);
    }
  }

  // ---- The verdict

  /** The spawn edges of a history, as a parent map. */
  ghost function EdgeMap(s: set<Event>): map<string, string>
    requires Functional(s)
  {
    map e | e in s && e.Spawn? :: e.child := e.parent
  }

  lemma {:induction false} ReachesDepth(s: set<Event>, root: string, x: string, n: nat) returns (d: nat)
    requires Functional(s) && Reaches(s, root, x, n)
    ensures d <= n && DepthIs(EdgeMap(s), root, x, d)
    decreases n
  {
    if x == root {
      d := 0;
    } else {
      var p :| Spawn(x, p) in s && Reaches(s, root, p, n - 1);
      assert EdgeMap(s)[Spawn(x, p).child] == p;
      var k := ReachesDepth(s, root, p, n - 1);
      d := k + 1;
    }
  }

  /** A good history is a delegation tree: its edges form a finite tree under the root, no deeper
      than `max`, in which every asserted parent and every final's thread has its place. */
  lemma GoodIsTree(max: nat, s: set<Event>, root: string)
    requires GoodUnder(max, s, root)
    ensures TreeFrom(max, root, EdgeMap(s)) && Acyclic(EdgeMap(s)) && root !in EdgeMap(s)
  {
    var m := EdgeMap(s);
    forall c | c in m ensures exists n: nat :: 1 <= n <= max && DepthIs(m, root, c, n) {
      assert Fits(max, s, root, Spawn(c, m[c]));
      var n := ReachesDepth(s, root, c, max);
    }
    forall c | c in m ensures !Endless(m, c) {
      assert Fits(max, s, root, Spawn(c, m[c]));
      GoodEscapes(max, s, root, m, c, max);
    }
    forall c | c in m ensures c != root {
      assert Fits(max, s, root, Spawn(c, m[c]));
    }
  }

  lemma CleanIsGood(max: nat, s: set<Event>, v: View)
    requires Structure(max, v) && Clean(s, v)
    requires v.pending == map[] && v.assertions == map[] && v.pendingFinals == []
    ensures Good(max, s)
  {
    assert v.Edges() == v.parents;
    if v.root == None {
      forall e ensures e !in s {
        match e {
          case Spawn(c, p) => assert c !in v.Edges();
          case _ =>
        }
      }
      assert s == {};
    } else {
      var root := v.root.value;
      forall e | e in s ensures Fits(max, s, root, e) {
        match e {
          case Spawn(c, p) =>
            var n: nat :| 1 <= n <= max && DepthIs(v.parents, root, c, n);
            DepthReaches(s, v.parents, root, c, n);
            ReachesMonotone(s, root, c, n, max);
          case Final(c, expected, text) =>
            assert Accounted(v, c, expected, text);
            if c != root { assert Spawn(c, v.parents[c]) in s; }
          case _ =>
        }
      }
      assert GoodUnder(max, s, root);
    }
  }

  lemma {:induction false} PendingUnreachable(s: set<Event>, v: View, x: string, n: nat)
    requires CleanEdges(s, v) && Settled(v) && v.root != None && v.root.value !in v.pending
    requires v.parents.Keys !! v.pending.Keys
    requires x in v.pending
    ensures !Reaches(s, v.root.value, x, n)
    decreases n
  {
    if n > 0 && Reaches(s, v.root.value, x, n) {
      var p :| Spawn(x, p) in s && Reaches(s, v.root.value, p, n - 1);
      assert p == v.pending[x];
      var q :| Spawn(p, q) in s;
      assert p in v.pending;
      PendingUnreachable(s, v, p, n - 1);
    }
  }

  /** The tree, the finals and the root texts that a clean verdict hands over. */
  ghost predicate Delivered(
    s: set<Event>, parents: map<string, string>, placedFinals: seq<PlacedFinal>, rootFinals: seq<string>)
  {
    && (forall c, p :: Spawn(c, p) in s <==> c in parents && parents[c] == p)
    && Distinct(placedFinals)
    && (forall c, p, t :: (c, p, t) in placedFinals <==>
      Spawn(c, p) in s && exists expected :: Final(c, expected, t) in s)
    && (forall t :: t in rootFinals <==> exists r :: Root(r) in s && Final(r, None, t) in s)
  }

  lemma CleanDelivers(max: nat, s: set<Event>, v: View)
    requires Structure(max, v) && Clean(s, v)
    requires v.pending == map[] && v.pendingFinals == []
    ensures Delivered(s, v.parents, v.placedFinals, v.rootFinals)
  {
    assert v.Edges() == v.parents;
    forall c, p, t
      ensures (c, p, t) in v.placedFinals <==> Spawn(c, p) in s && exists expected :: Final(c, expected, t) in s
    {
      if Spawn(c, p) in s && exists expected :: Final(c, expected, t) in s {
        var expected :| Final(c, expected, t) in s;
        assert Accounted(v, c, expected, t);
      }
      if (c, p, t) in v.placedFinals {
        assert (c, p, t).0 in v.parents && v.parents[(c, p, t).0] == (c, p, t).1;
      }
    }
    forall t | exists r :: Root(r) in s && Final(r, None, t) in s ensures t in v.rootFinals {
      var r :| Root(r) in s && Final(r, None, t) in s;
      assert Accounted(v, r, None, t);
    }
  }

  lemma LeftoversAreBad(max: nat, s: set<Event>, v: View)
    requires Structure(max, v) && Settled(v) && Clean(s, v)
    requires v.pending != map[] || v.assertions != map[] || v.pendingFinals != []
    ensures !Good(max, s)
  {
    if Good(max, s) {
      var e := Leftover(s, v);
      var root :| GoodUnder(max, s, root);
      assert v.root == Some(root);
      assert Fits(max, s, root, e);
      var c := if e.Final? then e.thread else e.child;
      var p :| Spawn(c, p) in s;
      assert Fits(max, s, root, Spawn(c, p));
      assert c in v.pending;
      PendingUnreachable(s, v, c, max);
    }
  }

  /** A history of a root and one child of it leaves exactly that edge placed, without a failure. */
  lemma FirstChildPlaced(
    max: nat, s: set<Event>, v: View, failure: Option<FailureCode>, root: string, child: string)
    requires max >= 1 && s == {Root(root), Spawn(child, root)}
    requires root != "" && child != "" && child != root
    requires Consistent(max, s, v, failure) && Settled(v)
    ensures failure == None && v.root == Some(root) && v.parents == map[child := root] && v.pending == map[]
  {
    assert Reaches(s, root, root, max - 1);
    assert Reaches(s, root, child, max);
    assert GoodUnder(max, s, root);
    assert s <= s && Good(max, s);
    assert failure == None;
    assert Root(root) in s && Spawn(child, root) in s;
    forall c | c in v.Edges() ensures c == child && v.Edges()[c] == root {
      assert Spawn(c, v.Edges()[c]) in s;
    }
    assert v.Edges().Keys == {child};
    assert child !in v.pending;
  }

  /** An event about a thread that is neither the root nor placed. */
  lemma Leftover(s: set<Event>, v: View) returns (e: Event)
    requires v.parents.Keys !! v.pending.Keys && v.assertions.Keys !! v.parents.Keys
    requires v.root != None ==> v.root.value !in v.pending
    requires FinalsStructure(v) && Clean(s, v)
    requires v.pending != map[] || v.assertions != map[] || v.pendingFinals != []
    ensures e in s && (e.Spawn? || e.Asserted? || e.Final?)
    ensures var c := if e.Final? then e.thread else e.child;
      c !in v.parents && (e.Final? ==> v.root != Some(c))
  {
    if v.pending != map[] {
      var c :| c in v.pending;
      e := Spawn(c, v.pending[c]);
      assert v.Edges()[c] == v.pending[c];
    } else if v.assertions != map[] {
      var c :| c in v.assertions;
      var p :| v.assertions[c] == {p} && Asserted(c, p) in s;
      e := Asserted(c, p);
    } else {
      var x := v.pendingFinals[0];
      assert x in v.pendingFinals;
      e := Final(x.0, x.1, x.2);
    }
  }
}
