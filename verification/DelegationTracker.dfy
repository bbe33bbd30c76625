/** The delegation parentage tracker of the Attempt worker. */
module DelegationTracker {
  import opened Wrappers
  import opened DelegationSpec
  import opened DelegationView

  class Facts {
    const maxDepth: nat
    var root: Option<string>
    var failure: Option<FailureCode>
    var rootFinals: seq<string>
    var placedFinals: seq<PlacedFinal>
    var placedFinalKeys: set<PlacedFinal>
    var parents: map<string, string>
    var pending: map<string, string>
    var assertions: map<string, set<string>>
    var pendingFinals: seq<PendingFinal>
    var pendingFinalKeys: set<PendingFinal>

    /** Every event the tracker has been told so far. */
    ghost var events: set<Event>

    ghost function Stored(): View
      reads this
    {
      View(root, parents, pending, assertions, rootFinals, pendingFinals, placedFinals)
    }

    /** The key sets mirror the lists they guard. */
    ghost predicate Keyed()
      reads this
    {
      && (forall x :: x in pendingFinalKeys <==> x in pendingFinals)
      && (forall x :: x in placedFinalKeys <==> x in placedFinals)
    }

    ghost predicate Resolvable()
      reads this
    {
      maxDepth >= 1 && Keyed() && Consistent(maxDepth, events, Stored(), failure)
    }

    ghost predicate Valid()
      reads this
    {
      Resolvable() && Settled(Stored())
    }

    /** The first recorded failure is never replaced. */
    twostate predicate FirstFailureKept()
      reads this
    {
      old(failure) != None ==> failure == old(failure)
    }

    constructor (maxDepth: nat)
      requires 1 <= maxDepth
      ensures Valid() && events == {} && failure == None && this.maxDepth == maxDepth
    {
      this.maxDepth := maxDepth;
      root, failure := None, None;
      rootFinals, placedFinals, pendingFinals := [], [], [];
      placedFinalKeys, pendingFinalKeys := {}, {};
      parents, pending, assertions := map[], map[], map[];
      events := {};
    }

    method MarkFailure(code: FailureCode)
      modifies this`failure
      ensures failure == if old(failure) == None then Some(code) else old(failure)
    {
      if failure == None {
        failure := Some(code);
      }
    }

    /** The level of a placed thread. A repeated thread on the way up would be a parent cycle. */
    method ThreadDepth(thread: string) returns (depth: Option<nat>)
      requires Structure(maxDepth, Stored())
      ensures depth == None <==> root == None || (thread != root.value && thread !in parents)
      ensures depth != None ==> DepthIs(parents, root.value, thread, depth.value)
    {
      if root == None {
        return None;
      }
      if thread == root.value {
        return Some(0);
      }
      var d, current, seen := 0, thread, {};
      ghost var height: nat := 0;
      ghost var heights: map<string, nat> := map[];
      if thread in parents {
        height :| 1 <= height <= maxDepth && DepthIs(parents, root.value, thread, height);
      }
      while current != root.value
        invariant seen <= parents.Keys && d <= height
        invariant thread !in parents ==> current == thread
        invariant thread in parents ==>
          && DepthIs(parents, root.value, thread, height)
          && DepthIs(parents, root.value, current, height - d)
          && heights.Keys == seen
          && (forall x :: x in seen ==> heights[x] > height - d && DepthIs(parents, root.value, x, heights[x]))
        decreases parents.Keys - seen
      {
        if current in seen {
          DepthUnique(parents, root.value, current, heights[current], height - d);
          assert false;
        }
        if current !in parents {
          return None;
        }
        heights := heights[current := height - d];
        seen := seen + {current};
        d := d + 1;
        current := parents[current];
      }
      return Some(d);
    }

    /** Whether the walk that starts with the edge `child -> parent` runs into itself. */
    method PendingParentageCycles(child: string, parent: string) returns (cycles: bool)
      requires child in Stored().Edges() && Stored().Edges()[child] == parent
      requires parents.Keys !! pending.Keys
      requires root != None ==> root.value !in Stored().Edges()
      ensures cycles <==> Endless(Stored().Edges(), child)
    {
      ghost var m := Stored().Edges();
      ghost var finite := !Endless(m, child);
      ghost var height: nat := 0;
      ghost var heights: map<string, nat> := map[];
      if finite {
        height :| Escapes(m, child, height);
        heights := map[child := height];
        height := height - 1;
      }
      var current, seen := parent, {child};
      forall n: nat | Escapes(m, parent, n) ensures finite {
        assert Escapes(m, child, n + 1);
      }
      while true
        invariant seen <= m.Keys
        invariant finite ==>
          && Escapes(m, current, height)
          && heights.Keys == seen
          && (forall x :: x in seen ==> heights[x] > height && Escapes(m, x, heights[x]))
        invariant forall n: nat :: Escapes(m, current, n) ==> finite
        decreases m.Keys - seen
      {
        if current in seen {
          if finite {
            EscapesUnique(m, current, heights[current], height);
            assert false;
          }
          return true;
        }
        if root != None && current == root.value {
          assert Escapes(m, current, 0);
          return false;
        }
        seen := seen + {current};
        var next: Option<string> := None;
        if current in parents {
          next := Some(parents[current]);
        } else if current in pending {
          next := Some(pending[current]);
        }
        if next == None {
          assert Escapes(m, current, 0);
          return false;
        }
        assert m[current] == next.value;
        forall n: nat | Escapes(m, next.value, n) ensures finite {
          assert Escapes(m, current, n + 1);
        }
        if finite {
          heights := heights[current := height];
          height := height - 1;
        }
        current := next.value;
      }
    }

    method ValidateParentAssertions(child: string, parent: string)
      modifies this`assertions, this`failure
      ensures assertions == old(assertions) - {child}
      ensures failure ==
        if old(failure) == None
          && child in old(assertions) && exists q :: q in old(assertions)[child] && q != parent
        then Some(Conflict) else old(failure)
    {
      var asserted := if child in assertions then assertions[child] else {};
      assertions := assertions - {child};
      if exists item :: item in asserted && item != parent {
        MarkFailure(Conflict);
      }
    }

    method RecordDescendantFinal(child: string, parent: string, text: string)
      modifies this`placedFinals, this`placedFinalKeys, this`failure
      ensures failure ==
        if old(failure) == None && !(child in parents && parents[child] == parent)
        then Some(Conflict) else old(failure)
      ensures placedFinals ==
        if child in parents && parents[child] == parent && (child, parent, text) !in old(placedFinalKeys)
        then old(placedFinals) + [(child, parent, text)] else old(placedFinals)
      ensures placedFinalKeys ==
        if child in parents && parents[child] == parent
        then old(placedFinalKeys) + {(child, parent, text)} else old(placedFinalKeys)
    {
      if !(child in parents && parents[child] == parent) {
        MarkFailure(Conflict);
        return;
      }
      var key := (child, parent, text);
      if key !in placedFinalKeys {
        placedFinalKeys := placedFinalKeys + {key};
        placedFinals := placedFinals + [key];
      }
    }

    /** One held final of a child that has just been placed. */
    method SettleHeldFinal(key: PendingFinal, child: string, parent: string)
      requires child in parents && parents[child] == parent && key.0 == child
      requires forall x :: x in placedFinalKeys <==> x in placedFinals
      modifies this`pendingFinalKeys, this`placedFinals, this`placedFinalKeys, this`failure
      ensures pendingFinalKeys == old(pendingFinalKeys) - {key}
      ensures forall x :: x in placedFinalKeys <==> x in placedFinals
      ensures placedFinals ==
        if Agrees(key.1, parent) && (child, parent, key.2) !in old(placedFinals)
        then old(placedFinals) + [(child, parent, key.2)] else old(placedFinals)
      ensures failure == if old(failure) == None && !Agrees(key.1, parent) then Some(Conflict) else old(failure)
    {
      pendingFinalKeys := pendingFinalKeys - {key};
      if key.1 != None && key.1 != Some(parent) {
        MarkFailure(Conflict);
      } else {
        RecordDescendantFinal(child, parent, key.2);
      }
    }

    method DrainDescendantFinals(child: string, parent: string)
      requires Keyed() && Distinct(pendingFinals)
      requires child in parents && parents[child] == parent
      modifies this`pendingFinals, this`pendingFinalKeys, this`placedFinals, this`placedFinalKeys, this`failure
      ensures Keyed()
      ensures pendingFinals == Without(old(pendingFinals), child)
      ensures placedFinals == Drained(old(placedFinals), old(pendingFinals), child, parent)
      ensures failure ==
        if old(failure) == None && !AllAgree(old(pendingFinals), child, parent)
        then Some(Conflict) else old(failure)
    {
      var retained: seq<PendingFinal> := [];
      var queue := pendingFinals;
      ghost var placed, failed := placedFinals, failure;
      for i := 0 to |queue|
        invariant pendingFinals == queue
        invariant forall x :: x in placedFinalKeys <==> x in placedFinals
        invariant Draining(queue, i, child, parent, placed, failed, retained, pendingFinalKeys, placedFinals, failure)
      {
        DrainingNext(queue, i, child, parent, placed, failed, retained, pendingFinalKeys, placedFinals, failure);
        if queue[i].0 != child {
          retained := retained + [queue[i]];
        } else {
          SettleHeldFinal(queue[i], child, parent);
        }
      }
      RemainingAll(pendingFinalKeys, queue, child);
      pendingFinals := retained;
    }

    /** Places every pending child whose parent is placed, until nothing moves.
        The order of one pass over the pending edges does not matter. */
    method ResolvePendingParentage()
      requires Resolvable()
      modifies this`parents, this`pending, this`assertions, this`failure,
        this`pendingFinals, this`pendingFinalKeys, this`placedFinals, this`placedFinalKeys
      ensures Valid() && FirstFailureKept()
      ensures old(Settled(Stored())) ==> Stored() == old(Stored()) && failure == old(failure)
    {
      if root == None {
        return;
      }
      var madeProgress := true;
      while madeProgress
        invariant Resolvable() && root != None && FirstFailureKept()
        invariant old(Settled(Stored())) ==> Stored() == old(Stored()) && failure == old(failure)
        invariant !madeProgress ==> Settled(Stored())
        decreases |pending|, madeProgress
      {
        madeProgress := ResolvePass();
      }
    }

    /** One pass over the edges that are pending when it begins. */
    method ResolvePass() returns (madeProgress: bool)
      requires Resolvable() && root != None
      modifies this`parents, this`pending, this`assertions, this`failure,
        this`pendingFinals, this`pendingFinalKeys, this`placedFinals, this`placedFinalKeys
      ensures Resolvable() && FirstFailureKept()
      ensures old(Settled(Stored())) ==> !madeProgress
      ensures madeProgress ==> |pending| < |old(pending)|
      ensures !madeProgress ==> Settled(Stored()) && Stored() == old(Stored()) && failure == old(failure)
    {
      madeProgress := false;
      var snapshot := pending;
      var todo := snapshot.Keys;
      while todo != {}
        invariant Resolvable() && FirstFailureKept()
        invariant todo <= snapshot.Keys
        invariant forall c :: c in pending ==> c in snapshot && pending[c] == snapshot[c]
        invariant forall c :: c in todo ==> c in pending
        invariant madeProgress ==> |pending| < |snapshot| && !old(Settled(Stored()))
        invariant !madeProgress ==> Stored() == old(Stored()) && failure == old(failure)
        invariant !madeProgress ==> forall c :: c in snapshot.Keys - todo ==>
          snapshot[c] != root.value && snapshot[c] !in parents
        decreases todo
      {
        var child :| child in todo;
        todo := todo - {child};
        var parent := snapshot[child];
        if child == root.value {
          assert false;
        }
        var parentDepth := ThreadDepth(parent);
        if parentDepth != None {
          PlaceChild(child, parent, parentDepth.value);
          madeProgress := true;
          assert pending.Keys < snapshot.Keys;
          SmallerMap(pending, snapshot);
        }
      }
    }

    method AdoptChild(child: string, parent: string)
      requires Keyed() && Distinct(pendingFinals)
      modifies this`parents, this`assertions, this`failure,
        this`pendingFinals, this`pendingFinalKeys, this`placedFinals, this`placedFinalKeys
      ensures Keyed()
      ensures parents == old(parents)[child := parent] && assertions == old(assertions) - {child}
      ensures pendingFinals == Without(old(pendingFinals), child)
      ensures placedFinals == Drained(old(placedFinals), old(pendingFinals), child, parent)
      ensures failure ==
        if old(failure) == None && old(PlacementFails(Stored(), child, parent)) then Some(Conflict) else old(failure)
    {
      parents := parents[child := parent];
      ValidateParentAssertions(child, parent);
      DrainDescendantFinals(child, parent);
    }

    /** One resolution step of the loop above. */
    method PlaceChild(child: string, parent: string, parentDepth: nat)
      requires Resolvable() && root != None && child in pending && pending[child] == parent
      requires DepthIs(parents, root.value, parent, parentDepth)
      modifies this`parents, this`pending, this`assertions, this`failure,
        this`pendingFinals, this`pendingFinalKeys, this`placedFinals, this`placedFinalKeys
      ensures Resolvable() && FirstFailureKept()
      ensures pending == old(pending) - {child}
      ensures parents == if parentDepth >= maxDepth then old(parents) else old(parents)[child := parent]
      ensures parentDepth >= maxDepth && old(failure) == None ==> failure == Some(DepthExceeded)
    {
      ghost var before, failureBefore := Stored(), failure;
      pending := pending - {child};
      if parentDepth >= maxDepth {
        MarkFailure(DepthExceeded);
        DepthRejectionKeeps(maxDepth, events, before, failureBefore, child, parent, parentDepth);
        return;
      }
      AdoptChild(child, parent);
      PlacementKeeps(maxDepth, events, before, Stored(), failureBefore, failure, child, parent, parentDepth);
    }

    method RegisterRootThread(id: string)
      requires Valid()
      modifies this
      ensures Valid() && events == old(events) + {Root(id)} && FirstFailureKept()
      ensures old(failure) == None && id == "" ==> failure == Some(Malformed)
      ensures old(failure) == None && id != "" && old(root) != None && old(root) != Some(id) ==>
        failure == Some(Conflict)
      ensures old(failure) == None && id != "" && old(root) == None && id in old(pending) ==>
        failure == Some(Conflict)
    {
      ghost var before, failureBefore, eventsBefore := Stored(), failure, events;
      events := events + {Root(id)};
      if id == "" {
        MarkFailure(Malformed);
        BrokenKeeps(maxDepth, eventsBefore, before, failureBefore, Root(id), Malformed);
        return;
      }
      if root != None {
        if root.value != id {
          MarkFailure(Conflict);
        }
        RootRepeated(maxDepth, eventsBefore, before, failureBefore, id);
        return;
      }
      InstallRoot(id);
      RootKeeps(maxDepth, eventsBefore, before, failureBefore, id);
      ResolvePendingParentage();
    }

    /** The field updates of a first root registration. */
    method InstallRoot(id: string)
      requires Keyed() && Distinct(pendingFinals)
      modifies this`root, this`pending, this`failure, this`rootFinals, this`pendingFinals, this`pendingFinalKeys
      ensures Keyed()
      ensures Stored() == WithRoot(old(Stored()), id)
      ensures failure == if old(failure) == None && old(RootFails(Stored(), id)) then Some(Conflict) else old(failure)
    {
      root := Some(id);
      if id in pending {
        pending := pending - {id};
        MarkFailure(Conflict);
      }
      DrainRootFinals(id);
    }

    method DrainRootFinals(id: string)
      requires Keyed() && Distinct(pendingFinals)
      modifies this`failure, this`rootFinals, this`pendingFinals, this`pendingFinalKeys
      ensures Keyed()
      ensures pendingFinals == Without(old(pendingFinals), id)
      ensures rootFinals == old(rootFinals) + RootTexts(old(pendingFinals), id)
      ensures failure ==
        if old(failure) == None && !NoneExpected(old(pendingFinals), id) then Some(Conflict) else old(failure)
    {
      var retained: seq<PendingFinal> := [];
      var queue := pendingFinals;
      for i := 0 to |queue|
        invariant pendingFinals == queue == old(pendingFinals)
        invariant retained == Without(queue[..i], id)
        invariant Remaining(pendingFinalKeys, queue, i, id)
        invariant rootFinals == old(rootFinals) + RootTexts(queue[..i], id)
        invariant failure ==
          if old(failure) == None && !NoneExpected(queue[..i], id) then Some(Conflict) else old(failure)
      {
        var (thread, expected, text) := queue[i];
        RemainingNext(pendingFinalKeys, queue, i, id);
        assert queue[..i + 1] == queue[..i] + [queue[i]] && queue[..i + 1][..i] == queue[..i];
        if thread != id {
          retained := retained + [(thread, expected, text)];
        } else {
          pendingFinalKeys := pendingFinalKeys - {(thread, expected, text)};
          if expected != None {
            MarkFailure(Conflict);
          } else {
            rootFinals := rootFinals + [text];
          }
        }
      }
      RemainingAll(pendingFinalKeys, queue, id);
      pendingFinals := retained;
    }

    method RegisterDescendant(child: string, parent: string)
      requires Valid()
      modifies this
      ensures Valid() && events == old(events) + {Spawn(child, parent)} && FirstFailureKept()
      ensures old(failure) == None && old(SpawnRejection(Stored(), child, parent)) != None ==>
        failure == old(SpawnRejection(Stored(), child, parent))
    {
      ghost var before, failureBefore, eventsBefore := Stored(), failure, events;
      if child == "" || parent == "" {
        events := events + {Spawn(child, parent)};
        MarkFailure(Malformed);
        BrokenKeeps(maxDepth, eventsBefore, before, failureBefore, Spawn(child, parent), Malformed);
        return;
      }
      if child == parent || Some(child) == root {
        events := events + {Spawn(child, parent)};
        MarkFailure(Conflict);
        BrokenKeeps(maxDepth, eventsBefore, before, failureBefore, Spawn(child, parent), Conflict);
        return;
      }
      if child in parents {
        RegisterAgain(child, parent);
        return;
      }
      if child in pending && pending[child] != parent {
        RefuseParent(child, parent);
        return;
      }
      HoldEdge(child, parent);
    }

    /** A further report about a placed child. */
    method RegisterAgain(child: string, parent: string)
      requires Valid() && child in parents
      requires child != "" && parent != "" && child != parent && Some(child) != root
      modifies this
      ensures Valid() && events == old(events) + {Spawn(child, parent)} && FirstFailureKept()
      ensures old(failure) == None && old(SpawnRejection(Stored(), child, parent)) != None ==>
        failure == old(SpawnRejection(Stored(), child, parent))
    {
      if parents[child] != parent {
        RefuseParent(child, parent);
      } else {
        ConfirmedSpawn(maxDepth, Stored(), child, parent);
        ghost var before, eventsBefore := Stored(), events;
        Reconfirm(child, parent);
        events := events + {Spawn(child, parent)};
        RedundantSpawnKeeps(maxDepth, eventsBefore, before, failure, child, parent);
      }
    }

    /** A report against an edge that is held or placed. */
    method RefuseParent(child: string, parent: string)
      requires Valid() && child in Stored().Edges() && Stored().Edges()[child] != parent
      modifies this`events, this`failure
      ensures Valid() && events == old(events) + {Spawn(child, parent)}
      ensures failure == if old(failure) == None then Some(Conflict) else old(failure)
    {
      SpawnClashKeeps(maxDepth, events, Stored(), failure, child, parent);
      events := events + {Spawn(child, parent)};
      MarkFailure(Conflict);
    }

    /** A placed child has nothing held any more, so the checks of a repeated report change nothing. */
    method Reconfirm(child: string, parent: string)
      requires Keyed() && Structure(maxDepth, Stored()) && child in parents && parents[child] == parent
      modifies this`assertions, this`failure, this`pendingFinals, this`pendingFinalKeys, this`placedFinals,
        this`placedFinalKeys
      ensures Keyed() && Stored() == old(Stored()) && failure == old(failure)
    {
      NothingLeft(Stored(), child, parent);
      ValidateParentAssertions(child, parent);
      DrainDescendantFinals(child, parent);
    }

    /** Holds an edge that contradicts nothing yet, unless it closes a cycle. */
    method HoldEdge(child: string, parent: string)
      requires Valid() && child !in parents
      requires child != "" && parent != "" && child != parent && Some(child) != root
      requires child in pending ==> pending[child] == parent
      modifies this
      ensures Valid() && events == old(events) + {Spawn(child, parent)} && FirstFailureKept()
      ensures old(failure) == None && old(SpawnRejection(Stored(), child, parent)) != None ==>
        failure == old(SpawnRejection(Stored(), child, parent))
    {
      var cycles := TryEdge(child, parent);
      if !cycles {
        ResolvePendingParentage();
      }
    }

    /** Holds the edge, and takes it back if the walk from it does not end. */
    method TryEdge(child: string, parent: string) returns (cycles: bool)
      requires Valid() && child !in parents
      requires child != "" && parent != "" && child != parent && Some(child) != root
      requires child in pending ==> pending[child] == parent
      modifies this`pending, this`events, this`failure
      ensures Resolvable() && events == old(events) + {Spawn(child, parent)}
      ensures cycles <==> Endless(old(Stored().Edges())[child := parent], child)
      ensures cycles ==> Stored() == old(Stored())
      ensures failure == if old(failure) == None && cycles then Some(Cycle) else old(failure)
    {
      ghost var before, failureBefore, eventsBefore := Stored(), failure, events;
      HeldEdges(maxDepth, before, child, parent);
      cycles := HoldUnlessCycle(child, parent);
      EdgeKeeps(maxDepth, events, before, failure, child, parent, before.Edges()[child := parent], cycles);
      events := events + {Spawn(child, parent)};
      if cycles {
        MarkFailure(Cycle);
      }
    }

    method HoldUnlessCycle(child: string, parent: string) returns (cycles: bool)
      requires child !in parents && parents.Keys !! pending.Keys
      requires root != None ==> root.value !in Stored().Edges()[child := parent]
      modifies this`pending
      ensures cycles <==> Endless(old(Stored().Edges())[child := parent], child)
      ensures Stored() == WithEdge(old(Stored()), child, parent, cycles)
    {
      ghost var edges := Stored().Edges();
      pending := pending[child := parent];
      assert parents + pending == edges[child := parent];
      cycles := PendingParentageCycles(child, parent);
      if cycles {
        pending := pending - {child};
      }
    }

    method AssertDirectParent(child: string, parent: string)
      requires Valid()
      modifies this
      ensures Valid() && events == old(events) + {Asserted(child, parent)} && FirstFailureKept()
      ensures AssertionTold(old(Stored()), Stored(), old(failure), failure, child, parent)
    {
      ghost var before, failureBefore := Stored(), failure;
      RecordAssertion(child, parent);
      AssertionKeeps(maxDepth, events, before, Stored(), failureBefore, failure, child, parent);
      events := events + {Asserted(child, parent)};
    }

    method RecordAssertion(child: string, parent: string)
      requires parents.Keys !! pending.Keys
      modifies this`assertions, this`failure
      ensures AssertionTold(old(Stored()), Stored(), old(failure), failure, child, parent)
    {
      if child == "" || parent == "" || child == parent || Some(child) == root {
        MarkFailure(Conflict);
      } else if child in parents {
        if parents[child] != parent {
          MarkFailure(Conflict);
        }
      } else if child in pending && pending[child] != parent {
        MarkFailure(Conflict);
      } else {
        HoldAssertion(child, parent);
      }
    }

    method HoldAssertion(child: string, parent: string)
      modifies this`assertions, this`failure
      ensures assertions ==
        old(assertions)[child := (if child in old(assertions) then old(assertions)[child] else {}) + {parent}]
      ensures failure == if old(failure) == None && |assertions[child]| != 1 then Some(Conflict) else old(failure)
    {
      var asserted := (if child in assertions then assertions[child] else {}) + {parent};
      assertions := assertions[child := asserted];
      if |asserted| != 1 {
        MarkFailure(Conflict);
      }
    }

    method QueueOrRecordFinal(thread: string, text: string, expected: Option<string>)
      requires Valid()
      modifies this
      ensures Valid() && events == old(events) + {Final(thread, expected, text)} && FirstFailureKept()
      ensures FinalTold(old(Stored()), Stored(), old(failure), failure, thread, expected, text)
    {
      ghost var before, failureBefore := Stored(), failure;
      RecordFinal(thread, text, expected);
      FinalEventKeeps(maxDepth, events, before, Stored(), failureBefore, failure, thread, expected, text);
      events := events + {Final(thread, expected, text)};
    }

    method RecordFinal(thread: string, text: string, expected: Option<string>)
      requires Keyed()
      modifies this`failure, this`rootFinals, this`placedFinals, this`placedFinalKeys, this`pendingFinals,
        this`pendingFinalKeys
      ensures Keyed() && FinalTold(old(Stored()), Stored(), old(failure), failure, thread, expected, text)
    {
      if thread == "" {
        MarkFailure(Malformed);
      } else if root != None && thread == root.value {
        RecordRootFinal(text, expected);
      } else if thread in parents {
        RecordPlacedFinal(thread, text, expected);
      } else {
        HoldFinal((thread, expected, text));
      }
    }

    method RecordRootFinal(text: string, expected: Option<string>)
      modifies this`rootFinals, this`failure
      ensures failure == if old(failure) == None && expected != None then Some(Conflict) else old(failure)
      ensures rootFinals == if expected == None then old(rootFinals) + [text] else old(rootFinals)
    {
      if expected != None {
        MarkFailure(Conflict);
      } else {
        rootFinals := rootFinals + [text];
      }
    }

    method RecordPlacedFinal(thread: string, text: string, expected: Option<string>)
      requires Keyed() && thread in parents
      modifies this`placedFinals, this`placedFinalKeys, this`failure
      ensures Keyed()
      ensures failure ==
        if old(failure) == None && !Agrees(expected, parents[thread]) then Some(Conflict) else old(failure)
      ensures placedFinals ==
        var key := (thread, parents[thread], text);
        if Agrees(expected, parents[thread]) && key !in old(placedFinals)
        then old(placedFinals) + [key] else old(placedFinals)
    {
      if expected != None && expected.value != parents[thread] {
        MarkFailure(Conflict);
        return;
      }
      RecordDescendantFinal(thread, parents[thread], text);
    }

    method HoldFinal(key: PendingFinal)
      requires Keyed()
      modifies this`pendingFinals, this`pendingFinalKeys
      ensures Keyed()
      ensures pendingFinals == if key in old(pendingFinals) then old(pendingFinals) else old(pendingFinals) + [key]
    {
      if key !in pendingFinalKeys {
        pendingFinalKeys := pendingFinalKeys + {key};
        pendingFinals := pendingFinals + [key];
      }
    }

    /** Any other reported fault: a model reroute, a top-level error, a malformed report. */
    method ReportFault(code: FailureCode)
      requires Valid()
      modifies this
      ensures Valid() && events == old(events) + {Fault(code)}
      ensures failure == if old(failure) == None then Some(code) else old(failure)
    {
      BrokenKeeps(maxDepth, events, Stored(), failure, Fault(code), code);
      events := events + {Fault(code)};
      MarkFailure(code);
    }

    /** The verdict. With no failure the placed edges are exactly the reported ones. */
    method FinalizeParentage()
      requires Valid()
      modifies this
      ensures events == old(events) && FirstFailureKept()
      ensures failure == None <==> Good(maxDepth, events)
      ensures old(failure) == None && !Good(maxDepth, events) ==> failure == Some(Unresolved)
      ensures failure == None ==> Valid() && pending == map[] && assertions == map[] && pendingFinals == []
      ensures failure == None ==> Delivered(events, parents, placedFinals, rootFinals)
    {
      ResolvePendingParentage();
      var toCheck := assertions.Keys;
      while toCheck != {}
        invariant toCheck <= assertions.Keys
        invariant Keyed() && Structure(maxDepth, Stored()) && Settled(Stored()) && events == old(events)
        invariant failure == None ==> Clean(events, Stored())
        invariant failure != None ==> Doomed(maxDepth, events)
        invariant failure == old(failure)
      {
        var child :| child in toCheck;
        toCheck := toCheck - {child};
        if child in parents {
          assert false;
        } else if |assertions[child]| > 1 {
          if failure == None {
            assert false;
          }
          MarkFailure(Conflict);
        }
      }
      if failure == None {
        if pending == map[] && assertions == map[] && pendingFinals == [] {
          CleanIsGood(maxDepth, events, Stored());
          CleanDelivers(maxDepth, events, Stored());
        } else {
          LeftoversAreBad(maxDepth, events, Stored());
        }
      }
      if pending != map[] {
        var anyCycle := AnyPendingCycle();
        MarkFailure(if anyCycle then Cycle else Unresolved);
      }
      if assertions != map[] || pendingFinals != [] {
        MarkFailure(Unresolved);
      }
    }

    /** At the verdict no pending edge is part of a cycle any more. */
    method AnyPendingCycle() returns (any: bool)
      requires Structure(maxDepth, Stored())
      ensures !any
    {
      any := false;
      var todo := pending.Keys;
      while todo != {} && !any
        invariant todo <= pending.Keys && !any
      {
        var child :| child in todo;
        todo := todo - {child};
        assert child in Stored().Edges();
        assert !Endless(Stored().Edges(), child);
        any := PendingParentageCycles(child, pending[child]);
      }
    }
  }

  datatype Tool = SpawnAgent | SendInput | Wait | OtherTool

  /** A completed collaboration call. `receivers` is absent when it is not a list; `messages`
      holds the final text of every receiver that reports one. */
  datatype CollabItem = CollabItem(
    tool: Tool, outerSender: string, sender: string,
    receivers: Option<seq<string>>, messages: map<string, string>)

  /** The parent every receiver is said to have. */
  ghost function ReceiverParents(receivers: seq<string>, sender: string): set<Event> {
    set c | c in receivers :: Asserted(c, sender)
  }

  /** The final messages of the receivers that report one. */
  ghost function ReceiverFinals(receivers: seq<string>, sender: string, messages: map<string, string>): set<Event> {
    set c | c in receivers && c in messages :: Final(c, Some(sender), messages[c])
  }

  /** A collaboration call: what it reports, or the fault it is. A first child of a lone root is placed. */
  method ObserveCollaborationItem(facts: Facts, item: CollabItem)
    requires facts.Valid()
    modifies facts
    ensures facts.Valid() && (old(facts.failure) != None ==> facts.failure == old(facts.failure))
    ensures item.tool == OtherTool ==> facts.events == old(facts.events)
    ensures item.tool != OtherTool && (item.sender == "" || item.sender != item.outerSender) ==>
      facts.events == old(facts.events) + {Fault(Conflict)}
    ensures item.tool != OtherTool && item.outerSender == item.sender != "" ==>
      match item.receivers {
        case None => facts.events == old(facts.events) + {Fault(Malformed)}
        case Some(receivers) =>
          if "" in receivers || |set c | c in receivers| != |receivers| then
            facts.events == old(facts.events) + {Fault(Malformed)}
          else if item.tool == SendInput then
            facts.events == old(facts.events) + ReceiverParents(receivers, item.sender)
          else if item.tool == Wait then
            facts.events == old(facts.events) + ReceiverParents(receivers, item.sender)
              + ReceiverFinals(receivers, item.sender, item.messages)
          else if |receivers| != 1 then facts.events == old(facts.events) + {Fault(Malformed)}
          else
            && facts.events == old(facts.events) + {Spawn(receivers[0], item.sender)}
            && (old(facts.events) == {Root(item.sender)} && receivers[0] != item.sender ==>
              && facts.failure == None && facts.root == Some(item.sender)
              && facts.parents == map[receivers[0] := item.sender])
      }
  {
    if item.tool == OtherTool {
      return;
    }
    if item.outerSender == "" || item.sender == "" || item.sender != item.outerSender {
      facts.ReportFault(Conflict);
      return;
    }
    if item.receivers == None {
      facts.ReportFault(Malformed);
      return;
    }
    var receivers := item.receivers.value;
    if "" in receivers || |receivers| != |set c | c in receivers| {
      facts.ReportFault(Malformed);
      return;
    }
    if item.tool == SpawnAgent {
      if |receivers| != 1 {
        facts.ReportFault(Malformed);
        return;
      }
      facts.RegisterDescendant(receivers[0], item.sender);
      if old(facts.events) == {Root(item.sender)} && receivers[0] != item.sender {
        FirstChildPlaced(facts.maxDepth, facts.events, facts.Stored(), facts.failure, item.sender, receivers[0]);
      }
      return;
    }
    ObserveReceivers(facts, item, receivers);
  }

  method ObserveReceivers(facts: Facts, item: CollabItem, receivers: seq<string>)
    requires facts.Valid()
    modifies facts
    ensures facts.Valid() && (old(facts.failure) != None ==> facts.failure == old(facts.failure))
    ensures facts.events == old(facts.events) + ReceiverParents(receivers, item.sender)
      + if item.tool == Wait then ReceiverFinals(receivers, item.sender, item.messages) else {}
  {
    for i := 0 to |receivers|
      invariant facts.Valid() && (old(facts.failure) != None ==> facts.failure == old(facts.failure))
      invariant facts.events == old(facts.events) + ReceiverParents(receivers[..i], item.sender)
        + if item.tool == Wait then ReceiverFinals(receivers[..i], item.sender, item.messages) else {}
    {
      NextReceiver(receivers, i, item.sender, item.messages);
      ObserveReceiver(facts, item, receivers[i]);
    }
    assert receivers[..|receivers|] == receivers;
  }

  lemma NextReceiver(receivers: seq<string>, i: nat, sender: string, messages: map<string, string>)
    requires i < |receivers|
    ensures ReceiverParents(receivers[..i + 1], sender) ==
      ReceiverParents(receivers[..i], sender) + {Asserted(receivers[i], sender)}
    ensures ReceiverFinals(receivers[..i + 1], sender, messages) ==
      ReceiverFinals(receivers[..i], sender, messages)
      + if receivers[i] in messages then {Final(receivers[i], Some(sender), messages[receivers[i]])} else {}
  {
    assert receivers[..i + 1] == receivers[..i] + [receivers[i]];
  }

  method ObserveReceiver(facts: Facts, item: CollabItem, child: string)
    requires facts.Valid()
    modifies facts
    ensures facts.Valid() && (old(facts.failure) != None ==> facts.failure == old(facts.failure))
    ensures facts.events == old(facts.events) + {Asserted(child, item.sender)}
      + if item.tool == Wait && child in item.messages
        then {Final(child, Some(item.sender), item.messages[child])} else {}
  {
    facts.AssertDirectParent(child, item.sender);
    if item.tool == Wait && child in item.messages {
      facts.QueueOrRecordFinal(child, item.messages[child], Some(item.sender));
    }
  }

  /** Tells a tracker one event. */
  method Tell(facts: Facts, e: Event)
    requires facts.Valid()
    modifies facts
    ensures facts.Valid() && facts.events == old(facts.events) + {e}
  {
    match e {
      case Root(id) => facts.RegisterRootThread(id);
      case Spawn(child, parent) => facts.RegisterDescendant(child, parent);
      case Asserted(child, parent) => facts.AssertDirectParent(child, parent);
      case Final(thread, expected, text) => facts.QueueOrRecordFinal(thread, text, expected);
      case Fault(code) => facts.ReportFault(code);
    }
  }

  /** A whole history, told in the order given and then judged: whether it fails depends only on
      the set of its events, and a history that passes hands over exactly its tree and finals. */
  method Judge(maxDepth: nat, history: seq<Event>)
    returns (failure: Option<FailureCode>, parents: map<string, string>,
             placedFinals: seq<PlacedFinal>, rootFinals: seq<string>)
    requires 1 <= maxDepth
    ensures failure == None <==> Good(maxDepth, set e | e in history)
    ensures failure == None ==> Delivered((set e | e in history), parents, placedFinals, rootFinals)
  {
    var facts := new Facts(maxDepth);
    for i := 0 to |history|
      invariant facts.Valid() && facts.maxDepth == maxDepth && fresh(facts)
      invariant facts.events == set e | e in history[..i]
    {
      Tell(facts, history[i]);
      assert history[..i + 1] == history[..i] + [history[i]];
    }
    assert history[..|history|] == history;
    facts.FinalizeParentage();
    failure, parents := facts.failure, facts.parents;
    placedFinals, rootFinals := facts.placedFinals, facts.rootFinals;
  }

  /** A placed child has no assertion and no final waiting. */
  lemma NothingLeft(v: View, c: string, p: string)
    requires FinalsStructure(v) && v.assertions.Keys !! v.parents.Keys && c in v.parents
    ensures v.assertions - {c} == v.assertions
    ensures Without(v.pendingFinals, c) == v.pendingFinals
    ensures Drained(v.placedFinals, v.pendingFinals, c, p) == v.placedFinals
    ensures AllAgree(v.pendingFinals, c, p)
  {
    WithoutAbsent(v.pendingFinals, c);
    DrainedAbsent(v.placedFinals, v.pendingFinals, c, p);
  }

  lemma SmallerMap(m: map<string, string>, n: map<string, string>)
    requires m.Keys < n.Keys
    ensures |m| < |n|
  {
    SmallerSet(m.Keys, n.Keys);
    assert |m| == |m.Keys| && |n| == |n.Keys|;
  }

  lemma SmallerSet<T>(a: set<T>, b: set<T>)
    requires a < b
    ensures |a| < |b|
  {
    assert b == a + (b - a);
    assert b - a != {};
  }
}
