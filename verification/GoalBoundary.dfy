/** One root Goal's runtime: notifications and tool calls come one at a time from a queue; grants and
    stop requests may come from outside while a tool call waits for its result. */
module GoalBoundary {
  import opened Wrappers
  import opened Text
  import opened GoalRegistry

  datatype Error =
    | ParentChanged | TooDeep | SourceDisagrees | RoleChanged
    | NotLiveDirectChild | BadIdentity | BadSelection | OutsideCatalog | DifferentGrant | OtherFamily | WrongRole

  datatype Outcome = Done | Ignored | Raised(error: Error)

  /** `content` is the namespace and arguments. */
  datatype ToolCall = ToolCall(thread: Id, turn: string, tool: string, callId: string, content: string)

  datatype ToolResult = ToolResult(success: bool, checkpoint: bool, text: string)

  /** What a repeated call must match; the turn is not part of it. */
  datatype Fingerprint = Fingerprint(
    thread: Id, tool: string, content: string, grant: Option<string>, assignment: Option<string>)

  datatype Cached = Cached(fingerprint: Fingerprint, result: ToolResult)

  datatype Reply = Unauthorized | ReplayChanged | GrantGone | Result(result: ToolResult)

  datatype TurnStatus = TurnFailed | TurnInterrupted | TurnCompleted

  /** The thread statuses that matter; any other leaves the descendant alone. */
  datatype ThreadStatus = ThreadActive | ThreadArchived | ThreadFailed | ThreadInterrupted | OtherStatus

  /** A descendant whose activity was placed: it has the path, and an interruption settles it. */
  function Placed(x: Descendant, kind: ActivityKind, path: string): Descendant {
    var y := x.(path := Some(path));
    if kind == InterruptedKind then y.(status := Interrupted, activeTurn := None, grant := None) else y
  }

  function SettledAs(status: TurnStatus): (r: Status)
    ensures !Live(r)
  {
    match status
    case TurnFailed => Failed
    case TurnInterrupted => Interrupted
    case TurnCompleted => Complete
  }

  datatype GoalStatus = GoalActive | GoalBlocked | OtherGoalStatus

  datatype ActivityKind = Started | InterruptedKind | OtherActivity

  /** The native role a thread announces. */
  datatype Role = Role(source: Option<string>, projected: Option<string>)

  /** An exact role string or none, the same in both places it is announced. */
  predicate Announced(role: Role) {
    && (role.source.Some? ==> role.source.value != "" && Trim(role.source.value) == role.source.value)
    && role.projected == role.source
  }

  datatype Message =
    | ThreadStart(thread: Id, parent: Id, sourceParent: Option<Id>, role: Role)
    | TurnStart(thread: Id, turn: string)
    | TurnEnd(thread: Id, turnStatus: TurnStatus)
    | GoalUpdate(goalStatus: GoalStatus)
    | StatusChange(thread: Id, threadStatus: ThreadStatus)
    | Activity(thread: Id, kind: ActivityKind, child: Id, path: string)
    | Request(call: ToolCall)

  /** A handler run: the thread and call it was for, and what it was asked. */
  datatype Run = Run(thread: Id, callId: string, tool: string, content: string)

  /** Tools a child was granted at some time. */
  datatype Granting = Granting(child: Id, family: Family, allowed: set<string>)

  function CallKey(root: Id, thread: Id, callId: string): string { root + "\0" + thread + "\0" + callId }

  /** The cached call answers what the run was asked. */
  ghost predicate RunCached(x: Run, calls: map<string, Cached>, root: Id) {
    var key := CallKey(root, x.thread, x.callId);
    && key in calls && calls[key].fingerprint.thread == x.thread
    && calls[key].fingerprint.tool == x.tool && calls[key].fingerprint.content == x.content
  }

  ghost predicate RunsCached(ran: seq<Run>, calls: map<string, Cached>, root: Id) {
    && (forall i :: 0 <= i < |ran| ==> RunCached(ran[i], calls, root))
    && (forall key :: key in calls ==> CallRan(key, ran, root))
  }

  ghost predicate CallRan(key: string, ran: seq<Run>, root: Id) {
    exists i :: 0 <= i < |ran| && CallKey(root, ran[i].thread, ran[i].callId) == key
  }

  ghost predicate NoRepeats(ran: seq<Run>) {
    forall i, j :: 0 <= i < j < |ran| ==> ran[i].thread != ran[j].thread || ran[i].callId != ran[j].callId
  }

  /** A run for the root was of a tool the catalog offers and no family has; a run for a child was of a
      tool that this child had been granted. */
  ghost predicate RunAllowed(x: Run, root: Id, toolNames: set<string>, granted: set<Granting>) {
    if x.thread == root then x.tool in toolNames && FamilyOfTool(x.tool) == None
    else exists g :: g in granted && g.child == x.thread && x.tool in g.allowed
  }

  ghost predicate RunsAllowed(ran: seq<Run>, root: Id, toolNames: set<string>, granted: set<Granting>) {
    forall i :: 0 <= i < |ran| ==> RunAllowed(ran[i], root, toolNames, granted)
  }

  lemma AllowedLater(ran: seq<Run>, root: Id, toolNames: set<string>, granted: set<Granting>, granted': set<Granting>)
    requires RunsAllowed(ran, root, toolNames, granted) && granted <= granted'
    ensures RunsAllowed(ran, root, toolNames, granted')
  {
    forall i | 0 <= i < |ran| ensures RunAllowed(ran[i], root, toolNames, granted') {
      assert RunAllowed(ran[i], root, toolNames, granted);
    }
  }

  /** One more run under a new key. */
  lemma RunsPush(ran: seq<Run>, calls: map<string, Cached>, root: Id, x: Run, c: Cached)
    requires RunsCached(ran, calls, root) && NoRepeats(ran) && CallKey(root, x.thread, x.callId) !in calls
    requires c.fingerprint.thread == x.thread && c.fingerprint.tool == x.tool && c.fingerprint.content == x.content
    ensures RunsCached(ran + [x], calls[CallKey(root, x.thread, x.callId) := c], root) && NoRepeats(ran + [x])
  {
    var ran', calls' := ran + [x], calls[CallKey(root, x.thread, x.callId) := c];
    forall i | 0 <= i < |ran'| ensures RunCached(ran'[i], calls', root) {
      if i < |ran| {
        assert RunCached(ran[i], calls, root);
      }
    }
    forall key | key in calls' ensures CallRan(key, ran', root) {
      if key in calls {
        var i :| 0 <= i < |ran| && CallKey(root, ran[i].thread, ran[i].callId) == key;
        assert ran'[i] == ran[i];
      } else {
        assert ran'[|ran|] == x;
      }
    }
    forall i | 0 <= i < |ran| ensures ran[i].thread != x.thread || ran[i].callId != x.callId {
      assert RunCached(ran[i], calls, root);
    }
  }

  /** A cached call with this fingerprint was a run of exactly this call. */
  lemma CachedRan(ran: seq<Run>, calls: map<string, Cached>, root: Id, call: ToolCall)
    requires RunsCached(ran, calls, root)
    requires CallKey(root, call.thread, call.callId) in calls
    requires var f := calls[CallKey(root, call.thread, call.callId)].fingerprint;
      f.thread == call.thread && f.tool == call.tool && f.content == call.content
    ensures Run(call.thread, call.callId, call.tool, call.content) in ran
  {
    var key := CallKey(root, call.thread, call.callId);
    assert CallRan(key, ran, root);
    var i :| 0 <= i < |ran| && CallKey(root, ran[i].thread, ran[i].callId) == key;
    assert RunCached(ran[i], calls, root);
    SameCallId(root, call.thread, call.callId, ran[i].callId);
  }

  lemma SameCallId(root: Id, thread: Id, a: string, b: string)
    requires CallKey(root, thread, a) == CallKey(root, thread, b)
    ensures a == b
  {
    var front := root + "\0" + thread + "\0";
    assert CallKey(root, thread, a)[|front|..] == a && CallKey(root, thread, b)[|front|..] == b;
  }

  ghost predicate NoGrants(d: Descendants) {
    forall id :: id in d ==> d[id].grant == None
  }

  ghost predicate SerialsBelow(d: Descendants, serial: nat) {
    forall id :: id in d && d[id].grant.Some? ==> d[id].grant.value.serial < serial
  }

  ghost predicate GrantedRecorded(granted: set<Granting>, d: Descendants) {
    && (forall g :: g in granted ==> g.child in d && d[g.child].family == Some(g.family))
    && (forall id :: id in d ==> GrantRecorded(granted, id, d[id]))
  }

  /** A grant that stands was installed. */
  ghost predicate GrantRecorded(granted: set<Granting>, id: Id, x: Descendant) {
    x.grant.Some? ==> Granting(id, x.grant.value.family, x.grant.value.allowed) in granted
  }

  ghost predicate OneFamilyEach(granted: set<Granting>) {
    forall g, h :: g in granted && h in granted && g.child == h.child ==> g.family == h.family
  }

  lemma GrantedKept(granted: set<Granting>, d: Descendants, d': Descendants)
    requires GrantedRecorded(granted, d) && Lasting(d, d')
    requires forall id :: id in d' ==> d'[id].grant == None || (id in d && d'[id].grant == d[id].grant)
    ensures GrantedRecorded(granted, d')
  {
    forall g | g in granted ensures g.child in d' && d'[g.child].family == Some(g.family) {
      assert Same(d[g.child], d'[g.child]);
    }
    forall id | id in d' ensures GrantRecorded(granted, id, d'[id]) {
      if id in d {
        assert GrantRecorded(granted, id, d[id]);
      }
    }
  }

  /** A grant is recorded as it is installed. */
  lemma GrantedPush(granted: set<Granting>, d: Descendants, child: Id, x: Descendant)
    requires GrantedRecorded(granted, d) && child in d && Same(d[child], x)
    requires x.grant.Some? && x.family == Some(x.grant.value.family)
    ensures GrantedRecorded(granted + {Granting(child, x.grant.value.family, x.grant.value.allowed)}, d[child := x])
  {
    forall id | id in d && id != child
      ensures GrantRecorded(granted + {Granting(child, x.grant.value.family, x.grant.value.allowed)}, id, d[id])
    {
      assert GrantRecorded(granted, id, d[id]);
    }
  }

  lemma SelectionFits(root: Id, x: Descendant, g: Grant, tools: seq<string>)
    requires x.parent == root && x.depth == 1 && Live(x.status) && x.role == Some(Some(RoleOf(g.family)))
    requires tools != [] && SelectsFrom(tools, g.family) && g.allowed == (set t | t in tools)
    ensures GrantFits(root, x.(grant := Some(g), family := Some(g.family)))
  {
    assert tools[0] in g.allowed;
  }

  /** Installing a first grant keeps the registry, the serials and the record of grants. */
  lemma InstallKeeps(root: Id, d: Descendants, child: Id, g: Grant, serial: nat, granted: set<Granting>)
    requires Sound(root, d) && SerialsBelow(d, serial) && GrantedRecorded(granted, d) && child in d
    requires var x := d[child].(grant := Some(g), family := Some(g.family)); GrantFits(root, x) && Same(d[child], x)
    requires g.serial == serial
    ensures var d' := d[child := d[child].(grant := Some(g), family := Some(g.family))];
      && Sound(root, d') && Lasting(d, d') && SerialsBelow(d', serial + 1)
      && GrantedRecorded(granted + {Granting(child, g.family, g.allowed)}, d')
  {
    var x := d[child].(grant := Some(g), family := Some(g.family));
    UpdateKeeps(root, d, child, x);
    GrantedPush(granted, d, child, x);
  }

  class GoalRuntime {
    const root: Id
    const toolNames: set<string>
    var activeTurn: Option<string>
    var accepting: bool
    var stopping: bool
    var descendants: Descendants
    var calls: map<string, Cached>
    var serial: nat
    /** Every run of the tool handler. */
    ghost var ran: seq<Run>
    /** Every grant a child was ever given. */
    ghost var granted: set<Granting>

    ghost predicate Valid()
      reads this
    {
      && Sound(root, descendants)
      && (stopping ==> !accepting && NoGrants(descendants))
      && SerialsBelow(descendants, serial) && GrantedRecorded(granted, descendants)
      && RunsCached(ran, calls, root) && NoRepeats(ran) && RunsAllowed(ran, root, toolNames, granted)
    }

    /** What no operation undoes. */
    twostate predicate Lasts()
      reads this
    {
      && Lasting(old(descendants), descendants) && (old(stopping) ==> stopping)
      && old(ran) <= ran && old(granted) <= granted && old(serial) <= serial
    }

    constructor (root: Id, toolNames: set<string>)
      ensures Valid() && descendants == map[] && !stopping && !accepting && ran == [] && this.root == root
    {
      this.root, this.toolNames := root, toolNames;
      activeTurn, accepting, stopping := None, false, false;
      descendants, calls, serial, ran, granted := map[], map[], 0, [], {};
    }

    // ---- Registration and lookup

    method RegisterDescendant(thread: Id, parent: Id) returns (r: Outcome)
      requires Valid()
      modifies `descendants
      ensures Valid() && Lasts()
      ensures r == Done ==> thread in descendants && descendants[thread].parent == parent
      ensures r == Done && thread !in old(descendants) ==>
                && Bound(root, old(descendants), parent) && thread != root
                && descendants == old(descendants)[thread :=
                     Descendant(parent, DepthOf(root, old(descendants), parent) + 1, None, None, Pending, None, None, None)]
      ensures thread in old(descendants) || r != Done ==> descendants == old(descendants)
      ensures thread in old(descendants) && thread != parent && thread != "" ==>
                r == if old(descendants)[thread].parent == parent then Done else Raised(ParentChanged)
      ensures thread == "" || thread == parent ==> r == Ignored
      ensures thread == root && thread != "" && thread != parent ==> r == Raised(ParentChanged)
      ensures thread !in old(descendants) && thread != "" && thread != parent && thread != root ==>
                (r == Done <==> Bound(root, old(descendants), parent) && DepthOf(root, old(descendants), parent) < GOAL_DELEGATION_MAX_DEPTH)
                && (r == Ignored <==> !Bound(root, old(descendants), parent))
    {
      if thread == "" || thread == parent {
        return Ignored;
      }
      if thread == root {
        return Raised(ParentChanged);
      }
      if thread in descendants {
        return if descendants[thread].parent == parent then Done else Raised(ParentChanged);
      }
      if !Bound(root, descendants, parent) {
        return Ignored;
      }
      var depth := DepthOf(root, descendants, parent) + 1;
      if depth > GOAL_DELEGATION_MAX_DEPTH {
        return Raised(TooDeep);
      }
      RegisterKeeps(root, descendants, thread, parent);
      var before := descendants;
      descendants := descendants[thread := Descendant(parent, depth, None, None, Pending, None, None, None)];
      GrantedKept(granted, before, descendants);
      return Done;
    }

    /** The descendant with a path, found by looking through all of them. */
    method DescendantByAgentPath(path: string) returns (found: Option<Id>)
      requires Valid()
      ensures found.Some? ==> found.value in descendants && descendants[found.value].path == Some(path)
      ensures found.None? ==> forall id :: id in descendants ==> descendants[id].path != Some(path)
    {
      var left := descendants.Keys;
      while left != {}
        invariant left <= descendants.Keys
        invariant forall id :: id in descendants && id !in left ==> descendants[id].path != Some(path)
        decreases |left|
      {
        var id :| id in left;
        if descendants[id].path == Some(path) {
          return Some(id);
        }
        left := left - {id};
      }
      return None;
    }

    /** Path lookup inverts path assignment. */
    method ThreadIdForAgentPath(path: string) returns (found: Option<Id>)
      requires Valid()
      ensures forall id :: Bound(root, descendants, id) ==>
                (found == Some(id) <==> PathOf(root, descendants, id) == Some(path))
    {
      if path == ROOT_PATH {
        found := Some(root);
      } else {
        found := DescendantByAgentPath(path);
      }
      forall id | Bound(root, descendants, id)
        ensures found == Some(id) <==> PathOf(root, descendants, id) == Some(path)
      {
        if found.Some? && PathOf(root, descendants, id) == Some(path) {
          RootNotRegistered();
          PathsInjective(root, descendants, found.value, id);
        }
        if found == Some(id) {
          RootNotRegistered();
        }
      }
    }

    lemma RootNotRegistered()
      requires Valid()
      ensures root !in descendants
    {
      forall id | id in descendants ensures id != root {
        assert InTree(root, descendants, id);
      }
    }

    // ---- Notifications

    /** Any change to one descendant that keeps its parent, depth and path. */
    method Change(id: Id, x: Descendant)
      requires Valid() && id in descendants && GrantFits(root, x) && Same(descendants[id], x)
      requires x.path == descendants[id].path
      requires x.grant == None || x.grant == descendants[id].grant
      modifies `descendants
      ensures Valid() && Lasts() && descendants == old(descendants)[id := x]
    {
      UpdateKeeps(root, descendants, id, x);
      var before := descendants;
      descendants := descendants[id := x];
      GrantedKept(granted, before, descendants);
    }

    /** Ends a descendant's turn with this status and withdraws its grant. */
    method Settle(id: Id, status: Status)
      requires Valid() && id in descendants
      modifies `descendants
      ensures Valid() && Lasts()
      ensures descendants == old(descendants)[id :=
                old(descendants)[id].(status := status, activeTurn := None, grant := None)]
    {
      Change(id, descendants[id].(status := status, activeTurn := None, grant := None));
    }

    /** `thread/started`: a child of a known parent, and its native role, which cannot change. */
    method ThreadStarted(thread: Id, parent: Id, sourceParent: Option<Id>, role: Role) returns (r: Outcome)
      requires Valid()
      modifies `descendants
      ensures Valid() && Lasts()
      ensures r == Done ==> thread in descendants && descendants[thread].parent == parent
      ensures r == Done && sourceParent.Some? ==> sourceParent == Some(parent) && descendants[thread].role == Some(role.source)
      ensures r == Done && thread in old(descendants) ==>
                descendants == if sourceParent.None? then old(descendants)
                else old(descendants)[thread := old(descendants)[thread].(role := Some(role.source))]
      ensures r != Done && thread in old(descendants) ==> descendants == old(descendants)
      ensures thread in old(descendants) && thread != "" && thread != parent && parent == old(descendants)[thread].parent ==>
                (r == Done <==>
                  || sourceParent == None
                  || (sourceParent == Some(parent) && Announced(role)
                      && (old(descendants)[thread].role.None? || old(descendants)[thread].role == Some(role.source))))
      ensures forall id :: id in descendants && id != thread ==> id in old(descendants) && descendants[id] == old(descendants)[id]
    {
      if sourceParent.Some? && sourceParent.value != parent {
        return if Bound(root, descendants, thread) || Bound(root, descendants, parent)
                  || Bound(root, descendants, sourceParent.value)
               then Raised(SourceDisagrees) else Ignored;
      }
      r := RegisterDescendant(thread, parent);
      if r != Done || sourceParent.None? {
        return;
      }
      ghost var registered := descendants;
      if !Announced(role) {
        return Raised(SourceDisagrees);
      }
      if descendants[thread].role.Some? && descendants[thread].role.value != role.source {
        return Raised(RoleChanged);
      }
      assert GrantFits(root, descendants[thread]);
      Change(thread, descendants[thread].(role := Some(role.source)));
      LastingChain(old(descendants), registered, descendants);
    }

    /** `turn/started`: tools open for the root unless it is stopping. */
    method TurnStarted(thread: Id, turn: string)
      requires Valid()
      modifies `descendants, `activeTurn, `accepting
      ensures Valid() && Lasts()
      ensures thread in old(descendants) && turn != "" ==>
                descendants == old(descendants)[thread := old(descendants)[thread].(activeTurn := Some(turn), status := Active)]
      ensures thread !in old(descendants) || turn == "" ==> descendants == old(descendants)
      ensures thread == root && turn != "" ==> activeTurn == Some(turn) && (accepting <==> old(accepting) || !stopping)
      ensures thread != root || turn == "" ==> activeTurn == old(activeTurn) && accepting == old(accepting)
    {
      if turn == "" {
        return;
      }
      if thread in descendants {
        assert GrantFits(root, descendants[thread]);
        RootNotRegistered();
        Change(thread, descendants[thread].(activeTurn := Some(turn), status := Active));
      } else if thread == root {
        activeTurn := Some(turn);
        if !stopping {
          accepting := true;
        }
      }
    }

    /** `turn/completed`: a child settles and loses its grant; the root stops taking tool calls. */
    method TurnEnded(thread: Id, status: TurnStatus)
      requires Valid()
      modifies `descendants, `activeTurn, `accepting
      ensures Valid() && Lasts()
      ensures thread in old(descendants) ==>
                descendants == old(descendants)[thread := old(descendants)[thread].(
                  status := (match status
                             case TurnFailed => Failed
                             case TurnInterrupted => Interrupted
                             case TurnCompleted => Complete),
                  activeTurn := None, grant := None)]
      ensures thread == root ==> activeTurn == None && !accepting
      ensures thread !in old(descendants) ==> descendants == old(descendants)
      ensures thread != root ==> activeTurn == old(activeTurn) && accepting == old(accepting)
    {
      if thread in descendants {
        RootNotRegistered();
        Settle(thread, SettledAs(status));
      } else if thread == root {
        activeTurn, accepting := None, false;
      }
    }

    /** `thread/goal/updated` under the unchanged objective. */
    method GoalUpdated(status: GoalStatus)
      requires Valid()
      modifies `accepting
      ensures Valid() && Lasts()
      ensures accepting <==> !stopping && activeTurn.Some? && status != OtherGoalStatus
    {
      accepting := !stopping && activeTurn.Some? && status != OtherGoalStatus;
    }

    /** `thread/status/changed` and `thread/archived`. */
    method StatusChanged(thread: Id, status: ThreadStatus)
      requires Valid()
      modifies `descendants
      ensures Valid() && Lasts()
      ensures thread in old(descendants) && status == ThreadArchived ==>
                descendants == old(descendants)[thread :=
                  old(descendants)[thread].(status := Archived, activeTurn := None, grant := None)]
      ensures thread in old(descendants) && status == ThreadFailed ==>
                descendants == old(descendants)[thread :=
                  old(descendants)[thread].(status := Failed, activeTurn := None, grant := None)]
      ensures thread in old(descendants) && status == ThreadInterrupted ==>
                descendants == old(descendants)[thread :=
                  old(descendants)[thread].(status := Interrupted, activeTurn := None, grant := None)]
      ensures thread in old(descendants) && status == ThreadActive ==>
                descendants == old(descendants)[thread := old(descendants)[thread].(status := Active)]
      ensures thread !in old(descendants) || status == OtherStatus ==> descendants == old(descendants)
    {
      if thread !in descendants {
        return;
      }
      match status
      case ThreadActive =>
        assert GrantFits(root, descendants[thread]);
        Change(thread, descendants[thread].(status := Active));
      case ThreadArchived => Settle(thread, Archived);
      case ThreadFailed => Settle(thread, Failed);
      case ThreadInterrupted => Settle(thread, Interrupted);
      case OtherStatus =>
    }

    /** A sub-agent activity item: registration, and a path that must extend its parent's. */
    method SubAgentActivity(thread: Id, kind: ActivityKind, child: Id, path: string) returns (r: Outcome)
      requires Valid()
      modifies `descendants
      ensures Valid() && Lasts()
      ensures r == Done ==> path != "" && child in descendants && descendants[child].path == Some(path)
      ensures kind == Started && (child == "" || child == thread) ==> r == Ignored
      ensures child in old(descendants)
                && (kind == Started ==> child != "" && child != thread && old(descendants)[child].parent == thread) ==>
                r == if path != "" && MayPlace(root, old(descendants), child, path) then Done else Ignored
      ensures child in old(descendants) ==>
                descendants == if r == Done
                then old(descendants)[child := Placed(old(descendants)[child], kind, path)] else old(descendants)
      ensures r == Done && kind == Started ==> descendants[child].parent == thread
      ensures r == Done && child !in old(descendants) ==> kind == Started
    {
      if path == "" {
        return Ignored;
      }
      if kind == Started {
        r := RegisterDescendant(child, thread);
        if r != Done {
          return;
        }
      }
      assert child in old(descendants) ==> descendants == old(descendants);
      r := PlaceActivity(old(descendants), kind, child, path);
    }

    /** The path of a registered child, and the end of its turn when it was interrupted. */
    method PlaceActivity(ghost before: Descendants, kind: ActivityKind, child: Id, path: string) returns (r: Outcome)
      requires Valid() && Lasting(before, descendants)
      modifies `descendants
      ensures Valid() && Lasts() && Lasting(before, descendants)
      ensures r == if MayPlace(root, old(descendants), child, path) then Done else Ignored
      ensures r == Done ==> child in descendants && descendants[child].path == Some(path)
      ensures descendants == if r == Done
                then old(descendants)[child := Placed(old(descendants)[child], kind, path)] else old(descendants)
    {
      if child !in descendants {
        return Ignored;
      }
      var free := PathFree(child, path);
      if !free {
        return Ignored;
      }
      PlaceFreed(kind, child, path);
      LastingChain(before, old(descendants), descendants);
      return Done;
    }

    method PlaceFreed(kind: ActivityKind, child: Id, path: string)
      requires Valid() && MayPlace(root, descendants, child, path)
      modifies `descendants
      ensures Valid() && Lasts()
      ensures descendants == old(descendants)[child := Placed(old(descendants)[child], kind, path)]
    {
      AssignPath(child, path);
      if kind == InterruptedKind {
        SettleChanged(old(descendants), child, Interrupted);
      }
    }

    /** Settles a descendant that alone has changed since `before`. */
    method SettleChanged(ghost before: Descendants, id: Id, status: Status)
      requires Valid() && Lasting(before, descendants) && id in before
      requires descendants == before[id := descendants[id]]
      modifies `descendants
      ensures Valid() && Lasts() && Lasting(before, descendants)
      ensures descendants == before[id :=
                old(descendants)[id].(status := status, activeTurn := None, grant := None)]
    {
      ChangedTwice(before, descendants, id,
                   descendants[id].(status := status, activeTurn := None, grant := None));
      Settle(id, status);
    }

    /** The parent's path is the path without its last name, and neither end of the pair is taken. */
    method PathFree(child: Id, path: string) returns (free: bool)
      requires Valid() && child in descendants
      ensures free <==> MayPlace(root, descendants, child, path)
    {
      var parentPath := PathOf(root, descendants, descendants[child].parent);
      var owner := DescendantByAgentPath(path);
      if parentPath == None || DirectParentPath(path) != parentPath {
        return false;
      }
      if owner.Some? {
        assert PathFits(root, descendants, owner.value);
      }
      return (owner.Some? ==> owner.value == child)
             && (descendants[child].path.Some? ==> descendants[child].path.value == path);
    }

    method AssignPath(id: Id, path: string)
      requires Valid() && MayPlace(root, descendants, id, path)
      modifies `descendants
      ensures Valid() && Lasts() && descendants == old(descendants)[id := old(descendants)[id].(path := Some(path))]
    {
      PathKeeps(root, descendants, id, path);
      var before := descendants;
      descendants := descendants[id := descendants[id].(path := Some(path))];
      GrantedKept(granted, before, descendants);
    }

    // ---- Grants and stops, which may come from outside the queue

    predicate Exact(s: string) { s != "" && Trim(s) == s }

    /** One exact live direct child of a root that is not stopping. */
    predicate LiveDirectChild(child: Id)
      reads this
    {
      && child in descendants && !stopping
      && descendants[child].parent == root && descendants[child].depth == 1 && Live(descendants[child].status)
    }

    /** The tools select exactly one family, offered by the catalog, that the child's role names, its past
        grants do not contradict, and a grant still standing already has. */
    ghost predicate MayGrant(rootThread: Id, child: Id, grantId: string, assignment: string, tools: seq<string>)
      reads this
    {
      && rootThread == root && Exact(rootThread) && Exact(child) && LiveDirectChild(child)
      && Exact(grantId) && Exact(assignment)
      && NormalizeSelection(tools).Some? && (forall t :: t in tools ==> t in toolNames)
      && var family := NormalizeSelection(tools).value;
      && var x := descendants[child];
      && (x.grant.Some? ==>
            && x.grant.value.id == grantId && x.grant.value.assignment == assignment
            && x.grant.value.family == family && x.grant.value.allowed == (set t | t in tools))
      && (x.family.None? || x.family == Some(family))
      && x.role == Some(Some(RoleOf(family)))
    }

    /** Grants a live direct child tools of the one family its role and its past allow. */
    method InstallDescendantToolGrant(
      rootThread: Id, child: Id, grantId: string, assignment: string, tools: seq<string>)
      returns (r: Outcome)
      requires Valid()
      modifies `descendants, `serial, `granted
      ensures Valid() && Lasts()
      ensures r == Done ==> LiveDirectChild(child) && descendants[child].grant.Some?
      ensures r == Done ==> var g := descendants[child].grant.value;
                g.id == grantId && g.assignment == assignment && g.allowed == (set t | t in tools)
                && SelectsFrom(tools, g.family) && g.allowed <= toolNames
      ensures r == Done && child in old(descendants) && old(descendants)[child].grant.Some? ==>
                descendants == old(descendants)
      ensures r != Done ==> descendants == old(descendants)
      ensures r == Done <==> old(MayGrant(rootThread, child, grantId, assignment, tools))
      ensures r == Done && old(descendants[child].grant).None? ==>
                descendants == old(descendants)[child := old(descendants)[child].(
                  grant := descendants[child].grant, family := Some(descendants[child].grant.value.family))]
    {
      if !Exact(rootThread) || !Exact(child) || rootThread != root || !LiveDirectChild(child) {
        return Raised(NotLiveDirectChild);
      }
      if !Exact(grantId) || !Exact(assignment) {
        return Raised(BadIdentity);
      }
      var family := NormalizeSelection(tools);
      if family.None? {
        return Raised(BadSelection);
      }
      SelectionExact(tools, family.value);
      var allowed := set t | t in tools;
      if !(allowed <= toolNames) {
        return Raised(OutsideCatalog);
      }
      var x := descendants[child];
      if x.grant.Some? {
        var g := x.grant.value;
        if g.id != grantId || g.assignment != assignment || g.family != family.value || g.allowed != allowed {
          return Raised(DifferentGrant);
        }
      }
      if x.family.Some? && x.family != family {
        return Raised(OtherFamily);
      }
      if x.role != Some(Some(RoleOf(family.value))) {
        return Raised(WrongRole);
      }
      if x.grant.None? {
        var g := Grant(grantId, assignment, family.value, allowed, serial);
        SelectionFits(root, x, g, tools);
        PlaceGrant(child, g);
      }
      return Done;
    }

    method PlaceGrant(child: Id, g: Grant)
      requires Valid() && !stopping && child in descendants && g.serial == serial
      requires descendants[child].family.None? || descendants[child].family == Some(g.family)
      requires GrantFits(root, descendants[child].(grant := Some(g), family := Some(g.family)))
      modifies `descendants, `serial, `granted
      ensures Valid() && Lasts()
      ensures descendants == old(descendants)[child :=
                old(descendants)[child].(grant := Some(g), family := Some(g.family))]
    {
      InstallKeeps(root, descendants, child, g, serial, granted);
      AllowedLater(ran, root, toolNames, granted, granted + {Granting(child, g.family, g.allowed)});
      serial := serial + 1;
      descendants := descendants[child := descendants[child].(grant := Some(g), family := Some(g.family))];
      granted := granted + {Granting(child, g.family, g.allowed)};
    }

    /** The first part of every stop: tools and material are refused from here on. */
    method CloseAdmission()
      requires Valid()
      modifies `accepting, `stopping, `descendants
      ensures Valid() && Lasts() && stopping && !accepting
      ensures descendants == Ungranted(old(descendants))
    {
      UngrantedKeeps(root, descendants);
      var before := descendants;
      accepting, stopping := false, true;
      descendants := Ungranted(descendants);
      GrantedKept(granted, before, descendants);
    }

    /** Any grants installed and any stop requested from outside while the queue waits. */
    method Outside()
      requires Valid()
      modifies `descendants, `serial, `granted, `accepting, `stopping
      ensures Valid() && Lasts()
    {
      var n: nat :| true;
      for i := 0 to n
        invariant Valid() && Lasts()
      {
        OutsideStep(descendants);
      }
    }

    method OutsideStep(ghost before: Descendants)
      requires Valid() && Lasting(before, descendants)
      modifies `descendants, `serial, `granted, `accepting, `stopping
      ensures Valid() && Lasts()
    {
      var stop := Chance();
      if stop {
        CloseAdmission();
      } else {
        var rootThread: Id, child: Id, grantId: string, assignment: string, tools: seq<string> :| true;
        var _ := InstallDescendantToolGrant(rootThread, child, grantId, assignment, tools);
      }
    }

    // ---- Tool calls

    predicate RootAuthorized(call: ToolCall)
      reads this
    {
      && call.thread == root && accepting && activeTurn == Some(call.turn)
      && !DescendantTool(call.tool) && call.tool in toolNames
    }

    predicate DescendantAuthorized(call: ToolCall)
      reads this
    {
      && call.thread != root && call.thread in descendants && !stopping
      && var x := descendants[call.thread];
         && x.grant.Some? && x.depth == 1 && x.parent == root
         && x.status == Active && x.activeTurn == Some(call.turn)
         && DescendantTool(call.tool) && call.tool in x.grant.value.allowed && call.tool in toolNames
    }

    function GrantOf(thread: Id): Option<Grant>
      reads this
    {
      if thread != root && thread in descendants then descendants[thread].grant else None
    }

    function FingerprintOf(call: ToolCall): Fingerprint
      reads this
    {
      var g := GrantOf(call.thread);
      Fingerprint(call.thread, call.tool, call.content,
                  if g.Some? then Some(g.value.id) else None, if g.Some? then Some(g.value.assignment) else None)
    }

    /** The handler runs, once for each thread and call id, and only while the runtime is not stopping. */
    method RunHandler(call: ToolCall) returns (result: ToolResult)
      requires Valid() && !stopping && CallKey(root, call.thread, call.callId) !in calls
      requires RootAuthorized(call) || DescendantAuthorized(call)
      modifies `calls, `ran
      ensures Valid() && ran == old(ran) + [Run(call.thread, call.callId, call.tool, call.content)]
      ensures calls == old(calls)[CallKey(root, call.thread, call.callId) := Cached(FingerprintOf(call), result)]
    {
      result :| true;
      RunsPush(ran, calls, root, Run(call.thread, call.callId, call.tool, call.content),
               Cached(FingerprintOf(call), result));
      if call.thread != root {
        assert GrantRecorded(granted, call.thread, descendants[call.thread]);
      }
      assert RunAllowed(Run(call.thread, call.callId, call.tool, call.content), root, toolNames, granted);
      calls := calls[CallKey(root, call.thread, call.callId) := Cached(FingerprintOf(call), result)];
      ran := ran + [Run(call.thread, call.callId, call.tool, call.content)];
    }

    /** A server request: authority, replay check, at most one run, and the reply as things stand after
        the wait. A checkpoint result of the root closes admission before the reply. */
    method HandleToolCall(call: ToolCall) returns (reply: Reply)
      requires Valid()
      modifies this
      ensures Valid() && Lasts()
      ensures call.thread == root ==>
                (reply != Unauthorized <==>
                  && old(accepting) && old(activeTurn) == Some(call.turn)
                  && call.tool in toolNames && FamilyOfTool(call.tool) == None)
      ensures call.thread != root ==>
                (reply != Unauthorized <==>
                  && !old(stopping) && call.thread in old(descendants)
                  && old(descendants)[call.thread].parent == root && old(descendants)[call.thread].depth == 1
                  && old(descendants)[call.thread].status == Active
                  && old(descendants)[call.thread].activeTurn == Some(call.turn)
                  && old(descendants)[call.thread].grant.Some?
                  && call.tool in old(descendants)[call.thread].grant.value.allowed
                  && call.tool in toolNames && FamilyOfTool(call.tool) != None)
      ensures ran == if reply != Unauthorized && CallKey(root, call.thread, call.callId) !in old(calls)
                then old(ran) + [Run(call.thread, call.callId, call.tool, call.content)] else old(ran)
      ensures ran == old(ran) ==> calls == old(calls)
      ensures ran != old(ran) ==> !old(stopping)
      ensures reply == ReplayChanged <==>
                && reply != Unauthorized && CallKey(root, call.thread, call.callId) in old(calls)
                && old(calls)[CallKey(root, call.thread, call.callId)].fingerprint !=
                   if call.thread == root then Fingerprint(call.thread, call.tool, call.content, None, None)
                   else Fingerprint(call.thread, call.tool, call.content,
                                    Some(old(descendants)[call.thread].grant.value.id),
                                    Some(old(descendants)[call.thread].grant.value.assignment))
      ensures reply == GrantGone ==> call.thread != root
      ensures reply.Result? && call.thread == root && reply.result.checkpoint ==> stopping
      ensures reply.Result? && call.thread != root ==>
                && !stopping && call.thread in descendants
                && descendants[call.thread].grant == old(descendants)[call.thread].grant
                && descendants[call.thread].status == Active && descendants[call.thread].activeTurn == Some(call.turn)
      ensures reply.Result? ==>
                && Run(call.thread, call.callId, call.tool, call.content) in ran
                && CallKey(root, call.thread, call.callId) in calls
                && calls[CallKey(root, call.thread, call.callId)].result == reply.result
    {
      if call.thread == root {
        RootNotRegistered();
      }
      if !RootAuthorized(call) && !DescendantAuthorized(call) {
        return Unauthorized;
      }
      reply := AnswerAuthorized(call);
    }

    /** A call within authority: the replay check, at most one run, and the reply. */
    method AnswerAuthorized(call: ToolCall) returns (reply: Reply)
      requires Valid() && (RootAuthorized(call) || DescendantAuthorized(call))
      modifies this
      ensures Valid() && Lasts() && reply != Unauthorized
      ensures ran == if CallKey(root, call.thread, call.callId) !in old(calls)
                then old(ran) + [Run(call.thread, call.callId, call.tool, call.content)] else old(ran)
      ensures ran == old(ran) ==> calls == old(calls)
      ensures ran != old(ran) ==> !old(stopping)
      ensures reply == ReplayChanged <==>
                && CallKey(root, call.thread, call.callId) in old(calls)
                && old(calls)[CallKey(root, call.thread, call.callId)].fingerprint != old(FingerprintOf(call))
      ensures reply == GrantGone ==> call.thread != root
      ensures reply.Result? && call.thread == root && reply.result.checkpoint ==> stopping
      ensures reply.Result? && call.thread != root ==>
                !stopping && GrantOf(call.thread) == old(GrantOf(call.thread)) && DescendantAuthorized(call)
      ensures reply.Result? ==>
                && Run(call.thread, call.callId, call.tool, call.content) in ran
                && CallKey(root, call.thread, call.callId) in calls
                && calls[CallKey(root, call.thread, call.callId)].result == reply.result
    {
      var grant := GrantOf(call.thread);
      var result := Obtain(call);
      if result.None? {
        return ReplayChanged;
      }
      CachedRan(ran, calls, root, call);
      reply := Conclude(call, grant, result.value);
    }

    /** The result of the one run of a call, unless its identity was used for another call. */
    method Obtain(call: ToolCall) returns (result: Option<ToolResult>)
      requires Valid() && (RootAuthorized(call) || DescendantAuthorized(call))
      modifies `calls, `ran
      ensures Valid()
      ensures ran == if CallKey(root, call.thread, call.callId) !in old(calls)
                then old(ran) + [Run(call.thread, call.callId, call.tool, call.content)] else old(ran)
      ensures ran == old(ran) ==> calls == old(calls)
      ensures result == None <==>
                && CallKey(root, call.thread, call.callId) in old(calls)
                && old(calls)[CallKey(root, call.thread, call.callId)].fingerprint != FingerprintOf(call)
      ensures result.Some? ==>
                && CallKey(root, call.thread, call.callId) in calls
                && calls[CallKey(root, call.thread, call.callId)] == Cached(FingerprintOf(call), result.value)
    {
      var key, fingerprint := CallKey(root, call.thread, call.callId), FingerprintOf(call);
      if key in calls {
        return if calls[key].fingerprint == fingerprint then Some(calls[key].result) else None;
      }
      var obtained := RunHandler(call);
      result := Some(obtained);
    }

    /** After the wait: a descendant needs the very grant it called with, still active. */
    method Conclude(call: ToolCall, grant: Option<Grant>, result: ToolResult) returns (reply: Reply)
      requires Valid() && (RootAuthorized(call) || DescendantAuthorized(call)) && grant == GrantOf(call.thread)
      modifies `descendants, `serial, `granted, `accepting, `stopping
      ensures Valid() && Lasts()
      ensures reply == GrantGone || reply == Result(result)
      ensures reply == GrantGone ==> call.thread != root
      ensures reply.Result? && call.thread == root && result.checkpoint ==> stopping
      ensures reply.Result? && call.thread != root ==>
                !stopping && GrantOf(call.thread) == grant && DescendantAuthorized(call)
    {
      Outside();
      if call.thread != root {
        var x := descendants[call.thread];
        if x.grant != grant || x.status != Active || x.activeTurn != Some(call.turn) || stopping {
          return GrantGone;
        }
      } else if result.checkpoint {
        ghost var waited := descendants;
        CloseAdmission();
        LastingChain(old(descendants), waited, descendants);
      }
      return Result(result);
    }

    // ---- Whole runs

    method Handle(m: Message)
      requires Valid()
      modifies this
      ensures Valid() && Lasts()
      ensures old(stopping) ==> ran == old(ran)
    {
      match m
      case ThreadStart(thread, parent, sourceParent, role) =>
        var _ := ThreadStarted(thread, parent, sourceParent, role);
      case TurnStart(thread, turn) => TurnStarted(thread, turn);
      case TurnEnd(thread, status) => TurnEnded(thread, status);
      case GoalUpdate(status) => GoalUpdated(status);
      case StatusChange(thread, status) => StatusChanged(thread, status);
      case Activity(thread, kind, child, path) => var _ := SubAgentActivity(thread, kind, child, path);
      case Request(call) => var _ := HandleToolCall(call);
    }

    /** Any messages in any order, with anything arriving from outside in between. Once the runtime is
        stopping, the handler never runs again; it never runs twice for one thread and call id; it runs for
        a child only with a tool that child was granted; and no child is ever granted tools of two families. */
    method Process(messages: seq<Message>)
      requires Valid()
      modifies this
      ensures Valid() && Lasts() && NoRepeats(ran) && OneFamilyEach(granted)
      ensures RunsAllowed(ran, root, toolNames, granted)
      ensures old(stopping) ==> ran == old(ran)
    {
      for i := 0 to |messages|
        invariant Valid() && Lasts()
        invariant old(stopping) ==> ran == old(ran)
      {
        HandleAmongOutside(messages[i], descendants);
        LastingChain(old(descendants), descendants, descendants);
      }
    }

    method HandleAmongOutside(m: Message, ghost before: Descendants)
      requires Valid() && Lasting(before, descendants)
      modifies this
      ensures Valid() && Lasts() && Lasting(before, descendants)
      ensures old(stopping) ==> ran == old(ran)
    {
      Outside();
      ghost var outside := descendants;
      Handle(m);
      LastingChain(old(descendants), outside, descendants);
      LastingChain(before, old(descendants), descendants);
    }
  }
}
