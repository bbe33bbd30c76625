/** The descendants of one root Goal: their tree, their agent paths and their tool grants. */
module GoalRegistry {
  import opened Wrappers
  import opened Text

  type Id = string

  const GOAL_DELEGATION_MAX_DEPTH: nat := 2

  datatype Family = HistoricalRead | CandidateA1Review | ResearchRead | Admission

  function RoleOf(f: Family): string {
    match f
    case HistoricalRead => "rh_historical"
    case CandidateA1Review => "rh_restricted_review"
    case ResearchRead => "rh_researcher"
    case Admission => "rh_restricted_review"
  }

  function ToolsOf(f: Family): seq<string> {
    match f
    case HistoricalRead => ["rh_mission_history", "rh_mission_history_page"]
    case CandidateA1Review => ["rh_mission_a1_review", "rh_mission_a1_review_page"]
    case ResearchRead => ["rh_mission_research_read", "rh_mission_research_read_page"]
    case Admission => ["rh_mission_admission", "rh_mission_admission_page"]
  }

  function FamilyOfTool(tool: string): Option<Family> {
    if tool in ToolsOf(HistoricalRead) then Some(HistoricalRead)
    else if tool in ToolsOf(CandidateA1Review) then Some(CandidateA1Review)
    else if tool in ToolsOf(ResearchRead) then Some(ResearchRead)
    else if tool in ToolsOf(Admission) then Some(Admission)
    else None
  }

  predicate DescendantTool(tool: string) { FamilyOfTool(tool).Some? }

  predicate Duplicated(tools: seq<string>) {
    exists i, j :: 0 <= i < j < |tools| && tools[i] == tools[j]
  }

  predicate SelectsFrom(tools: seq<string>, f: Family) {
    forall i :: 0 <= i < |tools| ==> FamilyOfTool(tools[i]) == Some(f)
  }

  /** The one family of a nonempty, duplicate-free selection. */
  function NormalizeSelection(tools: seq<string>): Option<Family> {
    if tools == [] || Duplicated(tools) then None
    else if exists i :: 0 <= i < |tools| && FamilyOfTool(tools[i]) != FamilyOfTool(tools[0]) then None
    else FamilyOfTool(tools[0])
  }

  /** A selection is accepted exactly when it is nonempty, free of duplicates and from one family. */
  lemma SelectionExact(tools: seq<string>, f: Family)
    ensures NormalizeSelection(tools) == Some(f) <==> tools != [] && !Duplicated(tools) && SelectsFrom(tools, f)
  {
    if tools != [] && SelectsFrom(tools, f) {
      assert FamilyOfTool(tools[0]) == Some(f);
    }
    if NormalizeSelection(tools) == Some(f) {
      forall i | 0 <= i < |tools| ensures FamilyOfTool(tools[i]) == Some(f) {
      }
    }
  }

  datatype Status = Pending | Active | Complete | Failed | Interrupted | Archived

  predicate Live(s: Status) { s == Pending || s == Active }

  /** `serial` tells one installation from another with the same content. */
  datatype Grant = Grant(id: string, assignment: string, family: Family, allowed: set<string>, serial: nat)

  /** `role` is absent until observed, and then a role or none. */
  datatype Descendant = Descendant(
    parent: Id, depth: nat, path: Option<string>, activeTurn: Option<string>, status: Status,
    grant: Option<Grant>, family: Option<Family>, role: Option<Option<string>>)

  type Descendants = map<Id, Descendant>

  const ROOT_PATH := "/root"

  /** The path of the parent, from the last separator. */
  function DirectParentPath(path: string): Option<string> {
    var separator := LastIndexOf(path, '/');
    if separator > 0 then Some(path[..separator]) else None
  }

  function PathOf(root: Id, d: Descendants, id: Id): Option<string> {
    if id == root then Some(ROOT_PATH) else if id in d then d[id].path else None
  }

  function DepthOf(root: Id, d: Descendants, id: Id): nat {
    if id != root && id in d then d[id].depth else 0
  }

  predicate Bound(root: Id, d: Descendants, id: Id) { id == root || id in d }

  ghost predicate InTree(root: Id, d: Descendants, id: Id)
    requires id in d
  {
    && id != root && d[id].parent != id && Bound(root, d, d[id].parent)
    && d[id].depth == DepthOf(root, d, d[id].parent) + 1 && d[id].depth <= GOAL_DELEGATION_MAX_DEPTH
    && (DepthOf(root, d, d[id].parent) == 0 ==> d[id].parent == root)
  }

  /** A path extends the parent's path by one name, and no other descendant has it. */
  ghost predicate PathFits(root: Id, d: Descendants, id: Id)
    requires id in d
  {
    d[id].path.Some? ==>
      && PathOf(root, d, d[id].parent).Some?
      && DirectParentPath(d[id].path.value) == PathOf(root, d, d[id].parent)
      && forall other :: other in d && d[other].path == d[id].path ==> other == id
  }

  /** A live grant belongs to a live direct child with the family's exact role. */
  ghost predicate GrantFits(root: Id, x: Descendant) {
    x.grant.Some? ==>
      && x.parent == root && x.depth == 1 && Live(x.status)
      && x.family == Some(x.grant.value.family)
      && x.role == Some(Some(RoleOf(x.grant.value.family)))
      && x.grant.value.allowed != {}
      && forall t :: t in x.grant.value.allowed ==> FamilyOfTool(t) == x.family
  }

  ghost predicate Sound(root: Id, d: Descendants) {
    && (forall id :: id in d ==> InTree(root, d, id))
    && (forall id :: id in d ==> PathFits(root, d, id))
    && (forall id :: id in d ==> GrantFits(root, d[id]))
  }

  /** What never changes about a descendant. */
  predicate Same(x: Descendant, x': Descendant) {
    && x'.parent == x.parent && x'.depth == x.depth
    && (x.path.Some? ==> x'.path == x.path)
    && (x.family.Some? ==> x'.family == x.family)
    && (x.role.Some? ==> x'.role == x.role)
  }

  ghost predicate Lasting(d: Descendants, d': Descendants) {
    forall id :: id in d ==> id in d' && Same(d[id], d'[id])
  }

  lemma LastingChain(d: Descendants, d': Descendants, d'': Descendants)
    requires Lasting(d, d') && Lasting(d', d'')
    ensures Lasting(d, d'')
  {
    forall id | id in d ensures id in d'' && Same(d[id], d''[id]) {
      assert Same(d[id], d'[id]) && Same(d'[id], d''[id]);
    }
  }

  /** The second of two changes to one descendant is what remains, and neither is undone. */
  lemma ChangedTwice(before: Descendants, now: Descendants, id: Id, y: Descendant)
    requires id in before && id in now && now == before[id := now[id]] && Lasting(before, now) && Same(now[id], y)
    ensures now[id := y] == before[id := y] && Lasting(before, now[id := y])
  {
    forall k | k in before ensures Same(before[k], now[id := y][k]) {
      assert Same(before[k], now[k]);
    }
  }

  // ---- Consequences of soundness

  /** Distinct descendants have distinct paths, and none has the root's. */
  lemma PathsInjective(root: Id, d: Descendants, x: Id, y: Id)
    requires Sound(root, d) && Bound(root, d, x) && Bound(root, d, y)
    requires PathOf(root, d, x).Some? && PathOf(root, d, x) == PathOf(root, d, y)
    ensures x == y
  {
    if x != root {
      assert PathFits(root, d, x);
      RootPathHasNoParent();
    }
    if y != root {
      assert PathFits(root, d, y);
      RootPathHasNoParent();
    }
  }

  lemma RootPathHasNoParent()
    ensures DirectParentPath(ROOT_PATH) == None
  {
    assert ROOT_PATH[0] == '/';
    assert forall i :: 0 < i < |ROOT_PATH| ==> ROOT_PATH[i] != '/';
  }

  /** The direct parent's path is what a path has in front of its last separator, if anything. */
  lemma ParentPathExact(path: string, p: string)
    ensures DirectParentPath(path) == Some(p) <==> p != "" && exists name :: path == p + "/" + name && '/' !in name
  {
    var k := LastIndexOf(path, '/');
    if DirectParentPath(path) == Some(p) {
      var name := path[k + 1..];
      assert path == p + "/" + name && '/' !in name;
    }
    if p != "" && exists name :: path == p + "/" + name && '/' !in name {
      var name :| path == p + "/" + name && '/' !in name;
      assert path[|p|] == '/' && path[|p| + 1..] == name;
      forall i | |p| < i < |path| ensures path[i] != '/' {
        assert path[i] == name[i - |p| - 1];
      }
      assert k == |p| && path[..k] == p;
    }
  }

  /** The path of a descendant is its parent's path, a separator and one name. */
  lemma PathIsParentAndName(root: Id, d: Descendants, child: Id) returns (name: string)
    requires Sound(root, d) && child in d && d[child].path.Some?
    ensures '/' !in name && PathOf(root, d, d[child].parent).Some?
    ensures d[child].path.value == PathOf(root, d, d[child].parent).value + "/" + name
  {
    assert PathFits(root, d, child);
    var p := PathOf(root, d, d[child].parent).value;
    ParentPathExact(d[child].path.value, p);
    name :| d[child].path.value == p + "/" + name && '/' !in name;
  }

  /** Paths mirror the tree: the parent's path is the path without its last name, and only the parent has it. */
  lemma PathsMirrorTree(root: Id, d: Descendants, child: Id, other: Id)
    requires Sound(root, d) && child in d && d[child].path.Some? && Bound(root, d, other)
    requires PathOf(root, d, other).Some?
    ensures d[child].parent == other <==> DirectParentPath(d[child].path.value) == PathOf(root, d, other)
  {
    assert PathFits(root, d, child) && InTree(root, d, child);
    if DirectParentPath(d[child].path.value) == PathOf(root, d, other) {
      PathsInjective(root, d, d[child].parent, other);
    }
  }

  // ---- Updates that keep the registry sound

  lemma RegisterKeeps(root: Id, d: Descendants, id: Id, parent: Id)
    requires Sound(root, d) && id != root && id !in d && id != parent && Bound(root, d, parent)
    requires DepthOf(root, d, parent) + 1 <= GOAL_DELEGATION_MAX_DEPTH
    ensures var x := Descendant(parent, DepthOf(root, d, parent) + 1, None, None, Pending, None, None, None);
            Sound(root, d[id := x]) && Lasting(d, d[id := x])
  {
    var x := Descendant(parent, DepthOf(root, d, parent) + 1, None, None, Pending, None, None, None);
    var d' := d[id := x];
    forall k | k in d' ensures InTree(root, d', k) && PathFits(root, d', k) && GrantFits(root, d'[k]) {
      if k != id {
        assert InTree(root, d, k) && PathFits(root, d, k) && GrantFits(root, d[k]);
      } else if parent != root {
        assert InTree(root, d, parent);
      }
    }
  }

  /** Anything about a descendant but its parent, depth and path. */
  lemma UpdateKeeps(root: Id, d: Descendants, id: Id, x: Descendant)
    requires Sound(root, d) && id in d && GrantFits(root, x)
    requires x.parent == d[id].parent && x.depth == d[id].depth && x.path == d[id].path
    requires Same(d[id], x)
    ensures Sound(root, d[id := x]) && Lasting(d, d[id := x])
  {
    var d' := d[id := x];
    forall k | k in d' ensures InTree(root, d', k) && PathFits(root, d', k) && GrantFits(root, d'[k]) {
      assert InTree(root, d, k) && PathFits(root, d, k) && GrantFits(root, d[k]);
    }
  }

  /** `path` is one name below the path of this registered child's parent; the child has no other path,
      and no other descendant has this one. */
  ghost predicate MayPlace(root: Id, d: Descendants, child: Id, path: string) {
    && child in d && PathOf(root, d, d[child].parent).Some?
    && DirectParentPath(path) == PathOf(root, d, d[child].parent)
    && (d[child].path.None? || d[child].path.value == path)
    && forall other :: other in d && d[other].path == Some(path) ==> other == child
  }

  lemma PathKeeps(root: Id, d: Descendants, id: Id, path: string)
    requires Sound(root, d) && MayPlace(root, d, id, path)
    ensures var x := d[id].(path := Some(path)); Sound(root, d[id := x]) && Lasting(d, d[id := x])
  {
    var x := d[id].(path := Some(path));
    var d' := d[id := x];
    assert InTree(root, d, id);
    forall k | k in d' ensures InTree(root, d', k) && PathFits(root, d', k) && GrantFits(root, d'[k]) {
      assert InTree(root, d, k) && GrantFits(root, d[k]);
      PathStaysFit(root, d, id, path, k);
    }
  }

  lemma PathStaysFit(root: Id, d: Descendants, id: Id, path: string, k: Id)
    requires Sound(root, d) && MayPlace(root, d, id, path) && k in d
    ensures PathFits(root, d[id := d[id].(path := Some(path))], k)
  {
    assert InTree(root, d, id) && InTree(root, d, k) && PathFits(root, d, k);
  }

  /** All grants withdrawn. */
  function Ungranted(d: Descendants): (r: Descendants)
    ensures r.Keys == d.Keys
  {
    map id | id in d :: d[id].(grant := None)
  }

  lemma UngrantedKeeps(root: Id, d: Descendants)
    requires Sound(root, d)
    ensures Sound(root, Ungranted(d)) && Lasting(d, Ungranted(d))
  {
    var d' := Ungranted(d);
    forall k | k in d' ensures InTree(root, d', k) && PathFits(root, d', k) && GrantFits(root, d'[k]) {
      assert InTree(root, d, k) && PathFits(root, d, k) && GrantFits(root, d[k]);
    }
  }

  /** The families are told apart by their tools. */
  lemma FamilyExact(tool: string, f: Family)
    ensures FamilyOfTool(tool) == Some(f) <==> tool in ToolsOf(f)
  {
    assert "rh_mission_a1_review"[12] != "rh_mission_admission"[12];
    assert "rh_mission_a1_review_page"[12] != "rh_mission_admission_page"[12];
  }
}
