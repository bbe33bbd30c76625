/** What a delegation history means, independently of the order its events arrive in. */
module DelegationSpec {
  import opened Wrappers

  datatype FailureCode =
    | Malformed | Conflict | Cycle | DepthExceeded | Unresolved | Other

  /** One fact the tracker is told. A thread identity that is not a non-empty string is `""`. */
  datatype Event =
    | Root(id: string)
    | Spawn(child: string, parent: string)
    | Asserted(child: string, parent: string)
    | Final(thread: string, expected: Option<string>, text: string)
    | Fault(code: FailureCode)

  /** `x` is the root or reaches it over at most `n` spawn edges. */
  ghost predicate Reaches(s: set<Event>, root: string, x: string, n: nat)
    decreases n
  {
    x == root || (n > 0 && exists p :: Spawn(x, p) in s && Reaches(s, root, p, n - 1))
  }

  ghost predicate Functional(s: set<Event>) {
    forall c, p, q :: Spawn(c, p) in s && Spawn(c, q) in s ==> p == q
  }

  ghost predicate Fits(max: nat, s: set<Event>, root: string, e: Event) {
    match e
    case Root(id) => id == root
    case Spawn(c, p) => c != "" && p != "" && c != root && Reaches(s, root, c, max)
    case Asserted(c, p) => Spawn(c, p) in s
    case Final(c, expected, _) =>
      if c == root then expected == None
      else exists p :: Spawn(c, p) in s && (expected == None || expected == Some(p))
    case Fault(_) => false
  }

  ghost predicate GoodUnder(max: nat, s: set<Event>, root: string) {
    && root != "" && Root(root) in s
    && Functional(s)
    && forall e :: e in s ==> Fits(max, s, root, e)
  }

  /** The history is one well formed delegation tree of depth at most `max`, with every
      assertion and every final message accounted for. It is a property of the *set* of events. */
  ghost predicate Good(max: nat, s: set<Event>) {
    s == {} || exists root :: GoodUnder(max, s, root)
  }

  /** No further events can repair the history. */
  ghost predicate Doomed(max: nat, s: set<Event>) {
    forall t | s <= t :: !Good(max, t)
  }

  // ---- Walks over a parent map

  /** The parent walk from `x` leaves `m` after exactly `n` steps. */
  ghost predicate Escapes(m: map<string, string>, x: string, n: nat)
    decreases n
  {
    if n == 0 then x !in m else x in m && Escapes(m, m[x], n - 1)
  }

  /** The parent walk from `x` never leaves `m`: it runs into a cycle. */
  ghost predicate Endless(m: map<string, string>, x: string) {
    forall n: nat :: !Escapes(m, x, n)
  }

  /** Every parent walk terminates. */
  ghost predicate Acyclic(m: map<string, string>) {
    forall x :: x in m ==> !Endless(m, x)
  }

  /** `x` hangs exactly `n` levels below `root`. */
  ghost predicate DepthIs(m: map<string, string>, root: string, x: string, n: nat)
    decreases n
  {
    if n == 0 then x == root else x != root && x in m && DepthIs(m, root, m[x], n - 1)
  }

  lemma {:induction false} EscapesUnique(m: map<string, string>, x: string, n: nat, k: nat)
    requires Escapes(m, x, n) && Escapes(m, x, k)
    ensures n == k
    decreases n
  {
    if n > 0 && k > 0 {
      EscapesUnique(m, m[x], n - 1, k - 1);
    }
  }

  lemma {:induction false} DepthUnique(m: map<string, string>, root: string, x: string, n: nat, k: nat)
    requires DepthIs(m, root, x, n) && DepthIs(m, root, x, k)
    ensures n == k
    decreases n
  {
    if n > 0 && k > 0 {
      DepthUnique(m, root, m[x], n - 1, k - 1);
    }
  }

  /** Dropping edges keeps every walk finite. */
  lemma {:induction false} EscapesSub(m: map<string, string>, sub: map<string, string>, x: string, n: nat)
    requires Escapes(m, x, n)
    requires forall y :: y in sub ==> y in m && m[y] == sub[y]
    ensures exists k: nat :: Escapes(sub, x, k)
    decreases n
  {
    if x !in sub {
      assert Escapes(sub, x, 0);
    } else {
      EscapesSub(m, sub, m[x], n - 1);
      var k: nat :| Escapes(sub, m[x], k);
      assert Escapes(sub, x, k + 1);
    }
  }

  lemma AcyclicSub(m: map<string, string>, sub: map<string, string>)
    requires Acyclic(m)
    requires forall y :: y in sub ==> y in m && m[y] == sub[y]
    ensures Acyclic(sub)
  {
    forall x | x in sub ensures !Endless(sub, x) {
      var n: nat :| Escapes(m, x, n);
      EscapesSub(m, sub, x, n);
    }
  }

  /** Adding the edge `c -> p` keeps walks finite if the walk from `p` is finite afterwards. */
  lemma {:induction false} EscapesExtend(
    m: map<string, string>, c: string, p: string, x: string, n: nat, k: nat)
    requires c !in m && Escapes(m, x, n) && Escapes(m[c := p], p, k)
    ensures exists j: nat {:trigger Escapes(m[c := p], x, j)} :: Escapes(m[c := p], x, j)
    decreases n
  {
    var m' := m[c := p];
    if x == c {
      assert Escapes(m', x, k + 1);
    } else if x !in m {
      assert Escapes(m', x, 0);
    } else {
      EscapesExtend(m, c, p, m[x], n - 1, k);
      var j: nat :| Escapes(m', m[x], j);
      assert Escapes(m', x, j + 1);
    }
  }

  lemma AcyclicExtend(m: map<string, string>, c: string, p: string, k: nat)
    requires Acyclic(m) && c !in m && Escapes(m[c := p], p, k)
    ensures Acyclic(m[c := p])
  {
    var m' := m[c := p];
    forall x | x in m' ensures !Endless(m', x) {
      if x == c {
        assert Escapes(m', x, k + 1);
      } else {
        var n: nat :| Escapes(m, x, n);
        EscapesExtend(m, c, p, x, n, k);
      }
    }
  }

  /** Depths survive new edges: the walk to the root never uses them. */
  lemma {:induction false} DepthMonotone(
    m: map<string, string>, m': map<string, string>, root: string, x: string, n: nat)
    requires DepthIs(m, root, x, n)
    requires forall y :: y in m ==> y in m' && m'[y] == m[y]
    ensures DepthIs(m', root, x, n)
    decreases n
  {
    if n > 0 {
      DepthMonotone(m, m', root, m[x], n - 1);
    }
  }

  // ---- Histories against parent maps

  /** Every edge of `m` is a spawn of `s`. */
  ghost predicate Within(m: map<string, string>, s: set<Event>) {
    forall c :: c in m ==> Spawn(c, m[c]) in s
  }

  lemma {:induction false} ReachesMonotone(s: set<Event>, root: string, x: string, n: nat, k: nat)
    requires Reaches(s, root, x, n) && n <= k
    ensures Reaches(s, root, x, k)
    decreases n
  {
    if x != root {
      var p :| Spawn(x, p) in s && Reaches(s, root, p, n - 1);
      ReachesMonotone(s, root, p, n - 1, k - 1);
    }
  }

  /** In a good history every walk over recorded edges is finite. */
  lemma {:induction false} GoodEscapes(
    max: nat, s: set<Event>, root: string, m: map<string, string>, x: string, n: nat)
    requires GoodUnder(max, s, root) && Within(m, s) && Reaches(s, root, x, n)
    ensures exists k: nat :: Escapes(m, x, k)
    decreases n
  {
    if x !in m {
      assert Escapes(m, x, 0);
    } else {
      assert Fits(max, s, root, Spawn(x, m[x]));
      var p :| Spawn(x, p) in s && Reaches(s, root, p, n - 1);
      assert p == m[x];
      GoodEscapes(max, s, root, m, p, n - 1);
      var k: nat :| Escapes(m, p, k);
      assert Escapes(m, x, k + 1);
    }
  }

  /** In a good history a placed thread's depth is the one the events give it. */
  lemma {:induction false} GoodDepth(
    max: nat, s: set<Event>, root: string, m: map<string, string>, x: string, n: nat, k: nat)
    requires GoodUnder(max, s, root) && Within(m, s)
    requires Reaches(s, root, x, k) && DepthIs(m, root, x, n)
    ensures n <= k
    decreases n + k
  {
    if n > 0 {
      assert x in m && x != root;
      var p :| Spawn(x, p) in s && Reaches(s, root, p, k - 1);
      assert p == m[x];
      GoodDepth(max, s, root, m, p, n - 1, k - 1);
    }
  }

  lemma {:induction false} DepthReaches(s: set<Event>, m: map<string, string>, root: string, x: string, n: nat)
    requires Within(m, s) && DepthIs(m, root, x, n)
    ensures Reaches(s, root, x, n)
    decreases n
  {
    if n > 0 {
      DepthReaches(s, m, root, m[x], n - 1);
    }
  }

  // ---- The ways a history is beyond repair

  lemma DoomedGrows(max: nat, s: set<Event>, t: set<Event>)
    requires Doomed(max, s) && s <= t
    ensures Doomed(max, t)
  {
  }

  /** An event that no root can accommodate. */
  ghost predicate Broken(s: set<Event>, e: Event) {
    match e
    case Root(id) => id == ""
    case Spawn(c, p) => c == "" || p == "" || c == p || Root(c) in s
    case Asserted(c, p) => c == "" || p == "" || c == p || Root(c) in s
    case Final(c, expected, _) => c == "" || (Root(c) in s && expected != None)
    case Fault(_) => true
  }

  /** Two roots, two parents for one child, or an assertion or final the edges contradict. */
  ghost predicate Clash(e: Event, f: Event) {
    match (e, f)
    case (Root(q), Root(r)) => q != r
    case (Spawn(c, p), Spawn(d, q)) => c == d && p != q
    case (Asserted(c, p), Spawn(d, q)) => c == d && p != q
    case (Asserted(c, p), Asserted(d, q)) => c == d && p != q
    case (Final(c, expected, _), Spawn(d, q)) => c == d && expected != None && expected != Some(q)
    case _ => false
  }

  lemma {:induction false} NoSelfSpawn(max: nat, s: set<Event>, root: string, c: string, p: string)
    requires GoodUnder(max, s, root) && Spawn(c, p) in s
    ensures c != p
  {
    assert Fits(max, s, root, Spawn(c, p));
    NeverAbove(max, s, root, c, max);
  }

  lemma {:induction false} NeverAbove(max: nat, s: set<Event>, root: string, c: string, n: nat)
    requires GoodUnder(max, s, root) && c != root
    ensures Spawn(c, c) in s ==> !Reaches(s, root, c, n)
    decreases n
  {
    if n > 0 {
      NeverAbove(max, s, root, c, n - 1);
    }
  }

  lemma GoodNotBroken(max: nat, s: set<Event>, root: string, e: Event)
    requires GoodUnder(max, s, root) && e in s
    ensures !Broken(s, e)
  {
    assert Fits(max, s, root, e);
    assert forall q :: Root(q) in s ==> Fits(max, s, root, Root(q));
    assert forall c, p :: Spawn(c, p) in s ==> Fits(max, s, root, Spawn(c, p));
    match e {
      case Spawn(c, p) => NoSelfSpawn(max, s, root, c, p);
      case Asserted(c, p) => NoSelfSpawn(max, s, root, c, p);
      case _ =>
    }
  }

  lemma DoomedByBroken(max: nat, s: set<Event>, e: Event)
    requires e in s && Broken(s, e)
    ensures Doomed(max, s)
  {
    forall t | s <= t ensures !Good(max, t) {
      if Good(max, t) {
        var root :| GoodUnder(max, t, root);
        GoodNotBroken(max, t, root, e);
      }
    }
  }

  lemma DoomedByClash(max: nat, s: set<Event>, e: Event, f: Event)
    requires e in s && f in s && Clash(e, f)
    ensures Doomed(max, s)
  {
    forall t, root | s <= t ensures !GoodUnder(max, t, root) {
      assert e in t && f in t;
    }
  }

  lemma DoomedByCycle(max: nat, s: set<Event>, m: map<string, string>, x: string)
    requires Within(m, s) && x in m
    requires Endless(m, x)
    ensures Doomed(max, s)
  {
    forall t | s <= t ensures !Good(max, t) {
      if Good(max, t) {
        var root :| GoodUnder(max, t, root);
        assert Fits(max, t, root, Spawn(x, m[x]));
        GoodEscapes(max, t, root, m, x, max);
      }
    }
  }

  lemma DoomedByDepth(max: nat, s: set<Event>, m: map<string, string>, root: string, c: string, p: string, n: nat)
    requires Within(m, s) && Root(root) in s && Spawn(c, p) in s
    requires DepthIs(m, root, p, n) && n >= max
    ensures Doomed(max, s)
  {
    forall t | s <= t ensures !Good(max, t) {
      if Good(max, t) {
        var r :| GoodUnder(max, t, r);
        assert Fits(max, t, r, Root(root)) && Fits(max, t, r, Spawn(c, p));
        var q :| Spawn(c, q) in t && Reaches(t, r, q, max - 1);
        GoodDepth(max, t, r, m, p, n, max - 1);
      }
    }
  }
}
