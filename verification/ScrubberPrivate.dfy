/** A private-key block is suppressed up to the first occurrence of its end marker. */
module ScrubberPrivate {
  import opened ScrubberText
  import opened ScrubberSpec
  import opened ScrubberStability

  ghost predicate Occurs(end: string, t: string, k: nat) {
    k + |end| <= |t| && t[k..k + |end|] == end
  }

  predicate Suffix(d: string, t: string) {
    |d| <= |t| && t[|t| - |d|..] == d
  }

  /** The first `n` characters of `end` end `t`. */
  predicate Border(end: string, t: string, n: int) { 0 <= n <= |end| && Suffix(end[..n], t) }

  /** `b` is the longest suffix of `c` that begins `end`, and it is not all of `end`. */
  ghost predicate LongestBorder(end: string, c: string, b: string) {
    && |b| < |end| && b == end[..|b|] && Border(end, c, |b|)
    && forall n :: Border(end, c, n) ==> n <= |b|
  }

  lemma {:induction false} TrimIsLongest(end: string, held: string)
    ensures |Trim(end, held)| <= |end| && Trim(end, held) == end[..|Trim(end, held)|]
    ensures Border(end, held, |Trim(end, held)|)
    ensures forall n :: Border(end, held, n) ==> n <= |Trim(end, held)|
    decreases held
  {
    if held != "" && !(held <= end) {
      var tail := held[1..];
      TrimIsLongest(end, tail);
      forall n | 0 <= n <= |end| ensures Border(end, held, n) <==> Border(end, tail, n) {
        ShorterBorder(end, held, n);
      }
    } else {
      assert held[0..] == held;
    }
  }

  lemma ShorterBorder(end: string, held: string, n: nat)
    requires held != "" && !(held <= end) && n <= |end|
    ensures Border(end, held, n) <==> Border(end, held[1..], n)
  {
    var tail := held[1..];
    if n <= |tail| {
      assert tail[|tail| - n..] == held[|held| - n..];
    } else if n == |held| {
      assert held[0..] == held;
    }
  }

  lemma BorderPush(end: string, c: string, x: char, n: nat)
    requires 0 < n <= |end|
    ensures Border(end, c + [x], n) <==> end[n - 1] == x && Border(end, c, n - 1)
  {
    var d, d', c' := end[..n], end[..n - 1], c + [x];
    assert d == d' + [end[n - 1]];
    if n <= |c'| {
      assert c'[|c'| - n..] == c[|c| - (n - 1)..] + [x];
    }
  }

  lemma BorderOfBorder(end: string, c: string, b: string, n: nat)
    requires Suffix(b, c) && n <= |b| && n <= |end|
    ensures Border(end, c, n) <==> Border(end, b, n)
  {
    assert b[|b| - n..] == c[|c| - n..];
  }

  /** What begins `end` and ends the longer text also ends the border's. */
  lemma BorderKeeps(end: string, c: string, b: string, x: char, n: nat)
    requires LongestBorder(end, c, b) && n <= |end|
    ensures Border(end, c + [x], n) <==> Border(end, b + [x], n)
  {
    if n == 0 {
      assert end[..0] == "";
    } else {
      BorderPush(end, c, x, n);
      BorderPush(end, b, x, n);
      if n - 1 <= |b| {
        BorderOfBorder(end, c, b, n - 1);
      }
    }
  }

  lemma WholeBorder(end: string, t: string)
    ensures Border(end, t, |end|) <==> Suffix(end, t)
  {
    assert end[..|end|] == end;
  }

  /** Reading one more character keeps the border longest, or completes the end marker. */
  lemma BorderStep(end: string, c: string, b: string, x: char)
    requires LongestBorder(end, c, b)
    ensures Suffix(end, b + [x]) <==> Suffix(end, c + [x])
    ensures !Suffix(end, b + [x]) ==> LongestBorder(end, c + [x], Trim(end, b + [x]))
  {
    var held, after := b + [x], c + [x];
    WholeBorder(end, held);
    WholeBorder(end, after);
    TrimIsLongest(end, held);
    forall n | 0 <= n <= |end| ensures Border(end, after, n) <==> Border(end, held, n) {
      BorderKeeps(end, c, b, x, n);
    }
    TrimNotWhole(end, held);
  }

  lemma TrimNotWhole(end: string, held: string)
    ensures !Suffix(end, held) ==> |Trim(end, held)| < |end|
  {
    TrimIsLongest(end, held);
    WholeBorder(end, held);
  }

  lemma PrivateStep(end: string, b: string, previous: string, rest: string)
    requires rest != ""
    ensures Suffix(end, b + [rest[0]]) ==>
      Scan(Private(end, b), previous, rest) == Scan(Normal, [rest[0]], rest[1..])
    ensures !Suffix(end, b + [rest[0]]) ==>
      Scan(Private(end, b), previous, rest) ==
      Scan(Private(end, Trim(end, b + [rest[0]])), [rest[0]], rest[1..])
  {
    var m, c, held := Private(end, b), rest[0], b + [rest[0]];
    var m' := if Suffix(end, held) then Normal else Private(end, Trim(end, held));
    assert CharStep(m, c) == Act(1, NOTHING, m');
    assert Step(true, true, m, previous, rest) == CharStep(m, c);
    ScanSilent(m, previous, rest, m');
  }

  /** A step that takes one character and publishes nothing. */
  lemma ScanSilent(m: Mode, previous: string, rest: string, m': Mode)
    requires rest != "" && Step(true, true, m, previous, rest) == Act(1, NOTHING, m')
    ensures Scan(m, previous, rest) == Scan(m', [rest[0]], rest[1..])
  {
    StepProgress(true, true, m, previous, rest);
    var o := Scan(m', [rest[0]], rest[1..]);
    assert rest[..1] == [rest[0]] && Last(previous, rest[..1]) == [rest[0]];
    assert Scan(m, previous, rest) == NOTHING.Plus(o);
    assert NOTHING.Plus(o) == o;
  }

  /** An occurrence of the end marker that `c` plus one character completes. */
  lemma Completed(end: string, c: string, rest: string)
    requires rest != "" && Suffix(end, c + [rest[0]])
    ensures Occurs(end, c + rest, |c| + 1 - |end|)
  {
    var t, c' := c + rest, c + [rest[0]];
    assert t == c' + rest[1..];
    assert t[|c'| - |end|..|c'|] == c'[|c'| - |end|..];
  }

  lemma Uncompleted(end: string, c: string, rest: string, k: nat)
    requires rest != "" && Occurs(end, c + rest, k) && |c| + 1 == k + |end|
    ensures Suffix(end, c + [rest[0]])
  {
    var t, c' := c + rest, c + [rest[0]];
    assert t == c' + rest[1..];
    assert t[k..k + |end|] == c'[|c'| - |end|..];
  }

  /** How many characters of `rest` the block still takes, if its end marker comes. */
  function Skip(end: string, b: string, rest: string): (n: nat)
    ensures n <= |rest| + 1
    decreases |rest|
  {
    if rest == "" then 1
    else if Suffix(end, b + [rest[0]]) then 1
    else 1 + Skip(end, Trim(end, b + [rest[0]]), rest[1..])
  }

  /** The block's text `c` of `t` has been read without the end marker in it; `rest` is to come. */
  lemma {:induction false} SkipEnds(end: string, t: string, c: string, b: string, rest: string, k: nat)
    requires t == c + rest && LongestBorder(end, c, b) && |c| < k + |end|
    requires Occurs(end, t, k) && Before(end, t, k)
    ensures |c| + Skip(end, b, rest) == k + |end|
    decreases |rest|
  {
    MoreToCome(end, t, c, rest, k);
    var x := rest[0];
    BorderStep(end, c, b, x);
    if Suffix(end, b + [x]) {
      Completed(end, c, rest);
      NotBefore(end, t, k, |c| + 1 - |end|);
    } else {
      StillShort(end, t, c, rest, k);
      SkipEnds(end, t, c + [x], Trim(end, b + [x]), rest[1..], k);
    }
  }

  lemma MoreToCome(end: string, t: string, c: string, rest: string, k: nat)
    requires t == c + rest && |c| < k + |end| && Occurs(end, t, k)
    ensures rest != "" && t == (c + [rest[0]]) + rest[1..]
  {
  }

  lemma StillShort(end: string, t: string, c: string, rest: string, k: nat)
    requires t == c + rest && |c| < k + |end| && Occurs(end, t, k) && rest != ""
    requires !Suffix(end, c + [rest[0]])
    ensures |c| + 1 < k + |end|
  {
    if |c| + 1 == k + |end| {
      Uncompleted(end, c, rest, k);
    }
  }

  /** No occurrence of `end` starts before `k`. */
  ghost predicate Before(end: string, t: string, k: nat) {
    forall j: nat :: j < k ==> !Occurs(end, t, j)
  }

  lemma NotBefore(end: string, t: string, k: nat, j: nat)
    requires Before(end, t, k) && Occurs(end, t, j)
    ensures j >= k
  {
  }

  lemma {:induction false} SkipNever(end: string, t: string, c: string, b: string, rest: string)
    requires t == c + rest && LongestBorder(end, c, b) && forall j: nat :: !Occurs(end, t, j)
    ensures Skip(end, b, rest) == |rest| + 1
    decreases |rest|
  {
    if rest != "" {
      var x, c' := rest[0], c + [rest[0]];
      assert t == c' + rest[1..];
      BorderStep(end, c, b, x);
      if Suffix(end, b + [x]) {
        Completed(end, c, rest);
      }
      SkipNever(end, t, c', Trim(end, b + [x]), rest[1..]);
    }
  }

  lemma {:induction false} BlockScan(end: string, b: string, previous: string, rest: string, n: nat)
    requires n == Skip(end, b, rest)
    ensures n > |rest| ==> Scan(Private(end, b), previous, rest) == NOTHING
    ensures n <= |rest| ==>
      0 < n && Scan(Private(end, b), previous, rest) == Scan(Normal, [rest[n - 1]], rest[n..])
    decreases |rest|
  {
    if rest != "" {
      PrivateStep(end, b, previous, rest);
      if !Suffix(end, b + [rest[0]]) {
        BlockScan(end, Trim(end, b + [rest[0]]), [rest[0]], rest[1..], n - 1);
        if n <= |rest| {
          assert rest[1..][n - 2] == rest[n - 1];
          assert rest[1..][n - 1..] == rest[n..];
        }
      }
    }
  }

  lemma EmptyBorder(end: string)
    requires end != ""
    ensures LongestBorder(end, "", "")
  {
    assert end[..0] == "";
  }

  lemma SkipFirst(end: string, rest: string, k: nat) returns (n: nat)
    requires end != "" && Occurs(end, rest, k) && Before(end, rest, k)
    ensures n == Skip(end, "", rest) == k + |end|
    ensures [rest[n - 1]] == end[|end| - 1..]
  {
    assert "" + rest == rest;
    EmptyBorder(end);
    SkipEnds(end, rest, "", "", rest, k);
    n := k + |end|;
    assert rest[k..k + |end|][|end| - 1] == rest[n - 1];
  }

  /** Suppression ends exactly at the first end marker: nothing of the block is published, and
      what follows is scanned as if the block had been its end marker alone. */
  lemma PrivateBlockEnds(end: string, previous: string, rest: string, k: nat)
    requires end != "" && Occurs(end, rest, k) && Before(end, rest, k)
    ensures Scan(Private(end, ""), previous, rest) == Scan(Normal, end[|end| - 1..], rest[k + |end|..])
  {
    var n := SkipFirst(end, rest, k);
    BlockScan(end, "", previous, rest, n);
  }

  /** A block without its end marker is suppressed to the end of the text. */
  lemma PrivateBlockOpen(end: string, previous: string, rest: string)
    requires end != "" && forall j: nat :: !Occurs(end, rest, j)
    ensures Scan(Private(end, ""), previous, rest) == NOTHING
  {
    assert "" + rest == rest;
    EmptyBorder(end);
    SkipNever(end, rest, "", "", rest);
    BlockScan(end, "", previous, rest, |rest| + 1);
  }

  /** Two texts that differ only inside the block are scrubbed alike. */
  lemma PrivateBlockHides(
    end: string, previous: string, secret: string, secret': string, after: string)
    requires end != ""
    requires Before(end, secret + end + after, |secret|) && Before(end, secret' + end + after, |secret'|)
    ensures Scan(Private(end, ""), previous, secret + end + after)
         == Scan(Private(end, ""), previous, secret' + end + after)
  {
    PrivateBlockAfter(end, previous, secret, after);
    PrivateBlockAfter(end, previous, secret', after);
  }

  lemma PrivateBlockAfter(end: string, previous: string, secret: string, after: string)
    requires end != "" && Before(end, secret + end + after, |secret|)
    ensures Scan(Private(end, ""), previous, secret + end + after) == Scan(Normal, end[|end| - 1..], after)
  {
    var t := secret + end + after;
    assert t[|secret|..|secret| + |end|] == end && t[|secret| + |end|..] == after;
    PrivateBlockEnds(end, previous, t, |secret|);
  }

  // ---- The block in its text

  /** A decision at every position; the offline scanner's is `Offline`. */
  type Decisions = (Mode, string, string) -> Action

  function Offline(m: Mode, previous: string, t: string): Action {
    if t == "" then Wait else Step(true, true, m, previous, t)
  }

  /** These are the steps by which the scan of `t` comes to stand in ordinary text after exactly `n`
      characters. */
  ghost predicate Path(decide: Decisions, m: Mode, previous: string, t: string, n: nat, steps: seq<Action>)
    requires n <= |t|
    decreases |steps|
  {
    if steps == [] then n == 0 && m == Normal
    else
      var a := steps[0];
      && t != "" && a == decide(m, previous, t) && a.Act? && a.take <= n
      && Path(decide, a.mode, Last(previous, t[..a.take]), t[a.take..], n - a.take, steps[1..])
  }

  ghost predicate Stands(t: string, n: nat)
    requires n <= |t|
  {
    exists steps :: Path(Offline, Normal, "", t, n, steps)
  }

  function Outputs(steps: seq<Action>): Output {
    if steps == [] then NOTHING
    else (if steps[0].Act? then steps[0].out else NOTHING).Plus(Outputs(steps[1..]))
  }

  /** What is published from a position on is what the step there publishes and what comes behind it. */
  ghost predicate Publishes(decide: Decisions, scan: (Mode, string, string) -> Output) {
    forall m, previous, t :: PublishesAt(decide, scan, m, previous, t)
  }

  ghost predicate PublishesAt(
    decide: Decisions, scan: (Mode, string, string) -> Output, m: Mode, previous: string, t: string)
  {
    var a := decide(m, previous, t);
    t != "" && a.Act? && a.take <= |t| ==>
      scan(m, previous, t) == a.out.Plus(scan(a.mode, Last(previous, t[..a.take]), t[a.take..]))
  }

  lemma OfflinePublishes()
    ensures Publishes(Offline, Scan)
  {
    forall m, previous, t ensures PublishesAt(Offline, Scan, m, previous, t) {
      if t != "" {
        ScanUnfold(m, previous, t, Step(true, true, m, previous, t));
      }
    }
  }

  /** The scan publishes what the steps publish, and goes on from there. */
  lemma {:induction false} PathScans(
    decide: Decisions, scan: (Mode, string, string) -> Output,
    m: Mode, previous: string, t: string, n: nat, steps: seq<Action>)
    requires Publishes(decide, scan) && n <= |t| && Path(decide, m, previous, t, n, steps)
    ensures scan(m, previous, t) == Outputs(steps).Plus(scan(Normal, Last(previous, t[..n]), t[n..]))
    decreases |steps|
  {
    if steps == [] {
      assert t[0..] == t && t[..0] == "";
    } else {
      var a := steps[0];
      assert PublishesAt(decide, scan, m, previous, t);
      var p, rest := Last(previous, t[..a.take]), t[a.take..];
      PathScans(decide, scan, a.mode, p, rest, n - a.take, steps[1..]);
      LastOf(previous, t, a.take, n);
      Compose(scan(m, previous, t), a.out, scan(a.mode, p, rest), Outputs(steps[1..]),
              scan(Normal, Last(previous, t[..n]), t[n..]));
    }
  }

  lemma LastOf(previous: string, t: string, k: nat, n: nat)
    requires k <= n <= |t|
    ensures Last(Last(previous, t[..k]), t[k..][..n - k]) == Last(previous, t[..n])
    ensures t[k..][n - k..] == t[n..]
  {
    assert t[..n] == t[..k] + t[k..][..n - k];
    if k < n {
      assert t[..n][n - 1..] == [t[n - 1]] == t[k..][..n - k][n - k - 1..];
    } else if k > 0 {
      assert t[..n] == t[..k];
    }
  }

  lemma Compose(whole: Output, a: Output, scanned: Output, b: Output, c: Output)
    requires whole == a.Plus(scanned) && scanned == b.Plus(c)
    ensures whole == a.Plus(b).Plus(c)
  {
  }

  /** The steps before `h` do not depend on what follows it. */
  ghost predicate Settles(decide: Decisions, h: string) {
    forall m, previous, u, z, z' :: SettlesAt(decide, h, m, previous, u, z, z')
  }

  ghost predicate SettlesAt(
    decide: Decisions, h: string, m: Mode, previous: string, u: string, z: string, z': string)
  {
    var a := decide(m, previous, u + h + z);
    a.Act? && a.take <= |u| ==> u + h + z' != "" && decide(m, previous, u + h + z') == a
  }

  lemma {:induction false} PathStable(
    decide: Decisions, h: string, m: Mode, previous: string, u: string, z: string, z': string, steps: seq<Action>)
    requires Settles(decide, h) && Path(decide, m, previous, u + h + z, |u|, steps)
    ensures Path(decide, m, previous, u + h + z', |u|, steps)
    decreases |steps|
  {
    if steps != [] {
      var a := steps[0];
      assert SettlesAt(decide, h, m, previous, u, z, z');
      Shifted(u, h, z, a.take);
      Shifted(u, h, z', a.take);
      PathStable(decide, h, a.mode, Last(previous, u[..a.take]), u[a.take..], z, z', steps[1..]);
    }
  }

  lemma Shifted(u: string, h: string, z: string, n: nat)
    requires n <= |u|
    ensures (u + h + z)[..n] == u[..n] && (u + h + z)[n..] == u[n..] + h + z
  {
  }

  /** Private-key headers settle every step of the offline scanner before them. */
  lemma HeaderSettles(i: nat)
    requires i < |BEGINS|
    ensures Settles(Offline, BEGINS[i])
  {
    forall m, previous, u, z, z' ensures SettlesAt(Offline, BEGINS[i], m, previous, u, z, z') {
      HeaderSettlesAt(i, m, previous, u, z, z');
    }
  }

  lemma HeaderSettlesAt(i: nat, m: Mode, previous: string, u: string, z: string, z': string)
    requires i < |BEGINS|
    ensures SettlesAt(Offline, BEGINS[i], m, previous, u, z, z')
  {
    BeginSize(i);
    if u != "" || m != Normal {
      HeaderDecides(m, previous, u, i);
      StepStable(true, m, previous, u + BEGINS[i], z);
      StepStable(true, m, previous, u + BEGINS[i], z');
    } else {
      StepProgress(true, true, m, previous, u + BEGINS[i] + z);
    }
  }

  /** Text that ends in a private-key header decides every step up to the header. */
  lemma HeaderDecides(m: Mode, previous: string, u: string, i: nat)
    requires i < |BEGINS| && (u != "" || m != Normal)
    ensures Step(false, true, m, previous, u + BEGINS[i]).Act?
  {
    HeaderIn(u, i);
    var s := u + BEGINS[i];
    if m == Normal {
      NothingCould(previous, s, |u|);
      NormalActs(previous, s);
    } else {
      NotMarker(s, |u|);
      OtherActs(m, previous, s);
    }
  }

  lemma HeaderIn(u: string, i: nat)
    requires i < |BEGINS|
    ensures var s := u + BEGINS[i]; var k := |u|;
            k + 27 <= |s| && s[k + 4] == '-' && s[k + 5] == 'B' && s[k + 9] == 'N' && s[k + 10] == ' '
  {
    HeaderShape(i);
  }

  lemma NormalActs(previous: string, s: string)
    requires s != "" && !CouldStart(previous, s)
    ensures Step(false, true, Normal, previous, s).Act?
  {
    StartProgress(false, true, previous, s);
  }

  lemma OtherActs(m: Mode, previous: string, s: string)
    requires s != "" && m != Normal && !MarkerCould(s)
    ensures Step(false, true, m, previous, s).Act?
  {
    CharProgress(m, s[0]);
  }

  /** No longer text could still make anything start before the header. */
  lemma NothingCould(previous: string, s: string, k: nat)
    requires 0 < k && k + 27 <= |s| && s[k + 5] == 'B' && s[k + 9] == 'N' && s[k + 10] == ' '
    ensures !CouldStart(previous, s)
  {
    NotBeginning(s, k);
    NotProviderStart(s, k);
    NotBearer(s, k);
    forall j | 0 <= j < |FIELDS| ensures !(Lower(s) <= FIELDS[j]) {
      FieldSize(j);
    }
  }

  lemma HeaderShape(i: nat)
    requires i < |BEGINS|
    ensures |BEGINS[i]| >= 27 && BEGINS[i][4] == '-' && BEGINS[i][5] == 'B' && BEGINS[i][9] == 'N' && BEGINS[i][10] == ' '
  {
    BeginSize(i);
  }

  lemma OneLetterB(i: nat, k: nat)
    requires i < |BEGINS| && k < |BEGINS[i]| && BEGINS[i][k] == 'B'
    ensures k == 5
  {
  }

  lemma NotMarker(s: string, k: nat)
    requires k + 4 < |s| && s[k + 4] == '-'
    ensures !MarkerCould(s)
  {
    if i :| 0 <= i < |MARKERS| && s <= MARKERS[i] {
      assert false;
    }
  }

  lemma NotBeginning(s: string, k: nat)
    requires 0 < k && k + 5 < |s| && s[k + 5] == 'B'
    ensures forall i :: 0 <= i < |BEGINS| ==> !(s <= BEGINS[i])
  {
    forall i | 0 <= i < |BEGINS| ensures !(s <= BEGINS[i]) {
      if s <= BEGINS[i] {
        OneLetterB(i, k + 5);
      }
    }
  }

  lemma NotProviderStart(s: string, k: nat)
    requires 0 < k && k + 10 < |s| && s[k + 10] == ' '
    ensures forall i :: 0 <= i < |PROVIDERS| ==> !ProviderCould(PROVIDERS[i], s)
  {
    if i :| 0 <= i < |PROVIDERS| && ProviderCould(PROVIDERS[i], s) {
      ProviderSize(i);
      var p := PROVIDERS[i];
      assert s[|p.prefix|..][k + 10 - |p.prefix|] == s[k + 10];
    }
  }

  lemma NotBearer(s: string, k: nat)
    requires k + 20 <= |s| && s[k + 9] == 'N' && s[k + 10] == ' '
    ensures !BearerCould(s)
  {
  }

  /** A header met in ordinary text starts its block. */
  lemma HeaderStarts(i: nat, previous: string, rest: string)
    requires i < |BEGINS|
    ensures Scan(Normal, previous, BEGINS[i] + rest)
         == Redacted(PrivateKey).Plus(Scan(Private(ENDS[i], ""), Last(previous, BEGINS[i]), rest))
  {
    var t := BEGINS[i] + rest;
    BeginSize(i);
    OnlyBegin(t, i);
    StepProgress(true, true, Normal, previous, t);
    assert Step(true, true, Normal, previous, t) == Act(|BEGINS[i]|, Redacted(PrivateKey), Private(ENDS[i], ""));
    assert t[..|BEGINS[i]|] == BEGINS[i] && t[|BEGINS[i]|..] == rest;
  }

  lemma BlockIsEnd(i: nat, previous: string, secret: string, after: string)
    requires i < |BEGINS| && Before(ENDS[i], secret + ENDS[i] + after, |secret|)
    ensures Scan(Private(ENDS[i], ""), previous, secret + ENDS[i] + after) == Scan(Normal, "-", after)
  {
    EndSize(i);
    assert ENDS[i][|ENDS[i]| - 1..] == "-";
    PrivateBlockAfter(ENDS[i], previous, secret, after);
  }

  /** A whole block from its header on. */
  lemma WholeBlock(i: nat, previous: string, secret: string, after: string)
    requires i < |BEGINS| && Before(ENDS[i], secret + ENDS[i] + after, |secret|)
    ensures Scan(Normal, previous, BEGINS[i] + (secret + ENDS[i] + after))
         == Redacted(PrivateKey).Plus(Scan(Normal, "-", after))
  {
    HeaderStarts(i, previous, secret + ENDS[i] + after);
    BlockIsEnd(i, Last(previous, BEGINS[i]), secret, after);
  }

  /** A text with a private-key block in it. */
  function Keyed(pre: string, i: nat, secret: string, after: string): string
    requires i < |BEGINS|
  {
    pre + BEGINS[i] + (secret + ENDS[i] + after)
  }

  lemma PathBefore(
    decide: Decisions, scan: (Mode, string, string) -> Output, pre: string, h: string, z: string, steps: seq<Action>)
    requires Publishes(decide, scan) && Path(decide, Normal, "", pre + h + z, |pre|, steps)
    ensures scan(Normal, "", pre + h + z) == Outputs(steps).Plus(scan(Normal, Last("", pre), h + z))
  {
    PathScans(decide, scan, Normal, "", pre + h + z, |pre|, steps);
    assert (pre + h + z)[..|pre|] == pre && (pre + h + z)[|pre|..] == h + z;
  }

  /** A private-key block anywhere in a text whose scan stands in ordinary text where the header begins:
      what is published is what came before, one marker, and what the text after the block gives. */
  lemma PrivateKeyRedacted(pre: string, i: nat, secret: string, after: string, steps: seq<Action>)
    requires i < |BEGINS| && Before(ENDS[i], secret + ENDS[i] + after, |secret|)
    requires Path(Offline, Normal, "", Keyed(pre, i, secret, after), |pre|, steps)
    ensures Scan(Normal, "", Keyed(pre, i, secret, after))
         == Outputs(steps).Plus(Redacted(PrivateKey).Plus(Scan(Normal, "-", after)))
  {
    OfflinePublishes();
    PathBefore(Offline, Scan, pre, BEGINS[i], secret + ENDS[i] + after, steps);
    WholeBlock(i, Last("", pre), secret, after);
  }

  /** Two whole texts that differ only inside such a block are scrubbed alike. */
  lemma PrivateKeyHidden(pre: string, i: nat, secret: string, secret': string, after: string)
    requires i < |BEGINS|
    requires Before(ENDS[i], secret + ENDS[i] + after, |secret|) && Before(ENDS[i], secret' + ENDS[i] + after, |secret'|)
    requires Stands(Keyed(pre, i, secret, after), |pre|)
    ensures Scan(Normal, "", Keyed(pre, i, secret, after)) == Scan(Normal, "", Keyed(pre, i, secret', after))
  {
    var steps :| Path(Offline, Normal, "", Keyed(pre, i, secret, after), |pre|, steps);
    HeaderSettles(i);
    PathStable(Offline, BEGINS[i], Normal, "", pre, secret + ENDS[i] + after, secret' + ENDS[i] + after, steps);
    PrivateKeyRedacted(pre, i, secret, after, steps);
    PrivateKeyRedacted(pre, i, secret', after, steps);
  }

  /** The suffix kept of a block stays shorter than the end marker. */
  lemma TrimShort(end: string, held: string)
    requires !Suffix(end, held)
    ensures |Trim(end, held)| < |end|
  {
    TrimNotWhole(end, held);
  }
}
