/** What is suppressed of an ordinary value does not show: quoted, scalar, header and token values. */
module ScrubberValues {
  import opened Wrappers
  import opened ScrubberText
  import opened ScrubberSpec
  import opened ScrubberStability
  import opened ScrubberPrivate
  import opened Scrubber

  // ---- What a value hides, told on its text alone

  /** A value in progress. Only a header inside double quotes has escapes. */
  predicate InValue(m: Mode) {
    m.Quoted? || m.Scalar? || m.Token? || (m.Header? && (m.outerQuote == Some('"') || !m.escaped))
  }

  /** What ends a value, unless it is hidden. */
  predicate Terminator(m: Mode, c: char) {
    match m
    case Quoted(_, quote, _, _) => c == quote
    case Scalar(_, _, _) => ScalarEnd(c)
    case Header(_, _, outerQuote, _) => if outerQuote == None then LineEnd(c) else outerQuote == Some(c)
    case Token(alphabet) => !InAlphabet(alphabet, c)
    case _ => false
  }

  /** What hides the next character of a value, whatever that is. */
  function Escapes(m: Mode): set<char> {
    match m
    case Quoted(_, _, _, _) => {'\\'}
    case Scalar(_, _, _) => {'\\'}
    case Header(_, _, outerQuote, _) => if outerQuote == Some('"') then {'\\', '`'} else {}
    case _ => {}
  }

  /** Position `i` of `s` is hidden: directly before it stands an escape that is not hidden itself.
      Whether the first position is hidden is given. */
  predicate Hidden(escapes: set<char>, first: bool, s: string, i: nat)
    requires i <= |s|
  {
    if i == 0 then first else s[i - 1] in escapes && !Hidden(escapes, first, s, i - 1)
  }

  lemma {:induction false} HiddenTail(escapes: set<char>, first: bool, s: string, i: nat)
    requires 0 < i <= |s|
    ensures Hidden(escapes, first, s, i) <==> Hidden(escapes, s[0] in escapes && !first, s[1..], i - 1)
  {
    if i > 1 {
      HiddenTail(escapes, first, s, i - 1);
      assert s[1..][i - 2] == s[i - 1];
    }
  }

  /** Whether a position looks hidden depends only on what stands before it. */
  lemma {:induction false} HiddenPrefix(escapes: set<char>, first: bool, s: string, k: nat, i: nat)
    requires i <= k <= |s|
    ensures Hidden(escapes, first, s[..k], i) <==> Hidden(escapes, first, s, i)
  {
    if i > 0 {
      HiddenPrefix(escapes, first, s, k, i - 1);
    }
  }

  predicate FirstHidden(m: Mode) { (m.Quoted? || m.Scalar? || m.Header?) && m.escaped }

  predicate HiddenIn(m: Mode, s: string, i: nat)
    requires i <= |s|
  {
    Hidden(Escapes(m), FirstHidden(m), s, i)
  }

  /** No terminator in `secret` that is not hidden. */
  predicate AllSuppressed(m: Mode, secret: string) {
    forall i :: 0 <= i < |secret| && Terminator(m, secret[i]) ==> HiddenIn(m, secret, i)
  }

  /** The first terminator of `s` that is not hidden stands at `k`, or there is none and `k` is the length. */
  predicate EndsAt(m: Mode, s: string, k: nat) {
    && k <= |s| && AllSuppressed(m, s[..k])
    && (k < |s| ==> Terminator(m, s[k]) && !HiddenIn(m, s, k))
  }

  /** Every text has exactly one end of its value. */
  lemma EndExists(m: Mode, s: string) returns (k: nat)
    ensures EndsAt(m, s, k)
    ensures forall n: nat :: EndsAt(m, s, n) ==> n == k
  {
    k := 0;
    while k < |s| && !(Terminator(m, s[k]) && !HiddenIn(m, s, k))
      invariant k <= |s|
      invariant forall i :: 0 <= i < k && Terminator(m, s[i]) ==> HiddenIn(m, s, i)
    {
      k := k + 1;
    }
    SuppressedUpTo(m, s, k);
    forall n: nat | EndsAt(m, s, n) ensures n == k {
      SuppressedUpTo(m, s, n);
    }
  }

  lemma SuppressedUpTo(m: Mode, s: string, k: nat)
    requires k <= |s|
    ensures AllSuppressed(m, s[..k]) <==> forall i :: 0 <= i < k && Terminator(m, s[i]) ==> HiddenIn(m, s, i)
  {
    forall i | 0 <= i < k ensures HiddenIn(m, s[..k], i) <==> HiddenIn(m, s, i) {
      HiddenPrefix(Escapes(m), FirstHidden(m), s, k, i);
    }
  }

  // ---- What the scan does inside a value

  function Announced(m: Mode): Output
    requires InValue(m)
  {
    if Unstarted(m) then Redacted(m.reason) else NOTHING
  }

  /** The value after one more character of it. */
  function After(m: Mode, c: char): (m': Mode)
    requires InValue(m)
    ensures InValue(m')
  {
    if m.Token? then m else m.(started := true, escaped := c in Escapes(m) && !m.escaped)
  }

  /** The value behind `secret`: announced, and hiding the next character or not. */
  function Beyond(m: Mode, secret: string): (m': Mode)
    requires InValue(m)
    ensures InValue(m')
  {
    if m.Token? || secret == "" then m else m.(started := true, escaped := HiddenIn(m, secret, |secret|))
  }

  lemma SuppressedChar(m: Mode, c: char)
    requires InValue(m) && (Terminator(m, c) ==> FirstHidden(m))
    ensures CharStep(m, c) == Act(1, Announced(m), After(m, c))
  {
    match m
    case Quoted(_, _, _, _) =>
    case Scalar(_, _, _) =>
    case Header(_, _, outerQuote, _) => if outerQuote == Some('"') {}
    case Token(_) =>
  }

  lemma SuppressedStep(m: Mode, previous: string, s: string)
    requires InValue(m) && s != "" && (Terminator(m, s[0]) ==> FirstHidden(m))
    requires Unstarted(m) ==> FirstPrefix(MARKERS, s) == None
    ensures Step(true, true, m, previous, s) == Act(1, Announced(m), After(m, s[0]))
  {
    SuppressedChar(m, s[0]);
    assert Step(true, true, m, previous, s) == CharStep(m, s[0]);
  }

  lemma FirstSuppressed(m: Mode, previous: string, c: char, t: string)
    requires InValue(m) && (Terminator(m, c) ==> FirstHidden(m))
    requires Unstarted(m) ==> FirstPrefix(MARKERS, [c] + t) == None
    ensures Scan(m, previous, [c] + t) == Announced(m).Plus(Scan(After(m, c), [c], t))
  {
    var s := [c] + t;
    SuppressedStep(m, previous, s);
    ScanUnfold(m, previous, s, Act(1, Announced(m), After(m, c)));
    assert s[..1] == [c] && s[1..] == t;
  }

  lemma SecretParts(m: Mode, previous: string, secret: string, rest: string)
    requires InValue(m) && secret != "" && AllSuppressed(m, secret)
    ensures Terminator(m, secret[0]) ==> FirstHidden(m)
    ensures AllSuppressed(After(m, secret[0]), secret[1..])
    ensures Beyond(After(m, secret[0]), secret[1..]) == Beyond(m, secret)
    ensures secret + rest == [secret[0]] + (secret[1..] + rest)
    ensures Last([secret[0]], secret[1..]) == Last(previous, secret)
  {
    var m', tail := After(m, secret[0]), secret[1..];
    forall i | 0 < i <= |secret| ensures HiddenIn(m', tail, i - 1) <==> HiddenIn(m, secret, i) {
      HiddenTail(Escapes(m), FirstHidden(m), secret, i);
    }
    assert HiddenIn(m, secret, 0) <==> FirstHidden(m);
    forall i | 0 <= i < |tail| && Terminator(m', tail[i]) ensures HiddenIn(m', tail, i) {
      assert Terminator(m, secret[i + 1]) && HiddenIn(m, secret, i + 1);
    }
  }

  lemma {:induction false} SuppressedRun(m: Mode, previous: string, secret: string, rest: string)
    requires InValue(m) && !Unstarted(m) && AllSuppressed(m, secret)
    ensures Scan(m, previous, secret + rest) == Scan(Beyond(m, secret), Last(previous, secret), rest)
    decreases |secret|
  {
    if secret == "" {
      assert secret + rest == rest;
    } else {
      SecretParts(m, previous, secret, rest);
      FirstSuppressed(m, previous, secret[0], secret[1..] + rest);
      PlusNothing(Scan(After(m, secret[0]), [secret[0]], secret[1..] + rest));
      SuppressedRun(After(m, secret[0]), [secret[0]], secret[1..], rest);
    }
  }

  /** A value publishes at most the one marker that announces it. */
  lemma ValueRedacted(m: Mode, previous: string, secret: string, rest: string)
    requires InValue(m) && secret != "" && AllSuppressed(m, secret)
    requires Unstarted(m) ==> FirstPrefix(MARKERS, secret + rest) == None
    ensures Scan(m, previous, secret + rest)
         == Announced(m).Plus(Scan(Beyond(m, secret), Last(previous, secret), rest))
  {
    SecretParts(m, previous, secret, rest);
    FirstSuppressed(m, previous, secret[0], secret[1..] + rest);
    SuppressedRun(After(m, secret[0]), [secret[0]], secret[1..], rest);
  }

  // ---- What follows a value does not depend on the value's last character

  /** Only a letter starts anything but a private-key block. */
  lemma NonLetterStarts(s: string)
    requires s != "" && !Alphanumeric(s[0])
    ensures FirstProvider(PROVIDERS, s) == None && !BearerFits(true, s) && FirstField(true, FIELDS, s) == None
  {
    if FirstProvider(PROVIDERS, s) != None {
      LetterFirst(FirstProvider(PROVIDERS, s).value, s);
    }
    if BearerFits(true, s) {
      BearerLetterFirst(s);
    }
    if FirstField(true, FIELDS, s) != None {
      FieldLetterFirst(FirstField(true, FIELDS, s).value, s);
    }
  }

  lemma LetterFirst(i: nat, s: string)
    requires i < |PROVIDERS| && PROVIDERS[i].prefix <= s
    ensures s != "" && Alphanumeric(s[0])
  {
    var p := PROVIDERS[i].prefix;
    assert s[0] == p[0];
  }

  lemma BearerLetterFirst(s: string)
    requires BEARER <= Lower(s)
    ensures s != "" && Alphanumeric(s[0])
  {
    assert Lower(s)[0] == BEARER[0];
  }

  lemma FieldLetterFirst(i: nat, s: string)
    requires i < |FIELDS| && FIELDS[i] <= Lower(s)
    ensures s != "" && Alphanumeric(s[0])
  {
    FieldSize(i);
    assert Lower(s)[0] == FIELDS[i][0];
  }

  lemma SameStart(p: string, p': string, s: string)
    requires s != "" && (Alphanumeric(s[0]) ==> !AtBoundary(p) && !AtBoundary(p'))
    ensures Start(true, true, p, s) == Start(true, true, p', s)
  {
    if !Alphanumeric(s[0]) {
      NonLetterStarts(s);
    }
  }

  lemma SameNormal(p: string, p': string, s: string)
    requires s != "" && (Alphanumeric(s[0]) ==> !AtBoundary(p) && !AtBoundary(p'))
    ensures Scan(Normal, p, s) == Scan(Normal, p', s)
  {
    SameStart(p, p', s);
    var a := Step(true, true, Normal, p, s);
    assert a == Step(true, true, Normal, p', s);
    StepProgress(true, true, Normal, p, s);
    ScanUnfold(Normal, p, s, a);
    ScanUnfold(Normal, p', s, a);
  }

  /** The last character of a value: anything but for a token, whose characters are its alphabet's. */
  predicate Ends(m: Mode, previous: string) {
    m.Token? ==> previous != "" && InAlphabet(m.alphabet, previous[|previous| - 1])
  }

  lemma AfterValue(m: Mode, p: string, p': string, rest: string)
    requires InValue(m) && !Unstarted(m) && Ends(m, p) && Ends(m, p')
    ensures Scan(m, p, rest) == Scan(m, p', rest)
  {
    if rest != "" {
      var a := CharStep(m, rest[0]);
      CharProgress(m, rest[0]);
      ScanUnfold(m, p, rest, a);
      ScanUnfold(m, p', rest, a);
      if a.take == 0 {
        assert rest[..0] == "" && rest[0..] == rest;
        LeavesBetween(m, p, p', rest[0]);
        SameNormal(p, p', rest);
      }
    }
  }

  /** A value is left for ordinary text at a character that starts nothing, or inside a word. */
  lemma LeavesBetween(m: Mode, p: string, p': string, c: char)
    requires InValue(m) && CharStep(m, c).Act? && CharStep(m, c).take == 0 && Ends(m, p) && Ends(m, p')
    ensures CharStep(m, c).mode == Normal
    ensures Alphanumeric(c) ==> !AtBoundary(p) && !AtBoundary(p')
  {
  }

  // ---- Whole texts

  /** The mode in which a value's first character is suppressed. */
  function Inner(m: Mode): Mode {
    match m
    case Value(reason, _, rawHeader, outerQuote) =>
      if rawHeader then Header(reason, false, outerQuote, false) else Scalar(reason, false, false)
    case _ => m
  }

  /** The value's first character is one that is not published before the value. */
  predicate Enters(m: Mode, c: char) {
    m.Value? ==>
      && !HorizontalSpace(c) && !(m.multiline && Space(c))
      && if m.rawHeader then !LineEnd(c) else !Quote(c) && !ScalarEnd(c)
  }

  /** All of `secret` is suppressed where a value is in progress or about to begin. */
  predicate Secret(m: Mode, secret: string, rest: string) {
    && InValue(Inner(m)) && secret != "" && Enters(m, secret[0])
    && AllSuppressed(Inner(m), secret)
    && (Unstarted(Inner(m)) ==> FirstPrefix(MARKERS, secret + rest) == None)
  }

  lemma InnerScan(m: Mode, previous: string, s: string)
    requires s != "" && Enters(m, s[0])
    ensures Scan(m, previous, s) == Scan(Inner(m), previous, s)
  {
    if m.Value? {
      ScanUnfold(m, previous, s, Act(0, NOTHING, Inner(m)));
      assert s[..0] == "" && s[0..] == s;
      PlusNothing(Scan(Inner(m), previous, s));
    }
  }

  /** A value that reaches the end of the text. */
  lemma ValueAtEnd(m: Mode, previous: string, secret: string)
    requires Secret(m, secret, "")
    ensures Scan(m, previous, secret) == Announced(Inner(m))
  {
    assert secret + "" == secret;
    InnerScan(m, previous, secret);
    ValueRedacted(Inner(m), previous, secret, "");
    PlusNothing(Announced(Inner(m)));
  }

  lemma Unseen(m: Mode, previous: string, secret: string, secret': string, rest: string)
    requires Secret(m, secret, rest) && Secret(m, secret', rest)
    requires HiddenIn(Inner(m), secret, |secret|) <==> HiddenIn(Inner(m), secret', |secret'|)
    ensures Scan(m, previous, secret + rest) == Scan(m, previous, secret' + rest)
  {
    InnerScan(m, previous, secret + rest);
    InnerScan(m, previous, secret' + rest);
    var inner := Inner(m);
    UnseenInside(inner, previous, secret, secret', rest);
  }

  lemma UnseenInside(m: Mode, previous: string, secret: string, secret': string, rest: string)
    requires InValue(m) && secret != "" && secret' != "" && AllSuppressed(m, secret) && AllSuppressed(m, secret')
    requires Unstarted(m) ==>
      FirstPrefix(MARKERS, secret + rest) == None && FirstPrefix(MARKERS, secret' + rest) == None
    requires HiddenIn(m, secret, |secret|) <==> HiddenIn(m, secret', |secret'|)
    ensures Scan(m, previous, secret + rest) == Scan(m, previous, secret' + rest)
  {
    ValueRedacted(m, previous, secret, rest);
    ValueRedacted(m, previous, secret', rest);
    LastInValue(m, previous, secret);
    LastInValue(m, previous, secret');
    assert Beyond(m, secret) == Beyond(m, secret');
    AfterValue(Beyond(m, secret), Last(previous, secret), Last(previous, secret'), rest);
  }

  lemma LastInValue(m: Mode, previous: string, secret: string)
    requires InValue(m) && secret != "" && AllSuppressed(m, secret)
    ensures Ends(m, Last(previous, secret))
  {
    if m.Token? {
      assert !HiddenIn(m, secret, |secret| - 1);
      assert !Terminator(m, secret[|secret| - 1]);
    }
  }

  /** Where a scrubber stands in a value with nothing retained, two texts that go on with different
      secrets and then alike are scrubbed alike. The secrets may hold hidden terminators. */
  lemma ValueHidden(
    fed: string, given: Output, m: Mode, previous: string, secret: string, secret': string, rest: string)
    requires Tracks(fed, given, m, previous, "", false)
    requires Secret(m, secret, rest) && Secret(m, secret', rest)
    requires HiddenIn(Inner(m), secret, |secret|) <==> HiddenIn(Inner(m), secret', |secret'|)
    ensures Scan(Normal, "", fed + (secret + rest)) == Scan(Normal, "", fed + (secret' + rest))
  {
    Continues(fed, given, m, previous, secret + rest);
    Continues(fed, given, m, previous, secret' + rest);
    Unseen(m, previous, secret, secret', rest);
  }

  lemma Continues(fed: string, given: Output, m: Mode, previous: string, z: string)
    requires Tracks(fed, given, m, previous, "", false)
    ensures Scan(Normal, "", fed + z) == given.Plus(Scan(m, previous, z))
  {
    assert Follows(fed + z, given, m, previous, "" + z);
    assert "" + z == z;
  }
}
