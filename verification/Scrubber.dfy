/** The online scrubber: it sees one character at a time and refines the offline scan. */
module Scrubber {
  import opened Wrappers
  import opened ScrubberText
  import opened ScrubberSpec
  import opened ScrubberStability
  import opened ScrubberPrivate

  /** Each reason once, in the order of its first appearance. */
  function Distinct(s: seq<Reason>): seq<Reason> {
    if s == [] then [] else AddReason(Distinct(s[..|s| - 1]), s[|s| - 1])
  }

  function AddReason(d: seq<Reason>, r: Reason): seq<Reason> { if r in d then d else d + [r] }

  lemma {:induction false} DistinctReasons(s: seq<Reason>)
    ensures forall r :: r in Distinct(s) <==> r in s
    ensures forall i, j :: 0 <= i < j < |Distinct(s)| ==> Distinct(s)[i] != Distinct(s)[j]
  {
    if s != [] {
      DistinctReasons(s[..|s| - 1]);
    }
  }

  lemma DistinctPush(s: seq<Reason>, r: Reason)
    ensures Distinct(s + [r]) == AddReason(Distinct(s), r)
  {
    assert (s + [r])[..|s|] == s;
  }

  lemma {:induction false} DistinctPlus(a: seq<Reason>, b: seq<Reason>)
    ensures Distinct(Distinct(a) + Distinct(b)) == Distinct(a + b)
  {
    if b == [] {
      assert a + b == a;
      DistinctAgain(a);
      assert Distinct(a) + [] == Distinct(a);
    } else {
      var front, last := b[..|b| - 1], b[|b| - 1];
      DistinctPlus(a, front);
      assert a + b == a + front + [last];
      DistinctPush(a + front, last);
      PlusPush(Distinct(a), Distinct(front), last);
    }
  }

  lemma PlusPush(a: seq<Reason>, d: seq<Reason>, r: Reason)
    ensures Distinct(a + AddReason(d, r)) == AddReason(Distinct(a + d), r)
  {
    DistinctReasons(a + d);
    if r !in d {
      assert a + (d + [r]) == (a + d) + [r];
      DistinctPush(a + d, r);
    }
  }

  lemma {:induction false} DistinctAgain(a: seq<Reason>)
    ensures Distinct(Distinct(a)) == Distinct(a)
  {
    if a != [] {
      var front, last := a[..|a| - 1], a[|a| - 1];
      DistinctAgain(front);
      DistinctReasons(front);
      DistinctPush(Distinct(front), last);
    }
  }

  datatype ScrubResult = ScrubResult(text: string, redactionCount: nat, reasons: seq<Reason>, pendingChars: nat)

  const EMPTY := ScrubResult("", 0, [], 0)

  /** The result reports the published text and its redactions. */
  predicate Reports(r: ScrubResult, o: Output) {
    r.text == o.text && r.redactionCount == |o.redactions| && r.reasons == Distinct(o.redactions)
  }

  function Append(r: ScrubResult, text: string): ScrubResult { r.(text := r.text + text) }

  function Redact(r: ScrubResult, reason: Reason): ScrubResult {
    r.(text := r.text + Marker(reason), redactionCount := r.redactionCount + 1,
       reasons := if reason in r.reasons then r.reasons else r.reasons + [reason])
  }

  lemma AppendReports(r: ScrubResult, o: Output, text: string)
    requires Reports(r, o)
    ensures Reports(Append(r, text), o.Plus(Published(text)))
  {
    assert o.redactions + [] == o.redactions;
  }

  lemma RedactReports(r: ScrubResult, o: Output, reason: Reason)
    requires Reports(r, o)
    ensures Reports(Redact(r, reason), o.Plus(Redacted(reason)))
  {
    assert (o.redactions + [reason])[..|o.redactions|] == o.redactions;
  }

  lemma BearerReports(r: ScrubResult, o: Output, head: string)
    requires Reports(r, o)
    ensures Reports(Redact(Append(r, head), Authorization), o.Plus(Published(head).Plus(Redacted(Authorization))))
  {
    AppendReports(r, o, head);
    RedactReports(Append(r, head), o.Plus(Published(head)), Authorization);
    PlusAssociates(o, Published(head), Redacted(Authorization));
  }

  lemma PlusNothing(o: Output)
    ensures o.Plus(NOTHING) == o && NOTHING.Plus(o) == o
  {
  }

  /** However the rest of the text turns out, what was given so far plus the scan from here is
      the scan of the whole. At the end of the text the rest is empty. */
  ghost predicate Tracks(fed: string, given: Output, m: Mode, previous: string, s: string, final: bool) {
    forall z: string :: (final ==> z == "") ==> Follows(fed + z, given, m, previous, s + z)
  }

  ghost predicate Follows(whole: string, given: Output, m: Mode, previous: string, rest: string) {
    Scan(Normal, "", whole) == given.Plus(Scan(m, previous, rest))
  }

  lemma TracksStep(fed: string, given: Output, m: Mode, previous: string, s: string, final: bool, a: Action)
    requires Tracks(fed, given, m, previous, s, final)
    requires s != "" && Short(s) && a == Step(final, false, m, previous, s) && a.Act?
    ensures a.take <= |s| && (a.take > 0 || Rank(a.mode) < Rank(m))
    ensures Tracks(fed, given.Plus(a.out), a.mode, Last(previous, s[..a.take]), s[a.take..], final)
  {
    StepProgress(final, false, m, previous, s);
    forall z: string | final ==> z == ""
      ensures Follows(fed + z, given.Plus(a.out), a.mode, Last(previous, s[..a.take]), s[a.take..] + z)
    {
      assert Follows(fed + z, given, m, previous, s + z);
      StepAgrees(m, previous, s, z, final, a);
      FollowsStep(fed + z, given, m, previous, s + z, a);
      assert (s + z)[..a.take] == s[..a.take] && (s + z)[a.take..] == s[a.take..] + z;
    }
  }

  lemma StepAgrees(m: Mode, previous: string, s: string, z: string, final: bool, a: Action)
    requires s != "" && Short(s) && a == Step(final, false, m, previous, s) && a.Act? && (final ==> z == "")
    ensures a == Step(true, true, m, previous, s + z)
  {
    if final {
      assert s + z == s;
      FinalStepAgrees(m, previous, s);
    } else {
      StepStable(false, m, previous, s, z);
    }
  }

  /** The scan goes on behind one step of the scanner with the whole text in view. */
  lemma FollowsStep(whole: string, given: Output, m: Mode, previous: string, rest: string, a: Action)
    requires Follows(whole, given, m, previous, rest)
    requires rest != "" && a == Step(true, true, m, previous, rest) && a.Act? && a.take <= |rest|
    ensures Follows(whole, given.Plus(a.out), a.mode, Last(previous, rest[..a.take]), rest[a.take..])
  {
    ScanUnfold(m, previous, rest, a);
    PlusAssociates(given, a.out, Scan(a.mode, Last(previous, rest[..a.take]), rest[a.take..]));
  }

  lemma PlusAssociates(a: Output, b: Output, c: Output)
    ensures a.Plus(b).Plus(c) == a.Plus(b.Plus(c))
  {
  }

  lemma TracksPush(fed: string, given: Output, m: Mode, previous: string, s: string, c: char)
    requires Tracks(fed, given, m, previous, s, false)
    ensures Tracks(fed + [c], given, m, previous, s + [c], false)
  {
    var follows := (whole: string, rest: string) => Follows(whole, given, m, previous, rest);
    forall z: string ensures follows(fed + z, s + z) {
      assert Follows(fed + z, given, m, previous, s + z);
    }
    PushShift(follows, fed, s, c);
    forall z: string ensures Follows(fed + [c] + z, given, m, previous, s + [c] + z) {
      assert follows(fed + [c] + z, s + [c] + z);
    }
  }

  lemma PushShift(p: (string, string) -> bool, fed: string, s: string, c: char)
    requires forall z: string :: p(fed + z, s + z)
    ensures forall z: string :: p(fed + [c] + z, s + [c] + z)
  {
    forall z: string ensures p(fed + [c] + z, s + [c] + z) {
      var cz := [c] + z;
      assert fed + cz == fed + [c] + z && s + cz == s + [c] + z;
    }
  }

  /** Between calls the scrubber waits for more text, so little is retained. */
  ghost predicate Resting(m: Mode, previous: string, s: string) {
    s == "" || Step(false, false, m, previous, s) == Wait
  }

  /** The end marker of a private block is one of the table's, and its kept suffix is shorter. */
  ghost predicate SuffixBounded(m: Mode) {
    m.Private? ==> m.end in ENDS && |m.suffix| < |m.end|
  }

  lemma StepBounded(final: bool, m: Mode, previous: string, s: string)
    requires s != "" && SuffixBounded(m) && Step(final, false, m, previous, s).Act?
    ensures SuffixBounded(Step(final, false, m, previous, s).mode)
  {
    if m == Normal {
      StartBounded(final, previous, s);
    } else {
      CharBounded(m, s[0]);
    }
  }

  lemma StartBounded(final: bool, previous: string, s: string)
    requires s != ""
    ensures var a := Start(final, false, previous, s); a != None && a.value.Act? ==> SuffixBounded(a.value.mode)
  {
    if FirstPrefix(BEGINS, s) != None {
      EndSize(FirstPrefix(BEGINS, s).value);
    }
  }

  lemma CharBounded(m: Mode, c: char)
    requires m != Normal && SuffixBounded(m)
    ensures CharStep(m, c).Act? && SuffixBounded(CharStep(m, c).mode)
  {
    match m
    case Private(end, suffix) => PrivateBounded(end, suffix, c);
    case _ =>
  }

  lemma PrivateBounded(end: string, suffix: string, c: char)
    requires end in ENDS && |suffix| < |end|
    ensures CharStep(Private(end, suffix), c).Act? && SuffixBounded(CharStep(Private(end, suffix), c).mode)
  {
    if !Suffix(end, suffix + [c]) {
      TrimShort(end, suffix + [c]);
    }
  }

  lemma RestingBound(m: Mode, previous: string, s: string)
    requires Resting(m, previous, s) && SuffixBounded(m)
    ensures NoLongRun(s)
    ensures |s| + (if m.Private? then |m.suffix| else 0) <= 38
  {
    if s != "" {
      WaitBound(m, previous, s);
    }
    if m.Private? {
      var i :| 0 <= i < |ENDS| && ENDS[i] == m.end;
      EndSize(i);
    }
  }

  class ObservationTextSanitizer {
    var pending: string
    var previous: string
    var mode: Mode
    var finished: bool

    /** All text pushed, and all output returned, since construction. */
    ghost var fed: string
    ghost var given: Output

    ghost predicate Valid()
      reads this
    {
      && (finished ==> given == Scan(Normal, "", fed))
      && (!finished ==>
        && Tracks(fed, given, mode, previous, pending, false)
        && Resting(mode, previous, pending)
        && SuffixBounded(mode))
    }

    constructor ()
      ensures Valid() && !finished && fed == "" && given == NOTHING
    {
      pending, previous, mode, finished := "", "", Normal, false;
      fed, given := "", NOTHING;
      new;
      forall z: string ensures Follows("" + z, NOTHING, Normal, "", "" + z) {
        PlusNothing(Scan(Normal, "", "" + z));
      }
    }

    function PendingChars(): nat
      reads this
    {
      |pending| + if mode.Private? then |mode.suffix| else 0
    }

    method Take(count: nat) returns (consumed: string)
      requires count <= |pending|
      modifies this`pending, this`previous
      ensures consumed == old(pending)[..count] && pending == old(pending)[count..]
      ensures previous == Last(old(previous), consumed)
    {
      consumed := pending[..count];
      pending := pending[count..];
      if consumed != "" {
        previous := [consumed[|consumed| - 1]];
      }
    }

    /** The start of a redaction in ordinary text, if there is one. */
    method StartRedaction(final: bool, result: ScrubResult, ghost out: Output) returns (r: ScrubResult, started: bool)
      requires pending != "" && mode == Normal && Reports(result, out)
      modifies this`pending, this`previous, this`mode
      ensures started <==> Start(final, false, old(previous), old(pending)) != None
      ensures started ==>
        var a := Start(final, false, old(previous), old(pending)).value;
        && a.Act? && a.take <= |old(pending)|
        && mode == a.mode && pending == old(pending)[a.take..]
        && previous == Last(old(previous), old(pending)[..a.take])
        && Reports(r, out.Plus(a.out))
      ensures !started ==> r == result && pending == old(pending) && previous == old(previous) && mode == Normal
    {
      r, started := result, true;
      match FirstPrefix(BEGINS, pending) {
        case Some(i) =>
          var _ := Take(|BEGINS[i]|);
          r := Redact(result, PrivateKey);
          RedactReports(result, out, PrivateKey);
          mode := Private(ENDS[i], "");
          return;
        case None =>
      }
      if !AtBoundary(previous) {
        return result, false;
      }
      match FirstProvider(PROVIDERS, pending) {
        case Some(i) =>
          var _ := Take(PROVIDERS[i].Required());
          r := Redact(result, ProviderToken);
          RedactReports(result, out, ProviderToken);
          mode := Token(PROVIDERS[i].alphabet);
          return;
        case None =>
      }
      r, started := StartWord(final, result, out);
    }

    /** A bearer word or a field name, where neither a private key nor a provider token starts. */
    method StartWord(final: bool, result: ScrubResult, ghost out: Output) returns (r: ScrubResult, started: bool)
      requires pending != "" && mode == Normal && Reports(result, out) && AtBoundary(previous)
      requires FirstPrefix(BEGINS, pending) == None && FirstProvider(PROVIDERS, pending) == None
      modifies this`pending, this`previous, this`mode
      ensures started <==> Start(final, false, old(previous), old(pending)) != None
      ensures started ==>
        var a := Start(final, false, old(previous), old(pending)).value;
        && a.Act? && a.take <= |old(pending)|
        && mode == a.mode && pending == old(pending)[a.take..]
        && previous == Last(old(previous), old(pending)[..a.take])
        && Reports(r, out.Plus(a.out))
      ensures !started ==> r == result && pending == old(pending) && previous == old(previous) && mode == Normal
    {
      r, started := result, true;
      if BearerFits(false, pending) {
        r := StartBearer(result, out);
        return;
      }
      match FirstField(final, FIELDS, pending) {
        case Some(i) =>
          var keyQuote := QuoteBefore(previous);
          var name := Take(|FIELDS[i]|);
          r := Append(result, name);
          AppendReports(result, out, name);
          mode := Separator(FieldReason(i), keyQuote, false);
          return;
        case None =>
          return result, false;
      }
    }

    method StartBearer(result: ScrubResult, ghost out: Output) returns (r: ScrubResult)
      requires BearerFits(false, pending) && Reports(result, out)
      modifies this`pending, this`previous, this`mode
      ensures
        var a := BearerAction(old(pending), 6 + SpaceRun(old(pending), 6));
        && mode == a.mode && pending == old(pending)[a.take..]
        && previous == Last(old(previous), old(pending)[..a.take])
        && Reports(r, out.Plus(a.out))
    {
      var n := 6 + SpaceRun(pending, 6);
      var head := TakeBearer(n);
      r := Redact(Append(result, head), Authorization);
      BearerReports(result, out, head);
      mode := Token(BearerAlphabet);
    }

    /** Takes the bearer word with its spaces, then the eight token characters. */
    method TakeBearer(n: nat) returns (head: string)
      requires n + 8 <= |pending|
      modifies this`pending, this`previous
      ensures head == old(pending)[..n] && pending == old(pending)[n + 8..]
      ensures previous == Last(old(previous), old(pending)[..n + 8])
    {
      ghost var s := pending;
      head := Take(n);
      var value := Take(8);
      assert s[n..][..8] == s[n..n + 8] && s[n..][8..] == s[n + 8..];
      assert s[..n + 8] == head + value;
    }

    /** One pass of the drain loop: the step of the automaton, taken in place. */
    method DrainStep(final: bool, result: ScrubResult, ghost out: Output) returns (r: ScrubResult, waits: bool)
      requires pending != "" && Reports(result, out)
      modifies this`pending, this`previous, this`mode
      ensures waits <==> Step(final, false, old(mode), old(previous), old(pending)) == Wait
      ensures waits ==> r == result && pending == old(pending) && previous == old(previous) && mode == old(mode)
      ensures !waits ==>
        var a := Step(final, false, old(mode), old(previous), old(pending));
        && a.take <= |old(pending)|
        && mode == a.mode && pending == old(pending)[a.take..]
        && previous == Last(old(previous), old(pending)[..a.take])
        && Reports(r, out.Plus(a.out))
    {
      StepProgress(final, false, mode, previous, pending);
      r, waits := result, false;
      if Unstarted(mode) {
        match FirstPrefix(MARKERS, pending) {
          case Some(i) =>
            var existing := Take(|MARKERS[i]|);
            r := Append(result, existing);
            AppendReports(result, out, existing);
            mode := mode.(started := true);
            return;
          case None =>
        }
        if !final && MarkerCould(pending) {
          waits := true;
          return;
        }
      }
      if mode == Normal {
        var started;
        r, started := StartRedaction(final, result, out);
        if started {
          return;
        }
        if !final && CouldStart(previous, pending) {
          waits := true;
          return;
        }
        var text := Take(1);
        r := Append(result, text);
        AppendReports(result, out, text);
      } else {
        r := CharacterStep(pending[0], result, out);
      }
    }

    /** The step of every mode other than ordinary text. */
    method CharacterStep(c: char, result: ScrubResult, ghost out: Output) returns (r: ScrubResult)
      requires pending != "" && c == pending[0] && mode != Normal && Reports(result, out)
      modifies this`pending, this`previous, this`mode
      ensures
        var a := CharStep(old(mode), c);
        && a.Act? && a.take <= |old(pending)|
        && mode == a.mode && pending == old(pending)[a.take..]
        && previous == Last(old(previous), old(pending)[..a.take])
        && Reports(r, out.Plus(a.out))
    {
      CharProgress(mode, c);
      PlusNothing(out);
      r := result;
      match mode {
        case Separator(_, _, _) => r := SeparatorStep(c, result, out);
        case Value(_, _, _, _) => r := ValueStep(c, result, out);
        case Quoted(reason, quote, escaped, started) =>
          if !escaped && c == quote {
            r := Publish(result, out);
            mode := Scalar(reason, started, false);
          } else {
            r := SuppressOne(!escaped && c == '\\', result, out);
          }
        case Header(reason, started, outerQuote, escaped) =>
          if outerQuote == None && LineEnd(c) {
            mode := Normal;
          } else if !escaped && outerQuote == Some(c) {
            r := Publish(result, out);
            mode := Scalar(reason, started, false);
          } else {
            r := SuppressOne(outerQuote == Some('"') && !escaped && (c == '\\' || c == '`'), result, out);
          }
        case Scalar(reason, started, escaped) =>
          if !escaped && Quote(c) {
            r := Publish(result, out);
            mode := Quoted(reason, c, false, started);
          } else if !escaped && ScalarEnd(c) {
            mode := Normal;
          } else {
            r := SuppressOne(!escaped && c == '\\', result, out);
          }
        case Token(alphabet) =>
          if InAlphabet(alphabet, c) {
            var _ := Take(1);
          } else {
            mode := Normal;
          }
        case Private(end, suffix) =>
          var taken := Take(1);
          assert taken == [c];
          KeepSuffix(end, suffix + taken);
      }
    }

    method SeparatorStep(c: char, result: ScrubResult, ghost out: Output) returns (r: ScrubResult)
      requires pending != "" && c == pending[0] && mode.Separator? && Reports(result, out)
      modifies this`pending, this`previous, this`mode
      ensures
        var a := CharStep(old(mode), c);
        && mode == a.mode && pending == old(pending)[a.take..]
        && previous == Last(old(previous), old(pending)[..a.take])
        && Reports(r, out.Plus(a.out))
    {
      var Separator(reason, keyQuote, closedQuote) := mode;
      PlusNothing(out);
      r := result;
      if HorizontalSpace(c) || (keyQuote != None && closedQuote && Space(c)) {
        r := Publish(result, out);
      } else if !closedQuote && Quote(c) {
        mode := mode.(closedQuote := true);
        r := Publish(result, out);
      } else if c == ':' || c == '=' {
        r := Publish(result, out);
        mode := Value(
          reason,
          keyQuote != None && closedQuote && c == ':',
          !closedQuote && (reason == Authorization || reason == Cookie),
          if closedQuote then None else keyQuote);
      } else {
        mode := Normal;
      }
    }

    method ValueStep(c: char, result: ScrubResult, ghost out: Output) returns (r: ScrubResult)
      requires pending != "" && c == pending[0] && mode.Value? && Reports(result, out)
      modifies this`pending, this`previous, this`mode
      ensures
        var a := CharStep(old(mode), c);
        && mode == a.mode && pending == old(pending)[a.take..]
        && previous == Last(old(previous), old(pending)[..a.take])
        && Reports(r, out.Plus(a.out))
    {
      var Value(reason, multiline, rawHeader, outerQuote) := mode;
      PlusNothing(out);
      r := result;
      if HorizontalSpace(c) || (multiline && Space(c)) {
        r := Publish(result, out);
      } else if rawHeader && !LineEnd(c) {
        mode := Header(reason, false, outerQuote, false);
      } else if Quote(c) {
        r := Publish(result, out);
        mode := Quoted(reason, c, false, false);
      } else if ScalarEnd(c) {
        mode := Normal;
      } else {
        mode := Scalar(reason, false, false);
      }
    }

    /** Publishes the next character. */
    method Publish(result: ScrubResult, ghost out: Output) returns (r: ScrubResult)
      requires pending != "" && Reports(result, out)
      modifies this`pending, this`previous
      ensures pending == old(pending)[1..] && previous == Last(old(previous), old(pending)[..1])
      ensures Reports(r, out.Plus(Published([old(pending)[0]])))
    {
      var text := Take(1);
      r := Append(result, text);
      AppendReports(result, out, text);
    }

    /** Discards the next character of a value, announcing the redaction the first time. */
    method SuppressOne(escaped: bool, result: ScrubResult, ghost out: Output) returns (r: ScrubResult)
      requires pending != "" && (mode.Quoted? || mode.Header? || mode.Scalar?) && Reports(result, out)
      modifies this`pending, this`previous, this`mode
      ensures
        var a := Suppress(old(mode), escaped);
        && mode == a.mode && pending == old(pending)[1..]
        && previous == Last(old(previous), old(pending)[..1])
        && Reports(r, out.Plus(a.out))
    {
      PlusNothing(out);
      r := result;
      if !mode.started {
        r := Redact(result, mode.reason);
        RedactReports(result, out, mode.reason);
        mode := mode.(started := true);
      }
      mode := mode.(escaped := escaped);
      var _ := Take(1);
    }

    /** Leaves a private block at its end marker, or keeps what may still begin the marker. */
    method KeepSuffix(end: string, held: string)
      modifies this`mode
      ensures mode == if Suffix(end, held) then Normal else Private(end, Trim(end, held))
    {
      if |end| <= |held| && held[|held| - |end|..] == end {
        mode := Normal;
        return;
      }
      var suffix := held;
      while suffix != "" && !(suffix <= end)
        invariant Trim(end, suffix) == Trim(end, held)
        decreases |suffix|
      {
        suffix := suffix[1..];
      }
      mode := Private(end, suffix);
    }

    /** Consumes as much of the retained text as the text seen so far decides. */
    method Drain(final: bool, result: ScrubResult, ghost out: Output) returns (r: ScrubResult, ghost all: Output)
      requires Tracks(fed, given, mode, previous, pending, final) && SuffixBounded(mode)
      requires Short(pending) && Reports(result, out)
      modifies this`pending, this`previous, this`mode, this`given
      ensures Tracks(fed, given, mode, previous, pending, final) && SuffixBounded(mode)
      ensures final ==> pending == ""
      ensures !final ==> Resting(mode, previous, pending)
      ensures Reports(r, out.Plus(all)) && given == old(given).Plus(all)
    {
      r, all := result, NOTHING;
      PlusNothing(out);
      PlusNothing(given);
      while pending != ""
        invariant Tracks(fed, given, mode, previous, pending, final) && SuffixBounded(mode) && Short(pending)
        invariant Reports(r, out.Plus(all)) && given == old(given).Plus(all)
        decreases |pending|, Rank(mode)
      {
        ghost var a := Step(final, false, mode, previous, pending);
        StepProgress(final, false, mode, previous, pending);
        if a.Act? {
          TracksStep(fed, given, mode, previous, pending, final, a);
          StepBounded(final, mode, previous, pending);
          ShortSuffix(pending, a.take);
          PlusAssociates(out, all, a.out);
          PlusAssociates(old(given), all, a.out);
        }
        var waits;
        r, waits := DrainStep(final, r, out.Plus(all));
        if waits {
          return;
        }
        given := given.Plus(a.out);
        all := all.Plus(a.out);
      }
    }

    /** Holds one more character. */
    method Receive(c: char)
      requires Valid() && !finished
      modifies this`pending, this`fed
      ensures pending == old(pending) + [c] && fed == old(fed) + [c] && Short(pending)
      ensures Tracks(fed, given, mode, previous, pending, false) && SuffixBounded(mode)
    {
      RestingBound(mode, previous, pending);
      ShortPush(pending, c);
      TracksPush(fed, given, mode, previous, pending, c);
      pending := pending + [c];
      fed := fed + [c];
    }

    method PushCharacter(c: char, result: ScrubResult, ghost out: Output, ghost base: Output)
      returns (r: ScrubResult, ghost all: Output)
      requires Valid() && !finished && Reports(result, out) && given == base.Plus(out)
      modifies this`pending, this`previous, this`mode, this`fed, this`given
      ensures Valid() && fed == old(fed) + [c]
      ensures Reports(r, all) && given == base.Plus(all)
    {
      Receive(c);
      r, all := Drain(false, result, out);
      PlusAssociates(base, out, all);
      all := out.Plus(all);
    }

    /** Feeds more text. Afterwards at most 38 characters are retained, however the text was cut. */
    method Push(chunk: string) returns (r: Option<ScrubResult>, ghost all: Output)
      requires Valid()
      modifies this
      ensures Valid() && finished == old(finished)
      ensures r == None <==> old(finished)
      ensures finished ==> fed == old(fed) && given == old(given)
      ensures !finished ==> fed == old(fed) + chunk && given == old(given).Plus(all)
      ensures !finished ==> Reports(r.value, all) && r.value.pendingChars == PendingChars() <= 38
    {
      if finished {
        return None, NOTHING;
      }
      var result;
      result, all := PushAll(chunk);
      RestingBound(mode, previous, pending);
      r := Some(result.(pendingChars := PendingChars()));
    }

    method PushAll(chunk: string) returns (result: ScrubResult, ghost all: Output)
      requires Valid() && !finished
      modifies this
      ensures Valid() && !finished && fed == old(fed) + chunk
      ensures given == old(given).Plus(all) && Reports(result, all)
    {
      result, all := EMPTY, NOTHING;
      PlusNothing(given);
      ghost var fed0, given0 := fed, given;
      assert fed0 + chunk[..0] == fed0;
      for i := 0 to |chunk|
        invariant Valid() && !finished && fed == fed0 + chunk[..i]
        invariant Reports(result, all) && given == given0.Plus(all)
      {
        ConcatNext(fed0, chunk, i);
        result, all := PushCharacter(chunk[i], result, all, given0);
      }
      assert chunk[..|chunk|] == chunk;
    }

    static lemma ConcatNext(fed: string, chunk: string, i: nat)
      requires i < |chunk|
      ensures fed + chunk[..i] + [chunk[i]] == fed + chunk[..i + 1]
    {
    }

    /** Ends the text: everything retained is decided, and the output is the offline scan's. */
    method Finish() returns (r: ScrubResult, ghost all: Output)
      requires Valid()
      modifies this
      ensures Valid() && finished && fed == old(fed)
      ensures given == old(given).Plus(all) && given == Scan(Normal, "", fed)
      ensures Reports(r, all) && r.pendingChars == 0
    {
      r, all := EMPTY, NOTHING;
      PlusNothing(given);
      if finished {
        return;
      }
      TracksEnd(fed, given, mode, previous, pending);
      RestingBound(mode, previous, pending);
      ShortOfNoRun(pending);
      r, all := Drain(true, EMPTY, NOTHING);
      PlusNothing(all);
      r := r.(pendingChars := 0);
      AtEnd(fed, given, mode, previous);
      pending, mode, finished := "", Normal, true;
    }
  }

  lemma ShortOfNoRun(s: string)
    requires NoLongRun(s)
    ensures Short(s)
  {
    if s != "" {
      var front := s[..|s| - 1];
      forall i: nat | i + 17 <= |front| ensures !AllSpace(front, i, 17) {
        var k :| i <= k < i + 17 && !HorizontalSpace(s[k]) by { assert !AllSpace(s, i, 17); }
        assert front[k] == s[k];
      }
    }
  }

  /** What holds for every continuation holds for the empty one. */
  lemma TracksEnd(fed: string, given: Output, m: Mode, previous: string, s: string)
    requires Tracks(fed, given, m, previous, s, false)
    ensures Tracks(fed, given, m, previous, s, true)
  {
  }

  lemma AtEnd(fed: string, given: Output, m: Mode, previous: string)
    requires Tracks(fed, given, m, previous, "", true)
    ensures given == Scan(Normal, "", fed)
  {
    assert Follows(fed + "", given, m, previous, "" + "");
    assert fed + "" == fed;
    PlusNothing(given);
  }

  /** Two results one after the other, with repeated reasons dropped. */
  function Then(r: ScrubResult, next: ScrubResult): ScrubResult {
    ScrubResult(r.text + next.text, r.redactionCount + next.redactionCount, Distinct(r.reasons + next.reasons), 0)
  }

  lemma JoinedReports(r: ScrubResult, next: ScrubResult, o: Output, more: Output)
    requires Reports(r, o) && Reports(next, more)
    ensures Reports(Then(r, next), o.Plus(more))
  {
    DistinctPlus(o.redactions, more.redactions);
  }

  /** The end of the text, and the result of everything. */
  method FinishAfter(sanitizer: ObservationTextSanitizer, soFar: ScrubResult) returns (r: ScrubResult)
    requires sanitizer.Valid() && Reports(soFar, sanitizer.given)
    modifies sanitizer
    ensures Reports(r, Scan(Normal, "", old(sanitizer.fed))) && r.pendingChars == 0
  {
    ghost var before := sanitizer.given;
    var last;
    ghost var more;
    last, more := sanitizer.Finish();
    JoinedReports(soFar, last, before, more);
    r := Then(soFar, last);
  }

  /** A whole text at once. */
  method ScrubObservationText(text: string) returns (r: ScrubResult)
    ensures r.text == Scan(Normal, "", text).text
    ensures r.redactionCount == |Scan(Normal, "", text).redactions|
    ensures r.reasons == Distinct(Scan(Normal, "", text).redactions) && r.pendingChars == 0
  {
    var sanitizer := new ObservationTextSanitizer();
    var first;
    ghost var given;
    first, given := sanitizer.Push(text);
    PlusNothing(given);
    assert "" + text == text;
    r := FinishAfter(sanitizer, first.value);
  }

  function Joined(chunks: seq<string>): string {
    if chunks == [] then "" else Joined(chunks[..|chunks| - 1]) + chunks[|chunks| - 1]
  }

  lemma JoinedNext(chunks: seq<string>, i: nat)
    requires i < |chunks|
    ensures Joined(chunks[..i + 1]) == Joined(chunks[..i]) + chunks[i]
  {
    assert chunks[..i + 1][..i] == chunks[..i];
  }

  /** However a text is cut into chunks, what is published chunk by chunk and at the end is,
      together, what the scanner with the whole text in view publishes. */
  method ScrubChunks(chunks: seq<string>) returns (text: string, redactionCount: nat, reasons: seq<Reason>)
    ensures text == Scan(Normal, "", Joined(chunks)).text
    ensures redactionCount == |Scan(Normal, "", Joined(chunks)).redactions|
    ensures reasons == Distinct(Scan(Normal, "", Joined(chunks)).redactions)
  {
    var sanitizer := new ObservationTextSanitizer();
    var soFar := PushChunks(sanitizer, chunks);
    soFar := FinishAfter(sanitizer, soFar);
    return soFar.text, soFar.redactionCount, soFar.reasons;
  }

  method PushChunks(sanitizer: ObservationTextSanitizer, chunks: seq<string>) returns (soFar: ScrubResult)
    requires sanitizer.Valid() && !sanitizer.finished && sanitizer.fed == "" && sanitizer.given == NOTHING
    modifies sanitizer
    ensures sanitizer.Valid() && sanitizer.fed == Joined(chunks) && Reports(soFar, sanitizer.given)
  {
    soFar := EMPTY;
    for i := 0 to |chunks|
      invariant sanitizer.Valid() && !sanitizer.finished
      invariant sanitizer.fed == Joined(chunks[..i]) && Reports(soFar, sanitizer.given)
    {
      soFar := PushChunk(sanitizer, chunks[i], soFar);
      JoinedNext(chunks, i);
    }
    assert chunks[..|chunks|] == chunks;
  }

  /** One chunk, and the result of everything so far. */
  method PushChunk(sanitizer: ObservationTextSanitizer, chunk: string, soFar: ScrubResult) returns (r: ScrubResult)
    requires sanitizer.Valid() && !sanitizer.finished && Reports(soFar, sanitizer.given)
    modifies sanitizer
    ensures sanitizer.Valid() && !sanitizer.finished && sanitizer.fed == old(sanitizer.fed) + chunk
    ensures Reports(r, sanitizer.given)
  {
    ghost var before := sanitizer.given;
    var result;
    ghost var more;
    result, more := sanitizer.Push(chunk);
    JoinedReports(soFar, result.value, before, more);
    r := Then(soFar, result.value);
  }
}
