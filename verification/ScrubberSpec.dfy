/** The scrubber's decision at one position, and the offline scan that sees the whole text. */
module ScrubberSpec {
  import opened Wrappers
  import opened ScrubberText

  /** Published text together with the reasons of the redactions in it, in order. */
  datatype Output = Output(text: string, redactions: seq<Reason>)
  {
    function Plus(next: Output): Output { Output(text + next.text, redactions + next.redactions) }
  }

  const NOTHING := Output("", [])

  function Published(text: string): Output { Output(text, []) }

  function Redacted(r: Reason): Output { Output(Marker(r), [r]) }

  datatype Mode =
    | Normal
    | Separator(reason: Reason, keyQuote: Option<char>, closedQuote: bool)
    | Value(reason: Reason, multiline: bool, rawHeader: bool, outerQuote: Option<char>)
    | Quoted(reason: Reason, quote: char, escaped: bool, started: bool)
    | Scalar(reason: Reason, started: bool, escaped: bool)
    | Header(reason: Reason, started: bool, outerQuote: Option<char>, escaped: bool)
    | Token(alphabet: Alphabet)
    | Private(end: string, suffix: string)

  /** Either more text is needed, or `take` characters are consumed and `out` is published. */
  datatype Action = Wait | Act(take: nat, out: Output, mode: Mode)

  // ---- Starting a redaction in ordinary text

  predicate AtBoundary(previous: string) { previous == "" || !Alphanumeric(previous[|previous| - 1]) }

  function FirstPrefix(keys: seq<string>, s: string): (r: Option<nat>)
    ensures r == None ==> forall i :: 0 <= i < |keys| ==> !(keys[i] <= s)
    ensures r != None ==> r.value < |keys| && keys[r.value] <= s
  {
    if keys == [] then None
    else if keys[0] <= s then Some(0)
    else match FirstPrefix(keys[1..], s) case None => None case Some(i) => Some(i + 1)
  }

  predicate ProviderFits(p: Provider, s: string) {
    p.prefix <= s && |s| >= p.Required() && AllIn(p.alphabet, s[|p.prefix|..p.Required()])
  }

  function FirstProvider(ps: seq<Provider>, s: string): (r: Option<nat>)
    ensures r == None ==> forall i :: 0 <= i < |ps| ==> !ProviderFits(ps[i], s)
    ensures r != None ==> r.value < |ps| && ProviderFits(ps[r.value], s)
  {
    if ps == [] then None
    else if ProviderFits(ps[0], s) then Some(0)
    else match FirstProvider(ps[1..], s) case None => None case Some(i) => Some(i + 1)
  }

  /** The number of horizontal spaces from position `i` on. */
  function SpaceRun(s: string, i: nat): (n: nat)
    ensures i <= |s| ==> i + n <= |s|
    ensures forall k :: i <= k < i + n && k < |s| ==> HorizontalSpace(s[k])
    ensures i + n < |s| ==> !HorizontalSpace(s[i + n])
    decreases |s| - i
  {
    if i < |s| && HorizontalSpace(s[i]) then 1 + SpaceRun(s, i + 1) else 0
  }

  /** A bearer word, spaces and eight token characters. Only `couldStart` bounds the spaces; a
      scanner that sees the whole text has to bound them itself, which is what `capped` does. */
  predicate BearerFits(capped: bool, s: string) {
    && BEARER <= Lower(s)
    && var n := SpaceRun(s, 6);
      && 1 <= n && (capped ==> n <= 16)
      && 6 + n + 8 <= |s| && AllIn(BearerAlphabet, s[6 + n..6 + n + 8])
  }

  predicate FieldFits(final: bool, f: string, s: string) {
    && f <= Lower(s)
    && if |s| == |f| then final else FieldEnd(s[|f|])
  }

  function FirstField(final: bool, fs: seq<string>, s: string): (r: Option<nat>)
    ensures r == None ==> forall i :: 0 <= i < |fs| ==> !FieldFits(final, fs[i], s)
    ensures r != None ==> r.value < |fs| && FieldFits(final, fs[r.value], s)
  {
    if fs == [] then None
    else if FieldFits(final, fs[0], s) then Some(0)
    else match FirstField(final, fs[1..], s) case None => None case Some(i) => Some(i + 1)
  }

  function QuoteBefore(previous: string): Option<char> {
    if previous != "" && Quote(previous[|previous| - 1]) then Some(previous[|previous| - 1]) else None
  }

  /** The first `n` characters stay; the eight token characters after them are suppressed. */
  function BearerAction(s: string, n: nat): Action
    requires n <= |s|
  {
    Act(n + 8, Published(s[..n]).Plus(Redacted(Authorization)), Token(BearerAlphabet))
  }

  function Start(final: bool, capped: bool, previous: string, s: string): Option<Action> {
    match FirstPrefix(BEGINS, s)
    case Some(i) => Some(Act(|BEGINS[i]|, Redacted(PrivateKey), Private(ENDS[i], "")))
    case None =>
      if !AtBoundary(previous) then None
      else match FirstProvider(PROVIDERS, s)
        case Some(i) =>
          Some(Act(PROVIDERS[i].Required(), Redacted(ProviderToken), Token(PROVIDERS[i].alphabet)))
        case None =>
          if BearerFits(capped, s) then Some(BearerAction(s, 6 + SpaceRun(s, 6)))
          else match FirstField(final, FIELDS, s)
            case Some(i) =>
              Some(Act(|FIELDS[i]|, Published(s[..|FIELDS[i]|]),
                       Separator(FieldReason(i), QuoteBefore(previous), false)))
            case None => None
  }

  // ---- Whether more text could still start one

  predicate ProviderCould(p: Provider, s: string) {
    s <= p.prefix || (p.prefix <= s && |s| < p.Required() && AllIn(p.alphabet, s[|p.prefix|..]))
  }

  predicate BearerCould(s: string) {
    || Lower(s) <= BEARER
    || (BEARER <= Lower(s)
      && var n := SpaceRun(s, 6);
        1 <= n <= 16 && |s| <= 6 + n + 7 && AllIn(BearerAlphabet, s[6 + n..]))
  }

  predicate CouldStart(previous: string, s: string) {
    || (exists i :: 0 <= i < |BEGINS| && s <= BEGINS[i])
    || (AtBoundary(previous)
      && (|| (exists i :: 0 <= i < |FIELDS| && Lower(s) <= FIELDS[i])
        || (exists i :: 0 <= i < |PROVIDERS| && ProviderCould(PROVIDERS[i], s))
        || BearerCould(s)))
  }

  // ---- One step of the automaton

  predicate Unstarted(m: Mode) {
    (m.Quoted? || m.Scalar? || m.Header?) && !m.started
  }

  predicate MarkerCould(s: string) { exists i :: 0 <= i < |MARKERS| && s <= MARKERS[i] }

  /** Suppresses one character of a value, announcing the redaction the first time. */
  function Suppress(m: Mode, escaped: bool): Action
    requires m.Quoted? || m.Scalar? || m.Header?
  {
    Act(1, if m.started then NOTHING else Redacted(m.reason), m.(started := true, escaped := escaped))
  }

  /** The suffix kept of a private block: its longest suffix that begins the end marker. */
  function Trim(end: string, suffix: string): string {
    if suffix == "" || suffix <= end then suffix else Trim(end, suffix[1..])
  }

  function Step(final: bool, capped: bool, m: Mode, previous: string, s: string): Action
    requires s != ""
  {
    if Unstarted(m) && FirstPrefix(MARKERS, s) != None then
      var i := FirstPrefix(MARKERS, s).value;
      Act(|MARKERS[i]|, Published(MARKERS[i]), m.(started := true))
    else if Unstarted(m) && !final && MarkerCould(s) then Wait
    else if m == Normal then
      match Start(final, capped, previous, s)
      case Some(a) => a
      case None => if !final && CouldStart(previous, s) then Wait else Act(1, Published(s[..1]), Normal)
    else CharStep(m, s[0])
  }

  /** The step of every other mode looks at one character. */
  function CharStep(m: Mode, c: char): Action
    requires m != Normal
  {
    match m
    case Separator(reason, keyQuote, closed) =>
      if HorizontalSpace(c) || (keyQuote != None && closed && Space(c)) then Act(1, Published([c]), m)
      else if !closed && Quote(c) then Act(1, Published([c]), m.(closedQuote := true))
      else if c == ':' || c == '=' then
        Act(1, Published([c]),
            Value(reason, keyQuote != None && closed && c == ':',
                  !closed && (reason == Authorization || reason == Cookie), if closed then None else keyQuote))
      else Act(0, NOTHING, Normal)
    case Value(reason, multiline, rawHeader, outerQuote) =>
      if HorizontalSpace(c) || (multiline && Space(c)) then Act(1, Published([c]), m)
      else if rawHeader && !LineEnd(c) then Act(0, NOTHING, Header(reason, false, outerQuote, false))
      else if Quote(c) then Act(1, Published([c]), Quoted(reason, c, false, false))
      else if ScalarEnd(c) then Act(0, NOTHING, Normal)
      else Act(0, NOTHING, Scalar(reason, false, false))
    case Quoted(reason, quote, escaped, started) =>
      if !escaped && c == quote then Act(1, Published([c]), Scalar(reason, started, false))
      else Suppress(m, !escaped && c == '\\')
    case Header(reason, started, outerQuote, escaped) =>
      if outerQuote == None && LineEnd(c) then Act(0, NOTHING, Normal)
      else if !escaped && outerQuote == Some(c) then Act(1, Published([c]), Scalar(reason, started, false))
      else Suppress(m, outerQuote == Some('"') && !escaped && (c == '\\' || c == '`'))
    case Scalar(reason, started, escaped) =>
      if !escaped && Quote(c) then Act(1, Published([c]), Quoted(reason, c, false, started))
      else if !escaped && ScalarEnd(c) then Act(0, NOTHING, Normal)
      else Suppress(m, !escaped && c == '\\')
    case Token(alphabet) => if InAlphabet(alphabet, c) then Act(1, NOTHING, m) else Act(0, NOTHING, Normal)
    case Private(end, suffix) =>
      var held := suffix + [c];
      if |end| <= |held| && held[|held| - |end|..] == end then Act(1, NOTHING, Normal)
      else Act(1, NOTHING, Private(end, Trim(end, held)))
  }

  // ---- The offline scan

  /** Modes that can be left without consuming anything lead to modes of lower rank. */
  function Rank(m: Mode): nat {
    match m
    case Value(_, _, _, _) => 2
    case Normal => 0
    case _ => 1
  }

  lemma StartProgress(final: bool, capped: bool, previous: string, s: string)
    requires s != ""
    ensures var a := Start(final, capped, previous, s);
      a != None ==> a.value.Act? && 0 < a.value.take <= |s|
  {
    if FirstPrefix(BEGINS, s) != None {
      BeginSize(FirstPrefix(BEGINS, s).value);
    } else if FirstProvider(PROVIDERS, s) != None {
      ProviderSize(FirstProvider(PROVIDERS, s).value);
    } else if FirstField(final, FIELDS, s) != None {
      FieldSize(FirstField(final, FIELDS, s).value);
    }
  }

  lemma CharProgress(m: Mode, c: char)
    requires m != Normal
    ensures var a := CharStep(m, c); a.Act? && a.take <= 1 && (a.take > 0 || Rank(a.mode) < Rank(m))
  {
  }

  lemma StepProgress(final: bool, capped: bool, m: Mode, previous: string, s: string)
    requires s != ""
    ensures var a := Step(final, capped, m, previous, s);
      && (final ==> a.Act?)
      && (a.Act? ==> a.take <= |s| && (a.take > 0 || Rank(a.mode) < Rank(m)))
  {
    if FirstPrefix(MARKERS, s) != None {
      MarkerSize(FirstPrefix(MARKERS, s).value);
    }
    if m == Normal {
      StartProgress(final, capped, previous, s);
    } else {
      CharProgress(m, s[0]);
    }
  }

  function Last(previous: string, taken: string): string {
    if taken == "" then previous else taken[|taken| - 1..]
  }

  /** What a scanner with the whole rest of the text in view publishes. */
  function Scan(m: Mode, previous: string, rest: string): Output
    decreases |rest|, Rank(m)
  {
    if rest == "" then NOTHING
    else
      StepProgress(true, true, m, previous, rest);
      var a := Step(true, true, m, previous, rest);
      a.out.Plus(Scan(a.mode, Last(previous, rest[..a.take]), rest[a.take..]))
  }

  lemma ScanUnfold(m: Mode, previous: string, rest: string, a: Action)
    requires rest != "" && a == Step(true, true, m, previous, rest)
    ensures a.Act? && a.take <= |rest|
    ensures Scan(m, previous, rest) == a.out.Plus(Scan(a.mode, Last(previous, rest[..a.take]), rest[a.take..]))
  {
    StepProgress(true, true, m, previous, rest);
  }
}
