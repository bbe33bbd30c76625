/** Credential fields, headers and tokens on the text: what is published of each, and where each ends. */
module ScrubberFields {
  import opened Wrappers
  import opened ScrubberText
  import opened ScrubberSpec
  import opened ScrubberStability
  import opened Scrubber
  import opened ScrubberValues
  import opened ScrubberTwice

  // ---- Parts of a text

  predicate Blank(s: string) { forall i :: 0 <= i < |s| ==> s[i] == ' ' || s[i] == '\t' }

  predicate Spaces(s: string) { forall i :: 0 <= i < |s| ==> Space(s[i]) }

  /** A backslash hides the character after it, unless it is hidden itself. */
  predicate BackslashHides(s: string, i: nat)
    requires i <= |s|
  {
    Hidden({'\\'}, false, s, i)
  }

  /** The inside of a quoted value: every quote in it is hidden, and so the next one ends it. */
  predicate InsideQuotes(secret: string, quote: char) {
    && secret != "" && !BackslashHides(secret, |secret|)
    && forall i :: 0 <= i < |secret| && secret[i] == quote ==> BackslashHides(secret, i)
  }

  /** A value without quotes around it: everything that would end it is hidden. */
  predicate Unquoted(secret: string) {
    && secret != ""
    && forall i :: 0 <= i < |secret| && ScalarEnd(secret[i]) ==> BackslashHides(secret, i)
  }

  /** The text ends, or goes on with a character that ends a value and opens no quotes. */
  predicate Closes(rest: string) {
    rest == "" || (ScalarEnd(rest[0]) && rest[0] != '"' && rest[0] != '\'')
  }

  /** The value is not an earlier redaction. */
  predicate Fresh(s: string) { forall k :: 0 <= k < |MARKERS| ==> !(MARKERS[k] <= s) }

  lemma FreshNone(s: string)
    requires Fresh(s)
    ensures FirstPrefix(MARKERS, s) == None
  {
  }

  /** The two authorization headers and the two cookie headers have reasons of their own. */
  lemma FieldReasons(i: nat)
    requires i < |FIELDS|
    ensures FieldReason(i) == Authorization <==> FIELDS[i] == "authorization" || FIELDS[i] == "proxy-authorization"
    ensures FieldReason(i) == Cookie <==> FIELDS[i] == "cookie" || FIELDS[i] == "set-cookie"
    ensures FieldReason(i) == CredentialAssignment <==> FieldReason(i) != Authorization && FieldReason(i) != Cookie
  {
    if i < 22 {
      assert |FIELDS[i]| != 6 || FIELDS[i][0] == 'a' || FIELDS[i][0] == 's' || FIELDS[i][0] == 'p';
    }
  }

  /** The marker of each reason. */
  lemma MarkerTexts()
    ensures Marker(CredentialField) == "[REDACTED:credential_field]"
    ensures Marker(CredentialAssignment) == "[REDACTED:credential_assignment]"
    ensures Marker(Authorization) == "[REDACTED:authorization]"
    ensures Marker(Cookie) == "[REDACTED:cookie]"
    ensures Marker(PrivateKey) == "[REDACTED:private_key]"
    ensures Marker(ProviderToken) == "[REDACTED:provider_token]"
  {
  }

  // ---- Single steps of the scan

  /** One character is published and the mode changes. */
  lemma Publishes(m: Mode, previous: string, c: char, rest: string, m': Mode)
    requires m != Normal && CharStep(m, c) == Act(1, Published([c]), m')
    requires Unstarted(m) ==> FirstPrefix(MARKERS, [c] + rest) == None
    ensures Scan(m, previous, [c] + rest) == Published([c]).Plus(Scan(m', [c], rest))
  {
    var s := [c] + rest;
    assert Step(true, true, m, previous, s) == CharStep(m, c);
    ScanUnfold(m, previous, s, Act(1, Published([c]), m'));
    assert s[..1] == [c] && s[1..] == rest;
  }

  /** The mode changes before the next character. */
  lemma Turns(m: Mode, previous: string, s: string, m': Mode)
    requires s != "" && m != Normal && !Unstarted(m) && CharStep(m, s[0]) == Act(0, NOTHING, m')
    ensures Scan(m, previous, s) == Scan(m', previous, s)
  {
    assert Step(true, true, m, previous, s) == CharStep(m, s[0]);
    ScanUnfold(m, previous, s, Act(0, NOTHING, m'));
    assert s[..0] == "" && s[0..] == s;
    PlusNothing(Scan(m', previous, s));
  }

  /** Every character of `gap` is published and changes nothing. */
  predicate Passed(m: Mode, gap: string) {
    (m.Separator? || m.Value?) && forall i :: 0 <= i < |gap| ==> CharStep(m, gap[i]) == Act(1, Published([gap[i]]), m)
  }

  lemma {:induction false} Gap(m: Mode, previous: string, gap: string, rest: string)
    requires Passed(m, gap)
    ensures Scan(m, previous, gap + rest) == Published(gap).Plus(Scan(m, Last(previous, gap), rest))
    decreases |gap|
  {
    if gap == "" {
      assert gap + rest == rest;
      PlusNothing(Scan(m, previous, rest));
    } else {
      var c, tail := gap[0], gap[1..];
      assert gap + rest == [c] + (tail + rest) && gap == [c] + tail;
      assert Last([c], tail) == Last(previous, gap);
      Publishes(m, previous, c, tail + rest, m);
      Gap(m, [c], tail, rest);
      Joins(Scan(m, previous, gap + rest), [c], Scan(m, [c], tail + rest), tail, Scan(m, Last(previous, gap), rest), gap);
    }
  }

  /** A step that takes `taken`, whatever it publishes. */
  lemma Takes(m: Mode, previous: string, taken: string, rest: string, out: Output, m': Mode)
    requires taken != "" && Step(true, true, m, previous, taken + rest) == Act(|taken|, out, m')
    ensures Scan(m, previous, taken + rest) == out.Plus(Scan(m', Last(previous, taken), rest))
  {
    var t := taken + rest;
    ScanUnfold(m, previous, t, Act(|taken|, out, m'));
    assert t[..|taken|] == taken && t[|taken|..] == rest;
  }

  lemma NameFits(name: string, rest: string, f: string)
    requires Lower(name) == f && (rest != "" ==> FieldEnd(rest[0]))
    ensures FieldFits(true, f, name + rest) && (name + rest)[..|f|] == name
  {
    var t := name + rest;
    assert Lower(t)[..|name|] == Lower(name);
  }

  lemma NameStep(previous: string, i: nat, name: string, rest: string)
    requires AtBoundary(previous) && i < |FIELDS| && Lower(name) == FIELDS[i] && (rest != "" ==> FieldEnd(rest[0]))
    ensures name != "" && Step(true, true, Normal, previous, name + rest)
      == Act(|name|, Published(name), Separator(FieldReason(i), QuoteBefore(previous), false))
  {
    FieldSize(i);
    NameFits(name, rest, FIELDS[i]);
    FieldStartsAt(previous, name + rest, i);
  }

  lemma Name(previous: string, i: nat, name: string, rest: string)
    requires AtBoundary(previous) && i < |FIELDS| && Lower(name) == FIELDS[i] && (rest != "" ==> FieldEnd(rest[0]))
    ensures Scan(Normal, previous, name + rest)
      == Published(name).Plus(
           Scan(Separator(FieldReason(i), QuoteBefore(previous), false), Last(previous, name), rest))
  {
    NameStep(previous, i, name, rest);
    Takes(Normal, previous, name, rest, Published(name), Separator(FieldReason(i), QuoteBefore(previous), false));
  }

  // ---- Up to the value

  /** What a separator and the space around it publish. */
  lemma Separated(m: Mode, previous: string, gap: string, sep: char, gap': string, rest: string, m': Mode)
    requires Passed(m, gap) && Passed(m', gap')
    requires m.Separator? && CharStep(m, sep) == Act(1, Published([sep]), m')
    ensures Scan(m, previous, gap + ([sep] + (gap' + rest)))
      == Published(gap + ([sep] + gap')).Plus(Scan(m', Last([sep], gap'), rest))
  {
    var t := [sep] + (gap' + rest);
    Gap(m, previous, gap, t);
    Publishes(m, Last(previous, gap), sep, gap' + rest, m');
    Gap(m', [sep], gap', rest);
    Joins(Scan(m, Last(previous, gap), t), [sep], Scan(m', [sep], gap' + rest), gap',
          Scan(m', Last([sep], gap'), rest), [sep] + gap');
    Joins(Scan(m, previous, gap + t), gap, Scan(m, Last(previous, gap), t), [sep] + gap',
          Scan(m', Last([sep], gap'), rest), gap + ([sep] + gap'));
  }

  /** A field name in front of what is published up to the value. */
  lemma Headed(previous: string, i: nat, name: string, t: string, m: Mode, head: string, o: Output)
    requires AtBoundary(previous) && i < |FIELDS| && Lower(name) == FIELDS[i] && t != "" && FieldEnd(t[0])
    requires m == Separator(FieldReason(i), QuoteBefore(previous), false)
    requires Scan(m, Last(previous, name), t) == Published(head).Plus(o)
    ensures Scan(Normal, previous, name + t) == Published(name + head).Plus(o)
  {
    Name(previous, i, name, t);
    Joins(Scan(Normal, previous, name + t), name, Scan(m, Last(previous, name), t), head, o, name + head);
  }

  /** Behind a bare name blanks are passed, and a header's value is the rest of its line. */
  lemma BarePasses(m: Mode, gap: string, sep: char, gap': string, header: bool, m': Mode)
    requires m.Separator? && !m.closedQuote && Blank(gap) && Blank(gap') && (sep == ':' || sep == '=')
    requires header <==> m.reason == Authorization || m.reason == Cookie
    requires m' == Value(m.reason, false, header, m.keyQuote)
    ensures Passed(m, gap) && Passed(m', gap') && CharStep(m, sep) == Act(1, Published([sep]), m')
  {
  }

  /** A field name, blanks, a separator and blanks are published, and the value begins. */
  lemma BareHead(previous: string, i: nat, name: string, gap: string, sep: char, gap': string, rest: string)
    requires AtBoundary(previous) && i < |FIELDS| && Lower(name) == FIELDS[i]
    requires Blank(gap) && Blank(gap') && (sep == ':' || sep == '=')
    ensures Scan(Normal, previous, name + (gap + ([sep] + (gap' + rest))))
      == Published(name + (gap + ([sep] + gap'))).Plus(
           Scan(Value(FieldReason(i), false, i >= 22, QuoteBefore(previous)), Last([sep], gap'), rest))
  {
    var reason, keyQuote := FieldReason(i), QuoteBefore(previous);
    var m, m' := Separator(reason, keyQuote, false), Value(reason, false, i >= 22, keyQuote);
    var t := gap + ([sep] + (gap' + rest));
    BarePasses(m, gap, sep, gap', i >= 22, m');
    Separated(m, Last(previous, name), gap, sep, gap', rest, m');
    assert FieldEnd(t[0]) by { if gap != "" { assert t[0] == gap[0]; } }
    Headed(previous, i, name, t, m, gap + ([sep] + gap'), Scan(m', Last([sep], gap'), rest));
  }

  /** Behind a quoted name, space is passed, and a colon lets space pass before the value too. */
  lemma ClosedPasses(m: Mode, gap: string, sep: char, gap': string, m': Mode)
    requires m.Separator? && m.keyQuote != None && m.closedQuote
    requires Spaces(gap) && (sep == ':' || sep == '=') && if sep == ':' then Spaces(gap') else Blank(gap')
    requires m' == Value(m.reason, sep == ':', false, None)
    ensures Passed(m, gap) && Passed(m', gap') && CharStep(m, sep) == Act(1, Published([sep]), m')
  {
  }

  /** The quote after a field name, and the separator with its space. */
  lemma ClosedKey(m: Mode, previous: string, close: char, gap: string, sep: char, gap': string, rest: string, m': Mode)
    requires m.Separator? && m.keyQuote != None && !m.closedQuote && Quote(close)
    requires Spaces(gap) && (sep == ':' || sep == '=') && if sep == ':' then Spaces(gap') else Blank(gap')
    requires m' == Value(m.reason, sep == ':', false, None)
    ensures Scan(m, previous, [close] + (gap + ([sep] + (gap' + rest))))
      == Published([close] + (gap + ([sep] + gap'))).Plus(Scan(m', Last([sep], gap'), rest))
  {
    var closed := m.(closedQuote := true);
    var t := gap + ([sep] + (gap' + rest));
    ClosedPasses(closed, gap, sep, gap', m');
    Publishes(m, previous, close, t, closed);
    Separated(closed, [close], gap, sep, gap', rest, m');
    Joins(Scan(m, previous, [close] + t), [close], Scan(closed, [close], t), gap + ([sep] + gap'),
          Scan(m', Last([sep], gap'), rest), [close] + (gap + ([sep] + gap')));
  }

  /** A field name inside quotes: the space around its separator may hold line ends. */
  lemma QuotedHead(
    previous: string, i: nat, name: string, close: char, gap: string, sep: char, gap': string, rest: string)
    requires QuoteBefore(previous) != None && i < |FIELDS| && Lower(name) == FIELDS[i] && Quote(close)
    requires Spaces(gap) && (sep == ':' || sep == '=') && if sep == ':' then Spaces(gap') else Blank(gap')
    ensures Scan(Normal, previous, name + ([close] + (gap + ([sep] + (gap' + rest)))))
      == Published(name + ([close] + (gap + ([sep] + gap')))).Plus(
           Scan(Value(FieldReason(i), sep == ':', false, None), Last([sep], gap'), rest))
  {
    var reason, keyQuote := FieldReason(i), QuoteBefore(previous);
    var m, m' := Separator(reason, keyQuote, false), Value(reason, sep == ':', false, None);
    ClosedKey(m, Last(previous, name), close, gap, sep, gap', rest, m');
    Headed(previous, i, name, [close] + (gap + ([sep] + (gap' + rest))), m, [close] + (gap + ([sep] + gap')),
           Scan(m', Last([sep], gap'), rest));
  }

  // ---- The value

  /** Where a value has been closed, ordinary text goes on. */
  lemma ClosedScalar(reason: Reason, previous: string, rest: string)
    requires Closes(rest)
    ensures Scan(Scalar(reason, true, false), previous, rest) == Scan(Normal, previous, rest)
  {
    if rest != "" {
      Turns(Scalar(reason, true, false), previous, rest, Normal);
    }
  }

  /** A started value publishes nothing more up to its closing quote, and then the quote. */
  lemma ClosingQuote(m: Mode, previous: string, quote: char, rest: string)
    requires (m.Quoted? && m.quote == quote) || (m.Header? && m.outerQuote == Some(quote))
    requires m.started && !m.escaped && Closes(rest)
    ensures Scan(m, previous, [quote] + rest) == Published([quote]).Plus(Scan(Normal, [quote], rest))
  {
    Publishes(m, previous, quote, rest, Scalar(m.reason, true, false));
    ClosedScalar(m.reason, [quote], rest);
  }

  /** A value in a mode that is left at `quote`. */
  lemma UpToQuote(m: Mode, previous: string, secret: string, quote: char, rest: string)
    requires (m.Quoted? && m.quote == quote) || (m.Header? && m.outerQuote == Some(quote))
    requires !m.started && InValue(m) && secret != "" && AllSuppressed(m, secret) && !HiddenIn(m, secret, |secret|)
    requires Closes(rest) && FirstPrefix(MARKERS, secret + ([quote] + rest)) == None
    ensures Scan(m, previous, secret + ([quote] + rest))
      == Redacted(m.reason).Plus(Published([quote]).Plus(Scan(Normal, [quote], rest)))
  {
    ValueRedacted(m, previous, secret, [quote] + rest);
    ClosingQuote(Beyond(m, secret), Last(previous, secret), quote, rest);
  }

  lemma QuotedValue(m: Mode, previous: string, quote: char, secret: string, rest: string)
    requires m.Value? && !m.rawHeader && Quote(quote) && InsideQuotes(secret, quote)
    requires Closes(rest) && Fresh(secret + ([quote] + rest))
    ensures Scan(m, previous, [quote] + (secret + ([quote] + rest)))
      == Published([quote]).Plus(Redacted(m.reason).Plus(Published([quote]).Plus(Scan(Normal, [quote], rest))))
  {
    var inner := Quoted(m.reason, quote, false, false);
    Publishes(m, previous, quote, secret + ([quote] + rest), inner);
    UpToQuote(inner, [quote], secret, quote, rest);
  }

  lemma UnquotedValue(m: Mode, previous: string, secret: string, rest: string)
    requires m.Value? && !m.rawHeader && Unquoted(secret) && Closes(rest) && Fresh(secret + rest)
    requires rest != "" ==> !BackslashHides(secret, |secret|)
    ensures Scan(m, previous, secret + rest)
      == Redacted(m.reason).Plus(Scan(Normal, Last(previous, secret), rest))
  {
    var inner := Scalar(m.reason, false, false);
    assert !ScalarEnd(secret[0]) && (secret + rest)[0] == secret[0];
    Turns(m, previous, secret + rest, inner);
    ValueRedacted(inner, previous, secret, rest);
    if rest != "" {
      ClosedScalar(m.reason, Last(previous, secret), rest);
    }
  }

  /** A header line outside quotes: no character but a line end ends it. */
  lemma LineValue(m: Mode, previous: string, secret: string, rest: string)
    requires m.Value? && m.rawHeader && m.outerQuote == None && !m.multiline
    requires secret != "" && !HorizontalSpace(secret[0]) && forall i :: 0 <= i < |secret| ==> !LineEnd(secret[i])
    requires (rest != "" ==> LineEnd(rest[0])) && Fresh(secret + rest)
    ensures Scan(m, previous, secret + rest)
      == Redacted(m.reason).Plus(Scan(Normal, Last(previous, secret), rest))
  {
    var inner := Header(m.reason, false, None, false);
    assert (secret + rest)[0] == secret[0];
    Turns(m, previous, secret + rest, inner);
    ValueRedacted(inner, previous, secret, rest);
    if rest != "" {
      LineEnded(Beyond(inner, secret), Last(previous, secret), rest);
    }
  }

  lemma LineEnded(m: Mode, previous: string, rest: string)
    requires m.Header? && m.started && m.outerQuote == None && rest != "" && LineEnd(rest[0])
    ensures Scan(m, previous, rest) == Scan(Normal, previous, rest)
  {
    Turns(m, previous, rest, Normal);
  }

  /** Inside double quotes a header's quote may be hidden by a backslash or a backtick. */
  predicate InsideHeader(secret: string, quote: char) {
    var escapes := if quote == '"' then {'\\', '`'} else {};
    && secret != "" && !HorizontalSpace(secret[0]) && !LineEnd(secret[0])
    && !Hidden(escapes, false, secret, |secret|)
    && forall i :: 0 <= i < |secret| && secret[i] == quote ==> Hidden(escapes, false, secret, i)
  }

  lemma HeaderInside(m: Mode, quote: char, secret: string)
    requires m.Header? && m.outerQuote == Some(quote) && !m.escaped && InsideHeader(secret, quote)
    ensures InValue(m) && AllSuppressed(m, secret) && !HiddenIn(m, secret, |secret|)
  {
    assert Escapes(m) == if quote == '"' then {'\\', '`'} else {};
  }

  lemma HeaderValue(m: Mode, previous: string, quote: char, secret: string, rest: string)
    requires m.Value? && m.rawHeader && m.outerQuote == Some(quote) && !m.multiline
    requires InsideHeader(secret, quote) && Closes(rest) && Fresh(secret + ([quote] + rest))
    ensures Scan(m, previous, secret + ([quote] + rest))
      == Redacted(m.reason).Plus(Published([quote]).Plus(Scan(Normal, [quote], rest)))
  {
    var inner := Header(m.reason, false, Some(quote), false);
    HeaderInside(inner, quote, secret);
    var t := secret + ([quote] + rest);
    assert t[0] == secret[0];
    Turns(m, previous, t, inner);
    UpToQuote(inner, previous, secret, quote, rest);
  }

  // ---- Whole fields

  /** A text and its head, with the parts joined from the left. */
  lemma FromLeft(name: string, gap: string, sep: string, gap': string, value: string)
    ensures name + (gap + (sep + (gap' + value))) == name + gap + sep + gap' + value
    ensures name + (gap + (sep + gap')) == name + gap + sep + gap'
  {
  }

  lemma QuotedFromLeft(head: string, quote: string, secret: string, rest: string)
    ensures head + (quote + (secret + (quote + rest))) == head + quote + secret + quote + rest
    ensures secret + (quote + rest) == secret + quote + rest
  {
  }

  lemma Flat(whole: Output, head: string, quote: string, r: Reason, closing: string, o: Output)
    requires whole == Published(head).Plus(Published(quote).Plus(Redacted(r).Plus(Published(closing).Plus(o))))
    ensures whole == Output(head + quote + Marker(r) + closing, [r]).Plus(o)
  {
  }

  lemma FlatBare(whole: Output, head: string, r: Reason, o: Output)
    requires whole == Published(head).Plus(Redacted(r).Plus(o))
    ensures whole == Output(head + Marker(r), [r]).Plus(o)
  {
  }

  /** `name = "secret"`: the quotes stay, and all between them is one marker. A backslash hides the
      character after it, whatever that is, so the value ends exactly at the first quote not hidden. */
  lemma AssignmentRedacted(
    previous: string, i: nat, name: string, gap: string, sep: char, gap': string, quote: char, secret: string,
    rest: string, text: string)
    requires AtBoundary(previous) && i < 22 && Lower(name) == FIELDS[i]
    requires Blank(gap) && Blank(gap') && (sep == ':' || sep == '=') && (quote == '"' || quote == '\'')
    requires InsideQuotes(secret, quote) && Closes(rest) && Fresh(secret + [quote] + rest)
    requires text == name + gap + [sep] + gap' + [quote] + secret + [quote] + rest
    ensures Scan(Normal, previous, text)
      == Output(name + gap + [sep] + gap' + [quote] + Marker(CredentialAssignment) + [quote], [CredentialAssignment])
           .Plus(Scan(Normal, [quote], rest))
  {
    var value, head := [quote] + (secret + ([quote] + rest)), name + (gap + ([sep] + gap'));
    QuotedFromLeft(name + gap + [sep] + gap', [quote], secret, rest);
    FromLeft(name, gap, [sep], gap', value);
    BareHead(previous, i, name, gap, sep, gap', value);
    QuotedValue(Value(CredentialAssignment, false, false, QuoteBefore(previous)), Last([sep], gap'), quote, secret, rest);
    Flat(Scan(Normal, previous, text), head, [quote], CredentialAssignment, [quote], Scan(Normal, [quote], rest));
  }

  /** A quoted value that is never closed hides everything up to the end of the text. */
  lemma OpenAssignmentRedacted(
    previous: string, i: nat, name: string, gap: string, sep: char, gap': string, quote: char, secret: string,
    text: string)
    requires AtBoundary(previous) && i < 22 && Lower(name) == FIELDS[i]
    requires Blank(gap) && Blank(gap') && (sep == ':' || sep == '=') && (quote == '"' || quote == '\'')
    requires secret != "" && Fresh(secret)
    requires forall k :: 0 <= k < |secret| && secret[k] == quote ==> BackslashHides(secret, k)
    requires text == name + gap + [sep] + gap' + [quote] + secret
    ensures Scan(Normal, previous, text)
      == Output(name + gap + [sep] + gap' + [quote] + Marker(CredentialAssignment), [CredentialAssignment])
  {
    var value, head := [quote] + secret, name + (gap + ([sep] + gap'));
    assert name + gap + [sep] + gap' + [quote] + secret == name + gap + [sep] + gap' + value;
    FromLeft(name, gap, [sep], gap', value);
    BareHead(previous, i, name, gap, sep, gap', value);
    OpenValue(Value(CredentialAssignment, false, false, QuoteBefore(previous)), Last([sep], gap'), quote, secret);
    Flat(Scan(Normal, previous, text), head, [quote], CredentialAssignment, "", NOTHING);
    NoMore(head + [quote] + Marker(CredentialAssignment), CredentialAssignment);
  }

  lemma NoMore(text: string, r: Reason)
    ensures Output(text + "", [r]).Plus(NOTHING) == Output(text, [r])
  {
  }

  /** A value that nothing ends. */
  lemma UpToEnd(m: Mode, previous: string, secret: string)
    requires m.Quoted? && !m.started && secret != "" && AllSuppressed(m, secret)
    requires FirstPrefix(MARKERS, secret) == None
    ensures Scan(m, previous, secret) == Redacted(m.reason).Plus(Published("").Plus(NOTHING))
  {
    ValueRedacted(m, previous, secret, "");
    assert secret + "" == secret;
  }

  lemma OpenValue(m: Mode, previous: string, quote: char, secret: string)
    requires m.Value? && !m.rawHeader && Quote(quote) && secret != "" && Fresh(secret)
    requires forall k :: 0 <= k < |secret| && secret[k] == quote ==> BackslashHides(secret, k)
    ensures Scan(m, previous, [quote] + secret)
      == Published([quote]).Plus(Redacted(m.reason).Plus(Published("").Plus(NOTHING)))
  {
    var inner := Quoted(m.reason, quote, false, false);
    Publishes(m, previous, quote, secret, inner);
    UpToEnd(inner, [quote], secret);
  }

  /** `name = secret` without quotes, up to the first terminator that is not hidden. */
  lemma BareAssignmentRedacted(
    previous: string, i: nat, name: string, gap: string, sep: char, gap': string, secret: string, rest: string,
    text: string)
    requires AtBoundary(previous) && i < 22 && Lower(name) == FIELDS[i]
    requires Blank(gap) && Blank(gap') && (sep == ':' || sep == '=')
    requires Unquoted(secret) && Closes(rest) && Fresh(secret + rest)
    requires rest != "" ==> !BackslashHides(secret, |secret|)
    requires text == name + gap + [sep] + gap' + (secret + rest)
    ensures Scan(Normal, previous, text)
      == Output(name + gap + [sep] + gap' + Marker(CredentialAssignment), [CredentialAssignment])
           .Plus(Scan(Normal, secret[|secret| - 1..], rest))
  {
    var value, head := secret + rest, name + (gap + ([sep] + gap'));
    FromLeft(name, gap, [sep], gap', value);
    BareHead(previous, i, name, gap, sep, gap', value);
    UnquotedValue(Value(CredentialAssignment, false, false, QuoteBefore(previous)), Last([sep], gap'), secret, rest);
    FlatBare(Scan(Normal, previous, text), head, CredentialAssignment, Scan(Normal, secret[|secret| - 1..], rest));
  }

  /** An authorization or cookie header outside quotes is hidden to the end of its line. */
  lemma HeaderRedacted(
    previous: string, i: nat, name: string, gap: string, sep: char, gap': string, secret: string, rest: string,
    text: string)
    requires AtBoundary(previous) && QuoteBefore(previous) == None
    requires 22 <= i < |FIELDS| && Lower(name) == FIELDS[i]
    requires Blank(gap) && Blank(gap') && (sep == ':' || sep == '=')
    requires secret != "" && !HorizontalSpace(secret[0]) && forall k :: 0 <= k < |secret| ==> !LineEnd(secret[k])
    requires (rest != "" ==> LineEnd(rest[0])) && Fresh(secret + rest)
    requires text == name + gap + [sep] + gap' + (secret + rest)
    ensures Scan(Normal, previous, text)
      == Output(name + gap + [sep] + gap' + Marker(FieldReason(i)), [FieldReason(i)])
           .Plus(Scan(Normal, secret[|secret| - 1..], rest))
  {
    var value, head := secret + rest, name + (gap + ([sep] + gap'));
    FromLeft(name, gap, [sep], gap', value);
    BareHead(previous, i, name, gap, sep, gap', value);
    LineValue(Value(FieldReason(i), false, true, None), Last([sep], gap'), secret, rest);
    FlatBare(Scan(Normal, previous, text), head, FieldReason(i), Scan(Normal, secret[|secret| - 1..], rest));
  }

  /** A header directly inside quotes is hidden up to the closing quote, which in double quotes a
      backslash or a backtick may hide. Line ends do not end it. */
  lemma QuotedHeaderRedacted(
    previous: string, i: nat, name: string, gap: string, sep: char, gap': string, quote: char, secret: string,
    rest: string, text: string)
    requires QuoteBefore(previous) == Some(quote) && 22 <= i < |FIELDS| && Lower(name) == FIELDS[i]
    requires Blank(gap) && Blank(gap') && (sep == ':' || sep == '=')
    requires InsideHeader(secret, quote) && Closes(rest) && Fresh(secret + ([quote] + rest))
    requires text == name + gap + [sep] + gap' + (secret + ([quote] + rest))
    ensures Scan(Normal, previous, text)
      == Output(name + gap + [sep] + gap' + Marker(FieldReason(i)), [FieldReason(i)])
           .Plus(Published([quote]).Plus(Scan(Normal, [quote], rest)))
  {
    var value, head := secret + ([quote] + rest), name + (gap + ([sep] + gap'));
    FromLeft(name, gap, [sep], gap', value);
    BareHead(previous, i, name, gap, sep, gap', value);
    HeaderValue(Value(FieldReason(i), false, true, Some(quote)), Last([sep], gap'), quote, secret, rest);
    FlatBare(Scan(Normal, previous, text), head, FieldReason(i), Published([quote]).Plus(Scan(Normal, [quote], rest)));
  }

  /** `"name": "secret"`: behind a quoted name any space may stand before the colon and the value. */
  lemma KeyRedacted(
    previous: string, i: nat, name: string, close: char, gap: string, sep: char, gap': string, quote: char,
    secret: string, rest: string, text: string)
    requires QuoteBefore(previous) != None && i < |FIELDS| && Lower(name) == FIELDS[i] && Quote(close)
    requires Spaces(gap) && (sep == ':' || sep == '=') && if sep == ':' then Spaces(gap') else Blank(gap')
    requires (quote == '"' || quote == '\'') && InsideQuotes(secret, quote)
    requires Closes(rest) && Fresh(secret + [quote] + rest)
    requires text == name + ([close] + gap) + [sep] + gap' + [quote] + secret + [quote] + rest
    ensures Scan(Normal, previous, text)
      == Output(name + ([close] + gap) + [sep] + gap' + [quote] + Marker(FieldReason(i)) + [quote], [FieldReason(i)])
           .Plus(Scan(Normal, [quote], rest))
  {
    var value := [quote] + (secret + ([quote] + rest));
    QuotedFromLeft(name + ([close] + gap) + [sep] + gap', [quote], secret, rest);
    FromLeft(name, [close] + gap, [sep], gap', value);
    CloseFromLeft(name, [close], gap, [sep], gap', value);
    QuotedHead(previous, i, name, close, gap, sep, gap', value);
    QuotedValue(Value(FieldReason(i), sep == ':', false, None), Last([sep], gap'), quote, secret, rest);
    Flat(Scan(Normal, previous, text), name + ([close] + (gap + ([sep] + gap'))), [quote], FieldReason(i), [quote],
         Scan(Normal, [quote], rest));
  }

  lemma CloseFromLeft(name: string, close: string, gap: string, sep: string, gap': string, value: string)
    ensures name + ((close + gap) + (sep + (gap' + value))) == name + (close + (gap + (sep + (gap' + value))))
    ensures name + ((close + gap) + (sep + gap')) == name + (close + (gap + (sep + gap')))
  {
  }

  /** Two texts that differ only inside a quoted value are scrubbed alike, wherever ordinary text stands. */
  lemma AssignmentHidden(
    fed: string, given: Output, previous: string, i: nat, name: string, gap: string, sep: char, gap': string,
    quote: char, secret: string, secret': string, rest: string, text: string, text': string)
    requires Tracks(fed, given, Normal, previous, "", false) && AtBoundary(previous)
    requires i < 22 && Lower(name) == FIELDS[i]
    requires Blank(gap) && Blank(gap') && (sep == ':' || sep == '=') && (quote == '"' || quote == '\'')
    requires InsideQuotes(secret, quote) && InsideQuotes(secret', quote) && Closes(rest)
    requires Fresh(secret + [quote] + rest) && Fresh(secret' + [quote] + rest)
    requires text == name + gap + [sep] + gap' + [quote] + secret + [quote] + rest
    requires text' == name + gap + [sep] + gap' + [quote] + secret' + [quote] + rest
    ensures Scan(Normal, "", fed + text) == Scan(Normal, "", fed + text')
  {
    Continues(fed, given, Normal, previous, text);
    Continues(fed, given, Normal, previous, text');
    AssignmentRedacted(previous, i, name, gap, sep, gap', quote, secret, rest, text);
    AssignmentRedacted(previous, i, name, gap, sep, gap', quote, secret', rest, text');
  }

  /** A value that is an earlier redaction stays as it is, and is not reported again. */
  lemma RedactionKept(
    previous: string, i: nat, name: string, gap: string, sep: char, gap': string, quote: char, k: nat, marker: string,
    rest: string, text: string)
    requires AtBoundary(previous) && i < 22 && Lower(name) == FIELDS[i]
    requires Blank(gap) && Blank(gap') && (sep == ':' || sep == '=') && (quote == '"' || quote == '\'')
    requires k < |MARKERS| && marker == MARKERS[k] && Closes(rest)
    requires text == name + gap + [sep] + gap' + [quote] + marker + [quote] + rest
    ensures Scan(Normal, previous, text)
      == Output(name + gap + [sep] + gap' + [quote] + marker + [quote], []).Plus(Scan(Normal, [quote], rest))
  {
    var value, head := [quote] + (marker + ([quote] + rest)), name + (gap + ([sep] + gap'));
    QuotedFromLeft(name + gap + [sep] + gap', [quote], marker, rest);
    FromLeft(name, gap, [sep], gap', value);
    BareHead(previous, i, name, gap, sep, gap', value);
    KeptValue(Value(CredentialAssignment, false, false, QuoteBefore(previous)), Last([sep], gap'), quote, k, marker, rest);
    FlatKept(Scan(Normal, previous, text), head, [quote], marker, Scan(Normal, [quote], rest));
  }

  lemma FlatKept(whole: Output, head: string, quote: string, marker: string, o: Output)
    requires whole == Published(head).Plus(Published(quote).Plus(Published(marker).Plus(Published(quote).Plus(o))))
    ensures whole == Output(head + quote + marker + quote, []).Plus(o)
  {
  }

  lemma KeptValue(m: Mode, previous: string, quote: char, k: nat, marker: string, rest: string)
    requires m.Value? && !m.rawHeader && Quote(quote) && k < |MARKERS| && marker == MARKERS[k] && Closes(rest)
    ensures Scan(m, previous, [quote] + (marker + ([quote] + rest)))
      == Published([quote]).Plus(Published(marker).Plus(Published([quote]).Plus(Scan(Normal, [quote], rest))))
  {
    var inner, started := Quoted(m.reason, quote, false, false), Quoted(m.reason, quote, false, true);
    var t := [quote] + rest;
    Publishes(m, previous, quote, marker + t, inner);
    MarkerStep(inner, [quote], k, marker, t);
    Takes(inner, [quote], marker, t, Published(marker), started);
    ClosingQuote(started, Last([quote], marker), quote, rest);
  }

  lemma MarkerStep(m: Mode, previous: string, k: nat, marker: string, t: string)
    requires Unstarted(m) && k < |MARKERS| && marker == MARKERS[k]
    ensures marker != "" && Step(true, true, m, previous, marker + t)
      == Act(|marker|, Published(marker), m.(started := true))
  {
    MarkerSize(k);
    var i := FirstPrefix(MARKERS, marker + t);
    assert MARKERS[k] <= marker + t;
    MarkerUnique(k, i.value, marker + t);
  }

  // ---- Tokens

  /** The rest of a token is hidden, and ordinary text goes on behind it. */
  lemma TokenRest(a: Alphabet, previous: string, tail: string, rest: string)
    requires AllIn(a, tail) && (rest != "" ==> !InAlphabet(a, rest[0]))
    ensures Scan(Token(a), previous, tail + rest) == Scan(Normal, Last(previous, tail), rest)
  {
    SuppressedRun(Token(a), previous, tail, rest);
    if rest != "" {
      Turns(Token(a), Last(previous, tail), rest, Normal);
    }
  }

  /** A provider token: the prefix, at least as many characters as it needs, and all that follow in its
      alphabet become one marker. */
  lemma ProviderRedacted(previous: string, k: nat, body: string, rest: string, text: string)
    requires AtBoundary(previous) && k < |PROVIDERS| && text == PROVIDERS[k].prefix + body + rest
    requires AllIn(PROVIDERS[k].alphabet, body) && |body| >= PROVIDERS[k].minimum > 0
    requires rest != "" ==> !InAlphabet(PROVIDERS[k].alphabet, rest[0])
    ensures Scan(Normal, previous, text) == Redacted(ProviderToken).Plus(Scan(Normal, body[|body| - 1..], rest))
  {
    var p := PROVIDERS[k];
    var first, tail := p.prefix + body[..p.minimum], body[p.minimum..];
    ProviderParts(p, body, rest, first, tail);
    OnlyProvider(text, k);
    Takes(Normal, previous, first, tail + rest, Redacted(ProviderToken), Token(p.alphabet));
    TokenRest(p.alphabet, Last(previous, first), tail, rest);
  }

  lemma ProviderParts(p: Provider, body: string, rest: string, first: string, tail: string)
    requires AllIn(p.alphabet, body) && |body| >= p.minimum > 0
    requires first == p.prefix + body[..p.minimum] && tail == body[p.minimum..]
    ensures p.prefix + body + rest == first + (tail + rest) && |first| == p.Required()
    ensures ProviderFits(p, p.prefix + body + rest) && AllIn(p.alphabet, tail)
    ensures forall previous :: Last(Last(previous, first), tail) == body[|body| - 1..]
  {
    var t := p.prefix + body + rest;
    assert t[|p.prefix|..p.Required()] == body[..p.minimum];
  }

  lemma {:induction false} SpacesCounted(s: string, i: nat, n: nat)
    requires i + n <= |s| && (forall k :: i <= k < i + n ==> HorizontalSpace(s[k]))
    requires i + n < |s| ==> !HorizontalSpace(s[i + n])
    ensures SpaceRun(s, i) == n
    decreases n
  {
    if n > 0 {
      SpacesCounted(s, i + 1, n - 1);
    }
  }

  /** `Bearer token`: the word and up to sixteen blanks stay, and the whole token becomes one marker. */
  lemma BearerRedacted(previous: string, word: string, gap: string, token: string, rest: string, text: string)
    requires AtBoundary(previous) && Lower(word) == BEARER && Blank(gap) && 1 <= |gap| <= 16
    requires AllIn(BearerAlphabet, token) && |token| >= 8 && (rest != "" ==> !InAlphabet(BearerAlphabet, rest[0]))
    requires text == word + gap + token + rest
    ensures Scan(Normal, previous, text)
      == Output(word + gap + Marker(Authorization), [Authorization]).Plus(Scan(Normal, token[|token| - 1..], rest))
  {
    var first, tail := word + gap + token[..8], token[8..];
    var o := Scan(Normal, token[|token| - 1..], rest);
    BearerStep(previous, word, gap, token, rest, text);
    BearerText(word + gap, token, rest, first, tail);
    Takes(Normal, previous, first, tail + rest, Published(word + gap).Plus(Redacted(Authorization)), Token(BearerAlphabet));
    TokenRest(BearerAlphabet, Last(previous, first), tail, rest);
    FlatBearer(Scan(Normal, previous, text), word + gap, o);
  }

  lemma FlatBearer(whole: Output, head: string, o: Output)
    requires whole == Published(head).Plus(Redacted(Authorization)).Plus(o)
    ensures whole == Output(head + Marker(Authorization), [Authorization]).Plus(o)
  {
  }

  lemma BearerText(head: string, token: string, rest: string, first: string, tail: string)
    requires |token| >= 8 && first == head + token[..8] && tail == token[8..] && AllIn(BearerAlphabet, token)
    ensures head + token + rest == first + (tail + rest) && |first| == |head| + 8 && AllIn(BearerAlphabet, tail)
    ensures forall previous :: Last(Last(previous, first), tail) == token[|token| - 1..]
  {
  }

  lemma BearerStep(previous: string, word: string, gap: string, token: string, rest: string, text: string)
    requires AtBoundary(previous) && Lower(word) == BEARER && Blank(gap) && 1 <= |gap| <= 16
    requires AllIn(BearerAlphabet, token) && |token| >= 8 && text == word + gap + token + rest
    ensures Step(true, true, Normal, previous, text)
      == Act(|word + gap| + 8, Published(word + gap).Plus(Redacted(Authorization)), Token(BearerAlphabet))
  {
    BearerParts(word, gap, token, rest, text);
    StartIsBearer(true, true, previous, text);
  }

  lemma BearerParts(word: string, gap: string, token: string, rest: string, text: string)
    requires Lower(word) == BEARER && Blank(gap) && 1 <= |gap| <= 16
    requires AllIn(BearerAlphabet, token) && |token| >= 8 && text == word + gap + token + rest
    ensures BearerFits(true, text) && SpaceRun(text, 6) == |gap| && text[..6 + |gap|] == word + gap
  {
    LowerPrefix(word, gap + token + rest, BEARER);
    assert text == word + (gap + token + rest);
    assert text[6 + |gap|] == token[0];
    SpacesCounted(text, 6, |gap|);
    assert text[6 + |gap|..6 + |gap| + 8] == token[..8];
  }

  // ---- Ordinary text

  /** Nothing the scrubber looks for begins at position `k`. */
  ghost predicate StartsNothing(t: string, k: nat)
    requires k < |t|
  {
    && (forall i :: 0 <= i < |BEGINS| ==> !(BEGINS[i] <= t[k..]))
    && (k == 0 || !Alphanumeric(t[k - 1]) ==>
      && (forall i :: 0 <= i < |PROVIDERS| ==> !(PROVIDERS[i].prefix <= t[k..]))
      && !(BEARER <= Lower(t[k..]))
      && (forall i :: 0 <= i < |FIELDS| ==> !(FIELDS[i] <= Lower(t[k..]))))
  }

  function Behind(t: string, k: nat): string
    requires k <= |t|
  {
    if k == 0 then "" else t[k - 1..k]
  }

  lemma StartsNothingAt(t: string, k: nat)
    requires k < |t| && StartsNothing(t, k)
    ensures Start(true, true, Behind(t, k), t[k..]) == None
  {
    var s := t[k..];
    assert FirstPrefix(BEGINS, s) == None;
    if AtBoundary(Behind(t, k)) {
      assert k == 0 || !Alphanumeric(t[k - 1]);
      assert FirstProvider(PROVIDERS, s) == None;
      assert FirstField(true, FIELDS, s) == None;
    }
  }

  lemma {:induction false} PlainFrom(t: string, k: nat, previous: string, s: string)
    requires k <= |t| && s == t[k..] && previous == Behind(t, k)
    requires forall i :: k <= i < |t| ==> StartsNothing(t, i)
    ensures Scan(Normal, previous, s) == Published(s)
    decreases |t| - k
  {
    if k < |t| {
      var c, tail := t[k], t[k + 1..];
      StartsNothingAt(t, k);
      assert s == [c] + tail && Behind(t, k + 1) == [c];
      PlainFrom(t, k + 1, [c], tail);
      OneCharacter(previous, c, tail);
    }
  }

  /** A text in which nothing begins that the scrubber looks for is published as it is. */
  lemma PlainPublished(t: string, previous: string)
    requires previous == "" && forall k :: 0 <= k < |t| ==> StartsNothing(t, k)
    ensures Scan(Normal, previous, t) == Output(t, [])
  {
    PlainFrom(t, 0, previous, t);
  }
}
