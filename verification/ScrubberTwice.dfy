/** Scrubbing is not idempotent: a marker opens a boundary that the text it replaced did not have. */
module ScrubberTwice {
  import opened Wrappers
  import opened ScrubberText
  import opened ScrubberSpec
  import opened ScrubberStability
  import opened Scrubber
  import opened ScrubberValues

  // ---- Text that is published as it is

  lemma OneCharacter(previous: string, c: char, t: string)
    requires Start(true, true, previous, [c] + t) == None
    ensures Scan(Normal, previous, [c] + t) == Published([c]).Plus(Scan(Normal, [c], t))
  {
    var s := [c] + t;
    assert s[..1] == [c] && s[1..] == t;
    ScanUnfold(Normal, previous, s, Act(1, Published([c]), Normal));
  }

  lemma NoHeader(c: char, t: string)
    requires c != '-'
    ensures FirstPrefix(BEGINS, [c] + t) == None
  {
    if FirstPrefix(BEGINS, [c] + t) != None {
      DashFirst(FirstPrefix(BEGINS, [c] + t).value, [c] + t);
    }
  }

  lemma DashFirst(i: nat, s: string)
    requires i < |BEGINS| && BEGINS[i] <= s
    ensures s != "" && s[0] == '-'
  {
    BeginSize(i);
    assert s[0] == BEGINS[i][0];
  }

  lemma InsideCharacter(previous: string, c: char, t: string)
    requires !AtBoundary(previous) && c != '-'
    ensures Scan(Normal, previous, [c] + t) == Published([c]).Plus(Scan(Normal, [c], t))
  {
    NoHeader(c, t);
    OneCharacter(previous, c, t);
  }

  lemma WordParts(u: string, rest: string)
    requires u != ""
    ensures u == [u[0]] + u[1..] && u + rest == [u[0]] + (u[1..] + rest)
    ensures |u| > 1 ==> u[1..][|u| - 2..] == u[|u| - 1..]
  {
  }

  lemma Joins(whole: Output, a: string, middle: Output, b: string, o: Output, ab: string)
    requires whole == Published(a).Plus(middle) && middle == Published(b).Plus(o) && ab == a + b
    ensures whole == Published(ab).Plus(o)
  {
  }

  /** Letters and digits, and one more character that begins no header. */
  predicate IsWord(u: string) {
    u != "" && u[|u| - 1] != '-' && forall i :: 0 <= i < |u| - 1 ==> Alphanumeric(u[i])
  }

  /** A scan of ordinary text, of which only what is supposed about it is known. */
  type TextScan = (string, string) -> Output

  function NormalScan(previous: string, t: string): Output { Scan(Normal, previous, t) }

  /** One character is published as it is. */
  ghost predicate Passes(scan: TextScan, previous: string, c: char, t: string) {
    scan(previous, [c] + t) == Published([c]).Plus(scan([c], t))
  }

  ghost predicate PassesInside(scan: TextScan) {
    forall previous, c, t :: !AtBoundary(previous) && c != '-' ==> Passes(scan, previous, c, t)
  }

  lemma NormalPassesInside()
    ensures PassesInside(NormalScan)
  {
    forall previous, c, t | !AtBoundary(previous) && c != '-' ensures Passes(NormalScan, previous, c, t) {
      InsideCharacter(previous, c, t);
    }
  }

  /** Inside a word nothing starts. */
  lemma {:induction false} InsideWord(scan: TextScan, previous: string, u: string, rest: string)
    requires PassesInside(scan) && !AtBoundary(previous) && IsWord(u)
    ensures scan(previous, u + rest) == Published(u).Plus(scan(u[|u| - 1..], rest))
    decreases |u|
  {
    var c, tail := u[0], u[1..];
    WordParts(u, rest);
    FirstPasses(scan, previous, u, rest);
    if tail == "" {
      assert u == [c] && u[|u| - 1..] == [c] && tail + rest == rest;
    } else {
      WordTail(u);
      InsideWord(scan, [c], tail, rest);
      Joins(scan(previous, u + rest), [c], scan([c], tail + rest), tail, scan(u[|u| - 1..], rest), u);
    }
  }

  lemma FirstPasses(scan: TextScan, previous: string, u: string, rest: string)
    requires PassesInside(scan) && !AtBoundary(previous) && IsWord(u)
    ensures scan(previous, u + rest) == Published([u[0]]).Plus(scan([u[0]], u[1..] + rest))
  {
    WordParts(u, rest);
    assert Passes(scan, previous, u[0], u[1..] + rest);
  }

  lemma WordTail(u: string)
    requires IsWord(u) && u[1..] != ""
    ensures IsWord(u[1..]) && !AtBoundary([u[0]])
  {
  }

  lemma Symbol(previous: string, c: char, t: string)
    requires !Alphanumeric(c) && c != '-'
    ensures Scan(Normal, previous, [c] + t) == Published([c]).Plus(Scan(Normal, [c], t))
  {
    NoHeader(c, t);
    NonLetterStarts([c] + t);
    OneCharacter(previous, c, t);
  }

  lemma NothingStarts(previous: string, s: string)
    requires FirstPrefix(BEGINS, s) == None && FirstProvider(PROVIDERS, s) == None && !BearerFits(true, s)
    requires FirstField(true, FIELDS, s) == None
    ensures Start(true, true, previous, s) == None
  {
  }

  /** The only field that could begin here does not fit. */
  lemma RoutedNone(previous: string, s: string, i: nat)
    requires i < |FIELDS| && Route(s) == 22 + i && !FieldFits(true, FIELDS[i], s)
    ensures Start(true, true, previous, s) == None
  {
    NotBegin(s);
    NotProvider(s);
    NoOtherField(s, i);
    NothingStarts(previous, s);
  }

  lemma NoOtherField(s: string, i: nat)
    requires i < |FIELDS| && Route(s) == 22 + i && !FieldFits(true, FIELDS[i], s)
    ensures FirstField(true, FIELDS, s) == None && !BearerFits(true, s)
  {
    if BEARER <= Lower(s) {
      BearerRoute(s);
    }
    if FirstField(true, FIELDS, s) != None {
      FieldRoute(FirstField(true, FIELDS, s).value, s);
    }
  }

  // The words of a marker, at their boundaries.

  lemma RedactedWord(previous: string, s: string)
    requires |s| >= 8 && s[0] == 'R' && s[2] == 'D' && s[7] == 'D'
    ensures Start(true, true, previous, s) == None
  {
    assert At(s, 0) == 'r' && At(s, 7) == 'd';
    assert Lower(s)[2] == 'd' && FIELDS[11][2] == 'f';
    RoutedNone(previous, s, 11);
  }

  lemma ProviderWord(previous: string, s: string)
    requires |s| >= 4 && s[0] == 'p' && s[1] == 'r' && s[2] == 'o' && s[3] == 'v'
    ensures Start(true, true, previous, s) == None
  {
    assert At(s, 0) == 'p' && At(s, 1) == 'r' && At(s, 2) == 'o';
    assert Lower(s)[3] == 'v' && FIELDS[23][3] == 'x';
    RoutedNone(previous, s, 23);
  }

  lemma TokenWord(previous: string, s: string)
    requires |s| >= 6 && s[0] == 't' && s[5] == ']'
    ensures Start(true, true, previous, s) == None
  {
    assert At(s, 0) == 't' && |FIELDS[19]| == 5;
    RoutedNone(previous, s, 19);
  }

  /** A word at a boundary where nothing starts, up to the character after it. */
  lemma Word(scan: TextScan, previous: string, u: string, rest: string)
    requires PassesInside(scan) && |u| >= 2 && IsWord(u) && Passes(scan, previous, u[0], u[1..] + rest)
    ensures scan(previous, u + rest) == Published(u).Plus(scan(u[|u| - 1..], rest))
  {
    WordParts(u, rest);
    InsideWord(scan, [u[0]], u[1..], rest);
    Joins(scan(previous, u + rest), [u[0]], scan([u[0]], u[1..] + rest), u[1..], scan(u[|u| - 1..], rest), u);
  }

  // ---- The witness: a key of the AWS form directly followed by a field

  predicate IsKey(key: string) {
    |key| == 20 && PROVIDERS[7].prefix <= key && AllIn(AwsAlphabet, key[4..])
  }

  predicate IsField(field: string) { field == "token=%" }

  /** After the key the field's name is inside a word, so the field is published. */
  lemma FirstScrub(key: string, field: string)
    requires IsKey(key) && IsField(field)
    ensures Scan(Normal, "", key + field) == Redacted(ProviderToken).Plus(Published(field))
  {
    var t := key + field;
    var last := key[19..];
    KeyStarts(key, t);
    ScanUnfold(Normal, "", t, Act(20, Redacted(ProviderToken), Token(AwsAlphabet)));
    assert t[..20] == key && t[20..] == field && key[4..][15] == key[19];
    FieldInside(last, field);
    FieldPublished(last, field);
  }

  lemma KeyStarts(key: string, t: string)
    requires IsKey(key) && key <= t
    ensures Start(true, true, "", t) == Some(Act(20, Redacted(ProviderToken), Token(AwsAlphabet)))
  {
    assert PROVIDERS[7] == Provider("AKIA", 16, AwsAlphabet);
    assert t[4..20] == key[4..];
    OnlyProvider(t, 7);
  }

  /** A token that ends before ordinary text. */
  lemma FieldPublished(last: string, field: string)
    requires field != "" && !InAlphabet(AwsAlphabet, field[0]) && NormalScan(last, field) == Published(field)
    ensures Scan(Token(AwsAlphabet), last, field) == Published(field)
  {
    TokenEnds(last, field);
  }

  /** Inside a word the field is published. */
  lemma FieldInside(last: string, field: string)
    requires !AtBoundary(last) && IsField(field)
    ensures NormalScan(last, field) == Published(field)
  {
    NormalPassesInside();
    var word, value := FieldParts(field);
    ValuePublished(word[5..], value);
    WordPublished(NormalScan, last, field, word, value);
  }

  lemma FieldParts(field: string) returns (word: string, value: string)
    requires IsField(field)
    ensures word == "token=" && value == "%" && field == word + value
  {
    word, value := "token=", "%";
  }

  lemma TokenEnds(last: string, field: string)
    requires field != "" && !InAlphabet(AwsAlphabet, field[0])
    ensures Scan(Token(AwsAlphabet), last, field) == NormalScan(last, field)
  {
    ScanUnfold(Token(AwsAlphabet), last, field, Act(0, NOTHING, Normal));
    assert field[..0] == "" && field[0..] == field;
    PlusNothing(NormalScan(last, field));
  }

  lemma WordPublished(scan: TextScan, last: string, field: string, word: string, value: string)
    requires PassesInside(scan) && !AtBoundary(last) && word == "token=" && field == word + value
    requires scan(word[5..], value) == Published(value)
    ensures scan(last, field) == Published(field)
  {
    InsideWord(scan, last, word, value);
    Joins(scan(last, field), word, Published(value), value, NOTHING, field);
    PlusNothing(Published(field));
  }

  lemma ValuePublished(previous: string, value: string)
    requires |value| == 1 && value[0] == '%'
    ensures Scan(Normal, previous, value) == Published(value)
  {
    var rest := value[1..];
    assert value == [value[0]] + rest && rest == "";
    Symbol(previous, value[0], rest);
    PlusNothing(Published(value));
  }

  /** After the marker it is at a boundary, and its value is redacted. */
  lemma FieldRedacted(previous: string, field: string)
    requires IsField(field) && previous == "]"
    ensures Scan(Normal, previous, field) == Published(field[..6]).Plus(Redacted(CredentialAssignment))
  {
    var name, rest := field[..5], field[5..];
    FieldStarts(previous, field);
    ScanUnfold(Normal, previous, field, Act(5, Published(name), Separator(CredentialAssignment, None, false)));
    SeparatorRedacted(Last(previous, name), rest);
    Joins(Scan(Normal, previous, field), name, Scan(Separator(CredentialAssignment, None, false), Last(previous, name), rest),
          rest[..1], Redacted(CredentialAssignment), field[..6]);
  }

  lemma FieldStarts(previous: string, field: string)
    requires IsField(field) && previous == "]"
    ensures Start(true, true, previous, field)
         == Some(Act(5, Published(field[..5]), Separator(CredentialAssignment, None, false)))
  {
    assert |FIELDS[19]| == 5 && FIELDS[19] <= Lower(field);
    FieldStartsAt(previous, field, 19);
  }

  lemma FieldStartsAt(previous: string, s: string, i: nat)
    requires i < |FIELDS| && FieldFits(true, FIELDS[i], s) && AtBoundary(previous)
    ensures Start(true, true, previous, s)
         == Some(Act(|FIELDS[i]|, Published(s[..|FIELDS[i]|]), Separator(FieldReason(i), QuoteBefore(previous), false)))
  {
    OnlyField(s, i);
  }

  lemma SeparatorRedacted(previous: string, rest: string)
    requires rest == "=%"
    ensures Scan(Separator(CredentialAssignment, None, false), previous, rest)
         == Published(rest[..1]).Plus(Redacted(CredentialAssignment))
  {
    var value, m := rest[1..], Value(CredentialAssignment, false, false, None);
    ScanUnfold(Separator(CredentialAssignment, None, false), previous, rest, Act(1, Published([rest[0]]), m));
    assert rest[..1] == [rest[0]];
    ValueIsRedacted(Last(previous, rest[..1]), value);
  }

  lemma ValueIsRedacted(previous: string, value: string)
    requires value == "%"
    ensures Scan(Value(CredentialAssignment, false, false, None), previous, value) == Redacted(CredentialAssignment)
  {
    PercentIsSecret(value);
    ValueAtEnd(Value(CredentialAssignment, false, false, None), previous, value);
  }

  lemma PercentIsSecret(value: string)
    requires value == "%"
    ensures Secret(Value(CredentialAssignment, false, false, None), value, "")
  {
    if FirstPrefix(MARKERS, value + "") != None {
      MarkerSize(FirstPrefix(MARKERS, value + "").value);
    }
  }

  predicate IsMarker(a: string, b: string, c: string, d: string) {
    a == "[" && b == "REDACTED:" && c == "provider_" && d == "token]"
  }

  /** Each part of a marker begins with a character that is published as it is. */
  ghost predicate PartsPass(scan: TextScan, a: string, b: string, c: string, d: string, t: string)
    requires IsMarker(a, b, c, d)
  {
    && scan("", a + (b + (c + (d + t)))) == Published(a).Plus(scan(a, b + (c + (d + t))))
    && Passes(scan, a, b[0], b[1..] + (c + (d + t)))
    && Passes(scan, b[8..], c[0], c[1..] + (d + t))
    && Passes(scan, c[8..], d[0], d[1..] + t)
  }

  lemma NormalPartsPass(a: string, b: string, c: string, d: string, t: string)
    requires IsMarker(a, b, c, d)
    ensures PartsPass(NormalScan, a, b, c, d, t)
  {
    assert a == [a[0]];
    Symbol("", a[0], b + (c + (d + t)));
    RedactedPasses(a, b, c + (d + t));
    ProviderPasses(b[8..], c, d + t);
    TokenPasses(c[8..], d, t);
  }

  lemma RedactedPasses(previous: string, u: string, t: string)
    requires u == "REDACTED:"
    ensures Passes(NormalScan, previous, u[0], u[1..] + t)
  {
    RedactedWord(previous, [u[0]] + (u[1..] + t));
    OneCharacter(previous, u[0], u[1..] + t);
  }

  lemma ProviderPasses(previous: string, u: string, t: string)
    requires u == "provider_"
    ensures Passes(NormalScan, previous, u[0], u[1..] + t)
  {
    ProviderWord(previous, [u[0]] + (u[1..] + t));
    OneCharacter(previous, u[0], u[1..] + t);
  }

  lemma TokenPasses(previous: string, u: string, t: string)
    requires u == "token]"
    ensures Passes(NormalScan, previous, u[0], u[1..] + t)
  {
    TokenWord(previous, [u[0]] + (u[1..] + t));
    OneCharacter(previous, u[0], u[1..] + t);
  }

  /** A provider marker in ordinary text stays as it is. */
  lemma MarkerPublished(scan: TextScan, a: string, b: string, c: string, d: string, t: string)
    requires IsMarker(a, b, c, d) && PassesInside(scan) && PartsPass(scan, a, b, c, d, t)
    ensures scan("", a + (b + (c + (d + t)))) == Published((a + b) + (c + d)).Plus(scan(d[5..], t))
  {
    var t3, t2 := d + t, c + (d + t);
    Word(scan, a, b, t2);
    Joins(scan("", a + (b + t2)), a, scan(a, b + t2), b, scan(b[8..], t2), a + b);
    Word(scan, b[8..], c, t3);
    Word(scan, c[8..], d, t);
    Joins(scan(b[8..], t2), c, scan(c[8..], t3), d, scan(d[5..], t), c + d);
    Joins(scan("", a + (b + t2)), a + b, scan(b[8..], t2), c + d, scan(d[5..], t), (a + b) + (c + d));
  }

  lemma MarkerParts(marker: string, field: string) returns (a: string, b: string, c: string, d: string)
    requires marker == Marker(ProviderToken)
    ensures IsMarker(a, b, c, d) && marker == (a + b) + (c + d) && d[5..] == "]"
    ensures marker + field == a + (b + (c + (d + field)))
  {
    a, b, c, d := "[", "REDACTED:", "provider_", "token]";
    MarkerIs(marker, (a + b) + (c + d));
    assert d[5..] == "]";
    assert marker + field == a + (b + (c + (d + field)));
  }

  lemma MarkerIs(marker: string, parts: string)
    requires marker == Marker(ProviderToken) && parts == ("[" + "REDACTED:") + ("provider_" + "token]")
    ensures marker == parts
  {
  }

  /** The second scrub redacts what the first published: the marker ends the word the field's name was in. */
  lemma SecondScrubRedacts(key: string, field: string, once: string)
    requires IsKey(key) && IsField(field) && once == Scan(Normal, "", key + field).text
    ensures Scan(Normal, "", once).redactions == [CredentialAssignment]
    ensures Scan(Normal, "", once).text != once
  {
    var marker := Marker(ProviderToken);
    FirstScrub(key, field);
    assert once == marker + field;
    var a, b, c, d := MarkerParts(marker, field);
    NormalPassesInside();
    NormalPartsPass(a, b, c, d, field);
    MarkerPublished(NormalScan, a, b, c, d, field);
    assert Scan(Normal, "", once) == Published(marker).Plus(Scan(Normal, "]", field));
    FieldRedacted("]", field);
    LongerMarker(marker, field);
  }

  lemma LongerMarker(marker: string, field: string)
    requires IsField(field)
    ensures marker + (field[..6] + Marker(CredentialAssignment)) != marker + field
  {
    assert |Marker(CredentialAssignment)| > 1;
  }
}
