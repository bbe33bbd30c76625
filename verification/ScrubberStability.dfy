/** A decision the online scrubber takes on a prefix is the decision with the whole text in view. */
module ScrubberStability {
  import opened Wrappers
  import opened ScrubberText
  import opened ScrubberSpec

  // ---- Runs of spaces in the retained text

  ghost predicate AllSpace(s: string, i: nat, n: nat)
    requires i + n <= |s|
  {
    forall k :: i <= k < i + n ==> HorizontalSpace(s[k])
  }

  /** No seventeen horizontal spaces in a row. */
  ghost predicate NoLongRun(s: string) {
    forall i: nat :: i + 17 <= |s| ==> !AllSpace(s, i, 17)
  }

  /** What the retained text always satisfies: a long run can only be at its very end. */
  ghost predicate Short(s: string) {
    s == "" || NoLongRun(s[..|s| - 1])
  }

  lemma ShortPush(s: string, c: char)
    requires NoLongRun(s)
    ensures Short(s + [c])
  {
    assert (s + [c])[..|s|] == s;
  }

  lemma ShortSuffix(s: string, n: nat)
    requires Short(s) && n <= |s|
    ensures Short(s[n..])
  {
    if n < |s| {
      var a, b := s[..|s| - 1], s[n..][..|s| - n - 1];
      forall i: nat | i + 17 <= |b| ensures !AllSpace(b, i, 17) {
        var k :| i + n <= k < i + n + 17 && !HorizontalSpace(a[k]) by { assert !AllSpace(a, i + n, 17); }
        assert b[k - n] == a[k];
      }
    }
  }

  /** On retained text the bound on spaces makes no difference. */
  lemma BearerCap(s: string)
    requires Short(s)
    ensures BearerFits(false, s) == BearerFits(true, s)
  {
    if 24 <= |s| {
      assert !AllSpace(s[..|s| - 1], 6, 17);
    }
  }

  lemma {:induction false} SpaceRunExtend(s: string, z: string, i: nat)
    requires i + SpaceRun(s, i) < |s|
    ensures SpaceRun(s + z, i) == SpaceRun(s, i)
    decreases |s| - i
  {
    assert (s + z)[i] == s[i];
    if HorizontalSpace(s[i]) {
      SpaceRunExtend(s, z, i + 1);
    }
  }

  /** A run of spaces in a longer text, seen from a prefix. */
  lemma {:induction false} SpaceRunPrefix(s: string, z: string, i: nat)
    requires i <= |s|
    ensures SpaceRun(s, i) <= SpaceRun(s + z, i)
    ensures SpaceRun(s, i) < SpaceRun(s + z, i) ==> i + SpaceRun(s, i) == |s|
    decreases |s| - i
  {
    if i < |s| {
      assert (s + z)[i] == s[i];
      if HorizontalSpace(s[i]) {
        SpaceRunPrefix(s, z, i + 1);
      }
    }
  }

  lemma LowerPrefix(s: string, z: string, key: string)
    ensures key <= Lower(s) ==> key <= Lower(s + z)
    ensures key <= Lower(s + z) && |key| <= |s| ==> key <= Lower(s)
    ensures key <= Lower(s + z) && |s| <= |key| ==> Lower(s) <= key
  {
    assert Lower(s + z)[..|s|] == Lower(s);
  }

  // ---- Starting

  // Whatever pattern a text fits, no other pattern fits it.

  lemma OnlyBegin(t: string, i: nat)
    requires i < |BEGINS| && BEGINS[i] <= t
    ensures FirstPrefix(BEGINS, t) == Some(i)
  {
    BeginRoute(i, t);
    BeginRoute(FirstPrefix(BEGINS, t).value, t);
  }

  lemma NotBegin(t: string)
    requires Route(t) >= 6
    ensures FirstPrefix(BEGINS, t) == None
  {
    if FirstPrefix(BEGINS, t) != None {
      BeginRoute(FirstPrefix(BEGINS, t).value, t);
    }
  }

  lemma NotProvider(t: string)
    requires Route(t) >= 21
    ensures FirstProvider(PROVIDERS, t) == None
  {
    if FirstProvider(PROVIDERS, t) != None {
      ProviderRoute(FirstProvider(PROVIDERS, t).value, t);
    }
  }

  lemma OnlyProvider(t: string, i: nat)
    requires i < |PROVIDERS| && ProviderFits(PROVIDERS[i], t)
    ensures FirstPrefix(BEGINS, t) == None && FirstProvider(PROVIDERS, t) == Some(i)
  {
    ProviderRoute(i, t);
    ProviderRoute(FirstProvider(PROVIDERS, t).value, t);
    NotBegin(t);
  }

  lemma OnlyBearer(t: string)
    requires BEARER <= Lower(t)
    ensures FirstPrefix(BEGINS, t) == None && FirstProvider(PROVIDERS, t) == None
  {
    BearerRoute(t);
    NotBegin(t);
    NotProvider(t);
  }

  lemma OnlyField(t: string, i: nat)
    requires i < |FIELDS| && FieldFits(true, FIELDS[i], t)
    ensures FirstPrefix(BEGINS, t) == None && FirstProvider(PROVIDERS, t) == None
    ensures !BearerFits(true, t) && FirstField(true, FIELDS, t) == Some(i)
  {
    FieldRoute(i, t);
    NotBegin(t);
    NotProvider(t);
    if BEARER <= Lower(t) { BearerRoute(t); }
    FieldRoute(FirstField(true, FIELDS, t).value, t);
  }

  lemma ProviderExtend(p: Provider, s: string, z: string)
    requires ProviderFits(p, s)
    ensures ProviderFits(p, s + z)
  {
    assert (s + z)[|p.prefix|..p.Required()] == s[|p.prefix|..p.Required()];
  }

  lemma BearerExtend(s: string, z: string)
    requires BearerFits(true, s)
    ensures BearerFits(true, s + z) && SpaceRun(s + z, 6) == SpaceRun(s, 6)
  {
    SpaceRunExtend(s, z, 6);
    LowerPrefix(s, z, BEARER);
    var n := 6 + SpaceRun(s, 6);
    assert (s + z)[n..n + 8] == s[n..n + 8];
  }

  // A start on a prefix, with the bound on spaces or where the bound makes no difference.

  lemma PrefixStart(capped: bool, previous: string, s: string, t: string)
    requires s <= t && FirstPrefix(BEGINS, s) != None
    ensures Start(true, true, previous, t) == Start(false, capped, previous, s)
  {
    var i := FirstPrefix(BEGINS, s).value;
    OnlyBegin(t, i);
  }

  lemma ProviderStart(capped: bool, previous: string, s: string, z: string)
    requires AtBoundary(previous) && FirstPrefix(BEGINS, s) == None && FirstProvider(PROVIDERS, s) != None
    ensures Start(true, true, previous, s + z) == Start(false, capped, previous, s)
  {
    var i := FirstProvider(PROVIDERS, s).value;
    ProviderExtend(PROVIDERS[i], s, z);
    OnlyProvider(s + z, i);
  }

  lemma StartIsBearer(final: bool, capped: bool, previous: string, t: string)
    requires AtBoundary(previous) && BearerFits(capped, t)
    ensures Start(final, capped, previous, t) == Some(BearerAction(t, 6 + SpaceRun(t, 6)))
  {
    OnlyBearer(t);
  }

  lemma BearerStart(capped: bool, previous: string, s: string, z: string)
    requires AtBoundary(previous) && BearerFits(true, s) && BearerFits(capped, s)
    ensures Start(true, true, previous, s + z) == Start(false, capped, previous, s)
  {
    StartIsBearer(false, capped, previous, s);
    BearerExtend(s, z);
    StartIsBearer(true, true, previous, s + z);
    BearerActionStable(s, z, 6 + SpaceRun(s, 6));
  }

  lemma BearerActionStable(s: string, z: string, n: nat)
    requires n <= |s|
    ensures BearerAction(s + z, n) == BearerAction(s, n)
  {
    assert (s + z)[..n] == s[..n];
  }

  lemma FieldStart(capped: bool, previous: string, s: string, z: string, i: nat)
    requires AtBoundary(previous) && FirstField(false, FIELDS, s) == Some(i)
    requires FirstPrefix(BEGINS, s) == None && FirstProvider(PROVIDERS, s) == None && !BearerFits(capped, s)
    ensures Start(true, true, previous, s + z) == Start(false, capped, previous, s)
  {
    var t := s + z;
    LowerPrefix(s, z, FIELDS[i]);
    assert FieldFits(true, FIELDS[i], t);
    OnlyField(t, i);
    assert t[..|FIELDS[i]|] == s[..|FIELDS[i]|];
  }

  /** A start taken on a prefix is the start of the whole text. */
  lemma StartStable(capped: bool, previous: string, s: string, z: string)
    requires (capped || Short(s)) && Start(false, capped, previous, s) != None
    ensures Start(true, true, previous, s + z) == Start(false, capped, previous, s)
  {
    if !capped {
      BearerCap(s);
    }
    if FirstPrefix(BEGINS, s) != None {
      PrefixStart(capped, previous, s, s + z);
    } else if FirstProvider(PROVIDERS, s) != None {
      ProviderStart(capped, previous, s, z);
    } else if BearerFits(capped, s) {
      BearerStart(capped, previous, s, z);
    } else {
      FieldStart(capped, previous, s, z, FirstField(false, FIELDS, s).value);
    }
  }

  // ---- A start of the whole text is seen, or still possible, on every prefix

  lemma PrefixSeen(key: string, s: string, z: string)
    requires key <= s + z
    ensures key <= s || s <= key
  {
    assert s == (s + z)[..|s|];
  }

  lemma ProviderSeen(p: Provider, s: string, z: string)
    requires ProviderFits(p, s + z)
    ensures ProviderFits(p, s) || ProviderCould(p, s)
  {
    var t := s + z;
    PrefixSeen(p.prefix, s, z);
    if |p.prefix| <= |s| {
      var n := if |s| < p.Required() then |s| else p.Required();
      forall k | 0 <= k < n - |p.prefix| ensures InAlphabet(p.alphabet, s[|p.prefix|..n][k]) {
        assert t[|p.prefix|..p.Required()][k] == s[|p.prefix|..n][k];
      }
      assert s[|p.prefix|..|s|] == s[|p.prefix|..];
    }
  }

  lemma BearerSeen(s: string, z: string)
    requires BearerFits(true, s + z)
    ensures BearerFits(true, s) || BearerCould(s)
  {
    LowerPrefix(s, z, BEARER);
    if |s| > 6 {
      SpaceRunPrefix(s, z, 6);
      assert (s + z)[6] == s[6];
      BearerValueSeen(s, z, 6 + SpaceRun(s + z, 6));
    }
  }

  lemma BearerValueSeen(s: string, z: string, n: nat)
    requires n + 8 <= |s + z| && AllIn(BearerAlphabet, (s + z)[n..n + 8])
    ensures n <= |s| < n + 8 ==> AllIn(BearerAlphabet, s[n..])
    ensures n + 8 <= |s| ==> AllIn(BearerAlphabet, s[n..n + 8])
  {
    var value := (s + z)[n..n + 8];
    if n <= |s| < n + 8 {
      assert s[n..] == value[..|s| - n];
    } else if n + 8 <= |s| {
      assert s[n..n + 8] == value;
    }
  }

  lemma FieldSeen(f: string, s: string, z: string)
    requires FieldFits(true, f, s + z)
    ensures FieldFits(false, f, s) || Lower(s) <= f
  {
    LowerPrefix(s, z, f);
    if |f| < |s| {
      assert (s + z)[|f|] == s[|f|];
    }
  }

  lemma StartSeen(capped: bool, previous: string, s: string, z: string)
    requires Start(true, true, previous, s + z) != None
    ensures Start(false, capped, previous, s) != None || CouldStart(previous, s)
  {
    var t := s + z;
    if FirstPrefix(BEGINS, t) != None {
      PrefixSeen(BEGINS[FirstPrefix(BEGINS, t).value], s, z);
    } else if FirstProvider(PROVIDERS, t) != None {
      ProviderSeen(PROVIDERS[FirstProvider(PROVIDERS, t).value], s, z);
    } else if BearerFits(true, t) {
      BearerSeen(s, z);
    } else {
      FieldSeen(FIELDS[FirstField(true, FIELDS, t).value], s, z);
    }
  }

  // ---- One step

  lemma MarkerStable(s: string, z: string)
    requires FirstPrefix(MARKERS, s) != None || !MarkerCould(s)
    ensures FirstPrefix(MARKERS, s + z) == FirstPrefix(MARKERS, s)
  {
    var t := s + z;
    if FirstPrefix(MARKERS, t) != None {
      PrefixSeen(MARKERS[FirstPrefix(MARKERS, t).value], s, z);
    }
    if FirstPrefix(MARKERS, s) != None {
      assert MARKERS[FirstPrefix(MARKERS, s).value] <= t;
      MarkerUnique(FirstPrefix(MARKERS, s).value, FirstPrefix(MARKERS, t).value, t);
    }
  }

  /** If the online scrubber acts on a prefix, the scanner of the whole text acts alike. */
  lemma StepStable(capped: bool, m: Mode, previous: string, s: string, z: string)
    requires s != "" && (capped || Short(s)) && Step(false, capped, m, previous, s).Act?
    ensures Step(true, true, m, previous, s + z) == Step(false, capped, m, previous, s)
  {
    var t := s + z;
    if Unstarted(m) {
      MarkerStable(s, z);
    }
    if m == Normal {
      if Start(false, capped, previous, s) != None {
        StartStable(capped, previous, s, z);
      } else {
        if Start(true, true, previous, t) != None {
          StartSeen(capped, previous, s, z);
        }
        assert t[..1] == s[..1];
      }
    } else {
      assert t[0] == s[0];
    }
  }

  lemma FinalStepAgrees(m: Mode, previous: string, s: string)
    requires s != "" && Short(s)
    ensures Step(true, false, m, previous, s) == Step(true, true, m, previous, s)
  {
    BearerCap(s);
  }

  // ---- What is retained while waiting

  /** The lookahead that is ever retained holds at most 38 characters and no long run of spaces. */
  lemma WaitBound(m: Mode, previous: string, s: string)
    requires s != "" && Step(false, false, m, previous, s) == Wait
    ensures |s| <= 38 && NoLongRun(s)
  {
    if Unstarted(m) && MarkerCould(s) {
      var i :| 0 <= i < |MARKERS| && s <= MARKERS[i];
      MarkerSize(i);
      OneBreak(s, 15);
    } else {
      StartProgress(false, false, previous, s);
      CouldStartBound(previous, s);
    }
  }

  /** A non-space that lies in every window of seventeen. */
  lemma OneBreak(s: string, k: nat)
    requires |s| <= k + 17 && k <= 16 && (k < |s| ==> !HorizontalSpace(s[k]))
    ensures NoLongRun(s)
  {
    forall i: nat | i + 17 <= |s| ensures !AllSpace(s, i, 17) {
      assert i <= k < i + 17;
    }
  }

  lemma CouldStartBound(previous: string, s: string)
    requires s != "" && Start(false, false, previous, s) == None && CouldStart(previous, s)
    ensures |s| <= 38 && NoLongRun(s)
  {
    if i :| 0 <= i < |BEGINS| && s <= BEGINS[i] {
      BeginCouldBound(s, i);
    } else if i :| 0 <= i < |FIELDS| && Lower(s) <= FIELDS[i] {
      FieldSize(i);
      assert |s| > 2 ==> Lower(s)[2] == FIELDS[i][2];
      OneBreak(s, 2);
    } else if i :| 0 <= i < |PROVIDERS| && ProviderCould(PROVIDERS[i], s) {
      ProviderCouldBound(s, i);
    } else {
      BearerCouldBound(s);
    }
  }

  lemma BeginCouldBound(s: string, i: nat)
    requires i < |BEGINS| && s <= BEGINS[i] && s != BEGINS[i]
    ensures |s| <= 36 && NoLongRun(s)
  {
    BeginSize(i);
    forall j: nat | j + 17 <= |s| ensures !AllSpace(s, j, 17) {
      var k := if j <= 9 then 9 else 19;
      assert j <= k < j + 17 && s[k] == BEGINS[i][k];
    }
  }

  lemma ProviderCouldBound(s: string, i: nat)
    requires i < |PROVIDERS| && ProviderCould(PROVIDERS[i], s)
    ensures |s| <= 38 && NoLongRun(s)
  {
    ProviderSize(i);
    var p := PROVIDERS[i];
    forall j: nat | j + 17 <= |s| ensures !AllSpace(s, j, 17) {
      assert s[|p.prefix|..][j + 16 - |p.prefix|] == s[j + 16];
    }
  }

  lemma BearerCouldBound(s: string)
    requires BearerCould(s)
    ensures |s| <= 29 && NoLongRun(s)
  {
    if !(Lower(s) <= BEARER) {
      var n := 6 + SpaceRun(s, 6);
      forall j: nat | j + 17 <= |s| ensures !AllSpace(s, j, 17) {
        if j < 6 {
          assert Lower(s)[j] == BEARER[j];
        } else {
          assert s[n..][j + 16 - n] == s[j + 16];
        }
      }
    }
  }
}
