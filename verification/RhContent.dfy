/** Joining immutable content ranges and observation receipts. Text is its UTF-8 bytes. */
module RhContent {
  import opened Wrappers

  type Bytes = seq<bv8>

  datatype Mode = Append | Snapshot

  datatype Handle = Handle(
    incarnation: string, contentId: string, revision: int, mode: Mode,
    start: int, end: int, total: int, complete: bool)

  /** `text` is absent for a null text. */
  datatype Page = Page(available: bool, text: Option<Bytes>, handle: Handle)

  datatype View = View(
    incarnation: string, contentId: string, revision: int, text: Bytes,
    start: int, end: int, total: int, complete: bool)

  datatype Error = WrongLength | RetryDisagrees | StaleRevision | GapOrOverlap | NeedsFirstPage

  datatype Merged = Held(view: Option<View>) | Raised(error: Error)

  const BOM: Bytes := [0xEF, 0xBB, 0xBF]

  /** Decoding drops one leading byte order mark. */
  function Decode(b: Bytes): Bytes {
    if BOM <= b then b[3..] else b
  }

  /** A `slice` bound: negative counts from the end. */
  function Bound(b: Bytes, x: int): (r: nat)
    ensures r <= |b|
  {
    if x < 0 then (if |b| + x < 0 then 0 else |b| + x) else if x < |b| then x else |b|
  }

  function Slice(b: Bytes, lo: int, hi: int): Bytes {
    if Bound(b, lo) < Bound(b, hi) then b[Bound(b, lo)..Bound(b, hi)] else []
  }

  predicate SameContent(v: View, h: Handle) { v.incarnation == h.incarnation && v.contentId == h.contentId }

  /** A later snapshot revision replaces what is held. */
  predicate Replacing(v: View, h: Handle) { SameContent(v, h) && h.mode == Snapshot && h.revision > v.revision }

  predicate Continuing(previous: Option<View>, h: Handle) {
    previous.Some? && SameContent(previous.value, h) && !Replacing(previous.value, h)
  }

  /** A page inside what is already held, at no newer revision. */
  predicate Contained(v: View, h: Handle) { h.revision <= v.revision && h.end <= v.end && h.start >= v.start }

  function MergeContentPage(previous: Option<View>, page: Page): Merged {
    if !page.available || page.text.None? then Held(previous)
    else
      var h, text := page.handle, page.text.value;
      if |text| != h.end - h.start then Raised(WrongLength)
      else if Continuing(previous, h) && Contained(previous.value, h) then
        if Decode(Slice(previous.value.text, h.start, h.end)) != text then Raised(RetryDisagrees)
        else Held(previous)
      else if Continuing(previous, h) && h.revision < previous.value.revision then Raised(StaleRevision)
      else if Continuing(previous, h) && h.start != previous.value.end then Raised(GapOrOverlap)
      else if !Continuing(previous, h) && h.start != 0 then Raised(NeedsFirstPage)
      else
        Held(Some(View(h.incarnation, h.contentId, h.revision,
                       if Continuing(previous, h) then previous.value.text + text else text,
                       0, h.end, h.total, h.complete && h.end == h.total)))
  }

  /** One immutable append stream. */
  datatype Stream = Stream(incarnation: string, contentId: string, bytes: Bytes)

  /** The page carries a true slice of the stream, or nothing. */
  ghost predicate TruePage(s: Stream, p: Page) {
    && p.handle.incarnation == s.incarnation && p.handle.contentId == s.contentId && p.handle.mode == Append
    && 0 <= p.handle.start <= p.handle.end <= |s.bytes|
    && (p.available && p.text.Some? ==> p.text.value == s.bytes[p.handle.start..p.handle.end])
  }

  /** The view holds a prefix of the stream, its byte length is its end, and it is complete only at its
      whole committed extent. */
  ghost predicate PrefixView(s: Stream, v: View) {
    && v.incarnation == s.incarnation && v.contentId == s.contentId
    && v.start == 0 && v.end == |v.text| && v.text <= s.bytes
    && (v.complete ==> v.end == v.total)
  }

  ghost predicate PrefixOrNothing(s: Stream, v: Option<View>) { v.Some? ==> PrefixView(s, v.value) }

  /** One delivery keeps a prefix of the stream and never shrinks it. */
  lemma DeliveryKeepsPrefix(s: Stream, v: Option<View>, p: Page)
    requires PrefixOrNothing(s, v) && TruePage(s, p)
    ensures MergeContentPage(v, p).Held? ==> PrefixOrNothing(s, MergeContentPage(v, p).view)
    ensures MergeContentPage(v, p).Held? && v.Some? ==>
              MergeContentPage(v, p).view.Some? && v.value.text <= MergeContentPage(v, p).view.value.text
  {
    if p.available && p.text.Some? && v.Some? && p.handle.start == v.value.end {
      assert s.bytes[..v.value.end] + s.bytes[p.handle.start..p.handle.end] == s.bytes[..p.handle.end];
    }
  }

  /** A contained retry at no newer revision leaves the view alone exactly when its bytes do not begin
      with a byte order mark, which decoding the held bytes drops. */
  lemma ContainedRetry(s: Stream, v: View, p: Page)
    requires PrefixView(s, v) && TruePage(s, p) && p.available && p.text.Some? && Contained(v, p.handle)
    ensures MergeContentPage(Some(v), p) == Held(Some(v)) <==> !(BOM <= p.text.value)
    ensures BOM <= p.text.value ==> MergeContentPage(Some(v), p) == Raised(RetryDisagrees)
  {
    var held := Slice(v.text, p.handle.start, p.handle.end);
    assert held == v.text[p.handle.start..p.handle.end] == s.bytes[p.handle.start..p.handle.end];
    assert |Decode(held)| == |held| <==> !(BOM <= held);
  }

  /** What becomes of a true page of an append stream that is held up to some point: no page is taken
      but the very next one, and every other is a known part, stale, or out of place. */
  lemma AppendExact(s: Stream, v: View, p: Page)
    requires PrefixView(s, v) && TruePage(s, p) && p.available && p.text.Some?
    ensures var h, r := p.handle, MergeContentPage(Some(v), p);
      if h.revision <= v.revision && h.end <= v.end then
        r == if BOM <= p.text.value then Raised(RetryDisagrees) else Held(Some(v))
      else if h.revision < v.revision then r == Raised(StaleRevision)
      else if h.start != v.end then r == Raised(GapOrOverlap)
      else
        r == Held(Some(View(s.incarnation, s.contentId, h.revision, s.bytes[..h.end], 0, h.end, h.total,
                            h.complete && h.end == h.total)))
  {
    if p.handle.revision <= v.revision && p.handle.end <= v.end {
      ContainedRetry(s, v, p);
    } else if p.handle.start == v.end {
      assert v.text == s.bytes[..v.end];
      assert s.bytes[..v.end] + s.bytes[p.handle.start..p.handle.end] == s.bytes[..p.handle.end];
    }
  }

  /** The mark at the start of a stream makes even the exact repetition of its first page fail. */
  lemma MarkedRetryFails()
    ensures var s := Stream("i", "c", BOM);
            var p := Page(true, Some(BOM), Handle("i", "c", 1, Append, 0, 3, 3, true));
            TruePage(s, p) && MergeContentPage(None, p).Held? && MergeContentPage(None, p).view.Some?
            && MergeContentPage(MergeContentPage(None, p).view, p) == Raised(RetryDisagrees)
  {
    var s := Stream("i", "c", BOM);
    var p := Page(true, Some(BOM), Handle("i", "c", 1, Append, 0, 3, 3, true));
    var v := MergeContentPage(None, p).view.value;
    assert BOM[0..3] == BOM;
    ContainedRetry(s, v, p);
  }

  /** The view after a list of deliveries; a page that raises leaves it alone. */
  function Delivered(v: Option<View>, pages: seq<Page>): Option<View>
    decreases |pages|
  {
    if pages == [] then v
    else
      var before := Delivered(v, pages[..|pages| - 1]);
      var merged := MergeContentPage(before, pages[|pages| - 1]);
      if merged.Held? then merged.view else before
  }

  ghost predicate TruePages(s: Stream, pages: seq<Page>) {
    forall i :: 0 <= i < |pages| ==> TruePage(s, pages[i])
  }

  /** Any delivery of true slices, with duplicates and in any order, keeps the view a prefix of the stream. */
  lemma {:induction false} DeliveriesKeepPrefix(s: Stream, v: Option<View>, pages: seq<Page>)
    requires PrefixOrNothing(s, v) && TruePages(s, pages)
    ensures PrefixOrNothing(s, Delivered(v, pages))
    ensures v.Some? ==> Delivered(v, pages).Some? && v.value.text <= Delivered(v, pages).value.text
    decreases |pages|
  {
    if pages != [] {
      var front := pages[..|pages| - 1];
      DeliveriesKeepPrefix(s, v, front);
      DeliveryKeepsPrefix(s, Delivered(v, front), pages[|pages| - 1]);
    }
  }

  /** The view only grows over further deliveries. */
  lemma {:induction false} DeliveriesGrow(s: Stream, v: Option<View>, pages: seq<Page>, n: nat)
    requires PrefixOrNothing(s, v) && TruePages(s, pages) && n <= |pages| && Delivered(v, pages[..n]).Some?
    ensures Delivered(v, pages).Some? && Delivered(v, pages[..n]).value.text <= Delivered(v, pages).value.text
    decreases |pages|
  {
    if n == |pages| {
      assert pages[..n] == pages;
    } else {
      var front := pages[..|pages| - 1];
      assert front[..n] == pages[..n];
      DeliveriesGrow(s, v, front, n);
      DeliveriesKeepPrefix(s, v, front);
      DeliveryKeepsPrefix(s, Delivered(v, front), pages[|pages| - 1]);
    }
  }

  /** A page that claims completeness carries the stream's true length. */
  ghost predicate HonestPages(s: Stream, pages: seq<Page>) {
    forall i :: 0 <= i < |pages| && pages[i].handle.complete ==> pages[i].handle.total == |s.bytes|
  }

  ghost predicate WholeWhenComplete(s: Stream, v: Option<View>) {
    v.Some? && v.value.complete ==> v.value.text == s.bytes
  }

  /** When no page lies about the length, a complete view is the whole stream, in whatever order and however
      often the pages came. */
  lemma {:induction false} CompleteIsWhole(s: Stream, v: Option<View>, pages: seq<Page>)
    requires PrefixOrNothing(s, v) && WholeWhenComplete(s, v) && TruePages(s, pages) && HonestPages(s, pages)
    ensures WholeWhenComplete(s, Delivered(v, pages))
    decreases |pages|
  {
    if pages != [] {
      var front, last := pages[..|pages| - 1], pages[|pages| - 1];
      CompleteIsWhole(s, v, front);
      DeliveriesKeepPrefix(s, v, front);
      DeliveryKeepsPrefix(s, Delivered(v, front), last);
    }
  }

  /** Consecutive pages with rising revisions. */
  ghost predicate InOrder(pages: seq<Page>) {
    && (forall i :: 0 <= i < |pages| ==> pages[i].available && pages[i].text.Some?)
    && (pages != [] ==> pages[0].handle.start == 0)
    && (forall i :: 0 <= i < |pages| - 1 ==> Next(pages[i].handle, pages[i + 1].handle))
  }

  predicate Next(h: Handle, h': Handle) { h'.start == h.end && h'.revision >= h.revision && h'.end > h'.start }

  /** Delivered in order, the slices assemble exactly the stream up to the last page. */
  lemma {:induction false} InOrderAssembles(s: Stream, pages: seq<Page>)
    requires TruePages(s, pages) && InOrder(pages) && pages != []
    ensures var v := Delivered(None, pages); var h := pages[|pages| - 1].handle;
            v.Some? && v.value.text == s.bytes[..h.end] && v.value.end == h.end && v.value.start == 0
            && v.value.revision == h.revision && SameContent(v.value, h)
            && v.value.complete == (h.complete && h.end == h.total)
    decreases |pages|
  {
    var front, last := pages[..|pages| - 1], pages[|pages| - 1];
    if front == [] {
      assert Delivered(None, front) == None;
      assert s.bytes[0..last.handle.end] == s.bytes[..last.handle.end];
    } else {
      assert InOrder(front) && TruePages(s, front);
      InOrderAssembles(s, front);
      DeliveriesKeepPrefix(s, None, front);
      assert Next(pages[|pages| - 2].handle, last.handle);
      AppendExact(s, Delivered(None, front).value, last);
    }
  }

  // ---- Snapshots: every revision has its own bytes

  /** A content that is written anew with each revision. */
  datatype Snapshots = Snapshots(incarnation: string, contentId: string, bytes: int -> Bytes)

  ghost predicate TrueSnapshot(s: Snapshots, p: Page) {
    var h := p.handle;
    && h.incarnation == s.incarnation && h.contentId == s.contentId && h.mode == Snapshot
    && 0 <= h.start <= h.end <= |s.bytes(h.revision)|
    && (p.available && p.text.Some? ==> p.text.value == s.bytes(h.revision)[h.start..h.end])
  }

  /** The view holds a prefix of the bytes of its own revision. */
  ghost predicate RevisionView(s: Snapshots, v: View) {
    && v.incarnation == s.incarnation && v.contentId == s.contentId
    && v.start == 0 && v.end == |v.text| && v.text <= s.bytes(v.revision)
    && (v.complete ==> v.end == v.total)
  }

  ghost predicate RevisionOrNothing(s: Snapshots, v: Option<View>) { v.Some? ==> RevisionView(s, v.value) }

  /** The first page of a later revision leaves exactly that page, and a later page of one is refused. */
  lemma NewerSnapshotReplaces(s: Snapshots, v: View, p: Page)
    requires RevisionView(s, v) && TrueSnapshot(s, p) && p.available && p.text.Some?
    requires p.handle.revision > v.revision
    ensures MergeContentPage(Some(v), p) ==
      if p.handle.start != 0 then Raised(NeedsFirstPage)
      else Held(Some(View(s.incarnation, s.contentId, p.handle.revision, p.text.value, 0, p.handle.end,
                          p.handle.total, p.handle.complete && p.handle.end == p.handle.total)))
  {
  }

  /** One delivery keeps a prefix of one revision, and no earlier one. */
  lemma SnapshotKeepsRevision(s: Snapshots, v: Option<View>, p: Page)
    requires RevisionOrNothing(s, v) && TrueSnapshot(s, p)
    ensures MergeContentPage(v, p).Held? ==> RevisionOrNothing(s, MergeContentPage(v, p).view)
    ensures MergeContentPage(v, p).Held? && v.Some? ==>
              && MergeContentPage(v, p).view.Some? && v.value.revision <= MergeContentPage(v, p).view.value.revision
              && (v.value.revision == MergeContentPage(v, p).view.value.revision ==>
                    v.value.text <= MergeContentPage(v, p).view.value.text)
  {
    if p.available && p.text.Some? && v.Some? && p.handle.start == v.value.end && p.handle.revision == v.value.revision {
      var bytes := s.bytes(v.value.revision);
      assert bytes[..v.value.end] + bytes[p.handle.start..p.handle.end] == bytes[..p.handle.end];
    }
  }

  /** Any delivery of true pages of any revisions, in any order: the view is never a mixture of revisions,
      its revision never falls, and within one revision it never shrinks. */
  lemma {:induction false} SnapshotsNeverMix(s: Snapshots, v: Option<View>, pages: seq<Page>)
    requires RevisionOrNothing(s, v)
    requires forall i :: 0 <= i < |pages| ==> TrueSnapshot(s, pages[i])
    ensures RevisionOrNothing(s, Delivered(v, pages))
    ensures v.Some? ==>
              && Delivered(v, pages).Some? && v.value.revision <= Delivered(v, pages).value.revision
              && (v.value.revision == Delivered(v, pages).value.revision ==>
                    v.value.text <= Delivered(v, pages).value.text)
    decreases |pages|
  {
    if pages != [] {
      var front := pages[..|pages| - 1];
      SnapshotsNeverMix(s, v, front);
      SnapshotKeepsRevision(s, Delivered(v, front), pages[|pages| - 1]);
    }
  }

  // ---- Observation receipts

  datatype Observation = Observation(incarnation: string, sequence: int, cursor: Option<string>, body: string)

  datatype Key = JournalKey(incarnation: string, cursor: string) | SequenceKey(incarnation: string, sequence: int)

  /** The journal cursor identifies a delivery when there is one, the sequence otherwise. */
  function ObservationKey(o: Observation): Key {
    if o.cursor.Some? && o.cursor.value != "" then JournalKey(o.incarnation, o.cursor.value)
    else SequenceKey(o.incarnation, o.sequence)
  }

  /** Two receipts are one delivery: of one incarnation, under one journal cursor, or, where neither has
      one, under one sequence number. */
  lemma KeyMeaning(x: Observation, y: Observation)
    ensures ObservationKey(x) == ObservationKey(y) <==>
      && x.incarnation == y.incarnation
      && if x.cursor == None || x.cursor == Some("") then
           (y.cursor == None || y.cursor == Some("")) && x.sequence == y.sequence
         else x.cursor == y.cursor
  {
  }

  predicate Holds(held: seq<Observation>, key: Key) {
    exists i :: 0 <= i < |held| && ObservationKey(held[i]) == key
  }

  ghost predicate Distinct(held: seq<Observation>) {
    forall i, j :: 0 <= i < j < |held| ==> ObservationKey(held[i]) != ObservationKey(held[j])
  }

  /** Receipts in the order of their first delivery, each with its first value. */
  function AddNew(held: seq<Observation>, o: Observation): seq<Observation> {
    if Holds(held, ObservationKey(o)) then held else held + [o]
  }

  function AddAll(held: seq<Observation>, incoming: seq<Observation>): seq<Observation> {
    if incoming == [] then held
    else AddNew(AddAll(held, incoming[..|incoming| - 1]), incoming[|incoming| - 1])
  }

  method FindKey(held: seq<Observation>, key: Key) returns (k: Option<nat>)
    ensures k.Some? <==> Holds(held, key)
    ensures k.Some? ==> k.value < |held| && ObservationKey(held[k.value]) == key
  {
    for i := 0 to |held|
      invariant forall j :: 0 <= j < i ==> ObservationKey(held[j]) != key
    {
      if ObservationKey(held[i]) == key {
        return Some(i);
      }
    }
    return None;
  }

  /** A receipt under a key that is held takes the place of the one there. */
  function Put(held: seq<Observation>, o: Observation): (r: seq<Observation>)
    ensures |held| <= |r| <= |held| + 1
  {
    if Holds(held, ObservationKey(o)) then
      seq(|held|, i requires 0 <= i < |held| => if ObservationKey(held[i]) == ObservationKey(o) then o else held[i])
    else held + [o]
  }

  function PutAll(existing: seq<Observation>): seq<Observation> {
    if existing == [] then [] else Put(PutAll(existing[..|existing| - 1]), existing[|existing| - 1])
  }

  /** Of repeated receipts the last value is kept, and each other receipt as it is. */
  lemma {:induction false} PutAllKeeps(existing: seq<Observation>)
    ensures Distinct(PutAll(existing))
    ensures forall i :: 0 <= i < |existing| && Latest(existing, i) ==> existing[i] in PutAll(existing)
    decreases |existing|
  {
    if existing != [] {
      var front, o := existing[..|existing| - 1], existing[|existing| - 1];
      PutAllKeeps(front);
      PutKeeps(PutAll(front), o);
      forall i | 0 <= i < |existing| && Latest(existing, i) ensures existing[i] in PutAll(existing) {
        if i < |front| {
          assert front[i] == existing[i];
          LatestFront(existing, i);
        }
      }
    }
  }

  ghost predicate SameKeys(x: seq<Observation>, y: seq<Observation>) {
    |x| == |y| && forall i :: 0 <= i < |x| ==> ObservationKey(x[i]) == ObservationKey(y[i])
  }

  /** Each kept receipt stands where the first with its key stood. */
  lemma {:induction false} PutAllOrder(existing: seq<Observation>)
    ensures SameKeys(PutAll(existing), AddAll([], existing))
    decreases |existing|
  {
    if existing != [] {
      var front, o := existing[..|existing| - 1], existing[|existing| - 1];
      PutAllOrder(front);
      PutAllKeeps(front);
      PutKeeps(PutAll(front), o);
      SameKeysHold(PutAll(front), AddAll([], front));
    }
  }

  /** No earlier receipt has the key of receipt `i`. */
  ghost predicate Earliest(existing: seq<Observation>, i: nat)
    requires i < |existing|
  {
    forall j :: 0 <= j < i ==> ObservationKey(existing[j]) != ObservationKey(existing[i])
  }

  /** For every key the first and the last value held are equal. */
  ghost predicate Steady(existing: seq<Observation>) {
    forall i, j :: FirstAndLast(existing, i, j) ==> existing[i] == existing[j]
  }

  ghost predicate FirstAndLast(existing: seq<Observation>, i: int, j: int) {
    && 0 <= i < |existing| && 0 <= j < |existing| && Earliest(existing, i) && Latest(existing, j)
    && ObservationKey(existing[i]) == ObservationKey(existing[j])
  }

  /** No later receipt has the key of receipt `i`. */
  ghost predicate Latest(existing: seq<Observation>, i: nat)
    requires i < |existing|
  {
    forall j :: i < j < |existing| ==> ObservationKey(existing[j]) != ObservationKey(existing[i])
  }

  lemma LatestFront(existing: seq<Observation>, i: nat)
    requires i < |existing| - 1 && Latest(existing, i)
    ensures Latest(existing[..|existing| - 1], i)
    ensures ObservationKey(existing[|existing| - 1]) != ObservationKey(existing[i])
  {
  }

  lemma PutKeeps(held: seq<Observation>, o: Observation)
    requires Distinct(held)
    ensures Distinct(Put(held, o)) && o in Put(held, o)
    ensures forall x :: x in held && ObservationKey(x) != ObservationKey(o) ==> x in Put(held, o)
    ensures SameKeys(Put(held, o)[..|held|], held)
  {
    var after := Put(held, o);
    forall x | x in held && ObservationKey(x) != ObservationKey(o) ensures x in after {
      var i :| 0 <= i < |held| && held[i] == x;
      assert after[i] == x;
    }
    if Holds(held, ObservationKey(o)) {
      var i :| 0 <= i < |held| && ObservationKey(held[i]) == ObservationKey(o);
      assert after[i] == o;
    } else {
      assert after[|held|] == o;
    }
  }

  lemma SameKeysHold(x: seq<Observation>, y: seq<Observation>)
    requires SameKeys(x, y)
    ensures forall key :: Holds(x, key) <==> Holds(y, key)
  {
  }

  /** Receipts that are not repeated stay as they are. */
  lemma {:induction false} PutAllDistinct(existing: seq<Observation>)
    requires Distinct(existing)
    ensures PutAll(existing) == existing
    decreases |existing|
  {
    if existing != [] {
      var n := |existing| - 1;
      PutAllDistinct(existing[..n]);
      if Holds(existing[..n], ObservationKey(existing[n])) {
        DistinctHolds(existing, n);
      }
    }
  }

  lemma {:induction false} PutAllHolds(existing: seq<Observation>)
    ensures forall key :: Holds(PutAll(existing), key) <==> Holds(existing, key)
    decreases |existing|
  {
    if existing != [] {
      var front, o := existing[..|existing| - 1], existing[|existing| - 1];
      PutAllHolds(front);
      PutAllKeeps(front);
      PutHolds(PutAll(front), o);
      HoldsPush(front, o);
      assert front + [o] == existing;
    }
  }

  lemma PutHolds(held: seq<Observation>, o: Observation)
    requires Distinct(held)
    ensures forall key :: Holds(Put(held, o), key) <==> Holds(held, key) || key == ObservationKey(o)
  {
    if Holds(held, ObservationKey(o)) {
      PutKeeps(held, o);
      assert Put(held, o)[..|held|] == Put(held, o);
      SameKeysHold(Put(held, o), held);
    } else {
      HoldsPush(held, o);
    }
  }

  lemma {:induction false} AddAllAdds(held: seq<Observation>, incoming: seq<Observation>)
    requires Distinct(held)
    ensures Distinct(AddAll(held, incoming))
    ensures forall key :: Holds(AddAll(held, incoming), key) <==> Holds(held, key) || Holds(incoming, key)
    decreases |incoming|
  {
    if incoming != [] {
      var front, o := incoming[..|incoming| - 1], incoming[|incoming| - 1];
      AddAllAdds(held, front);
      HoldsPush(AddAll(held, front), o);
      HoldsPush(front, o);
      assert front + [o] == incoming;
    }
  }

  // ---- When the first receipt is preserved

  /** Two receipts of one key: the later one replaces the first, which the merge was to preserve. */
  lemma FirstReceiptLost()
    ensures var x := Observation("i", 1, None, "x"); var y := Observation("i", 1, None, "y");
            PutAll([x, y]) == [y] && AddAll([], [x, y]) == [x] && !Steady([x, y])
  {
    var x, y := Observation("i", 1, None, "x"), Observation("i", 1, None, "y");
    TwoReceipts(x, y);
    assert [x, y][0] == x && [x, y][1] == y;
    assert FirstAndLast([x, y], 0, 1);
  }

  lemma TwoReceipts(x: Observation, y: Observation)
    requires ObservationKey(x) == ObservationKey(y)
    ensures PutAll([x, y]) == [y] && AddAll([], [x, y]) == [x]
  {
    OneReceipt(x);
    assert [x, y][..1] == [x];
    assert Holds([x], ObservationKey(y)) by { assert [x][0] == x; }
    assert Put([x], y) == [y];
  }

  lemma OneReceipt(x: Observation)
    ensures PutAll([x]) == [x] && AddAll([], [x]) == [x]
  {
    assert [x][..0] == [];
    assert PutAll([]) == [] && AddAll([], []) == [];
    assert PutAll([x]) == Put([], x) == [x];
    assert AddAll([], [x]) == AddNew([], x) == [x];
  }

  /** The first of each key is what adding one by one keeps. */
  lemma {:induction false} AddAllEarliest(incoming: seq<Observation>, i: nat)
    requires i < |incoming| && Earliest(incoming, i)
    ensures incoming[i] in AddAll([], incoming)
    decreases |incoming|
  {
    var n := |incoming| - 1;
    var front := incoming[..n];
    AddAllAdds([], front);
    if i < n {
      assert front[i] == incoming[i];
      AddAllEarliest(front, i);
    } else {
      assert !Holds(front, ObservationKey(incoming[n]));
      assert AddAll([], incoming) == AddAll([], front) + [incoming[n]];
    }
  }

  lemma FirstOfKey(existing: seq<Observation>, key: Key) returns (i: nat)
    requires Holds(existing, key)
    ensures i < |existing| && Earliest(existing, i) && ObservationKey(existing[i]) == key
  {
    i := 0;
    while ObservationKey(existing[i]) != key
      invariant i < |existing| && forall j :: 0 <= j < i ==> ObservationKey(existing[j]) != key
      decreases |existing| - i
    {
      assert exists j :: i < j < |existing| && ObservationKey(existing[j]) == key;
      i := i + 1;
    }
  }

  lemma LastOfKey(existing: seq<Observation>, key: Key) returns (i: nat)
    requires Holds(existing, key)
    ensures i < |existing| && Latest(existing, i) && ObservationKey(existing[i]) == key
  {
    i := |existing| - 1;
    while ObservationKey(existing[i]) != key
      invariant i < |existing| && forall j :: i < j < |existing| ==> ObservationKey(existing[j]) != key
      decreases i
    {
      assert exists j :: 0 <= j < i && ObservationKey(existing[j]) == key;
      i := i - 1;
    }
  }

  lemma OneOfKey(held: seq<Observation>, x: Observation, y: Observation)
    requires Distinct(held) && x in held && y in held && ObservationKey(x) == ObservationKey(y)
    ensures x == y
  {
    var i :| 0 <= i < |held| && held[i] == x;
    var j :| 0 <= j < |held| && held[j] == y;
  }

  /** What the held list comes to keeps every first receipt exactly when no key's last value differs from
      its first. */
  lemma FirstsKept(existing: seq<Observation>)
    ensures PutAll(existing) == AddAll([], existing) <==> Steady(existing)
    ensures (forall i :: 0 <= i < |existing| && Earliest(existing, i) ==> existing[i] in PutAll(existing))
      <==> Steady(existing)
  {
    PutAllKeeps(existing);
    if forall i :: 0 <= i < |existing| && Earliest(existing, i) ==> existing[i] in PutAll(existing) {
      forall i, j | FirstAndLast(existing, i, j) ensures existing[i] == existing[j] {
        OneOfKey(PutAll(existing), existing[i], existing[j]);
      }
    }
    if Steady(existing) {
      SteadyKeepsFirsts(existing);
    }
    forall i | 0 <= i < |existing| && Earliest(existing, i) ensures existing[i] in AddAll([], existing) {
      AddAllEarliest(existing, i);
    }
  }

  lemma SteadyKeepsFirsts(existing: seq<Observation>)
    requires Steady(existing)
    ensures PutAll(existing) == AddAll([], existing)
  {
    PutAllKeeps(existing);
    PutAllOrder(existing);
    PutAllHolds(existing);
    AddAllAdds([], existing);
    var put, add := PutAll(existing), AddAll([], existing);
    forall k | 0 <= k < |put| ensures put[k] == add[k] {
      var key := ObservationKey(put[k]);
      assert Holds(put, key);
      var i := FirstOfKey(existing, key);
      var j := LastOfKey(existing, key);
      assert FirstAndLast(existing, i, j);
      AddAllEarliest(existing, i);
      OneOfKey(put, put[k], existing[j]);
      OneOfKey(add, add[k], existing[i]);
    }
  }

  /** The whole merge preserves first receipts, in order of first delivery, exactly on steady lists. */
  lemma MergePreservesFirsts(existing: seq<Observation>, incoming: seq<Observation>)
    ensures AddAll(PutAll(existing), incoming) == AddAll([], existing + incoming) <==> Steady(existing)
  {
    FirstsKept(existing);
    PutAllOrder(existing);
    BatchingIsIrrelevant([], existing, incoming);
    AddAllHolds(PutAll(existing), incoming);
    AddAllHolds(AddAll([], existing), incoming);
    PrefixesDecide(PutAll(existing), AddAll([], existing),
                   AddAll(PutAll(existing), incoming), AddAll(AddAll([], existing), incoming));
  }

  lemma PrefixesDecide(p: seq<Observation>, q: seq<Observation>, a: seq<Observation>, b: seq<Observation>)
    requires |p| == |q| && p <= a && q <= b && (p == q ==> a == b)
    ensures a == b <==> p == q
  {
    if a == b {
      assert a[..|p|] == p && b[..|q|] == q;
    }
  }

  /** Repeated receipts already held come to their last value at their first place; then each new receipt
      is added once, in order of arrival. */
  method MergeObservations(existing: seq<Observation>, incoming: seq<Observation>) returns (merged: seq<Observation>)
    ensures merged == AddAll(PutAll(existing), incoming)
    ensures Distinct(existing) ==> merged == AddAll(existing, incoming)
    ensures merged == AddAll([], existing + incoming) <==> Steady(existing)
    ensures Distinct(merged)
    ensures forall key :: Holds(merged, key) <==> Holds(existing, key) || Holds(incoming, key)
  {
    merged := ByReceipt(existing);
    ghost var held := merged;
    for i := 0 to |incoming|
      invariant merged == AddAll(held, incoming[..i])
    {
      assert incoming[..i + 1][..i] == incoming[..i];
      var k := FindKey(merged, ObservationKey(incoming[i]));
      if k.None? {
        merged := merged + [incoming[i]];
      }
    }
    assert incoming[..|incoming|] == incoming;
    if Distinct(existing) {
      PutAllDistinct(existing);
    }
    PutAllKeeps(existing);
    PutAllHolds(existing);
    AddAllAdds(held, incoming);
    MergePreservesFirsts(existing, incoming);
  }

  /** The map from keys to receipts, in order of insertion. */
  method ByReceipt(existing: seq<Observation>) returns (held: seq<Observation>)
    ensures held == PutAll(existing)
  {
    held := [];
    for i := 0 to |existing|
      invariant held == PutAll(existing[..i])
    {
      PutAllKeeps(existing[..i]);
      assert existing[..i + 1][..i] == existing[..i];
      var k := FindKey(held, ObservationKey(existing[i]));
      held := if k.Some? then held[k.value := existing[i]] else held + [existing[i]];
      assert held == Put(PutAll(existing[..i]), existing[i]);
    }
    assert existing[..|existing|] == existing;
  }

  lemma HoldsPush(held: seq<Observation>, o: Observation)
    ensures forall key :: Holds(held + [o], key) <==> Holds(held, key) || key == ObservationKey(o)
  {
    var after := held + [o];
    forall key ensures Holds(after, key) <==> Holds(held, key) || key == ObservationKey(o) {
      if Holds(held, key) {
        var i :| 0 <= i < |held| && ObservationKey(held[i]) == key;
        assert after[i] == held[i];
      }
      assert after[|held|] == o;
    }
  }

  lemma DistinctHolds(existing: seq<Observation>, i: nat)
    requires i < |existing| && Holds(existing[..i], ObservationKey(existing[i]))
    ensures !Distinct(existing)
  {
    var j :| 0 <= j < i && ObservationKey(existing[..i][j]) == ObservationKey(existing[i]);
    assert existing[..i][j] == existing[j];
  }

  lemma {:induction false} AddAllHolds(held: seq<Observation>, incoming: seq<Observation>)
    ensures held <= AddAll(held, incoming)
    ensures forall i :: 0 <= i < |incoming| ==> Holds(AddAll(held, incoming), ObservationKey(incoming[i]))
    decreases |incoming|
  {
    if incoming != [] {
      var front, last := incoming[..|incoming| - 1], incoming[|incoming| - 1];
      AddAllHolds(held, front);
      HoldsPush(AddAll(held, front), last);
      forall i | 0 <= i < |incoming| ensures Holds(AddAll(held, incoming), ObservationKey(incoming[i])) {
        if i < |front| {
          assert front[i] == incoming[i];
        }
      }
    }
  }

  lemma {:induction false} AddAllKnown(held: seq<Observation>, incoming: seq<Observation>)
    requires forall i :: 0 <= i < |incoming| ==> Holds(held, ObservationKey(incoming[i]))
    ensures AddAll(held, incoming) == held
    decreases |incoming|
  {
    if incoming != [] {
      AddAllKnown(held, incoming[..|incoming| - 1]);
    }
  }

  /** Delivering a batch again changes nothing. */
  lemma RedeliveryIsNoOp(held: seq<Observation>, incoming: seq<Observation>)
    ensures AddAll(AddAll(held, incoming), incoming) == AddAll(held, incoming)
  {
    AddAllHolds(held, incoming);
    AddAllKnown(AddAll(held, incoming), incoming);
  }

  /** How receipts are batched does not matter. */
  lemma {:induction false} BatchingIsIrrelevant(held: seq<Observation>, a: seq<Observation>, b: seq<Observation>)
    ensures AddAll(AddAll(held, a), b) == AddAll(held, a + b)
    decreases |b|
  {
    if b == [] {
      assert a + b == a;
    } else {
      var front, last := b[..|b| - 1], b[|b| - 1];
      BatchingIsIrrelevant(held, a, front);
      assert (a + b)[..|a + b| - 1] == a + front;
    }
  }
}
