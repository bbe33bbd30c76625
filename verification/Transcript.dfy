/** Transcript windows: pages cut only between turns, and the walk from the newest page to the oldest. */
module Transcript {
  import opened Wrappers
  import opened Text

  const DEFAULT_TRANSCRIPT_WINDOW_LIMIT: nat := 40
  const MAX_TRANSCRIPT_WINDOW_LIMIT: nat := 200

  datatype Item = Item(id: string, turn: Option<string>, body: string)

  /** A requested limit: not a finite number, or a finite one. */
  datatype Limit = Unusable | Finite(value: real)

  function StringFromUnknown(s: Option<string>): Option<string> {
    if s.Some? && Trim(s.value) != "" then Some(Trim(s.value)) else None
  }

  /** A request for this id looks for exactly this id. */
  predicate Addressable(id: string) { StringFromUnknown(Some(id)) == Some(id) }

  function ClampTranscriptWindowLimit(limit: Limit): (r: nat)
    ensures 1 <= r <= MAX_TRANSCRIPT_WINDOW_LIMIT
    ensures limit.Finite? && 1.0 <= limit.value < 201.0 ==> r as real <= limit.value < r as real + 1.0
    ensures limit.Finite? && limit.value >= 201.0 ==> r == MAX_TRANSCRIPT_WINDOW_LIMIT
    ensures limit.Unusable? || limit.value < 1.0 ==> r == DEFAULT_TRANSCRIPT_WINDOW_LIMIT
  {
    if limit.Unusable? then DEFAULT_TRANSCRIPT_WINDOW_LIMIT
    else
      var rounded := limit.value.Floor;
      if rounded < 1 then DEFAULT_TRANSCRIPT_WINDOW_LIMIT
      else if rounded < MAX_TRANSCRIPT_WINDOW_LIMIT then rounded
      else MAX_TRANSCRIPT_WINDOW_LIMIT
  }

  /** Two items of one named turn. */
  predicate SameTurn(x: Item, y: Item) { x.turn == y.turn && x.turn != None && x.turn != Some("") }

  /** No turn runs across position `i`. */
  predicate Boundary(items: seq<Item>, i: nat)
    requires i <= |items|
  {
    i == 0 || i == |items| || !SameTurn(items[i - 1], items[i])
  }

  /** `r` is the last boundary at or before `index`. */
  ghost predicate Aligned(items: seq<Item>, index: nat, r: nat)
    requires index <= |items|
  {
    r <= index && Boundary(items, r) && forall k :: r < k <= index ==> !Boundary(items, k)
  }

  method AlignToTurnStart(items: seq<Item>, index: nat) returns (r: nat)
    requires index <= |items|
    ensures Aligned(items, index, r)
  {
    if index == 0 || index == |items| {
      return index;
    }
    var turn := items[index].turn;
    if turn == None || turn == Some("") {
      return index;
    }
    r := index;
    while r > 0 && items[r - 1].turn == turn
      invariant 0 <= r <= index && items[r].turn == turn
      invariant forall k :: r < k <= index ==> !Boundary(items, k)
    {
      r := r - 1;
    }
  }

  method FindIndex(items: seq<Item>, id: string) returns (k: Option<nat>)
    ensures k.Some? ==> k.value < |items| && items[k.value].id == id
    ensures k.Some? ==> forall j :: 0 <= j < k.value ==> items[j].id != id
    ensures k.None? ==> forall j :: 0 <= j < |items| ==> items[j].id != id
  {
    for j := 0 to |items|
      invariant forall i :: 0 <= i < j ==> items[i].id != id
    {
      if items[j].id == id {
        return Some(j);
      }
    }
    return None;
  }

  /** The newest page that ends where `before` points: whole turns, at least `limit` items unless it
      reaches the oldest item, and no more turns than that takes. */
  ghost predicate IsWindow(items: seq<Item>, limit: nat, end: nat, start: nat)
    requires end <= |items|
  {
    && start <= end && Boundary(items, start)
    && (start > 0 ==> end - start >= limit)
    && forall k :: start < k <= end - limit ==> !Boundary(items, k)
  }

  ghost predicate EndsAt(items: seq<Item>, before: Option<string>, end: nat) {
    && end <= |items|
    && match StringFromUnknown(before)
       case None => end == |items|
       case Some(id) =>
         if exists k :: 0 <= k < |items| && items[k].id == id
         then exists k :: 0 <= k < |items| && First(items, id, k) && Aligned(items, k, end)
         else end == |items|
  }

  ghost predicate First(items: seq<Item>, id: string, k: nat)
    requires k < |items|
  {
    items[k].id == id && forall j :: 0 <= j < k ==> items[j].id != id
  }

  datatype Page = Page(items: seq<Item>, hasOlder: bool, nextBeforeItemId: Option<string>)

  /** `page` shows `items[start..end]` and names its first item when there are older ones. */
  ghost predicate Shows(items: seq<Item>, page: Page, start: nat, end: nat) {
    && start <= end <= |items| && page.items == items[start..end] && (page.hasOlder <==> start > 0)
    && page.nextBeforeItemId == if 0 < start < end then Some(items[start].id) else None
  }

  /** The window that `before` and `limit` name, wherever it lies. */
  ghost predicate IsPage(items: seq<Item>, limit: nat, before: Option<string>, page: Page) {
    exists start, end ::
      EndsAt(items, before, end) && Shows(items, page, start, end) && IsWindow(items, limit, end, start)
  }

  method WindowTranscriptItems(items: seq<Item>, limit: Limit, before: Option<string>)
    returns (page: Page, ghost start: nat, ghost end: nat)
    ensures EndsAt(items, before, end) && IsWindow(items, ClampTranscriptWindowLimit(limit), end, start)
    ensures Shows(items, page, start, end) && (start > 0 ==> start < end)
    ensures IsPage(items, ClampTranscriptWindowLimit(limit), before, page)
  {
    var size := ClampTranscriptWindowLimit(limit);
    var stop := |items|;
    var id := StringFromUnknown(before);
    if id.Some? {
      var index := FindIndex(items, id.value);
      if index.Some? {
        stop := AlignToTurnStart(items, index.value);
        assert First(items, id.value, index.value);
      }
    }
    var rawStart := if stop > size then stop - size else 0;
    var first := AlignToTurnStart(items, rawStart);
    var window := items[first..stop];
    page := Page(window, first > 0, if first > 0 && window != [] then Some(window[0].id) else None);
    start, end := first, stop;
    assert EndsAt(items, before, end) && Shows(items, page, start, end);
  }

  function MergeOlder(current: seq<Item>, older: seq<Item>): seq<Item> {
    Unseen(older, set x | x in current :: x.id) + current
  }

  function Unseen(older: seq<Item>, seen: set<string>): (r: seq<Item>)
    ensures forall x :: x in r <==> x in older && x.id !in seen
  {
    if older == [] then []
    else if older[0].id in seen then Unseen(older[1..], seen)
    else [older[0]] + Unseen(older[1..], seen)
  }

  lemma {:induction false} UnseenAll(older: seq<Item>, seen: set<string>)
    requires forall x :: x in older ==> x.id !in seen
    ensures Unseen(older, seen) == older
  {
    if older != [] {
      UnseenAll(older[1..], seen);
      assert older == [older[0]] + older[1..];
    }
  }

  ghost predicate UniqueIds(items: seq<Item>) {
    && (forall i :: 0 <= i < |items| ==> Addressable(items[i].id))
    && (forall i, j :: 0 <= i < j < |items| ==> items[i].id != items[j].id)
  }

  /** An older page that adjoins what is held is put in front of it unchanged. */
  lemma MergeAdjoining(items: seq<Item>, start: nat, end: nat)
    requires UniqueIds(items) && start <= end <= |items|
    ensures MergeOlder(items[end..], items[start..end]) == items[start..]
  {
    var seen := set x | x in items[end..] :: x.id;
    forall x | x in items[start..end] ensures x.id !in seen {
      var i :| start <= i < end && items[i] == x;
      forall y | y in items[end..] ensures y.id != x.id {
        var j :| end <= j < |items| && items[j] == y;
      }
    }
    UnseenAll(items[start..end], seen);
    assert items[start..end] + items[end..] == items[start..];
  }

  /** The page that starts at a boundary is found again by its first id, and the next page ends there. */
  lemma NextEndsHere(items: seq<Item>, start: nat, end: nat)
    requires UniqueIds(items) && 0 < start < |items| && Boundary(items, start)
    requires EndsAt(items, Some(items[start].id), end)
    ensures end == start
  {
    var k :| 0 <= k < |items| && First(items, items[start].id, k) && Aligned(items, k, end);
    assert k == start;
  }

  function Concat(pages: seq<seq<Item>>): seq<Item> {
    if pages == [] then [] else Concat(pages[1..]) + pages[0]
  }

  lemma {:induction false} ConcatPush(pages: seq<seq<Item>>, page: seq<Item>)
    ensures Concat(pages + [page]) == page + Concat(pages)
  {
    if pages == [] {
      assert pages + [page] == [page];
    } else {
      assert (pages + [page])[1..] == pages[1..] + [page];
      ConcatPush(pages[1..], page);
    }
  }

  /** Page `i` covers `items[cuts[i + 1]..cuts[i]]`; every cut is a boundary. */
  ghost predicate Cut(items: seq<Item>, cuts: seq<nat>, pages: seq<seq<Item>>) {
    && |cuts| == |pages| + 1 && cuts[0] == |items|
    && (forall i :: 0 <= i < |cuts| ==> CutAt(items, cuts[i]))
    && forall i :: 0 <= i < |pages| ==> Covers(items, cuts[i + 1], cuts[i], pages[i])
  }

  ghost predicate CutAt(items: seq<Item>, cut: nat) { cut <= |items| && Boundary(items, cut) }

  ghost predicate Covers(items: seq<Item>, start: nat, end: nat, page: seq<Item>) {
    start <= end <= |items| && page == items[start..end]
  }

  lemma CutPush(items: seq<Item>, cuts: seq<nat>, pages: seq<seq<Item>>, start: nat, page: seq<Item>)
    requires Cut(items, cuts, pages) && CutAt(items, start) && Covers(items, start, cuts[|pages|], page)
    ensures Cut(items, cuts + [start], pages + [page])
  {
    var pages', cuts' := pages + [page], cuts + [start];
    forall i | 0 <= i < |cuts'| ensures CutAt(items, cuts'[i]) {
      if i < |cuts| {
        assert CutAt(items, cuts[i]);
      }
    }
    forall i | 0 <= i < |pages'| ensures Covers(items, cuts'[i + 1], cuts'[i], pages'[i]) {
      if i < |pages| {
        assert Covers(items, cuts[i + 1], cuts[i], pages[i]);
      }
    }
  }

  /** The walk so far: whole turns down to `start`, with full pages, merged without change. */
  ghost predicate Walked(
    items: seq<Item>, limits: nat -> Limit, cuts: seq<nat>, pages: seq<seq<Item>>, merged: seq<Item>, start: nat)
  {
    && Cut(items, cuts, pages) && pages != [] && start == cuts[|pages|]
    && AllFull(limits, pages, start > 0)
    && merged == items[start..] && Concat(pages) == items[start..]
  }

  /** Every page has its limit, the last one only if there are older items. */
  ghost predicate AllFull(limits: nat -> Limit, pages: seq<seq<Item>>, older: bool) {
    forall i :: 0 <= i < |pages| && (i < |pages| - 1 || older) ==> Full(limits, pages[i], i)
  }

  ghost predicate Full(limits: nat -> Limit, page: seq<Item>, i: nat) {
    |page| >= ClampTranscriptWindowLimit(limits(i))
  }

  /** The next older page completes both what is merged and the pages read backwards. */
  lemma WalkJoins(items: seq<Item>, pages: seq<seq<Item>>, start: nat, end: nat)
    requires UniqueIds(items) && start <= end <= |items| && Concat(pages) == items[end..]
    ensures MergeOlder(items[end..], items[start..end]) == items[start..]
    ensures Concat(pages + [items[start..end]]) == items[start..]
  {
    MergeAdjoining(items, start, end);
    ConcatPush(pages, items[start..end]);
    assert items[start..end] + items[end..] == items[start..];
  }

  lemma WalkStep(
    items: seq<Item>, limits: nat -> Limit, cuts: seq<nat>, pages: seq<seq<Item>>, merged: seq<Item>,
    start: nat, end: nat)
    requires UniqueIds(items) && Walked(items, limits, cuts, pages, merged, end)
    requires end > 0 && IsWindow(items, ClampTranscriptWindowLimit(limits(|pages|)), end, start)
    ensures Walked(items, limits, cuts + [start], pages + [items[start..end]],
                   MergeOlder(merged, items[start..end]), start)
  {
    var page := items[start..end];
    assert CutAt(items, cuts[|pages|]);
    WalkJoins(items, pages, start, end);
    CutPush(items, cuts, pages, start, page);
    FullPush(limits, pages, page, start);
  }

  lemma FullPush(limits: nat -> Limit, pages: seq<seq<Item>>, page: seq<Item>, start: nat)
    requires AllFull(limits, pages, true) && (start > 0 ==> Full(limits, page, |pages|))
    ensures AllFull(limits, pages + [page], start > 0)
  {
    var pages' := pages + [page];
    forall i | 0 <= i < |pages'| && (i < |pages'| - 1 || start > 0) ensures Full(limits, pages'[i], i) {
      if i < |pages| {
        assert pages'[i] == pages[i] && Full(limits, pages[i], i);
      }
    }
  }

  /** Following `nextBeforeItemId` from the newest page, whatever limits are asked for: the walk ends,
      the pages are disjoint runs of whole turns, every page but the oldest has its limit, and merging
      each older page rebuilds the transcript. */
  method FollowPages(items: seq<Item>, limits: nat -> Limit)
    returns (pages: seq<seq<Item>>, merged: seq<Item>, ghost cuts: seq<nat>)
    requires UniqueIds(items)
    ensures Cut(items, cuts, pages) && cuts[|pages|] == 0
    ensures forall i :: 0 <= i < |pages| - 1 ==> Full(limits, pages[i], i)
    ensures Concat(pages) == items && merged == items
  {
    var page: Page;
    ghost var start: nat, end: nat;
    page, start, end := WindowTranscriptItems(items, limits(0), None);
    pages, merged, cuts := [page.items], page.items, [end, start];
    FirstPage(items, limits, page.items, start);
    while page.nextBeforeItemId.Some?
      invariant Walked(items, limits, cuts, pages, merged, start) && start <= |items|
      invariant start > 0 ==> start < |items| && page.nextBeforeItemId == Some(items[start].id)
      invariant start == 0 ==> page.nextBeforeItemId == None
      decreases start
    {
      ghost var before := start;
      page, start, end := WindowTranscriptItems(items, limits(|pages|), page.nextBeforeItemId);
      NextEndsHere(items, before, end);
      WalkStep(items, limits, cuts, pages, merged, start, end);
      merged := MergeOlder(merged, page.items);
      pages, cuts := pages + [page.items], cuts + [start];
    }
    assert items[0..] == items;
  }

  lemma FirstPage(items: seq<Item>, limits: nat -> Limit, page: seq<Item>, start: nat)
    requires start <= |items| && page == items[start..|items|] && IsWindow(items, ClampTranscriptWindowLimit(limits(0)), |items|, start)
    ensures Walked(items, limits, [|items|, start], [page], page, start)
  {
    assert [page][1..] == [];
    assert CutAt(items, |items|) && CutAt(items, start) && Covers(items, start, |items|, page);
    assert Concat([page]) == [] + page;
    assert items[start..|items|] == items[start..];
  }

  /** No two items of one turn are on different pages next to each other. */
  lemma PagesKeepTurns(items: seq<Item>, cuts: seq<nat>, pages: seq<seq<Item>>, i: nat)
    requires Cut(items, cuts, pages) && i + 1 < |pages| && pages[i] != [] && pages[i + 1] != []
    ensures var x, y := pages[i + 1][|pages[i + 1]| - 1], pages[i][0];
      x.turn == y.turn ==> x.turn == None || x.turn == Some("")
  {
    var c := cuts[i + 1];
    assert Covers(items, c, cuts[i], pages[i]) && Covers(items, cuts[i + 2], c, pages[i + 1]);
    assert CutAt(items, c);
    assert pages[i][0] == items[c] && pages[i + 1][|pages[i + 1]| - 1] == items[c - 1];
  }
}
