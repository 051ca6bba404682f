/** `thread/loaded/list`: paging by id over a set of threads that changes between calls. */
module LoadedList {
  import opened Sorting
  import opened Wrappers

  datatype Response = Page(data: seq<string>, next: Option<string>) | InvalidCursor

  const U32 := 0x1_0000_0000

  predicate Before(a: string, b: string) {
    StringLe(a, b) && a != b
  }

  /** Strictly increasing ids. */
  ghost predicate Increasing(s: seq<string>) {
    forall i, j :: 0 <= i < j < |s| ==> Before(s[i], s[j])
  }

  lemma BeforeTransitive(a: string, b: string, c: string)
    requires (Before(a, b) && StringLe(b, c)) || (StringLe(a, b) && Before(b, c))
    ensures Before(a, c)
  {
    StringLeTransitive(a, b, c);
    if a == c {
      StringLeAntisymmetric(a, b);
    }
  }

  ghost predicate NoRepeats(s: seq<string>) {
    forall i, j :: 0 <= i < j < |s| ==> s[i] != s[j]
  }

  function IdSet(ids: seq<string>): set<string> {
    set id | id in ids
  }

  // ---- One call ----

  lemma BelowMid(data: seq<string>, mid: nat, key: string)
    requires Increasing(data) && mid < |data| && data[mid] != key && StringLe(data[mid], key)
    ensures forall i :: 0 <= i <= mid ==> Before(data[i], key)
  {
    forall i | 0 <= i < mid ensures Before(data[i], key) {
      BeforeTransitive(data[i], data[mid], key);
    }
  }

  lemma AboveMid(data: seq<string>, mid: nat, key: string)
    requires Increasing(data) && mid < |data| && data[mid] != key && StringLe(key, data[mid])
    ensures forall i :: mid <= i < |data| ==> Before(key, data[i])
  {
    forall i | mid < i < |data| ensures Before(key, data[i]) {
      BeforeTransitive(key, data[mid], data[i]);
    }
  }

  lemma AtMid(data: seq<string>, mid: nat)
    requires Increasing(data) && mid < |data|
    ensures forall i :: 0 <= i < mid ==> Before(data[i], data[mid])
    ensures forall i :: mid <= i < |data| ==> StringLe(data[mid], data[i])
  {
    StringLeTotal(data[mid], data[mid]);
    forall i | mid < i < |data| ensures StringLe(data[mid], data[i]) {
      assert Before(data[mid], data[i]);
    }
  }

  /** `slice::binary_search`: the index of `key`, or where it would go. */
  method BinarySearch(data: seq<string>, key: string) returns (found: bool, idx: nat)
    requires Increasing(data)
    ensures idx <= |data|
    ensures found ==> idx < |data| && data[idx] == key
    ensures !found ==> key !in data
    ensures forall i :: 0 <= i < idx ==> Before(data[i], key)
    ensures forall i :: idx <= i < |data| ==> StringLe(key, data[i])
  {
    var lo, hi := 0, |data|;
    while lo < hi
      invariant 0 <= lo <= hi <= |data|
      invariant forall i :: 0 <= i < lo ==> Before(data[i], key)
      invariant forall i :: hi <= i < |data| ==> Before(key, data[i])
    {
      var mid := lo + (hi - lo) / 2;
      StringLeTotal(data[mid], key);
      if data[mid] == key {
        AtMid(data, mid);
        return true, mid;
      } else if StringLe(data[mid], key) {
        BelowMid(data, mid, key);
        lo := mid + 1;
      } else {
        AboveMid(data, mid, key);
        hi := mid;
      }
    }
    return false, lo;
  }

  /** How ids are written in cursors. */
  type ParseId = string -> Option<string>

  /** What a page holds: the loaded ids after the cursor in increasing order, as many as the limit
      allows; the cursor for the rest is the page's last id. */
  ghost predicate PageOf(loaded: set<string>, after: Option<string>, r: Response) {
    && r.Page?
    && Increasing(r.data)
    && (forall id :: id in r.data ==> id in loaded && (after.Some? ==> Before(after.value, id)))
    && match r.next
       case Some(last) =>
         && |r.data| > 0 && r.data[|r.data| - 1] == last && (exists id :: id in loaded && Before(last, id))
         && forall id :: id in loaded && (after.Some? ==> Before(after.value, id)) && StringLe(id, last) ==>
              id in r.data
       case None =>
         forall id :: id in loaded && (after.Some? ==> Before(after.value, id)) ==> id in r.data
  }

  lemma SortIncreasing(ids: seq<string>)
    requires NoRepeats(ids)
    ensures Increasing(Sort(ids, StringLe)) && multiset(Sort(ids, StringLe)) == multiset(ids)
  {
    var dom := IdSet(ids);
    forall x, y ensures StringLe(x, y) || StringLe(y, x) {
      StringLeTotal(x, y);
    }
    forall x, y, z | StringLe(x, y) && StringLe(y, z) ensures StringLe(x, z) {
      StringLeTransitive(x, y, z);
    }
    SortSorted(ids, StringLe, dom);
    SortPermutes(ids, StringLe);
    var sorted := Sort(ids, StringLe);
    NoRepeatsRearranged(ids, sorted);
  }

  lemma {:induction false} OnceInMultiset(s: seq<string>)
    ensures NoRepeats(s) <==> forall x :: multiset(s)[x] <= 1
  {
    if |s| > 0 {
      var init, last := s[..|s| - 1], s[|s| - 1];
      assert s == init + [last];
      OnceInMultiset(init);
      assert multiset(s) == multiset(init) + multiset{last};
      if NoRepeats(s) {
        assert last !in init;
        assert multiset(init)[last] == 0;
      }
      if forall x :: multiset(s)[x] <= 1 {
        assert multiset(s)[last] <= 1;
        assert multiset(init)[last] == 0;
        forall x ensures multiset(init)[x] <= 1 {
          assert multiset(s)[x] <= 1;
        }
        forall i | 0 <= i < |init| ensures init[i] != last {
          assert init[i] in multiset(init);
        }
      }
    }
  }

  lemma NoRepeatsRearranged(a: seq<string>, b: seq<string>)
    requires multiset(a) == multiset(b) && NoRepeats(a)
    ensures NoRepeats(b)
  {
    OnceInMultiset(a);
    OnceInMultiset(b);
  }

  /** `thread_loaded_list`. */
  method ThreadLoadedList(ids: seq<string>, cursor: Option<string>, limit: Option<nat>, parse: ParseId)
    returns (r: Response)
    requires NoRepeats(ids)
    requires limit.Some? ==> limit.value < U32
    ensures r.InvalidCursor? <==> |ids| > 0 && cursor.Some? && parse(cursor.value).None?
    ensures r.Page? && (cursor.Some? ==> parse(cursor.value).Some?) ==>
      PageOf(IdSet(ids), if cursor.Some? then parse(cursor.value) else None, r)
    ensures r.Page? ==> FillsLimit(r, limit, |ids|)
  {
    if |ids| == 0 {
      return Page([], None);
    }
    var after: Option<string> := None;
    if cursor.Some? {
      after := parse(cursor.value);
      if after.None? {
        return InvalidCursor;
      }
    }
    r := SortedPage(ids, after, limit);
  }

  /** A page is as long as the limit allows, and shorter only when it is the last; the limit is at least
      one, and by default the number of ids cast to 32 bits. */
  predicate FillsLimit(r: Response, limit: Option<nat>, total: nat)
    requires r.Page?
  {
    var asked := match limit case Some(l) => l case None => total % 0x1_0000_0000;
    && |r.data| <= (if asked == 0 then 1 else asked)
    && (r.next.Some? ==> |r.data| == if asked == 0 then 1 else asked)
  }

  function EffectiveLimit(limit: Option<nat>, total: nat): nat {
    var asked := match limit case Some(l) => l case None => total % U32;
    if asked > 1 then asked else 1
  }

  method StartIndex(data: seq<string>, after: Option<string>) returns (start: nat)
    requires Increasing(data)
    ensures start <= |data| && StartsAfter(data, start, after)
  {
    start := 0;
    if after.Some? {
      var found, idx := BinarySearch(data, after.value);
      start := if found then idx + 1 else idx;
      AfterFound(data, after.value, found, idx);
    }
  }

  /** The page once the cursor is known to be good. */
  method SortedPage(ids: seq<string>, after: Option<string>, limit: Option<nat>) returns (r: Response)
    requires NoRepeats(ids)
    ensures PageOf(IdSet(ids), after, r)
    ensures r.Page? && FillsLimit(r, limit, |ids|)
  {
    var data := Sort(ids, StringLe);
    SortedIds(ids);
    var total := |data|;
    var start := StartIndex(data, after);
    var effective := EffectiveLimit(limit, total);
    var end := if start + effective < total then start + effective else total;
    r := Cut(data, start, end);
    SliceIsPage(ids, data, start, end, after, r);
  }

  function Cut(data: seq<string>, start: nat, end: nat): (r: Response)
    requires start <= end <= |data|
    ensures r == Page(data[start..end], if start < end < |data| then Some(data[end - 1]) else None)
  {
    var page := data[start..end];
    Page(page, if |page| > 0 && end < |data| then Some(page[|page| - 1]) else None)
  }

  lemma SortedIds(ids: seq<string>)
    requires NoRepeats(ids)
    ensures Increasing(Sort(ids, StringLe)) && |Sort(ids, StringLe)| == |ids|
    ensures forall id :: id in Sort(ids, StringLe) <==> id in ids
  {
    SortIncreasing(ids);
    SameElements(Sort(ids, StringLe), ids);
  }

  lemma AfterFound(data: seq<string>, key: string, found: bool, idx: nat)
    requires Increasing(data) && idx <= |data|
    requires found ==> idx < |data| && data[idx] == key
    requires !found ==> key !in data
    requires forall i :: 0 <= i < idx ==> Before(data[i], key)
    requires forall i :: idx <= i < |data| ==> StringLe(key, data[i])
    ensures StartsAfter(data, if found then idx + 1 else idx, Some(key))
  {
    StringLeTotal(key, key);
    forall i | (if found then idx + 1 else idx) <= i < |data| ensures Before(key, data[i]) {
      if found {
        assert Before(data[idx], data[i]);
      } else {
        assert data[i] in data;
      }
    }
  }

  ghost predicate StartsAfter(data: seq<string>, start: nat, after: Option<string>) {
    && start <= |data|
    && (after.None? ==> start == 0)
    && (after.Some? ==>
          && (forall i :: 0 <= i < start ==> StringLe(data[i], after.value))
          && (forall i :: start <= i < |data| ==> Before(after.value, data[i])))
  }

  lemma SliceIsInside(data: seq<string>, start: nat, end: nat, after: Option<string>, id: string)
    requires StartsAfter(data, start, after) && start <= end <= |data| && id in data[start..end]
    ensures id in data && (after.Some? ==> Before(after.value, id))
  {
    var k :| 0 <= k < |data[start..end]| && data[start..end][k] == id;
    assert data[start + k] == id;
  }

  lemma SliceHolds(data: seq<string>, start: nat, end: nat, after: Option<string>, id: string)
    requires Increasing(data) && StartsAfter(data, start, after) && start <= end <= |data|
    requires end < |data| ==> start < end && StringLe(id, data[end - 1])
    requires id in data && (after.Some? ==> Before(after.value, id))
    ensures id in data[start..end]
  {
    var k :| 0 <= k < |data| && data[k] == id;
    if k < start {
      assert StringLe(id, after.value);
      StringLeAntisymmetric(id, after.value);
    }
    if k >= end {
      assert Before(data[end - 1], data[k]);
      StringLeAntisymmetric(id, data[end - 1]);
    }
    assert data[start..end][k - start] == id;
  }

  lemma SliceIncreasing(data: seq<string>, start: nat, end: nat)
    requires Increasing(data) && start <= end <= |data|
    ensures Increasing(data[start..end])
  {
    var page := data[start..end];
    forall i, j | 0 <= i < j < |page| ensures Before(page[i], page[j]) {
      assert page[i] == data[start + i] && page[j] == data[start + j];
    }
  }

  /** What `PageOf` asks of the ids on a page. */
  ghost predicate Holds(loaded: set<string>, after: Option<string>, page: seq<string>, last: Option<string>) {
    && (forall id :: id in page ==> id in loaded && (after.Some? ==> Before(after.value, id)))
    && (forall id | id in loaded && (after.Some? ==> Before(after.value, id)) ::
          (last.Some? ==> StringLe(id, last.value)) ==> id in page)
  }

  lemma SliceHoldsAll(ids: seq<string>, data: seq<string>, start: nat, end: nat, after: Option<string>)
    requires Increasing(data) && (forall id :: id in data <==> id in ids)
    requires StartsAfter(data, start, after) && start <= end <= |data| && (end < |data| ==> start < end)
    ensures Holds(IdSet(ids), after, data[start..end], if start < end < |data| then Some(data[end - 1]) else None)
  {
    forall id | id in data[start..end] ensures id in IdSet(ids) && (after.Some? ==> Before(after.value, id)) {
      SliceIsInside(data, start, end, after, id);
    }
    forall id | id in IdSet(ids) && (after.Some? ==> Before(after.value, id))
      && (end < |data| ==> StringLe(id, data[end - 1]))
      ensures id in data[start..end]
    {
      SliceHolds(data, start, end, after, id);
    }
  }

  lemma HoldsIsPage(loaded: set<string>, after: Option<string>, r: Response)
    requires r.Page? && Increasing(r.data) && Holds(loaded, after, r.data, r.next)
    requires r.next.Some? ==> |r.data| > 0 && r.data[|r.data| - 1] == r.next.value
    requires r.next.Some? ==> exists id :: id in loaded && Before(r.next.value, id)
    ensures PageOf(loaded, after, r)
  {
  }

  lemma SliceIsPage(ids: seq<string>, data: seq<string>, start: nat, end: nat, after: Option<string>, r: Response)
    requires Increasing(data) && (forall id :: id in data <==> id in ids)
    requires StartsAfter(data, start, after) && start <= end <= |data|
    requires end < |data| ==> start < end
    requires r == Page(data[start..end], if start < end < |data| then Some(data[end - 1]) else None)
    ensures PageOf(IdSet(ids), after, r)
  {
    SliceIncreasing(data, start, end);
    SliceHoldsAll(ids, data, start, end, after);
    if start < end < |data| {
      assert data[end] in data && Before(data[end - 1], data[end]);
    }
    HoldsIsPage(IdSet(ids), after, r);
  }

  // ---- Following the cursor while threads come and go ----

  ghost predicate AllPages(pages: seq<Response>) {
    forall i :: 0 <= i < |pages| ==> pages[i].Page?
  }

  /** The cursor of call `i`. */
  ghost function CursorAt(pages: seq<Response>, i: nat): Option<string>
    requires AllPages(pages) && i <= |pages|
  {
    if i == 0 then None else pages[i - 1].next
  }

  /** Call `i` used the cursor of the call before it. */
  ghost predicate PageFollows(sets: seq<set<string>>, pages: seq<Response>, i: nat)
    requires |sets| == |pages| && AllPages(pages) && i < |pages|
  {
    PageOf(sets[i], CursorAt(pages, i), pages[i])
  }

  /** Calls in a row, each with the cursor the one before returned; `sets[i]` is what was loaded at call `i`. */
  ghost predicate Followed(sets: seq<set<string>>, pages: seq<Response>) {
    && |sets| == |pages| && AllPages(pages)
    && (forall i: nat :: i < |pages| ==> PageFollows(sets, pages, i))
    && (forall i :: 0 <= i < |pages| - 1 ==> pages[i].next.Some?)
  }

  ghost function AllData(pages: seq<Response>): seq<string>
    requires AllPages(pages)
  {
    if |pages| == 0 then [] else AllData(pages[..|pages| - 1]) + pages[|pages| - 1].data
  }

  /** Loaded at every call so far. */
  ghost predicate Stayed(id: string, sets: seq<set<string>>) {
    forall i :: 0 <= i < |sets| ==> id in sets[i]
  }

  lemma FollowedPrefix(sets: seq<set<string>>, pages: seq<Response>)
    requires Followed(sets, pages) && |pages| > 0
    ensures Followed(sets[..|sets| - 1], pages[..|pages| - 1])
  {
    var sets', pages' := sets[..|sets| - 1], pages[..|pages| - 1];
    forall i: nat | i < |pages'| ensures PageFollows(sets', pages', i) {
      assert PageFollows(sets, pages, i);
      assert CursorAt(pages', i) == CursorAt(pages, i);
    }
  }

  /** What the pages so far hold, up to the last cursor. */
  ghost predicate HeldSoFar(sets: seq<set<string>>, data: seq<string>, next: Option<string>) {
    && Increasing(data)
    && (forall id :: id in data ==> exists i :: 0 <= i < |sets| && id in sets[i])
    && (next.Some? ==> forall id :: id in data ==> StringLe(id, next.value))
    && (forall id :: Stayed(id, sets) && (next.Some? ==> StringLe(id, next.value)) ==> id in data)
  }

  lemma StayedBefore(id: string, sets: seq<set<string>>, loaded: set<string>)
    ensures Stayed(id, sets + [loaded]) <==> Stayed(id, sets) && id in loaded
  {
    assert (sets + [loaded])[|sets|] == loaded;
    assert forall i :: 0 <= i < |sets| ==> (sets + [loaded])[i] == sets[i];
  }

  lemma OnePageMore(sets: seq<set<string>>, data: seq<string>, c: string, loaded: set<string>, last: Response)
    requires HeldSoFar(sets, data, Some(c)) && PageOf(loaded, Some(c), last)
    ensures HeldSoFar(sets + [loaded], data + last.data, last.next)
  {
    var all := sets + [loaded];
    LastBounds(last);
    ConcatIncreasing(data, last.data, c);
    forall id | Stayed(id, all) && (last.next.Some? ==> StringLe(id, last.next.value)) ensures id in data + last.data {
      StayedBefore(id, sets, loaded);
      StringLeTotal(id, c);
    }
    forall id | id in data + last.data ensures exists i :: 0 <= i < |all| && id in all[i] {
      if id in data {
        var i :| 0 <= i < |sets| && id in sets[i];
        assert id in all[i];
      } else {
        assert id in all[|sets|];
      }
    }
    if last.next.Some? {
      forall id | id in data + last.data ensures StringLe(id, last.next.value) {
        if id in data {
          assert Before(c, last.next.value);
          StringLeTransitive(id, c, last.next.value);
        }
      }
    }
  }

  lemma FirstPageHeld(loaded: set<string>, first: Response)
    requires PageOf(loaded, None, first)
    ensures HeldSoFar([loaded], first.data, first.next)
  {
    LastBounds(first);
    assert [loaded][0] == loaded;
    forall id | id in first.data ensures exists i :: 0 <= i < |[loaded]| && id in [loaded][i] {
      assert id in [loaded][0];
    }
    forall id | Stayed(id, [loaded]) ensures id in loaded {
    }
  }

  lemma LastSplit<T>(s: seq<T>)
    requires |s| > 0
    ensures s == s[..|s| - 1] + [s[|s| - 1]]
  {
  }

  lemma AllDataPush(pages: seq<Response>, last: Response)
    requires AllPages(pages + [last]) && AllPages(pages) && last.Page?
    ensures AllData(pages + [last]) == AllData(pages) + last.data
  {
    assert (pages + [last])[..|pages|] == pages;
  }

  lemma LastFollowed(sets: seq<set<string>>, pages: seq<Response>)
    requires Followed(sets, pages) && |pages| > 0
    ensures PageOf(sets[|pages| - 1], if |pages| == 1 then None else pages[|pages| - 2].next, pages[|pages| - 1])
    ensures |pages| > 1 ==> pages[|pages| - 2].next.Some?
  {
    assert PageFollows(sets, pages, |pages| - 1);
  }

  lemma {:induction false} FollowedFacts(sets: seq<set<string>>, pages: seq<Response>)
    requires Followed(sets, pages) && |pages| > 0
    ensures HeldSoFar(sets, AllData(pages), pages[|pages| - 1].next)
  {
    var sets', pages' := sets[..|sets| - 1], pages[..|pages| - 1];
    var loaded, last := sets[|sets| - 1], pages[|pages| - 1];
    LastSplit(sets);
    LastSplit(pages);
    FollowedPrefix(sets, pages);
    LastFollowed(sets, pages);
    AllDataPush(pages', last);
    if |pages| == 1 {
      assert sets' == [] && [] + [loaded] == [loaded];
      assert AllData(pages') == [] && [] + last.data == last.data;
      FirstPageHeld(loaded, last);
    } else {
      FollowedFacts(sets', pages');
      OnePageMore(sets', AllData(pages'), pages'[|pages'| - 1].next.value, loaded, last);
    }
  }

  lemma LastBounds(r: Response)
    requires r.Page? && Increasing(r.data) && (r.next.Some? ==> |r.data| > 0 && r.data[|r.data| - 1] == r.next.value)
    ensures r.next.Some? ==> r.next.value in r.data && forall id :: id in r.data ==> StringLe(id, r.next.value)
  {
    if r.next.Some? {
      forall id | id in r.data ensures StringLe(id, r.next.value) {
        var k :| 0 <= k < |r.data| && r.data[k] == id;
        StringLeTotal(id, id);
        if k < |r.data| - 1 {
          assert Before(r.data[k], r.data[|r.data| - 1]);
        }
      }
    }
  }

  lemma ConcatIncreasing(a: seq<string>, b: seq<string>, c: string)
    requires Increasing(a) && Increasing(b)
    requires (forall id :: id in a ==> StringLe(id, c)) && (forall id :: id in b ==> Before(c, id))
    ensures Increasing(a + b)
  {
    forall i, j | 0 <= i < j < |a + b| ensures Before((a + b)[i], (a + b)[j]) {
      if i < |a| <= j {
        assert a[i] in a && b[j - |a|] in b;
        BeforeTransitive(a[i], c, b[j - |a|]);
      }
    }
  }

  /** Following the cursor to the last page: ids come in increasing order, none twice, each was loaded
      when it was returned, and every id that stayed loaded throughout was returned. */
  lemma FollowingIsStable(sets: seq<set<string>>, pages: seq<Response>)
    requires Followed(sets, pages) && |pages| > 0 && pages[|pages| - 1].next.None?
    ensures Increasing(AllData(pages)) && NoRepeats(AllData(pages))
    ensures forall id :: id in AllData(pages) ==> exists i :: 0 <= i < |sets| && id in sets[i]
    ensures forall id :: Stayed(id, sets) ==> id in AllData(pages)
  {
    FollowedFacts(sets, pages);
  }

  // ---- A client that follows the cursor ----

  function IdSets(loads: seq<seq<string>>): seq<set<string>> {
    seq(|loads|, i requires 0 <= i < |loads| => IdSet(loads[i]))
  }

  lemma PushIndex<T>(s: seq<T>, x: T, i: nat)
    requires i <= |s|
    ensures (s + [x])[i] == if i < |s| then s[i] else x
  {
  }

  lemma CursorPush(pages: seq<Response>, r: Response, i: nat)
    requires AllPages(pages) && r.Page? && i <= |pages|
    ensures AllPages(pages + [r]) && CursorAt(pages + [r], i) == CursorAt(pages, i)
  {
    forall k | 0 <= k < |pages + [r]| ensures (pages + [r])[k].Page? {
      PushIndex(pages, r, k);
    }
    if i > 0 {
      PushIndex(pages, r, i - 1);
    }
  }

  lemma NextsPush(pages: seq<Response>, r: Response)
    requires AllPages(pages) && r.Page? && forall i :: 0 <= i < |pages| ==> pages[i].next.Some?
    ensures AllPages(pages + [r]) && forall i :: 0 <= i < |pages| ==> (pages + [r])[i].next.Some?
  {
    CursorPush(pages, r, 0);
    forall i | 0 <= i < |pages| ensures (pages + [r])[i].next.Some? {
      PushIndex(pages, r, i);
    }
  }

  lemma FollowedPush(sets: seq<set<string>>, pages: seq<Response>, loaded: set<string>, r: Response)
    requires Followed(sets, pages) && (|pages| > 0 ==> pages[|pages| - 1].next.Some?)
    requires r.Page? && PageOf(loaded, CursorAt(pages, |pages|), r)
    ensures Followed(sets + [loaded], pages + [r])
  {
    NextsPush(pages, r);
    forall i: nat | i < |pages + [r]| ensures PageFollows(sets + [loaded], pages + [r], i) {
      CursorPush(pages, r, i);
      PushIndex(pages, r, i);
      PushIndex(sets, loaded, i);
      if i < |pages| {
        assert PageFollows(sets, pages, i);
      }
    }
  }

  /** A client that asks for page after page, with any limits, while what is loaded changes between calls.
      Its cursors are ids it was given, which the server reads back as they were. */
  method FollowLoaded(loads: seq<seq<string>>, limits: nat -> Option<nat>, parse: ParseId)
    returns (pages: seq<Response>)
    requires forall i :: 0 <= i < |loads| ==> NoRepeats(loads[i])
    requires forall i, id :: 0 <= i < |loads| && id in loads[i] ==> parse(id) == Some(id)
    requires forall n :: limits(n).Some? ==> limits(n).value < U32
    ensures |pages| <= |loads| && Followed(IdSets(loads)[..|pages|], pages)
    ensures |pages| == |loads| || (|pages| > 0 && pages[|pages| - 1].next.None?)
  {
    pages := [];
    var cursor: Option<string> := None;
    while |pages| < |loads| && (|pages| > 0 ==> cursor.Some?)
      invariant |pages| <= |loads| && Followed(IdSets(loads)[..|pages|], pages)
      invariant cursor == CursorAt(pages, |pages|)
      invariant cursor.Some? ==> parse(cursor.value) == cursor
      decreases |loads| - |pages|
    {
      var n := |pages|;
      var r := OnePage(loads[n], cursor, limits(n), parse);
      FollowedPush(IdSets(loads)[..n], pages, IdSet(loads[n]), r);
      LastSplit(IdSets(loads)[..n + 1]);
      assert IdSets(loads)[..n + 1][..n] == IdSets(loads)[..n];
      PushIndex(pages, r, n);
      CursorPush(pages, r, 0);
      pages := pages + [r];
      cursor := r.next;
    }
  }

  /** One call with a cursor that reads back as it is; so does the cursor it returns. */
  method OnePage(ids: seq<string>, cursor: Option<string>, limit: Option<nat>, parse: ParseId) returns (r: Response)
    requires NoRepeats(ids) && (limit.Some? ==> limit.value < U32)
    requires (forall id :: id in ids ==> parse(id) == Some(id)) && (cursor.Some? ==> parse(cursor.value) == cursor)
    ensures r.Page? && PageOf(IdSet(ids), cursor, r) && (r.next.Some? ==> parse(r.next.value) == r.next)
  {
    r := ThreadLoadedList(ids, cursor, limit, parse);
    assert PageOf(IdSet(ids), cursor, r);
    if r.next.Some? {
      assert r.next.value in r.data && r.next.value in IdSet(ids);
    }
  }
}
