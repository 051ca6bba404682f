/** Listing stored threads page by page through a filter. */
module ThreadList {
  import opened Wrappers

  // ---- Source filters ----

  datatype SourceKind =
    | CliKind | VsCodeKind | ExecKind | AppServerKind | SubAgentKind | SubAgentReviewKind
    | SubAgentCompactKind | SubAgentThreadSpawnKind | SubAgentOtherKind | UnknownKind

  datatype SubAgentSource =
    | Review | Compact | ThreadSpawn(parent: string, depth: int) | MemoryConsolidation | Other(name: string)
  datatype Source = Cli | VSCode | Exec | Mcp | SubAgent(sub: SubAgentSource) | Unknown

  const INTERACTIVE := [Cli, VSCode]

  predicate RequiresPostFilter(kind: SourceKind) {
    kind != CliKind && kind != VsCodeKind
  }

  function InteractiveSources(kinds: seq<SourceKind>): seq<Source> {
    if |kinds| == 0 then []
    else match kinds[0]
      case CliKind => [Cli] + InteractiveSources(kinds[1..])
      case VsCodeKind => [VSCode] + InteractiveSources(kinds[1..])
      case _ => InteractiveSources(kinds[1..])
  }

  /** `compute_source_filters`: what the lister filters by, and what is filtered afterwards. */
  function ComputeSourceFilters(kinds: Option<seq<SourceKind>>): (seq<Source>, Option<seq<SourceKind>>) {
    match kinds
    case None => (INTERACTIVE, None)
    case Some(ks) =>
      if |ks| == 0 then (INTERACTIVE, None)
      else if exists i :: 0 <= i < |ks| && RequiresPostFilter(ks[i]) then ([], Some(ks))
      else (InteractiveSources(ks), Some(ks))
  }

  /** The kinds a source is of. */
  function KindsOf(source: Source): set<SourceKind> {
    match source
    case Cli => {CliKind}
    case VSCode => {VsCodeKind}
    case Exec => {ExecKind}
    case Mcp => {AppServerKind}
    case SubAgent(Review) => {SubAgentKind, SubAgentReviewKind}
    case SubAgent(Compact) => {SubAgentKind, SubAgentCompactKind}
    case SubAgent(ThreadSpawn(_, _)) => {SubAgentKind, SubAgentThreadSpawnKind}
    case SubAgent(Other(_)) => {SubAgentKind, SubAgentOtherKind}
    case SubAgent(MemoryConsolidation) => {SubAgentKind}
    case Unknown => {UnknownKind}
  }

  lemma KindMatchesExactly(source: Source, kind: SourceKind)
    ensures KindMatches(source, kind) <==> kind in KindsOf(source)
  {
  }

  predicate KindMatches(source: Source, kind: SourceKind) {
    match kind
    case CliKind => source.Cli?
    case VsCodeKind => source.VSCode?
    case ExecKind => source.Exec?
    case AppServerKind => source.Mcp?
    case SubAgentKind => source.SubAgent?
    case SubAgentReviewKind => source.SubAgent? && source.sub.Review?
    case SubAgentCompactKind => source.SubAgent? && source.sub.Compact?
    case SubAgentThreadSpawnKind => source.SubAgent? && source.sub.ThreadSpawn?
    case SubAgentOtherKind => source.SubAgent? && source.sub.Other?
    case UnknownKind => source.Unknown?
  }

  /** `source_kind_matches`. */
  predicate SourceKindMatches(source: Source, filter: seq<SourceKind>) {
    exists i :: 0 <= i < |filter| && KindMatches(source, filter[i])
  }

  /** The lister's own reading of its source filter: an empty one lets everything through. */
  predicate Allowed(source: Source, allowed: seq<Source>) {
    |allowed| > 0 ==> source in allowed
  }

  predicate PostFiltered(source: Source, filter: Option<seq<SourceKind>>) {
    match filter case None => true case Some(kinds) => SourceKindMatches(source, kinds)
  }

  /** What the client asked for: interactive threads unless kinds are named. */
  predicate Wanted(source: Source, kinds: Option<seq<SourceKind>>) {
    match kinds
    case Some(ks) =>
      if |ks| > 0 then exists i :: 0 <= i < |ks| && ks[i] in KindsOf(source) else source.Cli? || source.VSCode?
    case None => source.Cli? || source.VSCode?
  }

  lemma {:induction false} InteractiveSourcesCover(kinds: seq<SourceKind>, source: Source)
    requires forall i :: 0 <= i < |kinds| ==> !RequiresPostFilter(kinds[i])
    ensures source in InteractiveSources(kinds) <==> SourceKindMatches(source, kinds)
    ensures |InteractiveSources(kinds)| == |kinds|
  {
    if |kinds| > 0 {
      InteractiveSourcesCover(kinds[1..], source);
      assert kinds == [kinds[0]] + kinds[1..];
      assert !RequiresPostFilter(kinds[0]);
      if SourceKindMatches(source, kinds[1..]) {
        var i :| 0 <= i < |kinds[1..]| && KindMatches(source, kinds[1..][i]);
        assert KindMatches(source, kinds[i + 1]);
      }
      if SourceKindMatches(source, kinds) && !KindMatches(source, kinds[0]) {
        var i :| 0 <= i < |kinds| && KindMatches(source, kinds[i]);
        assert KindMatches(source, kinds[1..][i - 1]);
      }
    }
  }

  /** Filtering in the lister and again afterwards lets through exactly the sources asked for. */
  lemma SourceFiltersExact(kinds: Option<seq<SourceKind>>, source: Source)
    ensures var (allowed, filter) := ComputeSourceFilters(kinds);
      Allowed(source, allowed) && PostFiltered(source, filter) <==> Wanted(source, kinds)
  {
    forall kind ensures KindMatches(source, kind) <==> kind in KindsOf(source) {
      KindMatchesExactly(source, kind);
    }
    match kinds {
      case Some(ks) =>
        if |ks| > 0 && !exists i :: 0 <= i < |ks| && RequiresPostFilter(ks[i]) {
          InteractiveSourcesCover(ks, source);
        }
      case None =>
    }
  }

  // ---- One call ----

  /** Keeps what `project` gives for each item, in order. */
  function FilterMap<I, O>(items: seq<I>, project: I -> Option<O>): seq<O> {
    if |items| == 0 then []
    else FilterMap(items[..|items| - 1], project)
         + match project(items[|items| - 1]) case Some(o) => [o] case None => []
  }

  lemma {:induction false} FilterMapConcat<I, O>(a: seq<I>, b: seq<I>, project: I -> Option<O>)
    ensures FilterMap(a + b, project) == FilterMap(a, project) + FilterMap(b, project)
  {
    if |b| == 0 {
      assert a + b == a;
    } else {
      FilterMapConcat(a, b[..|b| - 1], project);
      assert (a + b)[..|a + b| - 1] == a + b[..|b| - 1];
    }
  }

  /** Two neighbouring stretches of rows, each filtered, give the filtered whole. */
  lemma FilterMapSlices<I, O>(rows: seq<I>, a: nat, b: nat, c: nat, project: I -> Option<O>)
    requires a <= b <= c <= |rows|
    ensures FilterMap(rows[a..c], project) == FilterMap(rows[a..b], project) + FilterMap(rows[b..c], project)
  {
    assert rows[a..c] == rows[a..b] + rows[b..c];
    FilterMapConcat(rows[a..b], rows[b..c], project);
  }

  lemma {:induction false} FilterMapLength<I, O>(items: seq<I>, project: I -> Option<O>)
    ensures |FilterMap(items, project)| <= |items|
  {
    if |items| > 0 {
      FilterMapLength(items[..|items| - 1], project);
    }
  }

  datatype ListerPage<I> = Page(items: seq<I>, next: Option<nat>) | Broken

  /** The lister, given a position in its rows and a page size. A cursor is such a position. */
  type Lister<!I> = (nat, nat) -> ListerPage<I>

  /** Where a cursor points: past the last row there is only the end. */
  function At<I>(rows: seq<I>, position: nat): (n: nat)
    ensures n <= |rows| && (position <= |rows| ==> n == position)
  {
    if position < |rows| then position else |rows|
  }

  /** The lister returns at most the asked number of next rows, in order, and a cursor after the last
      of them unless it is done. The cursor may fail to advance. */
  ghost predicate Lists<I(!new)>(lister: Lister<I>, rows: seq<I>) {
    forall start: nat, size: nat {:trigger lister(start, size)} :: 0 < size && lister(start, size).Page? ==>
      var page, at := lister(start, size), At(rows, start);
      && |page.items| <= size
      && at + |page.items| <= |rows|
      && page.items == rows[at..at + |page.items|]
      && match page.next case Some(c) => c == at + |page.items| case None => at + |page.items| == |rows|
  }

  /** Every cursor the lister gives is beyond where it was asked to start. */
  ghost predicate Advances<I(!new)>(lister: Lister<I>) {
    forall start: nat, size: nat {:trigger lister(start, size)} ::
      0 < size && lister(start, size).Page? && lister(start, size).next.Some? ==> lister(start, size).next.value > start
  }

  /** Some call to the lister fails. */
  ghost predicate Breaks<I(!new)>(lister: Lister<I>) {
    exists start: nat, size: nat :: 0 < size && lister(start, size).Broken?
  }

  datatype ListError = InvalidCursor | InternalError
  datatype Listing<O> = Listed(items: seq<O>, next: Option<string>) | Failed(error: ListError)

  const MAX_LIMIT := 100
  const DEFAULT_LIMIT := 25

  function Distance(a: int, b: int): nat {
    if a < b then b - a else a - b
  }

  /** The page size of `thread/list`: the size from one to a hundred that is nearest to the limit, 25 when
      there is none. */
  function RequestedPageSize(limit: Option<nat>): (n: nat)
    ensures 1 <= n <= 100
    ensures limit.None? ==> n == 25
    ensures limit.Some? ==> forall m :: 1 <= m <= 100 ==> Distance(limit.value, n) <= Distance(limit.value, m)
  {
    var v := match limit case Some(l) => l case None => DEFAULT_LIMIT;
    if v < 1 then 1 else if v > MAX_LIMIT then MAX_LIMIT else v
  }

  /** How cursors are written for clients and read back. */
  datatype Codec = Codec(parse: string -> Option<nat>, encode: nat -> string)

  ghost predicate RoundTrips(codec: Codec) {
    forall c: nat :: codec.parse(codec.encode(c)) == Some(c)
  }

  /** A page read from `start`: `stop` is how far it got. */
  ghost predicate Served<I(!new), O(!new)>(rows: seq<I>, project: I -> Option<O>, codec: Codec, requested: nat,
                                           start: nat, stop: nat, items: seq<O>, next: Option<string>)
  {
    && start <= stop <= |rows|
    && items == FilterMap(rows[start..stop], project)
    && |items| <= requested
    && (next.Some? ==> next.value == codec.encode(stop))
  }

  /** `list_threads_common`. */
  method ListThreadsCommon<I(!new), O(!new)>(requested: nat, cursor: Option<string>, lister: Lister<I>,
                                             project: I -> Option<O>, codec: Codec, ghost rows: seq<I>)
    returns (r: Listing<O>, ghost stop: nat)
    requires Lists(lister, rows) && RoundTrips(codec)
    ensures r == Failed(InvalidCursor) <==> cursor.Some? && codec.parse(cursor.value).None?
    ensures r == Failed(InternalError) ==> Breaks(lister)
    ensures r.Listed? ==>
      var start := At(rows, if cursor.Some? then codec.parse(cursor.value).value else 0);
      && Served(rows, project, codec, requested, start, stop, r.items, r.next)
      && (Advances(lister) && 0 < requested ==>
            (r.next.None? ==> stop == |rows|) && (r.next.Some? ==> start < stop && |r.items| == requested))
  {
    var position: nat := 0;
    var last: Option<nat> := None;
    if cursor.Some? {
      match codec.parse(cursor.value) {
        case None => return Failed(InvalidCursor), 0;
        case Some(c) => position, last := c, Some(c);
      }
    }
    r, stop := Collect(requested, position, last, lister, project, codec, rows);
  }

  /** The loop over pages from a position; `last` is the cursor it was last asked for. */
  method Collect<I(!new), O(!new)>(requested: nat, from: nat, asked: Option<nat>, lister: Lister<I>,
                                   project: I -> Option<O>, codec: Codec, ghost rows: seq<I>)
    returns (r: Listing<O>, ghost stop: nat)
    requires Lists(lister, rows) && (asked.Some? ==> asked.value == from)
    ensures r != Failed(InvalidCursor)
    ensures r == Failed(InternalError) ==> Breaks(lister)
    ensures r.Listed? ==>
      var start := At(rows, from);
      && Served(rows, project, codec, requested, start, stop, r.items, r.next)
      && (Advances(lister) && 0 < requested ==>
            (r.next.None? ==> stop == |rows|) && (r.next.Some? ==> start < stop && |r.items| == requested))
  {
    var position, last := from, asked;
    ghost var start := At(rows, position);
    var remaining: nat := requested;
    var items: seq<O> := [];
    var next: Option<string> := None;
    stop := start;
    assert rows[start..start] == [];
    while remaining > 0
      invariant start <= stop == At(rows, position)
      invariant items == FilterMap(rows[start..stop], project)
      invariant remaining == requested - |items|
      invariant last.Some? ==> last.value == position
      invariant 0 < requested ==> remaining > 0
      invariant next.Some? ==> next.value == codec.encode(stop)
      invariant Advances(lister) && next.Some? ==> start < stop
      decreases |rows| - stop, if last == Some(stop) then 0 else 1
    {
      ghost var at := stop;
      var page, filtered := Fetch(lister, position, remaining, project, rows);
      if page.Broken? {
        return Failed(InternalError), stop;
      }
      stop := at + |page.items|;
      FilterMapSlices(rows, start, at, stop, project);
      items := items + filtered;
      remaining := if requested > |items| then requested - |items| else 0;
      next := match page.next case Some(c) => Some(codec.encode(c)) case None => None;
      if remaining == 0 {
        break;
      }
      match page.next {
        case Some(c) =>
          if last == Some(c) {
            next := None;
            break;
          }
          last := Some(c);
          position := c;
        case None => break;
      }
    }
    r := Listed(items, next);
  }

  /** One turn: a page no longer than what is still missing, and the part of it that matches. */
  method Fetch<I(!new), O>(lister: Lister<I>, position: nat, remaining: nat, project: I -> Option<O>,
                           ghost rows: seq<I>)
    returns (page: ListerPage<I>, filtered: seq<O>)
    requires Lists(lister, rows) && 0 < remaining
    ensures page.Broken? ==> Breaks(lister)
    ensures page.Page? ==>
      var at := At(rows, position);
      && at + |page.items| <= |rows|
      && filtered == FilterMap(rows[at..at + |page.items|], project)
      && |filtered| <= remaining
      && (page.next.Some? ==> page.next.value == at + |page.items|)
      && (page.next.None? ==> at + |page.items| == |rows|)
      && (Advances(lister) && page.next.Some? ==> |page.items| > 0)
  {
    var pageSize := if remaining < MAX_LIMIT then remaining else MAX_LIMIT;
    page := lister(position, pageSize);
    filtered := [];
    if page.Page? {
      filtered := KeepMatching(page.items, project, remaining);
      FilterMapLength(page.items, project);
    }
  }

  /** The loop over a page: it may stop once `remaining` are kept, which is never before the end of a
      page no longer than `remaining`. */
  method KeepMatching<I, O>(page: seq<I>, project: I -> Option<O>, remaining: nat) returns (filtered: seq<O>)
    requires |page| <= remaining
    ensures filtered == FilterMap(page, project)
  {
    filtered := [];
    for i := 0 to |page|
      invariant filtered == FilterMap(page[..i], project)
      invariant |filtered| <= i
    {
      assert page[..i + 1][..i] == page[..i];
      match project(page[i]) {
        case None => continue;
        case Some(o) =>
          filtered := filtered + [o];
          if |filtered| >= remaining {
            assert page[..i + 1] == page;
            return;
          }
      }
    }
    assert page[..|page|] == page;
  }

  // ---- Following the cursor ----

  /** A client that follows `next` from the start, with any page sizes, receives every matching row
      exactly once and in order. */
  method FollowCursor<I(!new), O(!new)>(limits: nat -> Option<nat>, lister: Lister<I>, project: I -> Option<O>,
                                        codec: Codec, ghost rows: seq<I>)
    returns (all: seq<O>, complete: bool)
    requires Lists(lister, rows) && Advances(lister) && RoundTrips(codec)
    ensures complete ==> all == FilterMap(rows, project)
    ensures !complete ==> Breaks(lister)
    ensures all <= FilterMap(rows, project)
  {
    all := [];
    var cursor: Option<string> := None;
    ghost var position: nat := 0;
    var call := 0;
    assert rows[0..|rows|] == rows;
    while true
      invariant position <= |rows| && all == FilterMap(rows[0..position], project)
      invariant if cursor.None? then position == 0 else codec.parse(cursor.value) == Some(position)
      decreases |rows| - position
    {
      var page, stop := ListThreadsCommon(RequestedPageSize(limits(call)), cursor, lister, project, codec, rows);
      FilterMapSlices(rows, 0, position, |rows|, project);
      if page.Failed? {
        assert page == Failed(InternalError) by { assert page.error != InvalidCursor; }
        return all, false;
      }
      FilterMapSlices(rows, 0, position, stop, project);
      FilterMapSlices(rows, 0, stop, |rows|, project);
      all := all + page.items;
      if page.next.None? {
        return all, true;
      }
      position := stop;
      cursor := page.next;
      call := call + 1;
    }
  }

  function Filtered<I>(items: seq<I>, keep: I -> bool): seq<I> {
    FilterMap(items, x => if keep(x) then Some(x) else None)
  }

  function Both<I, O>(keep: I -> bool, project: I -> Option<O>): I -> Option<O> {
    (x: I) => if keep(x) then project(x) else None
  }

  /** Filtering in the lister first and projecting afterwards is one filter over the whole store. */
  lemma {:induction false} TwoFiltersAreOne<I, O>(store: seq<I>, keep: I -> bool, project: I -> Option<O>)
    ensures FilterMap(Filtered(store, keep), project) == FilterMap(store, Both(keep, project))
  {
    if |store| > 0 {
      var init, last := store[..|store| - 1], store[|store| - 1];
      TwoFiltersAreOne(init, keep, project);
      if keep(last) {
        assert Filtered(store, keep) == Filtered(init, keep) + [last];
        FilterMapConcat(Filtered(init, keep), [last], project);
        assert [last][..0] == [];
      } else {
        assert Filtered(store, keep) == Filtered(init, keep);
      }
    }
  }

  // ---- What a listing with source kinds and a directory returns ----

  /** A stored thread as the lister sees it, and its summary. */
  datatype Row = Row(id: string, source: Option<Source>, cwd: Option<string>)
  datatype Summary = Summary(id: string, source: Source, cwd: string)

  function Summarize(row: Row): Option<Summary> {
    match row.cwd
    case None => None
    case Some(cwd) => Some(Summary(row.id, match row.source case Some(s) => s case None => Unknown, cwd))
  }

  predicate ListerKeeps(row: Row, allowed: seq<Source>) {
    |allowed| > 0 ==> row.source.Some? && row.source.value in allowed
  }

  function SourceFilter(allowed: seq<Source>): Row -> bool {
    (row: Row) => ListerKeeps(row, allowed)
  }

  predicate InDirectory(s: Summary, cwd: Option<string>) {
    cwd.Some? ==> s.cwd == cwd.value
  }

  function Matching(filter: Option<seq<SourceKind>>, cwd: Option<string>): Row -> Option<Summary> {
    (row: Row) => match Summarize(row)
      case Some(s) => if PostFiltered(s.source, filter) && InDirectory(s, cwd) then Some(s) else None
      case None => None
  }

  /** The request read literally, as one filter over the store. */
  function Asked(kinds: Option<seq<SourceKind>>, cwd: Option<string>): Row -> Option<Summary> {
    (row: Row) =>
      var source := if row.source.Some? then row.source.value else Unknown;
      if row.cwd.Some? && Wanted(source, kinds) && (cwd.Some? ==> row.cwd == cwd)
      then Some(Summary(row.id, source, row.cwd.value)) else None
  }

  lemma {:induction false} FilterMapAgree<I, O>(items: seq<I>, f: I -> Option<O>, g: I -> Option<O>)
    requires forall x :: x in items ==> f(x) == g(x)
    ensures FilterMap(items, f) == FilterMap(items, g)
  {
    if |items| > 0 {
      FilterMapAgree(items[..|items| - 1], f, g);
    }
  }

  lemma RowAsked(row: Row, kinds: Option<seq<SourceKind>>, cwd: Option<string>)
    ensures var (allowed, filter) := ComputeSourceFilters(kinds);
      (if ListerKeeps(row, allowed) then Matching(filter, cwd)(row) else None) == Asked(kinds, cwd)(row)
  {
    var source := match row.source case Some(s) => s case None => Unknown;
    SourceFiltersExact(kinds, source);
    var (allowed, filter) := ComputeSourceFilters(kinds);
    AllowedIsInteractive(kinds);
    assert ListerKeeps(row, allowed) <==> Allowed(source, allowed);
  }

  lemma {:induction false} InteractiveOnly(kinds: seq<SourceKind>)
    ensures Unknown !in InteractiveSources(kinds)
  {
    if |kinds| > 0 {
      InteractiveOnly(kinds[1..]);
    }
  }

  lemma AllowedIsInteractive(kinds: Option<seq<SourceKind>>)
    ensures Unknown !in ComputeSourceFilters(kinds).0
  {
    if kinds.Some? {
      InteractiveOnly(kinds.value);
    }
  }

  /** Pre-filtering by source in the lister and post-filtering each page returns, over the whole
      store, exactly the threads asked for. */
  lemma ListingIsWhatWasAsked(store: seq<Row>, kinds: Option<seq<SourceKind>>, cwd: Option<string>)
    ensures var (allowed, filter) := ComputeSourceFilters(kinds);
      FilterMap(Filtered(store, SourceFilter(allowed)), Matching(filter, cwd)) == FilterMap(store, Asked(kinds, cwd))
  {
    var (allowed, filter) := ComputeSourceFilters(kinds);
    TwoFiltersAreOne(store, SourceFilter(allowed), Matching(filter, cwd));
    var both := Both(SourceFilter(allowed), Matching(filter, cwd));
    forall x | x in store ensures both(x) == Asked(kinds, cwd)(x) {
      RowAsked(x, kinds, cwd);
    }
    FilterMapAgree(store, both, Asked(kinds, cwd));
  }
}
