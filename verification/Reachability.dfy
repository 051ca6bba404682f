/** The two worklists that follow references from definition to definition. */
module Reachability {
  import opened SchemaJson
  import opened RefRewrites
  import opened Wrappers

  // ---- What they compute ----

  /** `p` leads from a seed along `next`. */
  ghost predicate Path(p: seq<string>, seeds: set<string>, next: string -> set<string>) {
    && |p| > 0
    && p[0] in seeds
    && forall i :: 0 < i < |p| ==> p[i] in next(p[i - 1])
  }

  ghost predicate Reachable(n: string, seeds: set<string>, next: string -> set<string>) {
    exists p :: Path(p, seeds, next) && p[|p| - 1] == n
  }

  ghost predicate ClosedUnder(s: set<string>, next: string -> set<string>) {
    forall n :: n in s ==> next(n) <= s
  }

  lemma SeedReachable(n: string, seeds: set<string>, next: string -> set<string>)
    requires n in seeds
    ensures Reachable(n, seeds, next)
  {
    assert Path([n], seeds, next) && [n][|[n]| - 1] == n;
  }

  lemma NextReachable(m: string, n: string, seeds: set<string>, next: string -> set<string>)
    requires Reachable(m, seeds, next) && n in next(m)
    ensures Reachable(n, seeds, next)
  {
    var p :| Path(p, seeds, next) && p[|p| - 1] == m;
    var q := p + [n];
    assert Path(q, seeds, next) && q[|q| - 1] == n;
  }

  lemma {:induction false} PathStaysInside(p: seq<string>, seeds: set<string>, next: string -> set<string>,
                                           s: set<string>)
    requires Path(p, seeds, next) && seeds <= s && ClosedUnder(s, next)
    ensures p[|p| - 1] in s
  {
    if |p| > 1 {
      var q := p[..|p| - 1];
      assert Path(q, seeds, next);
      PathStaysInside(q, seeds, next, s);
      assert p[|p| - 1] in next(q[|q| - 1]);
    }
  }

  /** The reachable names, when all of them lie in `universe`. */
  ghost function ReachSet(universe: set<string>, seeds: set<string>, next: string -> set<string>): set<string> {
    set n | n in universe && Reachable(n, seeds, next)
  }

  lemma ReachSetCorrect(universe: set<string>, seeds: set<string>, next: string -> set<string>)
    requires seeds <= universe && forall n :: next(n) <= universe
    ensures var r := ReachSet(universe, seeds, next);
      && (forall n :: n in r <==> Reachable(n, seeds, next))
      && seeds <= r && ClosedUnder(r, next)
  {
    var r := ReachSet(universe, seeds, next);
    forall n | Reachable(n, seeds, next) ensures n in r {
      var p :| Path(p, seeds, next) && p[|p| - 1] == n;
      assert |p| > 1 ==> n in next(p[|p| - 2]);
    }
    forall n | n in seeds ensures n in r {
      SeedReachable(n, seeds, next);
    }
    forall m, n | m in r && n in next(m) ensures n in r {
      NextReachable(m, n, seeds, next);
    }
  }

  /** No closed set that holds the seeds leaves out a reachable name. */
  lemma ReachSetLeast(universe: set<string>, seeds: set<string>, next: string -> set<string>, t: set<string>)
    requires seeds <= t && ClosedUnder(t, next)
    ensures ReachSet(universe, seeds, next) <= t
  {
    forall n | n in ReachSet(universe, seeds, next) ensures n in t {
      var p :| Path(p, seeds, next) && p[|p| - 1] == n;
      PathStaysInside(p, seeds, next, t);
    }
  }

  /** The marked names are in `reach`; those not pending have had their references marked. */
  ghost predicate Frontier(marked: set<string>, pending: set<string>, next: string -> set<string>, reach: set<string>) {
    && pending <= marked <= reach
    && (forall m :: m in marked && m !in pending ==> next(m) <= marked)
  }

  lemma FrontierStep(marked: set<string>, pending: set<string>, name: string, pending': set<string>,
                     next: string -> set<string>, reach: set<string>)
    requires Frontier(marked, pending, next, reach) && name in marked && ClosedUnder(reach, next)
    requires pending' <= marked + next(name)
    requires pending - {name} <= pending' && next(name) - marked <= pending'
    ensures Frontier(marked + next(name), pending', next, reach)
  {
  }

  function Elements(s: seq<string>): set<string> {
    set n | n in s
  }

  lemma ElementsPop(s: seq<string>)
    requires |s| > 0
    ensures Elements(s) == Elements(s[..|s| - 1]) + {s[|s| - 1]}
  {
    assert s == s[..|s| - 1] + [s[|s| - 1]];
  }

  lemma ElementsPush(s: seq<string>, n: string)
    ensures Elements(s + [n]) == Elements(s) + {n}
  {
  }

  lemma SmallerSet(a: set<string>, b: set<string>)
    requires a < b
    ensures |a| < |b|
  {
    var x :| x in b && x !in a;
    assert a <= b - {x};
    SubsetSize(a, b - {x});
  }

  lemma {:induction false} SubsetSize(a: set<string>, b: set<string>)
    requires a <= b
    ensures |a| <= |b|
  {
    if a != {} {
      var x :| x in a;
      SubsetSize(a - {x}, b - {x});
    }
  }

  /** Marking something new leaves less of `universe` unmarked. */
  lemma Shrinks(universe: set<string>, marked: set<string>, marked': set<string>)
    requires marked < marked' <= universe
    ensures |universe - marked'| < |universe - marked|
  {
    var n :| n in marked' && n !in marked;
    assert n in universe - marked && n !in universe - marked';
    SmallerSet(universe - marked', universe - marked);
  }

  /** The elements of a hash set, in some order. */
  method Enumerate(s: set<string>) returns (r: seq<string>)
    ensures Elements(r) == s
  {
    r := [];
    var left := s;
    while left != {}
      invariant left <= s
      invariant Elements(r) == s - left
      decreases left
    {
      var n :| n in left;
      ElementsPush(r, n);
      r := r + [n];
      left := left - {n};
    }
  }

  // ---- Marking on pop ----

  const V2 := "v2"
  const V2_DEFS := "#/definitions/v2/"

  /** `collect_non_v2_refs`: the names referenced outside the v2 namespace. */
  function NonV2Names(v: Json): set<string> {
    set r | r in Refs(v) && HasPrefix(r, DEFS) && !HasPrefix(r, V2_DEFS) :: Suffix(r)
  }

  function DependsOn(definitions: map<string, Json>): string -> set<string> {
    (n: string) => if n in definitions then NonV2Names(definitions[n]) else {}
  }

  /** Everything some definition leads to. */
  ghost function Universe(definitions: map<string, Json>, seeds: set<string>,
                          next: string -> set<string>): set<string> {
    seeds + set n, m | n in definitions && m in next(n) :: m
  }

  /** `collect_definition_dependencies`. */
  method CollectDefinitionDependencies(definitions: map<string, Json>, names: set<string>) returns (seen: set<string>)
    ensures forall n :: n in seen <==> Reachable(n, names, DependsOn(definitions))
  {
    ghost var next := DependsOn(definitions);
    ghost var universe := Universe(definitions, names, next);
    ReachSetCorrect(universe, names, next);
    seen := FollowMarkingOnPop(names, DependsOn(definitions), ReachSet(universe, names, next));
    ReachSetLeast(universe, names, next, seen);
  }

  lemma PopStep(seen: set<string>, stack: seq<string>, stack': seq<string>, next: string -> set<string>,
                reach: set<string>)
    requires |stack| > 0 && stack[|stack| - 1] !in seen && ClosedUnder(reach, next)
    requires Frontier(seen + Elements(stack), Elements(stack) - seen, next, reach)
    requires var name := stack[|stack| - 1];
      Elements(stack') == Elements(stack[..|stack| - 1]) + (next(name) - (seen + {name}))
    ensures var seen' := seen + {stack[|stack| - 1]};
      && Frontier(seen' + Elements(stack'), Elements(stack') - seen', next, reach)
      && seen + Elements(stack) <= seen' + Elements(stack')
      && |reach - seen'| < |reach - seen|
  {
    var name := stack[|stack| - 1];
    var seen' := seen + {name};
    ElementsPop(stack);
    Shrinks(reach, seen, seen');
    assert seen' + Elements(stack') == seen + Elements(stack) + next(name);
    FrontierStep(seen + Elements(stack), Elements(stack) - seen, name, Elements(stack') - seen', next, reach);
  }

  /** The loop: `next` gives the references in a definition, none for a name that has none. */
  method FollowMarkingOnPop(names: set<string>, next: string -> set<string>, ghost reach: set<string>)
    returns (seen: set<string>)
    requires names <= reach && ClosedUnder(reach, next)
    ensures names <= seen <= reach && ClosedUnder(seen, next)
  {
    seen := {};
    var toProcess := Enumerate(names);
    while |toProcess| > 0
      invariant names <= seen + Elements(toProcess)
      invariant Frontier(seen + Elements(toProcess), Elements(toProcess) - seen, next, reach)
      decreases |reach - seen|, |toProcess|
    {
      ghost var before, marked := toProcess, seen;
      ElementsPop(toProcess);
      var name := toProcess[|toProcess| - 1];
      toProcess := toProcess[..|toProcess| - 1];
      if name in seen {
        assert seen + Elements(toProcess) == seen + Elements(before);
        assert Elements(toProcess) - seen == Elements(before) - seen;
        continue;
      }
      seen := seen + {name};
      toProcess := PushUnseen(toProcess, next(name), seen);
      PopStep(marked, before, toProcess, next, reach);
    }
    assert seen + Elements(toProcess) == seen && Elements(toProcess) - seen == {};
  }

  method PushUnseen(stack: seq<string>, deps: set<string>, seen: set<string>) returns (r: seq<string>)
    ensures Elements(r) == Elements(stack) + (deps - seen)
  {
    r := stack;
    var order := Enumerate(deps);
    for i := 0 to |order|
      invariant Elements(r) == Elements(stack) + (Elements(order[..i]) - seen)
    {
      assert order[..i + 1] == order[..i] + [order[i]];
      ElementsPush(order[..i], order[i]);
      ElementsPush(r, order[i]);
      if order[i] !in seen {
        r := r + [order[i]];
      }
    }
    assert order[..|order|] == order;
  }

  // ---- Marking on push ----

  /** The definition a reference names: the segment after the definitions map. */
  function LocalName(r: string): Option<string> {
    if HasPrefix(r, DEFS) then Some(Head(Suffix(r))) else None
  }

  /** The reference goes to the definition `n` or to something below it. */
  predicate NamesDefinition(r: string, n: string) {
    Slashless(n) && (r == "#/definitions/" + n || "#/definitions/" + n + "/" <= r)
  }

  lemma NameOfPrefix(s: string, n: string)
    requires Slashless(n)
    ensures Head(s) == n <==> s == n || n + "/" <= s
  {
    HeadPrefix(s);
    if Head(s) == n && |n| < |s| {
      assert s[..|n| + 1] == n + "/";
    }
    if s == n || n + "/" <= s {
      var rest := s[|n|..];
      assert s == n + rest;
      HeadOf(n, rest);
    }
  }

  lemma BehindDefs(s: string, n: string)
    ensures n + "/" <= s <==> "#/definitions/" + n + "/" <= "#/definitions/" + s
  {
    var a, b := DEFS + n + "/", DEFS + s;
    assert a == DEFS + (n + "/");
    if a <= b {
      assert n + "/" == a[|DEFS|..] && s == b[|DEFS|..];
    }
  }

  lemma LocalNameExactly(r: string, n: string)
    ensures LocalName(r) == Some(n) <==> NamesDefinition(r, n)
  {
    assert NamesDefinition(r, n) ==> HasPrefix(r, DEFS);
    if HasPrefix(r, DEFS) {
      var s := Suffix(r);
      assert r == DEFS + s;
      HeadPrefix(s);
      SuffixOf(n);
      if Slashless(n) {
        NameOfPrefix(s, n);
        BehindDefs(s, n);
      }
    }
  }

  function LocalNames(refs: set<string>): set<string> {
    set r | r in refs && LocalName(r).Some? :: LocalName(r).value
  }

  /** References outside `definitions` and `$defs` maps, at any depth. */
  function RefsOutside(v: Json): set<string> {
    match v
    case Arr(items) => set i, r | 0 <= i < |items| && r in RefsOutside(items[i]) :: r
    case Obj(fields) =>
      OwnRef(fields)
      + set k, r | k in fields && k != "$defs" && k != "definitions" && r in RefsOutside(fields[k]) :: r
    case _ => {}
  }

  /** No step goes into a `definitions` or `$defs` map. */
  predicate OutsideMaps(path: seq<Hop>) {
    Key("definitions") !in path && Key("$defs") !in path
  }

  lemma OutsideStep(path: seq<Hop>)
    requires |path| > 0
    ensures OutsideMaps(path) <==> path[0] != Key("definitions") && path[0] != Key("$defs") && OutsideMaps(path[1..])
  {
    assert path == [path[0]] + path[1..];
  }

  lemma {:induction false} OutsideFound(v: Json, r: string) returns (path: seq<Hop>)
    requires r in RefsOutside(v)
    ensures RefersAt(v, path, r) && OutsideMaps(path)
  {
    match v {
      case Arr(items) =>
        var i :| 0 <= i < |items| && r in RefsOutside(items[i]);
        var rest := OutsideFound(items[i], r);
        path := [Item(i)] + rest;
        OutsideStep(path);
        assert path[1..] == rest;
      case Obj(fields) =>
        if r in OwnRef(fields) {
          path := [];
        } else {
          var k :| k in fields && k != "$defs" && k != "definitions" && r in RefsOutside(fields[k]);
          var rest := OutsideFound(fields[k], r);
          path := [Key(k)] + rest;
          OutsideStep(path);
          assert path[1..] == rest;
        }
      case _ =>
    }
  }

  lemma {:induction false} OutsideCollected(v: Json, path: seq<Hop>, r: string)
    requires RefersAt(v, path, r) && OutsideMaps(path)
    ensures r in RefsOutside(v)
  {
    if |path| > 0 {
      OutsideStep(path);
      match path[0] {
        case Key(k) => OutsideCollected(v.fields[k], path[1..], r);
        case Item(i) => OutsideCollected(v.items[i], path[1..], r);
      }
    }
  }

  /** They are exactly the references met on paths that go into no such map. */
  lemma RefsOutsideExactly(v: Json, r: string)
    ensures r in RefsOutside(v) <==> exists path :: RefersAt(v, path, r) && OutsideMaps(path)
  {
    if r in RefsOutside(v) {
      var path := OutsideFound(v, r);
    }
    if path :| RefersAt(v, path, r) && OutsideMaps(path) {
      OutsideCollected(v, path, r);
    }
  }

  function Definitions(schema: Json): Option<map<string, Json>> {
    if schema.Obj? && "definitions" in schema.fields && schema.fields["definitions"].Obj?
    then Some(schema.fields["definitions"].fields) else None
  }

  function LocallyReferences(definitions: map<string, Json>): string -> set<string> {
    (n: string) => if n in definitions then LocalNames(Refs(definitions[n])) else {}
  }

  function Roots(schema: Json): set<string> {
    LocalNames(RefsOutside(schema))
  }

  /** `reachable_local_definitions` for the key `definitions`. */
  method ReachableLocalDefinitions(schema: Json) returns (reachable: set<string>)
    ensures Definitions(schema).None? ==> reachable == {}
    ensures Definitions(schema).Some? ==>
      forall n :: n in reachable <==> Reachable(n, Roots(schema), LocallyReferences(Definitions(schema).value))
  {
    if Definitions(schema).None? {
      return {};
    }
    var definitions := Definitions(schema).value;
    var next := LocallyReferences(definitions);
    ghost var universe := Universe(definitions, Roots(schema), next);
    ReachSetCorrect(universe, Roots(schema), next);
    reachable := FollowMarkingOnPush(Roots(schema), next, ReachSet(universe, Roots(schema), next));
    ReachSetLeast(universe, Roots(schema), next, reachable);
  }

  lemma PushStep(marked: set<string>, queue: seq<string>, queue': seq<string>, next: string -> set<string>,
                 reach: set<string>)
    requires |queue| > 0 && Frontier(marked, Elements(queue), next, reach) && ClosedUnder(reach, next)
    requires var found := next(queue[|queue| - 1]);
      && Elements(queue') == Elements(queue[..|queue| - 1]) + (found - marked)
      && (found <= marked ==> queue' == queue[..|queue| - 1])
    ensures var marked' := marked + next(queue[|queue| - 1]);
      && Frontier(marked', Elements(queue'), next, reach)
      && (|reach - marked'| < |reach - marked| || (marked' == marked && |queue'| < |queue|))
  {
    var name := queue[|queue| - 1];
    var marked' := marked + next(name);
    ElementsPop(queue);
    FrontierStep(marked, Elements(queue), name, Elements(queue'), next, reach);
    if marked' != marked {
      Shrinks(reach, marked, marked');
    }
  }

  /** The loop: `next` gives the references in a definition, none for a name that has none. */
  method FollowMarkingOnPush(roots: set<string>, next: string -> set<string>, ghost reach: set<string>)
    returns (reachable: set<string>)
    requires roots <= reach && ClosedUnder(reach, next)
    ensures roots <= reachable <= reach && ClosedUnder(reachable, next)
  {
    var queue: seq<string>;
    queue, reachable := MarkAndPush([], {}, roots);
    assert Elements(queue) == roots == reachable;
    while |queue| > 0
      invariant roots <= reachable
      invariant Frontier(reachable, Elements(queue), next, reach)
      decreases |reach - reachable|, |queue|
    {
      ghost var marked, before := reachable, queue;
      var name := queue[|queue| - 1];
      queue := queue[..|queue| - 1];
      queue, reachable := MarkAndPush(queue, reachable, next(name));
      PushStep(marked, before, queue, next, reach);
    }
  }

  /** `collect_local_definition_ref_here` over the references of a tree: a name is pushed when first marked. */
  method MarkAndPush(queue: seq<string>, reachable: set<string>, found: set<string>)
    returns (queue': seq<string>, reachable': set<string>)
    ensures reachable' == reachable + found
    ensures Elements(queue') == Elements(queue) + (found - reachable)
    ensures found <= reachable ==> queue' == queue
  {
    queue', reachable' := queue, reachable;
    var order := Enumerate(found);
    for i := 0 to |order|
      invariant reachable' == reachable + Elements(order[..i])
      invariant Elements(queue') == Elements(queue) + (Elements(order[..i]) - reachable)
      invariant found <= reachable ==> queue' == queue
    {
      assert order[..i + 1] == order[..i] + [order[i]];
      assert order[i] in Elements(order);
      ElementsPush(order[..i], order[i]);
      ElementsPush(queue', order[i]);
      if order[i] !in reachable' {
        reachable' := reachable' + {order[i]};
        queue' := queue' + [order[i]];
      }
    }
    assert order[..|order|] == order;
  }
}
