/** `build_flat_v2_schema`: the v2 namespace lifted to the root, with the shared definitions and
    whatever root definitions they need. */
module FlatV2 {
  import opened SchemaJson
  import opened RefRewrites
  import opened Reachability
  import opened Bundle
  import opened BundleClosure
  import opened BundleMeaning
  import opened Wrappers

  datatype FlatError = NoRoot | NoDefinitions | NoV2 | StillNamespaced | Missing(names: set<string>)
  datatype FlatResult = Flat(schema: Json) | Failed(error: FlatError)

  const SHARED := {"ClientRequest", "ServerNotification"}

  /** `str::replace`. */
  function ReplaceAll(s: string, pat: string, rep: string): string
    requires |pat| > 0
    decreases |s|
  {
    if |s| < |pat| then s
    else if HasPrefix(s, pat) then rep + ReplaceAll(s[|pat|..], pat, rep)
    else [s[0]] + ReplaceAll(s[1..], pat, rep)
  }

  function FlatRef(r: string): string {
    ReplaceAll(r, V2_DEFS, DEFS)
  }

  function SharedDefs(defs: Defs): Defs {
    map n | n in SHARED && n in defs :: defs[n]
  }

  /** The root names the shared definitions refer to. */
  function SharedNames(defs: Defs): set<string> {
    set n, m | n in SHARED && n in defs && m in NonV2Names(defs[n]) :: m
  }

  /** The v2 definitions, then the needed root ones that do not clash, then the shared ones. */
  function FlatDefs(defs: Defs, v2: Defs, needed: set<string>): Defs {
    v2 + (map n | n in defs && n in needed && n != V2 && n !in v2 :: defs[n]) + SharedDefs(defs)
  }

  /** The names that some reference path reaches from the shared definitions. */
  ghost function Needed(defs: Defs): set<string> {
    ReachSet(Universe(defs, SharedNames(defs), DependsOn(defs)), SharedNames(defs), DependsOn(defs))
  }

  lemma NeededCorrect(defs: Defs)
    ensures forall n :: n in Needed(defs) <==> Reachable(n, SharedNames(defs), DependsOn(defs))
    ensures SharedNames(defs) <= Needed(defs) && ClosedUnder(Needed(defs), DependsOn(defs))
  {
    ReachSetCorrect(Universe(defs, SharedNames(defs), DependsOn(defs)), SharedNames(defs), DependsOn(defs));
  }

  function Title(root: map<string, Json>): string {
    if "title" in root && root["title"].Str? then root["title"].s else "CodexAppServerProtocol"
  }

  /** The bundle before its references are rewritten. */
  function Lifted(root: map<string, Json>, flat: Defs): Json {
    Obj(root["title" := Str(Title(root) + "V2")]["definitions" := Obj(flat)])
  }

  /** First segments of references that name no definition. */
  function MissingNames(v: Json, defs: Defs): set<string> {
    LocalNames(Refs(v)) - defs.Keys
  }

  /** The checks at the end. */
  function Checked(flat: Json): FlatResult {
    var namespaced := set r | r in Refs(flat) && HasPrefix(r, V2_DEFS);
    if namespaced != {} then Failed(StillNamespaced)
    else match Definitions(flat)
      case None => Failed(NoDefinitions)
      case Some(defs) =>
        if MissingNames(flat, defs) == {} then Flat(flat) else Failed(Missing(MissingNames(flat, defs)))
  }

  function Finish(root: map<string, Json>, flat: Defs): FlatResult {
    Checked(RewriteRefs(Lifted(root, flat), FlatRef))
  }

  ghost function FlatSpec(bundle: Json): FlatResult {
    if !bundle.Obj? then Failed(NoRoot)
    else match Definitions(bundle)
      case None => Failed(NoDefinitions)
      case Some(defs) =>
        if V2 !in defs || !defs[V2].Obj? then Failed(NoV2)
        else Finish(bundle.fields, FlatDefs(defs, defs[V2].fields, Needed(defs)))
  }

  /** `build_flat_v2_schema`. */
  method BuildFlatV2Schema(bundle: Json) returns (r: FlatResult)
    ensures r == FlatSpec(bundle)
  {
    if !bundle.Obj? {
      return Failed(NoRoot);
    }
    if Definitions(bundle).None? {
      return Failed(NoDefinitions);
    }
    var definitions := Definitions(bundle).value;
    if V2 !in definitions || !definitions[V2].Obj? {
      return Failed(NoV2);
    }
    var v2 := definitions[V2].fields;
    var needed := CollectDefinitionDependencies(definitions, SharedNames(definitions));
    NeededCorrect(definitions);
    assert needed == Needed(definitions);
    r := Finish(bundle.fields, FlatDefs(definitions, v2, needed));
  }

  // ---- Rewriting the prefix ----

  /** Text that cannot contain the namespaced prefix keeps its shape. */
  lemma {:induction false} ReplaceSlashless(s: string)
    requires Slashless(s)
    ensures ReplaceAll(s, V2_DEFS, DEFS) == s
    decreases |s|
  {
    if |s| >= |V2_DEFS| {
      assert V2_DEFS[1] == '/';
      ReplaceSlashless(s[1..]);
    }
  }

  lemma FlatRefNamespaced(name: string)
    requires Slashless(name)
    ensures FlatRef(V2_DEFS + name) == DEFS + name
  {
    var r := V2_DEFS + name;
    assert r[|V2_DEFS|..] == name;
    ReplaceSlashless(name);
  }

  lemma {:induction false} ReplaceNothing(s: string, k: nat)
    requires k <= |s| && forall i :: k <= i < |s| ==> !HasPrefix(s[i..], V2_DEFS)
    ensures ReplaceAll(s[k..], V2_DEFS, DEFS) == s[k..]
    decreases |s| - k
  {
    if |s| - k >= |V2_DEFS| {
      ReplaceNothing(s, k + 1);
      assert s[k..][1..] == s[k + 1..];
    }
  }

  lemma FlatRefRoot(name: string)
    requires Slashless(name)
    ensures FlatRef(DEFS + name) == DEFS + name
  {
    var r := DEFS + name;
    forall i | 0 <= i < |r| ensures !HasPrefix(r[i..], V2_DEFS) {
      assert i + 16 < |r| ==> r[i..][16] == r[i + 16] == name[i + 2];
      assert V2_DEFS[16] == '/';
    }
    ReplaceNothing(r, 0);
    assert r[0..] == r;
  }

  // ---- What flattening keeps ----

  /** The path holds no second namespaced prefix. */
  ghost predicate NoMarker(path: string) {
    forall i :: 0 <= i < |path| ==> !HasPrefix(path[i..], V2_DEFS)
  }

  /** No segment of the path is `$ref`. */
  predicate NoRefSegment(path: string)
    decreases |path|
  {
    HeadPrefix(path);
    var head := Head(path);
    head != REF && (|head| < |path| ==> NoRefSegment(path[|head| + 1..]))
  }

  /** `r` follows a path from the root definitions or from those of v2. */
  ghost predicate Follows(r: string, path: string) {
    NoMarker(path) && NoRefSegment(path) && ((r == DEFS + path && Head(path) != V2) || r == V2_DEFS + path)
  }

  lemma SlashlessPath(name: string)
    requires Slashless(name) && name != REF
    ensures NoMarker(name) && NoRefSegment(name) && Head(name) == name
  {
    HeadPrefix(name);
    forall i | 0 <= i < |name| ensures !HasPrefix(name[i..], V2_DEFS) {
      NoMarkerIn(name[i..]);
    }
  }

  lemma NoMarkerIn(s: string)
    requires Slashless(s)
    ensures !HasPrefix(s, V2_DEFS)
  {
    assert V2_DEFS[1] == '/';
  }

  lemma FlatRefInV2(path: string)
    requires NoMarker(path)
    ensures FlatRef(V2_DEFS + path) == DEFS + path
  {
    var r := V2_DEFS + path;
    assert r[|V2_DEFS|..] == path && path[0..] == path;
    ReplaceNothing(path, 0);
  }

  lemma NotUnderV2(path: string)
    requires Head(path) != V2
    ensures !HasPrefix(DEFS + path, V2_DEFS)
  {
    DefsText();
    if HasPrefix(DEFS + path, V2_DEFS) {
      var r := DEFS + path;
      assert r[|DEFS|..] == path && r[..|V2_DEFS|] == DEFS + "v2/";
      assert path[..3] == r[|DEFS|..|DEFS| + 3] == "v2/";
      assert path == V2 + path[2..] && path[2] == '/';
      HeadOf(V2, path[2..]);
    }
  }

  lemma FlatRefAtRoot(path: string)
    requires NoMarker(path) && Head(path) != V2
    ensures FlatRef(DEFS + path) == DEFS + path
  {
    var r := DEFS + path;
    NotUnderV2(path);
    DefsText();
    forall i | 0 <= i < |r| ensures !HasPrefix(r[i..], V2_DEFS) {
      if i >= |DEFS| {
        assert r[i..] == path[i - |DEFS|..];
      } else if i > 0 {
        assert r[i] == DEFS[i] == DEFS[1..][i - 1] != '#';
        assert V2_DEFS[0] == '#' && r[i..][0] == r[i];
      } else {
        assert r[0..] == r;
      }
    }
    ReplaceNothing(r, 0);
    assert r[0..] == r;
  }

  /** Following a path and rewriting what it leads to can be done in either order. */
  lemma {:induction false} NavigateRewritten(v: Json, path: string, f: string -> string)
    requires NoRefSegment(path)
    ensures Navigate(RewriteRefs(v, f), path) == Rewritten(Navigate(v, path), f)
    decreases |path|
  {
    HeadPrefix(path);
    var head := Head(path);
    if v.Obj? && head in v.fields {
      assert RewriteRefs(v, f).fields[head] == RewriteRefs(v.fields[head], f);
      if |head| < |path| {
        NavigateRewritten(v.fields[head], path[|head| + 1..], f);
      }
    }
  }

  function Rewritten(v: Option<Json>, f: string -> string): Option<Json> {
    match v case Some(x) => Some(RewriteRefs(x, f)) case None => None
  }

  /** A path depends only on the definition its first segment names. */
  lemma SameHeadSamePath(a: Defs, b: Defs, path: string)
    requires Head(path) in a && Head(path) in b && a[Head(path)] == b[Head(path)]
    ensures Navigate(Obj(a), path) == Navigate(Obj(b), path)
  {
    HeadPrefix(path);
  }

  lemma FlatKeys(root: map<string, Json>, flat: Defs)
    ensures Definitions(RewriteRefs(Lifted(root, flat), FlatRef)).Some?
    ensures Definitions(RewriteRefs(Lifted(root, flat), FlatRef)).value.Keys == flat.Keys
  {
  }

  /** What takes the place of the definition `r` goes through first, if anything: a v2 definition goes
      before a root one of the same name unless that is shared, and then gives way to it. */
  function Displacing(defs: Defs, r: string): Option<Json>
    requires HasV2(defs)
  {
    var v2 := defs[V2].fields;
    if HasPrefix(r, V2_DEFS) then
      var name := Head(r[|V2_DEFS|..]);
      if name in SharedDefs(defs) then Some(defs[name]) else None
    else if HasPrefix(r, DEFS) then
      var name := Head(Suffix(r));
      if name in v2 && name !in SHARED then Some(v2[name]) else None
    else None
  }

  lemma V2Suffix(path: string)
    ensures HasPrefix(V2_DEFS + path, V2_DEFS) && (V2_DEFS + path)[|V2_DEFS|..] == path
  {
  }

  lemma NavigateHead(defs: Defs, path: string)
    requires Navigate(Obj(defs), path).Some?
    ensures Head(path) in defs
  {
  }

  /** The definitions among which a surviving reference is looked up in the flat schema. */
  lemma FlatHead(root: map<string, Json>, defs: Defs, needed: set<string>, r: string, path: string)
    requires HasV2(defs) && Follows(r, path) && Resolve(defs, r).Some?
    requires Finish(root, FlatDefs(defs, defs[V2].fields, needed)).Flat?
    requires r in Refs(Lifted(root, FlatDefs(defs, defs[V2].fields, needed)))
    ensures var flat, name := FlatDefs(defs, defs[V2].fields, needed), Head(path);
      && FlatRef(r) == DEFS + path && name in flat
      && match Displacing(defs, r)
         case Some(other) => flat[name] == other
         case None => Navigate(Obj(flat), path) == Resolve(defs, r)
  {
    var flat, name := FlatDefs(defs, defs[V2].fields, needed), Head(path);
    HeadPrefix(path);
    if r == DEFS + path && name != V2 {
      FlatRefAtRoot(path);
      NotUnderV2(path);
      SuffixOf(path);
      NameSurvives(root, flat, r, path);
      NavigateHead(defs, path);
      if Displacing(defs, r) == None {
        SameHeadSamePath(defs, flat, path);
      }
    } else {
      FlatRefInV2(path);
      V2Suffix(path);
      V2Found(defs, path);
      NavigateHead(defs[V2].fields, path);
      if Displacing(defs, r) == None {
        SameHeadSamePath(defs[V2].fields, flat, path);
      }
    }
  }

  /** What `r` leads to once another definition stands where it goes through first. */
  function Elsewhere(other: Json, path: string): Option<Json> {
    Navigate(Obj(map[Head(path) := other]), path)
  }

  /** When flattening succeeds, a reference that is still there and that resolved in the bundle resolves,
      after rewriting, to the rewritten copy of the same value, exactly when no other definition displaces
      the one it goes through, or the path leads in that one to the same value once rewritten. */
  lemma FlattenKeepsMeaning(bundle: Json, r: string, path: string)
    requires FlatSpec(bundle).Flat? && Follows(r, path)
    requires var defs := Definitions(bundle).value;
      r in Refs(Lifted(bundle.fields, FlatDefs(defs, defs[V2].fields, Needed(defs))))
    requires Resolve(Definitions(bundle).value, r).Some?
    ensures Definitions(FlatSpec(bundle).schema).Some?
    ensures var defs := Definitions(bundle).value;
      var kept := Rewritten(Resolve(defs, r), FlatRef);
      Resolve(Definitions(FlatSpec(bundle).schema).value, FlatRef(r)) == kept
      <==> match Displacing(defs, r)
           case Some(other) => Rewritten(Elsewhere(other, path), FlatRef) == kept
           case None => true
  {
    var defs := Definitions(bundle).value;
    var flat := FlatDefs(defs, defs[V2].fields, Needed(defs));
    FlatHead(bundle.fields, defs, Needed(defs), r, path);
    FlatResolves(bundle.fields, flat, path);
    if Displacing(defs, r).Some? {
      SameHeadSamePath(flat, map[Head(path) := Displacing(defs, r).value], path);
    }
    assert FlatSpec(bundle) == Finish(bundle.fields, flat);
  }

  /** References of the flat schema are looked up in the rewritten flat definitions. */
  lemma FlatResolves(root: map<string, Json>, flat: Defs, path: string)
    requires NoRefSegment(path)
    ensures Definitions(RewriteRefs(Lifted(root, flat), FlatRef)).Some?
    ensures Resolve(Definitions(RewriteRefs(Lifted(root, flat), FlatRef)).value, DEFS + path)
         == Rewritten(Navigate(Obj(flat), path), FlatRef)
  {
    SuffixOf(path);
    FlatDefinitions(root, flat);
    NavigateRewritten(Obj(flat), path, FlatRef);
  }

  lemma FlatDefinitions(root: map<string, Json>, flat: Defs)
    ensures Definitions(RewriteRefs(Lifted(root, flat), FlatRef)).Some?
    ensures Obj(Definitions(RewriteRefs(Lifted(root, flat), FlatRef)).value) == RewriteRefs(Obj(flat), FlatRef)
  {
    var lifted := Lifted(root, flat);
    assert lifted.fields["definitions"] == Obj(flat);
    assert RewriteRefs(lifted, FlatRef).fields["definitions"] == RewriteRefs(Obj(flat), FlatRef);
  }

  /** The presence check found the name of every rewritten reference. */
  lemma NameSurvives(root: map<string, Json>, flat: Defs, r: string, path: string)
    requires Finish(root, flat).Flat?
    requires r in Refs(Lifted(root, flat)) && FlatRef(r) == DEFS + path
    ensures Head(path) in flat
  {
    var out := RewriteRefs(Lifted(root, flat), FlatRef);
    RefsOfRewriteTo(Lifted(root, flat), FlatRef, r);
    SuffixOf(path);
    FlatKeys(root, flat);
    assert LocalName(DEFS + path) == Some(Head(path));
    assert Head(path) in LocalNames(Refs(out));
    assert MissingNames(out, Definitions(out).value) == {};
    assert Head(path) in LocalNames(Refs(out)) - flat.Keys || Head(path) in flat;
  }

  lemma V2Found(defs: Defs, path: string)
    requires HasV2(defs)
    ensures Resolve(defs, V2_DEFS + path) == Navigate(Obj(defs[V2].fields), path)
  {
    var whole := V2 + ("/" + path);
    assert V2_DEFS + path == DEFS + whole by {
      DefsText();
      assert DEFS + "v2/" + path == DEFS + (V2 + ("/" + path));
    }
    SuffixOf(whole);
    HeadOf(V2, "/" + path);
    assert |V2| < |whole| && whole[|V2| + 1..] == path;
  }

  /** A flat schema has no namespaced reference, and the definition of every reference is present. */
  lemma FlatIsClosed(bundle: Json, r: string)
    requires FlatSpec(bundle).Flat? && r in Refs(FlatSpec(bundle).schema) && HasPrefix(r, DEFS)
    ensures !HasPrefix(r, V2_DEFS)
    ensures Definitions(FlatSpec(bundle).schema).Some?
    ensures Head(Suffix(r)) in Definitions(FlatSpec(bundle).schema).value
    ensures Slashless(Suffix(r)) ==> Resolve(Definitions(FlatSpec(bundle).schema).value, r).Some?
  {
    var out := FlatSpec(bundle).schema;
    var defs := Definitions(out).value;
    var namespaced := set r | r in Refs(out) && HasPrefix(r, V2_DEFS);
    assert namespaced == {};
    assert r !in namespaced;
    assert LocalName(r) == Some(Head(Suffix(r)));
    assert Head(Suffix(r)) in LocalNames(Refs(out));
    assert MissingNames(out, defs) == {};
    assert Head(Suffix(r)) in LocalNames(Refs(out)) - defs.Keys || Head(Suffix(r)) in defs;
    if Slashless(Suffix(r)) {
      HeadPrefix(Suffix(r));
      assert r == DEFS + Suffix(r);
      ResolveRoot(defs, Suffix(r));
    }
  }

  // ---- Bundles that were built flatten ----

  lemma {:induction false} ReplaceKeepsStart(s: string, p: string)
    requires '#' !in p && HasPrefix(ReplaceAll(s, V2_DEFS, DEFS), p)
    ensures HasPrefix(s, p)
    decreases |p|
  {
    if |p| > 0 && |s| >= |V2_DEFS| {
      var out := ReplaceAll(s, V2_DEFS, DEFS);
      assert out[0] == p[0] && p[0] in p;
      if !HasPrefix(s, V2_DEFS) {
        assert out[1..] == ReplaceAll(s[1..], V2_DEFS, DEFS);
        assert HasPrefix(out[1..], p[1..]);
        assert forall c :: c in p[1..] ==> c in p;
        ReplaceKeepsStart(s[1..], p[1..]);
        assert s == [s[0]] + s[1..] && p == [p[0]] + p[1..];
      }
    }
  }

  lemma DefsText()
    ensures DEFS == "#" + "/definitions/" && DEFS[0] == '#' && DEFS[1..] == "/definitions/"
    ensures V2_DEFS == DEFS + "v2/"
  {
  }

  /** Flattening makes no reference into a definitions reference that was not one. */
  lemma FlatRefKeepsKind(r: string)
    requires HasPrefix(FlatRef(r), DEFS)
    ensures HasPrefix(r, DEFS)
  {
    DefsText();
    if |r| >= |V2_DEFS| {
      if HasPrefix(r, V2_DEFS) {
        assert r == DEFS + ("v2/" + r[|V2_DEFS|..]);
      } else {
        RestKeepsKind(r, FlatRef(r));
      }
    }
  }

  lemma RestKeepsKind(r: string, out: string)
    requires |r| > 0 && out == [r[0]] + ReplaceAll(r[1..], V2_DEFS, DEFS) && HasPrefix(out, DEFS)
    ensures HasPrefix(r, DEFS)
  {
    var rest := "/definitions/";
    DefsText();
    assert out[0] == r[0] && out[0] == DEFS[0];
    assert out[1..] == ReplaceAll(r[1..], V2_DEFS, DEFS);
    assert HasPrefix(out[1..], rest) by { assert out == DEFS + out[|DEFS|..]; }
    ReplaceKeepsStart(r[1..], rest);
    assert r == [r[0]] + r[1..] && r[1..] == rest + r[1..][|rest|..];
    assert r == DEFS + r[1..][|rest|..];
  }

  lemma {:induction false} NothingNamedRef(schemas: seq<Schema>, n: nat, annotate: Annotation)
    requires WellNamed(schemas, annotate) && n <= |schemas|
    ensures LastContribution(schemas, n, REF, Types(schemas), annotate) == None
  {
    if n > 0 {
      assert Named(schemas[n - 1], Namespaces(schemas));
      NothingNamedRef(schemas, n - 1, annotate);
    }
  }

  lemma FlatRefOrigin(defs: Defs, v2: Defs, needed: set<string>, r: string)
    requires REF !in defs && r in Refs(Obj(FlatDefs(defs, v2, needed)))
    ensures r in Refs(Obj(v2)) || exists n :: n in defs && (n in SHARED || n in needed) && r in Refs(defs[n])
  {
    var flat := FlatDefs(defs, v2, needed);
    if r in OwnRef(flat) {
      assert REF in v2 && flat[REF] == v2[REF];
      assert r in OwnRef(v2);
    } else {
      var n :| n in flat && r in Refs(flat[n]);
      if n in SharedDefs(defs) {
        assert n in SHARED && n in defs;
      } else if n in v2 {
        RefsOfField(v2, n);
      }
    }
  }

  /** A reference of the lifted bundle is one of the v2 namespace or of a root definition that is carried over. */
  lemma LiftedRef(defs: Defs, needed: set<string>, r: string)
    requires HasV2(defs) && REF !in defs
    requires r in Refs(Lifted(Root(defs).fields, FlatDefs(defs, defs[V2].fields, needed)))
    ensures r in Refs(defs[V2])
         || exists n :: n in defs && (n in SHARED || n in needed) && r in Refs(defs[n])
  {
    var v2 := defs[V2].fields;
    var flat := FlatDefs(defs, v2, needed);
    var fields := Lifted(Root(defs).fields, flat).fields;
    assert OwnRef(fields) == {};
    var k :| k in fields && r in Refs(fields[k]);
    assert k == "definitions" && r in Refs(Obj(flat));
    FlatRefOrigin(defs, v2, needed, r);
  }

  predicate HasV2(defs: Defs) {
    V2 in defs && defs[V2].Obj?
  }

  /** Holds the names the shared definitions refer to, and with a name those its definition refers to. */
  ghost predicate Supplies(needed: set<string>, defs: Defs) {
    SharedNames(defs) <= needed && ClosedUnder(needed, DependsOn(defs))
  }

  lemma RootIsNotV2(name: string)
    requires Slashless(name)
    ensures HasPrefix(DEFS + name, DEFS) && Suffix(DEFS + name) == name && Head(name) == name
    ensures !HasPrefix(DEFS + name, V2_DEFS)
  {
    var r := DEFS + name;
    assert V2_DEFS[16] == '/';
    assert 16 < |r| ==> r[16] == name[2];
    assert name == name + "";
    HeadOf(name, "");
  }

  lemma RootRefOutsideV2(defs: Defs, name: string)
    requires HasV2(defs) && SelfContained(defs, {V2}) && Slashless(name)
    ensures DEFS + name !in Refs(defs[V2])
  {
    RootIsNotV2(name);
    DefsText();
    assert Target(V2, "") == V2_DEFS;
    assert PointsInside(Refs(defs[V2]), V2);
  }

  lemma OwnerNeeds(defs: Defs, needed: set<string>, n: string, name: string)
    requires n in defs && (n in SHARED || n in needed) && DEFS + name in Refs(defs[n])
    requires Slashless(name) && Supplies(needed, defs)
    ensures name in needed
  {
    RootIsNotV2(name);
    assert name in NonV2Names(defs[n]);
    if n in SHARED {
      assert name in SharedNames(defs);
    } else {
      assert name in DependsOn(defs)(n);
    }
  }

  lemma RootRefNeeded(defs: Defs, needed: set<string>, name: string)
    requires HasV2(defs) && REF !in defs && SelfContained(defs, {V2})
    requires DEFS + name in Refs(Lifted(Root(defs).fields, FlatDefs(defs, defs[V2].fields, needed)))
    requires Slashless(name) && Supplies(needed, defs)
    ensures name in needed
  {
    LiftedRef(defs, needed, DEFS + name);
    RootRefOutsideV2(defs, name);
    var n :| n in defs && (n in SHARED || n in needed) && DEFS + name in Refs(defs[n]);
    OwnerNeeds(defs, needed, n, name);
  }

  lemma InFlat(defs: Defs, v2: Defs, needed: set<string>, name: string)
    requires name in v2 || (name in defs && name in needed && name != V2)
    ensures name in FlatDefs(defs, v2, needed)
  {
  }

  lemma V2LandsFlat(defs: Defs, needed: set<string>, name: string)
    requires HasEntry(defs, V2, name) && Slashless(name)
    ensures FlatRef(Target(V2, name)) == DEFS + name
    ensures name in FlatDefs(defs, defs[V2].fields, needed)
  {
    assert Target(V2, name) == V2_DEFS + name;
    FlatRefNamespaced(name);
    InFlat(defs, defs[V2].fields, needed, name);
  }

  /** Where a reference that landed goes in the flat schema. */
  lemma LandedFlattens(defs: Defs, needed: set<string>, r: string) returns (name: string)
    requires HasV2(defs) && REF !in defs && SelfContained(defs, {V2})
    requires r in Refs(Lifted(Root(defs).fields, FlatDefs(defs, defs[V2].fields, needed)))
    requires Landed(defs, {V2}, r) && Supplies(needed, defs)
    ensures Slashless(name) && FlatRef(r) == DEFS + name
    ensures name in FlatDefs(defs, defs[V2].fields, needed)
  {
    if x :| r == DEFS + x && Slashless(x) && x in defs && x !in {V2} {
      name := x;
      FlatRefRoot(name);
      RootRefNeeded(defs, needed, name);
      InFlat(defs, defs[V2].fields, needed, name);
    } else {
      var ns, x :| r == Target(ns, x) && ns in {V2} && Slashless(ns) && Slashless(x) && HasEntry(defs, ns, x);
      name := x;
      V2LandsFlat(defs, needed, name);
    }
  }

  /** Flat, with every local reference in one segment and resolving. */
  ghost predicate FlatAndClosed(flat: FlatResult) {
    && flat.Flat? && Definitions(flat.schema).Some?
    && forall r :: r in Refs(flat.schema) && HasPrefix(r, DEFS) ==>
         Slashless(Suffix(r)) && Resolve(Definitions(flat.schema).value, r).Some?
  }

  lemma LandedBundleCloses(defs: Defs)
    requires AllLanded(defs)
    ensures FlatAndClosed(FlatSpec(Root(defs)))
  {
    LandedBundleFlattens(defs);
    var flat := FlatSpec(Root(defs));
    FlatHasDefinitions(Root(defs));
    forall r | r in Refs(flat.schema) && HasPrefix(r, DEFS) ensures Resolve(Definitions(flat.schema).value, r).Some? {
      FlatIsClosed(Root(defs), r);
    }
  }

  lemma FlatHasDefinitions(bundle: Json)
    requires FlatSpec(bundle).Flat?
    ensures Definitions(FlatSpec(bundle).schema).Some?
  {
  }

  lemma BuiltBundleLands(schemas: seq<Schema>, annotate: Annotation)
    requires WellNamed(schemas, annotate) && AllServed(schemas, annotate)
    requires Namespaces(schemas) == {V2} && GivesV2(schemas)
    requires AddFirst(schemas, |schemas|, Types(schemas), annotate).Ok?
    ensures AllLanded(AddFirst(schemas, |schemas|, Types(schemas), annotate).value)
  {
    BuiltHasV2(schemas, annotate);
    BundleClosed(schemas, annotate);
    forall i | 0 <= i < |schemas| && schemas[i].namespace.Some? ensures schemas[i].namespace.value in {V2} {
      assert schemas[i].namespace.value in Namespaces(schemas);
    }
    BundleSelfContained(schemas, |schemas|, Types(schemas), annotate, {V2});
    RootEntryIsLast(schemas, |schemas|, REF, annotate);
    NothingNamedRef(schemas, |schemas|, annotate);
  }

  /** Some v2 schema is not ignored. */
  ghost predicate GivesV2(schemas: seq<Schema>) {
    exists i :: 0 <= i < |schemas| && schemas[i].namespace == Some(V2) && schemas[i].name !in IGNORED
  }

  /** A bundle built from served schemas whose only namespace is v2 always flattens, and every local
      reference of the flat schema has one segment and resolves. */
  lemma BuiltBundleFlattens(schemas: seq<Schema>, annotate: Annotation)
    requires WellNamed(schemas, annotate) && AllServed(schemas, annotate)
    requires Namespaces(schemas) == {V2} && GivesV2(schemas)
    requires AddFirst(schemas, |schemas|, Types(schemas), annotate).Ok?
    ensures FlatAndClosed(FlatSpec(Root(AddFirst(schemas, |schemas|, Types(schemas), annotate).value)))
  {
    BuiltBundleLands(schemas, annotate);
    LandedBundleCloses(AddFirst(schemas, |schemas|, Types(schemas), annotate).value);
  }

  lemma BuiltHasV2(schemas: seq<Schema>, annotate: Annotation)
    requires WellNamed(schemas, annotate) && GivesV2(schemas)
    requires AddFirst(schemas, |schemas|, Types(schemas), annotate).Ok?
    ensures HasV2(AddFirst(schemas, |schemas|, Types(schemas), annotate).value)
  {
    TypesCovered(schemas);
    AddFirstFacts(schemas, |schemas|, Types(schemas), annotate, Namespaces(schemas));
    var i :| 0 <= i < |schemas| && schemas[i].namespace == Some(V2) && schemas[i].name !in IGNORED;
    assert Added(AddFirst(schemas, |schemas|, Types(schemas), annotate).value, schemas[i], Types(schemas), annotate);
  }

  ghost predicate AllLanded(defs: Defs) {
    && HasV2(defs) && REF !in defs && SelfContained(defs, {V2})
    && forall r :: r in Refs(Root(defs)) && HasPrefix(r, DEFS) ==> Landed(defs, {V2}, r)
  }

  lemma LiftedRefLanded(defs: Defs, needed: set<string>, r: string)
    requires AllLanded(defs) && HasPrefix(r, DEFS)
    requires r in Refs(Lifted(Root(defs).fields, FlatDefs(defs, defs[V2].fields, needed)))
    ensures Landed(defs, {V2}, r)
  {
    LiftedRef(defs, needed, r);
    RootRefs(defs);
    assert r in Refs(Obj(defs)) by {
      RefsOfField(defs, V2);
      if n :| n in defs && r in Refs(defs[n]) {
        RefsOfField(defs, n);
      }
    }
  }

  /** Every definitions reference of the flat schema names one of its definitions, in one segment. */
  lemma FlatRefPresent(defs: Defs, needed: set<string>, r: string)
    requires Supplies(needed, defs) && AllLanded(defs) && HasPrefix(r, DEFS)
    requires r in Refs(RewriteRefs(Lifted(Root(defs).fields, FlatDefs(defs, defs[V2].fields, needed)), FlatRef))
    ensures !HasPrefix(r, V2_DEFS) && Head(Suffix(r)) in FlatDefs(defs, defs[V2].fields, needed) && Slashless(Suffix(r))
  {
    var flat := FlatDefs(defs, defs[V2].fields, needed);
    var r0 := RefsOfRewriteFrom(Lifted(Root(defs).fields, flat), FlatRef, r);
    FlatRefKeepsKind(r0);
    LiftedRefLanded(defs, needed, r0);
    var name := LandedFlattens(defs, needed, r0);
    RootIsNotV2(name);
  }

  /** The checks pass when every definitions reference names a definition, outside v2. */
  lemma ChecksPass(root: map<string, Json>, flat: Defs)
    requires forall r :: r in Refs(RewriteRefs(Lifted(root, flat), FlatRef)) && HasPrefix(r, DEFS) ==>
      !HasPrefix(r, V2_DEFS) && Head(Suffix(r)) in flat
    ensures Finish(root, flat).Flat?
  {
    var out := RewriteRefs(Lifted(root, flat), FlatRef);
    FlatKeys(root, flat);
    assert V2_DEFS == DEFS + "v2/";
    forall r | HasPrefix(r, V2_DEFS) ensures HasPrefix(r, DEFS) {
      assert r == DEFS + r[|DEFS|..];
    }
    var namespaced := set r | r in Refs(out) && HasPrefix(r, V2_DEFS);
    assert namespaced == {};
    assert MissingNames(out, Definitions(out).value) == {};
  }

  lemma LandedBundleFlattens(defs: Defs)
    requires AllLanded(defs)
    ensures FlatSpec(Root(defs)).Flat?
    ensures forall r :: r in Refs(FlatSpec(Root(defs)).schema) && HasPrefix(r, DEFS) ==> Slashless(Suffix(r))
  {
    NeededCorrect(defs);
    SuppliedBundleFlattens(defs, Needed(defs));
    assert FlatSpec(Root(defs)) == Finish(Root(defs).fields, FlatDefs(defs, defs[V2].fields, Needed(defs)));
  }

  lemma SuppliedBundleFlattens(defs: Defs, needed: set<string>)
    requires AllLanded(defs) && Supplies(needed, defs)
    ensures var flat := Finish(Root(defs).fields, FlatDefs(defs, defs[V2].fields, needed));
      flat.Flat? && forall r :: r in Refs(flat.schema) && HasPrefix(r, DEFS) ==> Slashless(Suffix(r))
  {
    var flat := FlatDefs(defs, defs[V2].fields, needed);
    forall r | r in Refs(RewriteRefs(Lifted(Root(defs).fields, flat), FlatRef)) && HasPrefix(r, DEFS)
      ensures !HasPrefix(r, V2_DEFS) && Head(Suffix(r)) in flat && Slashless(Suffix(r))
    {
      FlatRefPresent(defs, needed, r);
    }
    ChecksPass(Root(defs).fields, flat);
  }

  // ---- A definition displaced by flattening ----

  /** A shared definition that refers to the root's `X`, beside an `X` in v2. */
  function TwoMeanings(inV2: string, atRoot: string): Defs {
    map[V2 := Obj(map["X" := Str(inV2)]), "X" := Str(atRoot), "ClientRequest" := Obj(map[REF := Str(DEFS + "X")])]
  }

  lemma TwoMeaningsRefs(inV2: string, atRoot: string)
    ensures var defs := TwoMeanings(inV2, atRoot);
      && HasV2(defs) && REF !in defs && Refs(defs[V2]) == {} && Refs(Obj(defs)) == {DEFS + "X"}
      && Refs(defs["ClientRequest"]) == {DEFS + "X"}
  {
    var defs := TwoMeanings(inV2, atRoot);
    assert REF[0] == '$' && V2[0] == 'v' && "X"[0] == 'X' && "ClientRequest"[0] == 'C';
    assert Refs(defs[V2]) == {};
    assert Refs(defs["X"]) == {};
    assert defs["ClientRequest"].fields[REF] == Str(DEFS + "X");
    assert Refs(defs["ClientRequest"]) == {DEFS + "X"};
    assert OwnRef(defs) == {};
    RefsOfField(defs, "ClientRequest");
  }

  lemma TwoMeaningsLand(inV2: string, atRoot: string)
    ensures AllLanded(TwoMeanings(inV2, atRoot))
  {
    var defs := TwoMeanings(inV2, atRoot);
    TwoMeaningsRefs(inV2, atRoot);
    RootRefs(defs);
    assert "X"[0] != V2[0];
    assert Slashless("X") && "X" in defs && "X" !in {V2};
  }

  lemma SharedRefSurvives(defs: Defs, needed: set<string>, n: string, r: string)
    requires HasV2(defs) && n in SHARED && n in defs && r in Refs(defs[n])
    ensures r in Refs(Lifted(Root(defs).fields, FlatDefs(defs, defs[V2].fields, needed)))
  {
    var flat := FlatDefs(defs, defs[V2].fields, needed);
    assert flat[n] == defs[n];
    RefsOfField(flat, n);
    RefsOfField(Lifted(Root(defs).fields, flat).fields, "definitions");
  }

  /** Whenever a shared definition refers to a root definition that v2 also has. */
  lemma DisplacedLeads(defs: Defs, n: string, x: string)
    requires AllLanded(defs) && n in SHARED && n in defs && DEFS + x in Refs(defs[n])
    requires Slashless(x) && x != REF && x != V2 && x !in SHARED && x in defs && x in defs[V2].fields
    ensures var flat := FlatSpec(Root(defs));
      && flat.Flat? && Definitions(flat.schema).Some?
      && Resolve(defs, DEFS + x) == Some(defs[x])
      && Resolve(Definitions(flat.schema).value, FlatRef(DEFS + x)) == Some(RewriteRefs(defs[V2].fields[x], FlatRef))
  {
    var needed := Needed(defs);
    var root, flat := Root(defs).fields, FlatDefs(defs, defs[V2].fields, needed);
    LandedBundleFlattens(defs);
    assert FlatSpec(Root(defs)) == Finish(root, flat);
    SharedRefSurvives(defs, needed, n, DEFS + x);
    SlashlessPath(x);
    ResolveRoot(defs, x);
    NotUnderV2(x);
    SuffixOf(x);
    FlatHead(root, defs, needed, DEFS + x, x);
    FlatResolves(root, flat, x);
  }

  /** The bundle flattens, and a reference that led to the root's definition leads to that of v2. */
  lemma DisplacedMeaningLost(inV2: string, atRoot: string)
    requires inV2 != atRoot
    ensures var defs := TwoMeanings(inV2, atRoot);
      && FlatSpec(Root(defs)).Flat? && Definitions(FlatSpec(Root(defs)).schema).Some?
      && Resolve(defs, DEFS + "X") == Some(Str(atRoot))
      && Resolve(Definitions(FlatSpec(Root(defs)).schema).value, FlatRef(DEFS + "X")) == Some(Str(inV2))
  {
    TwoMeaningsLand(inV2, atRoot);
    TwoMeaningsRefs(inV2, atRoot);
    assert "X"[0] != REF[0] && "X"[0] != V2[0] && |"X"| == 1;
    assert DEFS + "X" in Refs(TwoMeanings(inV2, atRoot)["ClientRequest"]);
    DisplacedLeads(TwoMeanings(inV2, atRoot), "ClientRequest", "X");
  }
}
