/** What a built bundle holds, read off the schemas it was built from, and exactly when it is built. */
module BundleContents {
  import opened SchemaJson
  import opened RefRewrites
  import opened Reachability
  import opened Bundle
  import opened BundleClosure
  import opened BundleMeaning
  import opened Wrappers

  // ---- What a schema gives ----

  predicate Defines(s: Schema, d: string) {
    && s.value.Obj? && "definitions" in s.value.fields && s.value.fields["definitions"].Obj?
    && d in s.value.fields["definitions"].fields
  }

  function DefinitionOf(s: Schema, d: string): Json
    requires Defines(s, d)
  {
    s.value.fields["definitions"].fields[d]
  }

  /** Definitions that are never copied out of a schema. */
  predicate LeftOut(d: string) {
    d in {"Option<()>", "ClientNotification", "ClientRequest", "ServerNotification", "ServerRequest"}
  }

  /** `out` is `v` without its definitions, with every reference sent where `go` says. */
  ghost predicate WithoutDefinitions(v: Json, out: Json, go: string -> string) {
    match v
    case Obj(fields) =>
      && out.Obj? && out.fields.Keys == fields.Keys - {"definitions"}
      && forall k :: k in out.fields ==>
           out.fields[k] == if k == "$ref" && fields[k].Str? then Str(go(fields[k].s)) else RewriteRefs(fields[k], go)
    case Arr(items) =>
      out.Arr? && |out.items| == |items| && forall i :: 0 <= i < |items| ==> out.items[i] == RewriteRefs(items[i], go)
    case _ => out == v
  }

  /** Under `d` the schema gives `v`: itself under its own name, or one of its definitions, with its
      references retargeted and then annotated. */
  ghost predicate Gives(s: Schema, d: string, v: Json, types: map<string, string>, annotate: Annotation) {
    && s.name != "Option<()>"
    && (|| (d == s.name && WithoutDefinitions(s.value, v, Retargeting(s, types)))
        || (Defines(s, d) && !LeftOut(d) && v == annotate(d, RewriteRefs(DefinitionOf(s, d), Retargeting(s, types)))))
  }

  /** At the root a schema comes after its definitions, and outside v1 a definition that a namespace
      claims is not copied. */
  ghost predicate GivesAtRoot(s: Schema, x: string, v: Json, types: map<string, string>, annotate: Annotation) {
    && s.namespace.None? && Gives(s, x, v, types, annotate)
    && (x == s.name ==> WithoutDefinitions(s.value, v, Retargeting(s, types)))
    && (x != s.name ==> s.inV1 || NamespaceFor(x, types).None?)
  }

  lemma BodyExactly(s: Schema, v: Json, types: map<string, string>)
    ensures WithoutDefinitions(s.value, v, Retargeting(s, types)) <==> v == Body(s, types)
  {
    var body, go := Body(s, types), Retargeting(s, types);
    assert WithoutDefinitions(s.value, body, go);
    if WithoutDefinitions(s.value, v, go) {
      match s.value {
        case Obj(fields) =>
          assert v.fields == body.fields;
        case Arr(items) =>
          assert v.items == body.items;
        case _ =>
      }
    }
  }

  lemma LocalExactly(s: Schema, d: string, types: map<string, string>)
    requires Defines(s, d) && d != REF
    ensures d in LocalDefs(Prepared(s, types))
    ensures LocalDefs(Prepared(s, types))[d] == RewriteRefs(DefinitionOf(s, d), Retargeting(s, types))
  {
    var v, defs := Prepared(s, types), s.value.fields["definitions"];
    assert v.fields["definitions"] == RewriteRefs(defs, Retargeting(s, types));
    assert RewriteRefs(defs, Retargeting(s, types)).fields.Keys == defs.fields.Keys;
  }

  lemma StoredExactly(s: Schema, d: string, types: map<string, string>, annotate: Annotation)
    requires s.namespace.Some? && Defines(s, d) && d != REF && KeepsRefs(annotate)
    ensures d in LocalDefs(Prepared(s, types))
    ensures Stored(s, d, types, annotate) == annotate(d, RewriteRefs(DefinitionOf(s, d), Retargeting(s, types)))
  {
    LocalExactly(s, d, types);
    PreparedLocals(s, types);
    var ns, def := s.namespace.value, annotate(d, LocalDefs(Prepared(s, types))[d]);
    LocalRefs(s, d, types);
    forall r | r in Refs(def) ensures NamespaceRef(ns, r) == r {
      var r0 :| r0 in Refs(s.value) && Retarget(s, types, r0) == r;
      NamespaceRefIdempotent(ns, r0);
    }
    RewriteIdentity(def, r => NamespaceRef(ns, r));
  }

  lemma OwnLocalExactly(s: Schema, d: string, types: map<string, string>, annotate: Annotation)
    requires Defines(s, d) && d != REF
    ensures OwnLocal(s, d, types, annotate) == annotate(d, RewriteRefs(DefinitionOf(s, d), Retargeting(s, types)))
  {
    LocalExactly(s, d, types);
  }

  // ---- A namespace ----

  ghost predicate GivenInNamespace(schemas: seq<Schema>, n: nat, ns: string, d: string, v: Json,
                                   types: map<string, string>, annotate: Annotation)
    requires n <= |schemas|
  {
    exists i :: 0 <= i < n && schemas[i].namespace == Some(ns) && Gives(schemas[i], d, v, types, annotate)
  }

  lemma GivenIsAdded(defs: Defs, s: Schema, d: string, v: Json, types: map<string, string>, annotate: Annotation)
    requires s.namespace.Some? && REF !in LocalDefs(s.value) && KeepsRefs(annotate)
    requires Added(defs, s, types, annotate) && Gives(s, d, v, types, annotate)
    ensures HasEntry(defs, s.namespace.value, d) && defs[s.namespace.value].fields[d] == v
  {
    if d == s.name && WithoutDefinitions(s.value, v, Retargeting(s, types)) {
      BodyExactly(s, v, types);
    } else {
      StoredExactly(s, d, types, annotate);
      assert LocalAdded(defs, s, d, types, annotate);
    }
  }

  lemma FilledIsGiven(s: Schema, ns: string, d: string, types: map<string, string>, annotate: Annotation)
    requires Fills(s, ns, d) && d != REF && KeepsRefs(annotate)
    ensures Gives(s, d, Recorded(s, d, types, annotate), types, annotate)
  {
    if d == s.name {
      BodyExactly(s, Body(s, types), types);
    } else {
      StoredExactly(s, d, types, annotate);
    }
  }

  lemma EntryIsGiven(schemas: seq<Schema>, annotate: Annotation, defs: Defs, i: nat, ns: string, d: string)
    requires WellNamed(schemas, annotate) && i < |schemas| && Fills(schemas[i], ns, d)
    requires Added(defs, schemas[i], Types(schemas), annotate)
    ensures HasEntry(defs, ns, d)
    ensures GivenInNamespace(schemas, |schemas|, ns, d, defs[ns].fields[d], Types(schemas), annotate)
  {
    var s, types := schemas[i], Types(schemas);
    assert Named(s, Namespaces(schemas));
    FilledIsGiven(s, ns, d, types, annotate);
    GivenIsAdded(defs, s, d, Recorded(s, d, types, annotate), types, annotate);
  }

  /** A namespace of a built bundle holds `v` under `d` exactly when one of its schemas gives it. */
  lemma NamespaceHolds(schemas: seq<Schema>, annotate: Annotation, ns: string, d: string, v: Json)
    requires WellNamed(schemas, annotate) && ns in Namespaces(schemas)
    requires AddFirst(schemas, |schemas|, Types(schemas), annotate).Ok?
    ensures var defs := AddFirst(schemas, |schemas|, Types(schemas), annotate).value;
      HasEntry(defs, ns, d) && defs[ns].fields[d] == v
      <==> GivenInNamespace(schemas, |schemas|, ns, d, v, Types(schemas), annotate)
  {
    var types := Types(schemas);
    var defs := AddFirst(schemas, |schemas|, types, annotate).value;
    TypesCovered(schemas);
    AddFirstFacts(schemas, |schemas|, types, annotate, Namespaces(schemas));
    if i :| 0 <= i < |schemas| && schemas[i].namespace == Some(ns) && Gives(schemas[i], d, v, types, annotate) {
      assert Added(defs, schemas[i], types, annotate) && Named(schemas[i], Namespaces(schemas));
      GivenIsAdded(defs, schemas[i], d, v, types, annotate);
    }
    if HasEntry(defs, ns, d) {
      EntriesExactly(schemas, |schemas|, types, annotate, ns, d);
      var i :| 0 <= i < |schemas| && Fills(schemas[i], ns, d);
      EntryIsGiven(schemas, annotate, defs, i, ns, d);
    }
  }

  /** So that is what a reference into the namespace leads to. */
  lemma NamespaceResolves(schemas: seq<Schema>, annotate: Annotation, ns: string, d: string, v: Json)
    requires WellNamed(schemas, annotate) && ns in Namespaces(schemas) && Slashless(d)
    requires AddFirst(schemas, |schemas|, Types(schemas), annotate).Ok?
    ensures var defs := AddFirst(schemas, |schemas|, Types(schemas), annotate).value;
      Resolve(defs, "#/definitions/" + (ns + "/" + d)) == Some(v)
      <==> GivenInNamespace(schemas, |schemas|, ns, d, v, Types(schemas), annotate)
  {
    var defs := AddFirst(schemas, |schemas|, Types(schemas), annotate).value;
    NamespaceHolds(schemas, annotate, ns, d, v);
    SpaceSlashless(schemas, annotate, ns);
    if HasEntry(defs, ns, d) {
      ResolveNamespaced(defs, ns, d);
    } else {
      MissingEntry(defs, ns, d);
    }
  }

  /** In particular a reference to a namespaced schema leads to all of that schema but its definitions. */
  lemma NamespacedSchemaWhole(schemas: seq<Schema>, annotate: Annotation, i: nat) returns (v: Json)
    requires WellNamed(schemas, annotate) && i < |schemas| && schemas[i].namespace.Some?
    requires schemas[i].name != "Option<()>" && Slashless(schemas[i].name)
    requires AddFirst(schemas, |schemas|, Types(schemas), annotate).Ok?
    ensures var s, defs := schemas[i], AddFirst(schemas, |schemas|, Types(schemas), annotate).value;
      && Resolve(defs, "#/definitions/" + (s.namespace.value + "/" + s.name)) == Some(v)
      && WithoutDefinitions(s.value, v, Retargeting(s, Types(schemas)))
  {
    var s, types := schemas[i], Types(schemas);
    v := Body(s, types);
    BodyExactly(s, v, types);
    assert Gives(s, s.name, v, types, annotate);
    NamespaceResolves(schemas, annotate, s.namespace.value, s.name, v);
  }

  lemma SpaceSlashless(schemas: seq<Schema>, annotate: Annotation, ns: string)
    requires WellNamed(schemas, annotate) && ns in Namespaces(schemas)
    ensures Slashless(ns) && ns != REF
  {
    var i :| 0 <= i < |schemas| && schemas[i].namespace == Some(ns);
    assert Named(schemas[i], Namespaces(schemas));
  }

  // ---- The root ----

  ghost predicate GivesNothing(s: Schema, x: string, types: map<string, string>, annotate: Annotation) {
    forall v :: !GivesAtRoot(s, x, v, types, annotate)
  }

  /** Schema `i` gives `v` under `x` at the root, and none of the first `n` after it gives anything there. */
  ghost predicate LastGives(schemas: seq<Schema>, n: nat, i: nat, x: string, v: Json, types: map<string, string>,
                            annotate: Annotation)
    requires n <= |schemas|
  {
    && i < n && GivesAtRoot(schemas[i], x, v, types, annotate)
    && forall j :: i < j < n ==> GivesNothing(schemas[j], x, types, annotate)
  }

  ghost predicate GivenLast(schemas: seq<Schema>, n: nat, x: string, v: Json, types: map<string, string>,
                            annotate: Annotation)
    requires n <= |schemas|
  {
    exists i: nat :: LastGives(schemas, n, i, x, v, types, annotate)
  }

  lemma BodyAtRoot(s: Schema, v: Json, types: map<string, string>, annotate: Annotation)
    requires s.namespace.None? && s.name != "Option<()>"
    ensures GivesAtRoot(s, s.name, v, types, annotate) <==> v == Body(s, types)
  {
    BodyExactly(s, v, types);
  }

  lemma LocalAtRoot(s: Schema, x: string, v: Json, types: map<string, string>, annotate: Annotation)
    requires s.namespace.None? && s.name != "Option<()>" && x != s.name && REF !in LocalDefs(s.value)
    ensures GivesAtRoot(s, x, v, types, annotate)
       <==> x in LocalDefs(s.value) && !Skipped(x) && ForcedNamespace(s, x, types).None?
            && v == OwnLocal(s, x, types, annotate)
  {
    if Defines(s, x) {
      OwnLocalExactly(s, x, types, annotate);
    }
  }

  lemma RootContributionExactly(s: Schema, x: string, v: Json, types: map<string, string>, annotate: Annotation)
    requires Listed(s) && REF !in LocalDefs(s.value)
    ensures RootContribution(s, x, types, annotate) == Some(v) <==> GivesAtRoot(s, x, v, types, annotate)
  {
    if s.namespace.None? && s.name != "Option<()>" {
      if x == s.name {
        BodyAtRoot(s, v, types, annotate);
      } else {
        LocalAtRoot(s, x, v, types, annotate);
      }
    }
  }

  lemma GaveLast(schemas: seq<Schema>, n: nat, x: string, v: Json, w: Json, types: map<string, string>,
                 annotate: Annotation)
    requires 0 < n <= |schemas| && GivesAtRoot(schemas[n - 1], x, w, types, annotate)
    requires GivesAtRoot(schemas[n - 1], x, v, types, annotate) ==> v == w
    ensures GivenLast(schemas, n, x, v, types, annotate) <==> v == w
  {
    assert LastGives(schemas, n, n - 1, x, w, types, annotate);
  }

  lemma GaveEarlier(schemas: seq<Schema>, n: nat, m: nat, x: string, v: Json, types: map<string, string>,
                    annotate: Annotation)
    requires n == m + 1 <= |schemas| && GivesNothing(schemas[m], x, types, annotate)
    ensures GivenLast(schemas, n, x, v, types, annotate) <==> GivenLast(schemas, m, x, v, types, annotate)
  {
    if i: nat :| LastGives(schemas, n, i, x, v, types, annotate) {
      assert LastGives(schemas, m, i, x, v, types, annotate);
    }
    if i: nat :| LastGives(schemas, m, i, x, v, types, annotate) {
      assert LastGives(schemas, n, i, x, v, types, annotate);
    }
  }

  /** One schema more, given what the ones before contributed. */
  lemma LastStep(schemas: seq<Schema>, n: nat, x: string, v: Json, types: map<string, string>, annotate: Annotation,
                 before: Option<Json>)
    requires 0 < n <= |schemas| && Listed(schemas[n - 1]) && REF !in LocalDefs(schemas[n - 1].value)
    requires before == Some(v) <==> GivenLast(schemas, n - 1, x, v, types, annotate)
    ensures var own := RootContribution(schemas[n - 1], x, types, annotate);
      (if own.Some? then own else before) == Some(v) <==> GivenLast(schemas, n, x, v, types, annotate)
  {
    var s := schemas[n - 1];
    match RootContribution(s, x, types, annotate) {
      case Some(w) =>
        RootContributionExactly(s, x, w, types, annotate);
        RootContributionExactly(s, x, v, types, annotate);
        GaveLast(schemas, n, x, v, w, types, annotate);
      case None =>
        forall w ensures !GivesAtRoot(s, x, w, types, annotate) {
          RootContributionExactly(s, x, w, types, annotate);
        }
        GaveEarlier(schemas, n, n - 1, x, v, types, annotate);
    }
  }

  lemma {:induction false} LastContributionExactly(schemas: seq<Schema>, n: nat, x: string, v: Json,
                                                   types: map<string, string>, annotate: Annotation)
    requires AllListed(schemas) && n <= |schemas|
    requires forall i :: 0 <= i < |schemas| ==> REF !in LocalDefs(schemas[i].value)
    ensures LastContribution(schemas, n, x, types, annotate) == Some(v)
       <==> GivenLast(schemas, n, x, v, types, annotate)
  {
    if n > 0 {
      LastContributionExactly(schemas, n - 1, x, v, types, annotate);
      LastStep(schemas, n, x, v, types, annotate, LastContribution(schemas, n - 1, x, types, annotate));
    }
  }

  /** The root of a built bundle holds `v` under `x` exactly when the last schema to give something
      there gives it. */
  lemma RootHolds(schemas: seq<Schema>, annotate: Annotation, x: string, v: Json)
    requires WellNamed(schemas, annotate) && x !in Namespaces(schemas)
    requires AddFirst(schemas, |schemas|, Types(schemas), annotate).Ok?
    ensures var defs := AddFirst(schemas, |schemas|, Types(schemas), annotate).value;
      x in defs && defs[x] == v <==> GivenLast(schemas, |schemas|, x, v, Types(schemas), annotate)
  {
    RootEntryIsLast(schemas, |schemas|, x, annotate);
    forall i | 0 <= i < |schemas| ensures REF !in LocalDefs(schemas[i].value) {
      assert Named(schemas[i], Namespaces(schemas));
    }
    LastContributionExactly(schemas, |schemas|, x, v, Types(schemas), annotate);
  }

  lemma RootResolves(schemas: seq<Schema>, annotate: Annotation, x: string, v: Json)
    requires WellNamed(schemas, annotate) && x !in Namespaces(schemas) && Slashless(x)
    requires AddFirst(schemas, |schemas|, Types(schemas), annotate).Ok?
    ensures var defs := AddFirst(schemas, |schemas|, Types(schemas), annotate).value;
      Resolve(defs, "#/definitions/" + x) == Some(v)
      <==> GivenLast(schemas, |schemas|, x, v, Types(schemas), annotate)
  {
    RootHolds(schemas, annotate, x, v);
    ResolveRoot(AddFirst(schemas, |schemas|, Types(schemas), annotate).value, x);
  }

  /** And one to the last un-namespaced schema to give its name leads to all of that one. */
  lemma RootSchemaWhole(schemas: seq<Schema>, annotate: Annotation, i: nat) returns (v: Json)
    requires WellNamed(schemas, annotate) && i < |schemas| && schemas[i].namespace.None?
    requires schemas[i].name != "Option<()>" && Slashless(schemas[i].name)
    requires forall j :: i < j < |schemas| ==> GivesNothing(schemas[j], schemas[i].name, Types(schemas), annotate)
    requires AddFirst(schemas, |schemas|, Types(schemas), annotate).Ok?
    ensures var s, defs := schemas[i], AddFirst(schemas, |schemas|, Types(schemas), annotate).value;
      && Resolve(defs, "#/definitions/" + s.name) == Some(v)
      && WithoutDefinitions(s.value, v, Retargeting(s, Types(schemas)))
  {
    var s, types := schemas[i], Types(schemas);
    v := Body(s, types);
    BodyExactly(s, v, types);
    assert Named(s, Namespaces(schemas));
    assert GivesAtRoot(s, s.name, v, types, annotate);
    assert LastGives(schemas, |schemas|, i, s.name, v, types, annotate);
    RootResolves(schemas, annotate, s.name, v);
  }

  // ---- When the bundle is built ----

  /** Two of the first `n` schemas give different values for one name in the namespace. */
  ghost predicate Disagree(schemas: seq<Schema>, n: nat, ns: string, d: string, types: map<string, string>,
                           annotate: Annotation)
    requires n <= |schemas|
  {
    exists v, w :: v != w
      && GivenInNamespace(schemas, n, ns, d, v, types, annotate)
      && GivenInNamespace(schemas, n, ns, d, w, types, annotate)
  }

  /** Every entry of a namespace was given by one of the first `n` schemas. */
  ghost predicate Explained(defs: Defs, spaces: set<string>, schemas: seq<Schema>, n: nat, types: map<string, string>,
                            annotate: Annotation)
    requires n <= |schemas|
  {
    forall ns :: ns in spaces && ns in defs ==>
      && defs[ns].Obj?
      && forall d :: d in defs[ns].fields ==> GivenInNamespace(schemas, n, ns, d, defs[ns].fields[d], types, annotate)
  }

  lemma InsertDecided(defs: Defs, spaces: set<string>, schemas: seq<Schema>, n: nat, ns: string, d: string, v: Json,
                      types: map<string, string>, annotate: Annotation)
    requires n <= |schemas| && ns in spaces && Explained(defs, spaces, schemas, n, types, annotate)
    requires GivenInNamespace(schemas, n, ns, d, v, types, annotate)
    ensures match InsertIntoNamespace(defs, ns, d, v)
      case Ok(defs') => Explained(defs', spaces, schemas, n, types, annotate)
      case Err(e) => e == Collision(ns, d) && Disagree(schemas, n, ns, d, types, annotate)
  {
  }

  ghost predicate Decided(r: Result<Defs>, spaces: set<string>, schemas: seq<Schema>, n: nat,
                          types: map<string, string>, annotate: Annotation)
    requires n <= |schemas|
  {
    match r
    case Ok(defs) => Explained(defs, spaces, schemas, n, types, annotate)
    case Err(e) => e.Collision? && e.ns in spaces && Disagree(schemas, n, e.ns, e.name, types, annotate)
  }

  function DefsOf(r: Result<Locals>): Result<Defs> {
    match r case Ok(acc) => Ok(acc.defs) case Err(e) => Err(e)
  }

  lemma LocalDecided(acc: Locals, spaces: set<string>, schemas: seq<Schema>, k: nat, d: string,
                     types: map<string, string>, annotate: Annotation)
    requires k < |schemas| && Explained(acc.defs, spaces, schemas, k + 1, types, annotate)
    requires schemas[k].name != "Option<()>" && Defines(schemas[k], d) && !LeftOut(d)
    requires Named(schemas[k], spaces) && KeepsRefs(annotate)
    requires schemas[k].namespace.Some? ==> schemas[k].namespace.value in spaces
    requires d in LocalDefs(Prepared(schemas[k], types))
    ensures var s := schemas[k];
      var r := AddLocal(acc, s, d, annotate(d, LocalDefs(Prepared(s, types))[d]), types);
      Decided(DefsOf(r), spaces, schemas, k + 1, types, annotate)
  {
    var s := schemas[k];
    if s.namespace.Some? {
      StoredExactly(s, d, types, annotate);
      assert Gives(s, d, Stored(s, d, types, annotate), types, annotate);
      InsertDecided(acc.defs, spaces, schemas, k + 1, s.namespace.value, d, Stored(s, d, types, annotate), types,
                    annotate);
    }
  }

  lemma OrderDefined(s: Schema, d: string)
    requires Listed(s) && d in s.order
    ensures Defines(s, d)
  {
    assert d in LocalDefs(s.value);
  }

  lemma {:induction false} LocalsDecided(defs: Defs, spaces: set<string>, schemas: seq<Schema>, k: nat, m: nat,
                                         types: map<string, string>, annotate: Annotation)
    requires k < |schemas| && Explained(defs, spaces, schemas, k + 1, types, annotate)
    requires Listed(schemas[k]) && m <= |schemas[k].order| && schemas[k].name != "Option<()>"
    requires Named(schemas[k], spaces) && KeepsRefs(annotate)
    requires schemas[k].namespace.Some? ==> schemas[k].namespace.value in spaces
    requires forall d :: d in schemas[k].order ==> d in LocalDefs(Prepared(schemas[k], types))
    ensures Decided(DefsOf(AddLocals(defs, schemas[k], m, types, annotate)), spaces, schemas, k + 1, types, annotate)
  {
    if m > 0 {
      LocalsDecided(defs, spaces, schemas, k, m - 1, types, annotate);
      var d := schemas[k].order[m - 1];
      OrderDefined(schemas[k], d);
      var before := AddLocals(defs, schemas[k], m - 1, types, annotate);
      if before.Ok? && !Skipped(d) {
        LocalDecided(before.value, spaces, schemas, k, d, types, annotate);
      }
    }
  }

  lemma ExplainedBefore(defs: Defs, spaces: set<string>, schemas: seq<Schema>, n: nat, types: map<string, string>,
                        annotate: Annotation)
    requires n < |schemas| && Explained(defs, spaces, schemas, n, types, annotate)
    ensures Explained(defs, spaces, schemas, n + 1, types, annotate)
  {
    forall ns, d | ns in spaces && ns in defs && d in defs[ns].fields
      ensures GivenInNamespace(schemas, n + 1, ns, d, defs[ns].fields[d], types, annotate)
    {
      assert GivenInNamespace(schemas, n, ns, d, defs[ns].fields[d], types, annotate);
    }
  }

  lemma SchemaDecided(defs: Defs, spaces: set<string>, schemas: seq<Schema>, k: nat, types: map<string, string>,
                      annotate: Annotation)
    requires k < |schemas| && Explained(defs, spaces, schemas, k + 1, types, annotate)
    requires Listed(schemas[k]) && Named(schemas[k], spaces) && KeepsRefs(annotate) && Covered(types, spaces)
    requires schemas[k].namespace.Some? ==> schemas[k].namespace.value in spaces
    ensures Decided(AddSchema(defs, schemas[k], types, annotate), spaces, schemas, k + 1, types, annotate)
  {
    var s := schemas[k];
    PreparedLocals(s, types);
    if s.name !in IGNORED {
      LocalsDecided(defs, spaces, schemas, k, |s.order|, types, annotate);
      var added := AddLocals(defs, s, |s.order|, types, annotate);
      if added.Ok? && s.namespace.Some? {
        AddLocalsFacts(defs, s, |s.order|, types, annotate, spaces);
        BodyExactly(s, Body(s, types), types);
        assert Gives(s, s.name, Body(s, types), types, annotate);
        InsertDecided(added.value.defs, spaces, schemas, k + 1, s.namespace.value, s.name, Body(s, types), types,
                      annotate);
      }
    }
  }

  ghost predicate NamedAmong(s: Schema, spaces: set<string>) {
    Named(s, spaces) && (s.namespace.Some? ==> s.namespace.value in spaces)
  }

  lemma NextDecided(before: Result<Defs>, after: Result<Defs>, spaces: set<string>, schemas: seq<Schema>, k: nat,
                    n: nat, types: map<string, string>, annotate: Annotation)
    requires n == k + 1 <= |schemas| && Decided(before, spaces, schemas, k, types, annotate)
    requires Listed(schemas[k]) && NamedAmong(schemas[k], spaces) && KeepsRefs(annotate) && Covered(types, spaces)
    requires after == if before.Ok? then AddSchema(before.value, schemas[k], types, annotate) else before
    ensures Decided(after, spaces, schemas, n, types, annotate)
  {
    match before {
      case Ok(defs) =>
        ExplainedBefore(defs, spaces, schemas, k, types, annotate);
        SchemaDecided(defs, spaces, schemas, k, types, annotate);
      case Err(e) =>
        DisagreeLater(schemas, k, e.ns, e.name, types, annotate);
    }
  }

  lemma FirstStep(schemas: seq<Schema>, n: nat, types: map<string, string>, annotate: Annotation)
    requires 0 < n <= |schemas| && AllListed(schemas)
    ensures var before := AddFirst(schemas, n - 1, types, annotate);
      AddFirst(schemas, n, types, annotate)
      == if before.Ok? then AddSchema(before.value, schemas[n - 1], types, annotate) else before
  {
  }

  lemma DisagreeLater(schemas: seq<Schema>, n: nat, ns: string, d: string, types: map<string, string>,
                      annotate: Annotation)
    requires n < |schemas| && Disagree(schemas, n, ns, d, types, annotate)
    ensures Disagree(schemas, n + 1, ns, d, types, annotate)
  {
    var v, w :| v != w
      && GivenInNamespace(schemas, n, ns, d, v, types, annotate)
      && GivenInNamespace(schemas, n, ns, d, w, types, annotate);
    assert GivenInNamespace(schemas, n + 1, ns, d, v, types, annotate);
    assert GivenInNamespace(schemas, n + 1, ns, d, w, types, annotate);
  }

  lemma {:induction false} FirstDecided(schemas: seq<Schema>, n: nat, spaces: set<string>, types: map<string, string>,
                                        annotate: Annotation)
    requires n <= |schemas| && AllListed(schemas) && KeepsRefs(annotate) && Covered(types, spaces)
    requires forall i :: 0 <= i < |schemas| ==> NamedAmong(schemas[i], spaces)
    ensures Decided(AddFirst(schemas, n, types, annotate), spaces, schemas, n, types, annotate)
  {
    if n > 0 {
      FirstDecided(schemas, n - 1, spaces, types, annotate);
      FirstStep(schemas, n, types, annotate);
      var before, after := AddFirst(schemas, n - 1, types, annotate), AddFirst(schemas, n, types, annotate);
      NextDecided(before, after, spaces, schemas, n - 1, n, types, annotate);
    }
  }

  /** The bundle is built exactly when no two schemas of a namespace give different values for one name;
      otherwise the error names such a namespace and name. */
  lemma BuiltExactly(schemas: seq<Schema>, annotate: Annotation)
    requires WellNamed(schemas, annotate)
    ensures var r := AddFirst(schemas, |schemas|, Types(schemas), annotate);
      && (r.Ok? <==> forall ns, d :: !Disagree(schemas, |schemas|, ns, d, Types(schemas), annotate))
      && (r.Err? ==> r.error.Collision?)
      && (r.Err? ==> Disagree(schemas, |schemas|, r.error.ns, r.error.name, Types(schemas), annotate))
  {
    TypesCovered(schemas);
    forall i | 0 <= i < |schemas| ensures NamedAmong(schemas[i], Namespaces(schemas)) {
      assert Named(schemas[i], Namespaces(schemas));
    }
    FirstDecided(schemas, |schemas|, Namespaces(schemas), Types(schemas), annotate);
    if AddFirst(schemas, |schemas|, Types(schemas), annotate).Ok? {
      forall ns, d ensures !Disagree(schemas, |schemas|, ns, d, Types(schemas), annotate) {
        BuiltAgrees(schemas, annotate, ns, d);
      }
    }
  }

  lemma BuiltAgrees(schemas: seq<Schema>, annotate: Annotation, ns: string, d: string)
    requires WellNamed(schemas, annotate) && AddFirst(schemas, |schemas|, Types(schemas), annotate).Ok?
    ensures !Disagree(schemas, |schemas|, ns, d, Types(schemas), annotate)
  {
    if Disagree(schemas, |schemas|, ns, d, Types(schemas), annotate) {
      var v, w :| v != w
        && GivenInNamespace(schemas, |schemas|, ns, d, v, Types(schemas), annotate)
        && GivenInNamespace(schemas, |schemas|, ns, d, w, Types(schemas), annotate);
      NamespaceHolds(schemas, annotate, ns, d, v);
      NamespaceHolds(schemas, annotate, ns, d, w);
    }
  }
}
