/** What the bundle keeps of each schema: where its references go, and that a namespaced schema's
    references still lead to its own definitions. */
module BundleClosure {
  import opened SchemaJson
  import opened RefRewrites
  import opened Reachability
  import opened Bundle
  import opened Wrappers

  // ---- Resolution ----

  /** Follows a slash-separated path of field names. */
  function Navigate(v: Json, path: string): Option<Json>
    decreases |path|
  {
    HeadPrefix(path);
    var head := Head(path);
    if !v.Obj? || head !in v.fields then None
    else if |head| == |path| then Some(v.fields[head])
    else Navigate(v.fields[head], path[|head| + 1..])
  }

  /** What `#/definitions/…` refers to in a bundle with these definitions. */
  function Resolve(defs: Defs, r: string): Option<Json> {
    if HasPrefix(r, DEFS) then Navigate(Obj(defs), Suffix(r)) else None
  }

  predicate HasEntry(defs: Defs, ns: string, d: string) {
    ns in defs && defs[ns].Obj? && d in defs[ns].fields
  }

  lemma ResolveRoot(defs: Defs, name: string)
    requires Slashless(name)
    ensures Resolve(defs, DEFS + name) == if name in defs then Some(defs[name]) else None
  {
    SuffixOf(name);
    assert name == name + "";
    HeadOf(name, "");
  }

  lemma ResolveNamespaced(defs: Defs, ns: string, name: string)
    requires Slashless(ns) && Slashless(name) && HasEntry(defs, ns, name)
    ensures Resolve(defs, Target(ns, name)) == Some(defs[ns].fields[name])
  {
    var path := ns + "/" + name;
    SuffixOf(path);
    assert path == ns + ("/" + name);
    HeadOf(ns, "/" + name);
    assert Head(path) == ns && |ns| < |path|;
    assert path[|ns| + 1..] == name == name + "";
    HeadOf(name, "");
    assert Navigate(Obj(defs), path) == Navigate(defs[ns], name);
  }

  lemma NoNamespacePrefix(name: string, ns: string)
    requires Slashless(name)
    ensures !HasPrefix(name, ns + "/")
  {
    assert (ns + "/")[|ns|] == '/';
  }

  // ---- Conditions on the inputs ----

  ghost function Namespaces(schemas: seq<Schema>): set<string> {
    set i | 0 <= i < |schemas| && schemas[i].namespace.Some? :: schemas[i].namespace.value
  }

  ghost predicate KeepsRefs(annotate: Annotation) {
    forall d, v :: Refs(annotate(d, v)) == Refs(v)
  }

  /** Names: none is `$ref`, and an un-namespaced schema names nothing after a namespace. */
  ghost predicate Named(s: Schema, namespaces: set<string>) {
    && s.name != REF && REF !in LocalDefs(s.value)
    && match s.namespace
       case Some(ns) => Slashless(ns) && ns != REF
       case None =>
         && s.name !in namespaces
         && forall d :: d in LocalDefs(s.value) ==> d !in namespaces && Slashless(d)
  }

  ghost predicate WellNamed(schemas: seq<Schema>, annotate: Annotation) {
    && AllListed(schemas) && KeepsRefs(annotate)
    && (forall i :: 0 <= i < |schemas| ==> Named(schemas[i], Namespaces(schemas)))
  }

  /** A namespaced schema has no ignored, special or `$defs` definitions. */
  ghost predicate Plain(s: Schema) {
    s.namespace.Some? ==>
      s.name !in IGNORED && DollarDefs(s.value) == {} && forall d :: d in LocalDefs(s.value) ==> !Skipped(d)
  }

  /** A reference names, in one segment, a definition of its own schema or a recorded type. */
  ghost predicate Grounded(s: Schema, r: string, types: map<string, string>) {
    HasPrefix(r, DEFS) ==>
      var name := Suffix(r);
      && Slashless(name)
      && match s.namespace
         case Some(_) => name == s.name || name in LocalDefs(s.value)
         case None =>
           || name in types
           || (NamespaceFor(name, types).None? && (name == s.name || (name in LocalDefs(s.value) && !Skipped(name))))
  }

  ghost predicate Bundleable(schemas: seq<Schema>, annotate: Annotation) {
    && WellNamed(schemas, annotate) && (forall i :: 0 <= i < |schemas| ==> Plain(schemas[i]))
    && forall i, r :: 0 <= i < |schemas| && schemas[i].name !in IGNORED && r in Refs(schemas[i].value) ==>
         Grounded(schemas[i], r, Types(schemas))
  }

  // ---- One insertion ----

  /** Entries of namespaces in `spaces` are kept as they are, and no root name is lost. */
  ghost predicate Extends(defs: Defs, defs': Defs, spaces: set<string>) {
    && defs.Keys <= defs'.Keys
    && forall ns, d :: ns in spaces && HasEntry(defs, ns, d) ==>
         HasEntry(defs', ns, d) && defs'[ns].fields[d] == defs[ns].fields[d]
  }

  lemma ExtendsTransitive(a: Defs, b: Defs, c: Defs, spaces: set<string>)
    requires Extends(a, b, spaces) && Extends(b, c, spaces)
    ensures Extends(a, c, spaces)
  {
  }

  lemma RefsInsert(fields: map<string, Json>, k: string, v: Json)
    requires k != REF
    ensures Refs(Obj(fields[k := v])) <= Refs(Obj(fields)) + Refs(v)
  {
    var fields' := fields[k := v];
    assert OwnRef(fields') == OwnRef(fields);
    forall r | r in Refs(Obj(fields')) ensures r in Refs(Obj(fields)) + Refs(v) {
      if r !in OwnRef(fields') {
        var k' :| k' in fields' && r in Refs(fields'[k']);
        if k' != k {
          RefsOfField(fields, k');
        }
      }
    }
  }

  lemma InsertFacts(defs: Defs, ns: string, name: string, schema: Json, spaces: set<string>)
    requires InsertIntoNamespace(defs, ns, name, schema).Ok? && name != REF && ns != REF
    ensures var defs' := InsertIntoNamespace(defs, ns, name, schema).value;
      && HasEntry(defs', ns, name) && defs'[ns].fields[name] == schema
      && Extends(defs, defs', spaces)
      && Refs(Obj(defs')) <= Refs(Obj(defs)) + Refs(schema)
  {
    var entry := if ns in defs then defs[ns] else Obj(map[]);
    if name !in entry.fields {
      RefsInsert(entry.fields, name, schema);
      RefsInsert(defs, ns, Obj(entry.fields[name := schema]));
      if ns in defs {
        RefsOfField(defs, ns);
      }
    }
  }

  lemma RootInsertFacts(defs: Defs, name: string, schema: Json, spaces: set<string>)
    requires name != REF && name !in spaces
    ensures Extends(defs, defs[name := schema], spaces)
    ensures Refs(Obj(defs[name := schema])) <= Refs(Obj(defs)) + Refs(schema)
  {
    RefsInsert(defs, name, schema);
  }

  // ---- One schema ----

  /** The references of a schema after retargeting. */
  ghost function Targets(s: Schema, types: map<string, string>): set<string> {
    set r | r in Refs(s.value) :: Retarget(s, types, r)
  }

  /** A local definition of a namespaced schema as it is stored. */
  function Stored(s: Schema, d: string, types: map<string, string>, annotate: Annotation): Json
    requires s.namespace.Some? && d in LocalDefs(Prepared(s, types))
  {
    RewriteToNamespace(annotate(d, LocalDefs(Prepared(s, types))[d]), s.namespace.value)
  }

  lemma LocalRefs(s: Schema, d: string, types: map<string, string>)
    requires d in LocalDefs(Prepared(s, types))
    ensures Refs(LocalDefs(Prepared(s, types))[d]) <= Targets(s, types)
  {
    PreparedLocals(s, types);
    var v := Prepared(s, types);
    RefsOfField(v.fields["definitions"].fields, d);
    RefsOfField(v.fields, "definitions");
  }

  lemma BodyRefs(s: Schema, types: map<string, string>)
    ensures Refs(Body(s, types)) <= Targets(s, types)
  {
    PreparedLocals(s, types);
    var v := Prepared(s, types);
    if v.Obj? {
      var fields := v.fields - {"definitions"};
      assert OwnRef(fields) == OwnRef(v.fields);
      forall r | r in Refs(Obj(fields)) ensures r in Refs(v) {
        if r !in OwnRef(fields) {
          var k :| k in fields && r in Refs(fields[k]);
          RefsOfField(v.fields, k);
        }
      }
    }
  }

  lemma StoredRefs(s: Schema, d: string, types: map<string, string>, annotate: Annotation)
    requires s.namespace.Some? && d in LocalDefs(Prepared(s, types)) && KeepsRefs(annotate)
    ensures Refs(Stored(s, d, types, annotate)) <= Targets(s, types)
  {
    var ns := s.namespace.value;
    var def := annotate(d, LocalDefs(Prepared(s, types))[d]);
    LocalRefs(s, d, types);
    RefsOfRewrite(def, r => NamespaceRef(ns, r));
    forall r | r in Refs(def) ensures NamespaceRef(ns, r) == r {
      var r0 :| r0 in Refs(s.value) && Retarget(s, types, r0) == r;
      NamespaceRefIdempotent(ns, r0);
    }
  }

  /** What the first `n` local definitions of `s` leave behind. */
  ghost predicate LocalsAdded(defs: Defs, acc: Locals, s: Schema, n: nat, types: map<string, string>,
                              annotate: Annotation, spaces: set<string>)
    requires n <= |s.order|
  {
    && Extends(defs, acc.defs, spaces)
    && Refs(Obj(acc.defs)) <= Refs(Obj(defs)) + Targets(s, types)
    && (forall i :: 0 <= i < n && !Skipped(s.order[i]) ==> LocalAdded(acc.defs, s, s.order[i], types, annotate))
    && ForcedLocals(acc, s, types)
  }

  ghost predicate ForcedLocals(acc: Locals, s: Schema, types: map<string, string>) {
    && (forall i :: 0 <= i < |acc.forced| ==>
          acc.forced[i].0 in LocalDefs(s.value) && ForcedNamespace(s, acc.forced[i].0, types).Some?)
    && (s.namespace.Some? ==> acc.forced == [])
  }

  ghost predicate LocalAdded(defs: Defs, s: Schema, d: string, types: map<string, string>, annotate: Annotation) {
    match s.namespace
    case Some(ns) =>
      && d in LocalDefs(Prepared(s, types))
      && HasEntry(defs, ns, d) && defs[ns].fields[d] == Stored(s, d, types, annotate)
    case None => ForcedNamespace(s, d, types).None? ==> d in defs
  }

  lemma LocalStaysAdded(defs: Defs, defs': Defs, s: Schema, d: string, types: map<string, string>,
                        annotate: Annotation, spaces: set<string>)
    requires Extends(defs, defs', spaces) && (s.namespace.Some? ==> s.namespace.value in spaces)
    requires LocalAdded(defs, s, d, types, annotate)
    ensures LocalAdded(defs', s, d, types, annotate)
  {
  }

  lemma {:induction false} AddLocalsFacts(defs: Defs, s: Schema, n: nat, types: map<string, string>,
                                          annotate: Annotation, spaces: set<string>)
    requires Listed(s) && n <= |s.order| && Named(s, spaces) && KeepsRefs(annotate)
    requires s.namespace.Some? ==> s.namespace.value in spaces
    requires forall d :: d in s.order ==> d in LocalDefs(Prepared(s, types))
    requires AddLocals(defs, s, n, types, annotate).Ok?
    ensures LocalsAdded(defs, AddLocals(defs, s, n, types, annotate).value, s, n, types, annotate, spaces)
  {
    if n > 0 {
      AddLocalsFacts(defs, s, n - 1, types, annotate, spaces);
      var acc := AddLocals(defs, s, n - 1, types, annotate).value;
      var d := s.order[n - 1];
      assert d in s.order;
      if !Skipped(d) {
        AddLocalFacts(defs, acc, s, n, types, annotate, spaces);
      }
    }
  }

  /** The definitions after one more local, given what that local changed. */
  lemma LocalsExtended(defs: Defs, acc: Locals, acc': Locals, s: Schema, n: nat, types: map<string, string>,
                       annotate: Annotation, spaces: set<string>)
    requires 0 < n <= |s.order| && (s.namespace.Some? ==> s.namespace.value in spaces)
    requires LocalsAdded(defs, acc, s, n - 1, types, annotate, spaces)
    requires Extends(acc.defs, acc'.defs, spaces) && Refs(Obj(acc'.defs)) <= Refs(Obj(acc.defs)) + Targets(s, types)
    requires LocalAdded(acc'.defs, s, s.order[n - 1], types, annotate)
    requires ForcedLocals(acc', s, types)
    ensures LocalsAdded(defs, acc', s, n, types, annotate, spaces)
  {
    ExtendsTransitive(defs, acc.defs, acc'.defs, spaces);
    forall i | 0 <= i < n && !Skipped(s.order[i]) ensures LocalAdded(acc'.defs, s, s.order[i], types, annotate) {
      if i < n - 1 {
        LocalStaysAdded(acc.defs, acc'.defs, s, s.order[i], types, annotate, spaces);
      }
    }
  }

  lemma AddLocalFacts(defs: Defs, acc: Locals, s: Schema, n: nat, types: map<string, string>,
                      annotate: Annotation, spaces: set<string>)
    requires Listed(s) && 0 < n <= |s.order| && Named(s, spaces) && KeepsRefs(annotate)
    requires s.namespace.Some? ==> s.namespace.value in spaces
    requires forall d :: d in s.order ==> d in LocalDefs(Prepared(s, types))
    requires LocalsAdded(defs, acc, s, n - 1, types, annotate, spaces)
    requires s.order[n - 1] in s.order && s.order[n - 1] in LocalDefs(s.value)
    requires var name := s.order[n - 1];
      AddLocal(acc, s, name, annotate(name, LocalDefs(Prepared(s, types))[name]), types).Ok?
    ensures LocalsAdded(defs,
                        AddLocal(acc, s, s.order[n - 1],
                                 annotate(s.order[n - 1], LocalDefs(Prepared(s, types))[s.order[n - 1]]), types).value,
                        s, n, types, annotate, spaces)
  {
    var d := s.order[n - 1];
    var schema := annotate(d, LocalDefs(Prepared(s, types))[d]);
    var acc' := AddLocal(acc, s, d, schema, types).value;
    LocalRefs(s, d, types);
    match s.namespace {
      case Some(ns) =>
        InsertFacts(acc.defs, ns, d, RewriteToNamespace(schema, ns), spaces);
        StoredRefs(s, d, types, annotate);
      case None =>
        if ForcedNamespace(s, d, types).None? {
          RootInsertFacts(acc.defs, d, schema, spaces);
        }
    }
    LocalsExtended(defs, acc, acc', s, n, types, annotate, spaces);
  }

  // ---- The forced pass does nothing ----

  ghost predicate ForcedFirst(s: Schema, n: nat, types: map<string, string>, forced: seq<(string, string)>)
    requires n <= |s.order|
  {
    && (forall d, ns :: (d, ns) in forced <==>
          s.namespace.None? && d in s.order[..n] && !Skipped(d) && ForcedNamespace(s, d, types) == Some(ns))
    && forall i, j :: 0 <= i < j < |forced| ==> forced[i] != forced[j]
  }

  /** Forcing a name that is its own namespace sends a reference already in that namespace one level deeper. */
  lemma ForcedDeeper(name: string)
    ensures ApplyForced(RefTo(Target(name, name)), [(name, name)]) == RefTo(Target(name, name + "/" + name))
  {
    var r, forced := Target(name, name), [(name, name)];
    assert forced[..0] == [];
    assert DEFS + name + "/" <= r;
    assert Suffix(r) == name + "/" + name;
    assert RewriteNamed(RefTo(r), name, name).fields[REF] == Str(Target(name, name + "/" + name));
    assert RewriteNamed(RefTo(r), name, name) == RefTo(Target(name, name + "/" + name));
  }

  /** What is forced: each definition of an un-namespaced schema outside v1 that a namespace claims, once. */
  lemma {:induction false} ForcedExactly(defs: Defs, s: Schema, n: nat, types: map<string, string>,
                                         annotate: Annotation)
    requires n <= |s.order| && forall d :: d in s.order ==> d in LocalDefs(Prepared(s, types))
    requires AddLocals(defs, s, n, types, annotate).Ok?
    ensures ForcedFirst(s, n, types, AddLocals(defs, s, n, types, annotate).value.forced)
  {
    if n > 0 {
      ForcedExactly(defs, s, n - 1, types, annotate);
      var d := s.order[n - 1];
      assert d in s.order && s.order[..n] == s.order[..n - 1] + [d];
    }
  }

  /** Every recorded namespace is one of the schemas'. */
  ghost predicate Covered(types: map<string, string>, spaces: set<string>) {
    forall t :: t in types ==> types[t] in spaces && Slashless(types[t])
  }

  lemma NamedRefFixed(types: map<string, string>, ns: string, name: string, r: string, spaces: set<string>)
    requires Covered(types, spaces)
    requires Slashless(name) && name !in spaces && NamespaceFor(name, types).Some?
    ensures NamedRef(ns, name, KnownRef(types, r)) == KnownRef(types, r)
  {
    NamedAfterKnown(types, ns, name, r);
    if HasPrefix(r, DEFS) && NamespaceFor(Head(Suffix(r)), types).Some? {
      var n := NamespaceFor(Head(Suffix(r)), types).value;
      assert n in spaces && Slashless(n);
      HeadPrefix(n);
      assert Head(n) == n;
    }
  }

  lemma ForcedStep(s: Schema, types: map<string, string>, ns: string, name: string, spaces: set<string>)
    requires s.namespace.None? && Covered(types, spaces)
    requires Slashless(name) && name !in spaces && NamespaceFor(name, types).Some?
    ensures RewriteNamed(Body(s, types), ns, name) == Body(s, types)
  {
    BodyRefs(s, types);
    forall r | r in Refs(Body(s, types)) ensures NamedRef(ns, name, r) == r {
      var r0 :| r0 in Refs(s.value) && Retarget(s, types, r0) == r;
      NamedRefFixed(types, ns, name, r0, spaces);
    }
    RewriteIdentity(Body(s, types), r => NamedRef(ns, name, r));
  }

  lemma {:induction false} ForcedIdentity(s: Schema, types: map<string, string>, forced: seq<(string, string)>,
                                          spaces: set<string>)
    requires s.namespace.None? && Covered(types, spaces) && Named(s, spaces)
    requires forall i :: 0 <= i < |forced| ==>
      forced[i].0 in LocalDefs(s.value) && ForcedNamespace(s, forced[i].0, types).Some?
    ensures ApplyForced(Body(s, types), forced) == Body(s, types)
  {
    if |forced| > 0 {
      ForcedIdentity(s, types, forced[..|forced| - 1], spaces);
      ForcedStep(s, types, forced[|forced| - 1].1, forced[|forced| - 1].0, spaces);
    }
  }

  // ---- One schema, all schemas ----

  /** The schema itself is there; in a namespace, nothing else can be under its name. */
  predicate BodyAdded(defs: Defs, s: Schema, types: map<string, string>) {
    match s.namespace
    case Some(ns) => HasEntry(defs, ns, s.name) && defs[ns].fields[s.name] == Body(s, types)
    case None => s.name in defs
  }

  ghost predicate Added(defs: Defs, s: Schema, types: map<string, string>, annotate: Annotation) {
    s.name !in IGNORED ==>
      && BodyAdded(defs, s, types)
      && forall d :: d in LocalDefs(s.value) && !Skipped(d) ==> LocalAdded(defs, s, d, types, annotate)
  }

  /** The definitions after a schema's locals and its body, given what the body changed. */
  lemma SchemaExtended(defs: Defs, acc: Locals, defs': Defs, s: Schema, types: map<string, string>,
                       annotate: Annotation, spaces: set<string>)
    requires Listed(s) && s.name !in IGNORED && (s.namespace.Some? ==> s.namespace.value in spaces)
    requires LocalsAdded(defs, acc, s, |s.order|, types, annotate, spaces)
    requires Extends(acc.defs, defs', spaces) && Refs(Obj(defs')) <= Refs(Obj(acc.defs)) + Targets(s, types)
    requires BodyAdded(defs', s, types)
    ensures Extends(defs, defs', spaces) && Refs(Obj(defs')) <= Refs(Obj(defs)) + Targets(s, types)
    ensures Added(defs', s, types, annotate)
  {
    ExtendsTransitive(defs, acc.defs, defs', spaces);
    forall d | d in LocalDefs(s.value) && !Skipped(d) ensures LocalAdded(defs', s, d, types, annotate) {
      assert d in s.order;
      var i :| 0 <= i < |s.order| && s.order[i] == d;
      LocalStaysAdded(acc.defs, defs', s, d, types, annotate, spaces);
    }
  }

  lemma AddSchemaFacts(defs: Defs, s: Schema, types: map<string, string>, annotate: Annotation, spaces: set<string>)
    requires Listed(s) && Named(s, spaces) && KeepsRefs(annotate) && Covered(types, spaces)
    requires s.namespace.Some? ==> s.namespace.value in spaces
    requires AddSchema(defs, s, types, annotate).Ok?
    ensures var defs' := AddSchema(defs, s, types, annotate).value;
      && Extends(defs, defs', spaces)
      && Refs(Obj(defs')) <= Refs(Obj(defs)) + (if s.name in IGNORED then {} else Targets(s, types))
      && Added(defs', s, types, annotate)
  {
    PreparedLocals(s, types);
    if s.name !in IGNORED {
      AddLocalsFacts(defs, s, |s.order|, types, annotate, spaces);
      var acc := AddLocals(defs, s, |s.order|, types, annotate).value;
      var defs' := AddSchema(defs, s, types, annotate).value;
      var body := ApplyForced(Body(s, types), acc.forced);
      BodyRefs(s, types);
      match s.namespace {
        case Some(ns) =>
          InsertFacts(acc.defs, ns, s.name, body, spaces);
        case None =>
          ForcedIdentity(s, types, acc.forced, spaces);
          RootInsertFacts(acc.defs, s.name, body, spaces);
      }
      SchemaExtended(defs, acc, defs', s, types, annotate, spaces);
    }
  }

  lemma AddedStays(defs: Defs, defs': Defs, s: Schema, types: map<string, string>, annotate: Annotation,
                   spaces: set<string>)
    requires Extends(defs, defs', spaces) && (s.namespace.Some? ==> s.namespace.value in spaces)
    requires Added(defs, s, types, annotate)
    ensures Added(defs', s, types, annotate)
  {
    if s.name !in IGNORED {
      forall d | d in LocalDefs(s.value) && !Skipped(d) ensures LocalAdded(defs', s, d, types, annotate) {
        LocalStaysAdded(defs, defs', s, d, types, annotate, spaces);
      }
    }
  }

  /** Every reference in the definitions comes from one of the first `n` schemas. */
  ghost predicate FromSchemas(refs: set<string>, schemas: seq<Schema>, n: nat, types: map<string, string>)
    requires n <= |schemas|
  {
    forall r :: r in refs ==> exists i :: 0 <= i < n && schemas[i].name !in IGNORED && r in Targets(schemas[i], types)
  }

  /** One more schema, given what it changed. */
  lemma FirstExtended(defs: Defs, defs': Defs, schemas: seq<Schema>, n: nat, types: map<string, string>,
                      annotate: Annotation, spaces: set<string>)
    requires 0 < n <= |schemas| && Extends(defs, defs', spaces)
    requires forall i :: 0 <= i < n ==> (schemas[i].namespace.Some? ==> schemas[i].namespace.value in spaces)
    requires forall i :: 0 <= i < n - 1 ==> Added(defs, schemas[i], types, annotate)
    requires Added(defs', schemas[n - 1], types, annotate) && FromSchemas(Refs(Obj(defs)), schemas, n - 1, types)
    requires Refs(Obj(defs')) <= Refs(Obj(defs)) +
      (if schemas[n - 1].name in IGNORED then {} else Targets(schemas[n - 1], types))
    ensures forall i :: 0 <= i < n ==> Added(defs', schemas[i], types, annotate)
    ensures FromSchemas(Refs(Obj(defs')), schemas, n, types)
  {
    forall i | 0 <= i < n ensures Added(defs', schemas[i], types, annotate) {
      if i < n - 1 {
        AddedStays(defs, defs', schemas[i], types, annotate, spaces);
      }
    }
  }

  lemma {:induction false} AddFirstFacts(schemas: seq<Schema>, n: nat, types: map<string, string>,
                                         annotate: Annotation, spaces: set<string>)
    requires n <= |schemas| && AllListed(schemas) && KeepsRefs(annotate) && Covered(types, spaces)
    requires forall i :: 0 <= i < |schemas| ==>
      Named(schemas[i], spaces) && (schemas[i].namespace.Some? ==> schemas[i].namespace.value in spaces)
    requires AddFirst(schemas, n, types, annotate).Ok?
    ensures var defs := AddFirst(schemas, n, types, annotate).value;
      && (forall i :: 0 <= i < n ==> Added(defs, schemas[i], types, annotate))
      && FromSchemas(Refs(Obj(defs)), schemas, n, types)
  {
    if n > 0 {
      AddFirstFacts(schemas, n - 1, types, annotate, spaces);
      var before, after := AddFirst(schemas, n - 1, types, annotate), AddFirst(schemas, n, types, annotate);
      FirstThenOne(schemas, n - 1, types, annotate);
      assert Named(schemas[n - 1], spaces) && Listed(schemas[n - 1]);
      OneMoreFacts(before.value, after.value, schemas[n - 1], schemas, n, types, annotate, spaces);
    }
  }

  lemma OneMoreFacts(defs: Defs, defs': Defs, s: Schema, schemas: seq<Schema>, n: nat, types: map<string, string>,
                     annotate: Annotation, spaces: set<string>)
    requires 0 < n <= |schemas| && s == schemas[n - 1]
    requires Listed(s) && Named(s, spaces) && KeepsRefs(annotate) && Covered(types, spaces)
    requires forall i :: 0 <= i < n ==> (schemas[i].namespace.Some? ==> schemas[i].namespace.value in spaces)
    requires forall i :: 0 <= i < n - 1 ==> Added(defs, schemas[i], types, annotate)
    requires FromSchemas(Refs(Obj(defs)), schemas, n - 1, types)
    requires AddSchema(defs, s, types, annotate) == Ok(defs')
    ensures forall i :: 0 <= i < n ==> Added(defs', schemas[i], types, annotate)
    ensures FromSchemas(Refs(Obj(defs')), schemas, n, types)
  {
    AddSchemaFacts(defs, s, types, annotate, spaces);
    FirstExtended(defs, defs', schemas, n, types, annotate, spaces);
  }

  // ---- The type table points at entries that exist ----

  predicate HasIn(v: Json, k: string, t: string) {
    v.Obj? && k in v.fields && v.fields[k].Obj? && t in v.fields[k].fields
  }

  /** The schema's own name, or that of one of its `definitions` or `$defs`. */
  predicate NamesType(s: Schema, t: string) {
    t == s.name || HasIn(s.value, "definitions", t) || HasIn(s.value, "$defs", t)
  }

  lemma TypeNamesExactly(s: Schema, t: string)
    ensures t in TypeNames(s) <==> NamesType(s, t)
  {
  }

  /** `t` is recorded under the namespace of the first namespaced schema that names it. */
  ghost predicate FirstToName(schemas: seq<Schema>, i: nat, t: string) {
    && i < |schemas| && schemas[i].namespace.Some? && NamesType(schemas[i], t)
    && forall k :: 0 <= k < i && schemas[k].namespace.Some? ==> !NamesType(schemas[k], t)
  }

  lemma {:induction false} TypeNotNamed(schemas: seq<Schema>, n: nat, t: string)
    requires n <= |schemas| && t !in TypesOf(schemas, n)
    ensures forall k :: 0 <= k < n && schemas[k].namespace.Some? ==> !NamesType(schemas[k], t)
  {
    if n > 0 {
      TypeNamesExactly(schemas[n - 1], t);
      TypeNotNamed(schemas, n - 1, t);
    }
  }

  lemma NamedBefore(schemas: seq<Schema>, n: nat, t: string)
    requires 0 < n <= |schemas| && t in TypesOf(schemas, n - 1)
    ensures t in TypesOf(schemas, n) && TypesOf(schemas, n)[t] == TypesOf(schemas, n - 1)[t]
  {
  }

  lemma LastIsFirst(schemas: seq<Schema>, i: nat, t: string)
    requires i < |schemas| && schemas[i].namespace.Some? && NamesType(schemas[i], t)
    requires forall k :: 0 <= k < i && schemas[k].namespace.Some? ==> !NamesType(schemas[k], t)
    ensures FirstToName(schemas, i, t)
  {
  }

  lemma NamedLast(schemas: seq<Schema>, n: nat, t: string)
    requires 0 < n <= |schemas| && t in TypesOf(schemas, n) && t !in TypesOf(schemas, n - 1)
    ensures var s := schemas[n - 1]; s.namespace == Some(TypesOf(schemas, n)[t]) && NamesType(s, t)
  {
    TypeNamesExactly(schemas[n - 1], t);
  }

  /** The schema that first gave `t` its namespace. */
  lemma {:induction false} TypeOrigin(schemas: seq<Schema>, n: nat, t: string) returns (i: nat)
    requires n <= |schemas| && t in TypesOf(schemas, n)
    ensures i < n && schemas[i].namespace == Some(TypesOf(schemas, n)[t]) && FirstToName(schemas, i, t)
  {
    assert n > 0;
    var types, before := TypesOf(schemas, n), TypesOf(schemas, n - 1);
    if t in before {
      NamedBefore(schemas, n, t);
      assert types[t] == before[t];
      i := TypeOrigin(schemas, n - 1, t);
    } else {
      i := n - 1;
      LastOrigin(schemas, n, t);
    }
  }

  lemma LastOrigin(schemas: seq<Schema>, n: nat, t: string)
    requires 0 < n <= |schemas| && t in TypesOf(schemas, n) && t !in TypesOf(schemas, n - 1)
    ensures schemas[n - 1].namespace == Some(TypesOf(schemas, n)[t]) && FirstToName(schemas, n - 1, t)
  {
    TypeNotNamed(schemas, n - 1, t);
    NamedLast(schemas, n, t);
    LastIsFirst(schemas, n - 1, t);
  }

  /** The type table: a type is recorded exactly when some namespaced schema names it, and then under
      the namespace of the first that does. */
  lemma TypesAreFirstNamed(schemas: seq<Schema>, t: string)
    ensures t in Types(schemas) <==> exists i: nat :: FirstToName(schemas, i, t)
    ensures forall i: nat :: FirstToName(schemas, i, t) ==> Types(schemas)[t] == schemas[i].namespace.value
  {
    if t in Types(schemas) {
      var i := TypeOrigin(schemas, |schemas|, t);
      forall k: nat | FirstToName(schemas, k, t) ensures k == i {
      }
    } else {
      TypeNotNamed(schemas, |schemas|, t);
    }
  }

  lemma TypesCovered(schemas: seq<Schema>)
    requires forall i :: 0 <= i < |schemas| ==> Named(schemas[i], Namespaces(schemas))
    ensures Covered(Types(schemas), Namespaces(schemas))
  {
    forall t | t in Types(schemas)
      ensures Types(schemas)[t] in Namespaces(schemas) && Slashless(Types(schemas)[t])
    {
      var i := TypeOrigin(schemas, |schemas|, t);
    }
  }

  /** The reference names, in one segment, a root entry or, in two, an entry of a namespace. */
  ghost predicate Landed(defs: Defs, spaces: set<string>, r: string) {
    || (exists name :: r == DEFS + name && Slashless(name) && name in defs && name !in spaces)
    || (exists ns, name :: r == Target(ns, name) && ns in spaces && Slashless(ns) && Slashless(name)
         && HasEntry(defs, ns, name))
  }

  lemma LandedResolves(defs: Defs, spaces: set<string>, r: string)
    requires Landed(defs, spaces, r)
    ensures Resolve(defs, r).Some?
  {
    if name :| r == DEFS + name && Slashless(name) && name in defs && name !in spaces {
      ResolveRoot(defs, name);
    } else {
      var ns, name :| r == Target(ns, name) && ns in spaces && Slashless(ns) && Slashless(name)
        && HasEntry(defs, ns, name);
      ResolveNamespaced(defs, ns, name);
    }
  }

  lemma NamespacedLands(schemas: seq<Schema>, annotate: Annotation, defs: Defs, i: nat, name: string)
    requires i < |schemas| && schemas[i].namespace.Some? && Slashless(schemas[i].namespace.value) && Slashless(name)
    requires Plain(schemas[i]) && Added(defs, schemas[i], Types(schemas), annotate)
    requires name == schemas[i].name || name in LocalDefs(schemas[i].value)
    ensures Landed(defs, Namespaces(schemas), Target(schemas[i].namespace.value, name))
  {
    var ns := schemas[i].namespace.value;
    assert ns in Namespaces(schemas);
    assert name != schemas[i].name ==> LocalAdded(defs, schemas[i], name, Types(schemas), annotate);
    assert HasEntry(defs, ns, name);
  }

  lemma RecordedLands(schemas: seq<Schema>, annotate: Annotation, defs: Defs, name: string)
    requires Bundleable(schemas, annotate) && name in Types(schemas) && Slashless(name)
    requires forall j :: 0 <= j < |schemas| ==> Added(defs, schemas[j], Types(schemas), annotate)
    ensures Landed(defs, Namespaces(schemas), Target(Types(schemas)[name], name))
  {
    var j := TypeOrigin(schemas, |schemas|, name);
    assert Named(schemas[j], Namespaces(schemas)) && Plain(schemas[j]);
    NamespacedLands(schemas, annotate, defs, j, name);
  }

  /** The entries of the bundle that references lead to. */
  lemma RetargetLands(schemas: seq<Schema>, annotate: Annotation, defs: Defs, i: nat, r: string)
    requires Bundleable(schemas, annotate) && i < |schemas| && schemas[i].name !in IGNORED
    requires forall j :: 0 <= j < |schemas| ==> Added(defs, schemas[j], Types(schemas), annotate)
    requires r in Refs(schemas[i].value) && HasPrefix(Retarget(schemas[i], Types(schemas), r), DEFS)
    ensures Landed(defs, Namespaces(schemas), Retarget(schemas[i], Types(schemas), r))
  {
    var s, types := schemas[i], Types(schemas);
    assert Grounded(s, r, types) && Named(s, Namespaces(schemas)) && Plain(s);
    assert HasPrefix(r, DEFS);
    var name := Suffix(r);
    assert r == DEFS + name;
    match s.namespace {
      case Some(ns) =>
        NoNamespacePrefix(name, ns);
        NamespacedLands(schemas, annotate, defs, i, name);
      case None =>
        assert name == name + "";
        HeadOf(name, "");
        if name in types {
          RecordedLands(schemas, annotate, defs, name);
        } else {
          assert name != s.name ==> LocalAdded(defs, s, name, types, annotate);
        }
    }
  }

  lemma RootRefs(defs: Defs)
    ensures Refs(Root(defs)) == Refs(Obj(defs))
  {
    var fields := Root(defs).fields;
    assert OwnRef(fields) == {};
    RefsOfField(fields, "definitions");
    forall r | r in Refs(Root(defs)) ensures r in Refs(Obj(defs)) {
      var k :| k in fields && r in Refs(fields[k]);
    }
  }

  /** Meaning: in a built bundle, the reference a namespaced schema had to one of its own definitions
      leads to that very definition, annotated and with its references retargeted; another schema's
      definition of the same name can only be equal to it. */
  lemma NamespacedMeaningKept(schemas: seq<Schema>, annotate: Annotation, i: nat, d: string)
    requires WellNamed(schemas, annotate)
    requires AddFirst(schemas, |schemas|, Types(schemas), annotate).Ok?
    requires i < |schemas| && schemas[i].namespace.Some? && schemas[i].name !in IGNORED
    requires d in LocalDefs(schemas[i].value) && !Skipped(d) && Slashless(d)
    ensures var s := schemas[i];
      && d in LocalDefs(Prepared(s, Types(schemas)))
      && Resolve(AddFirst(schemas, |schemas|, Types(schemas), annotate).value,
           NamespaceRef(s.namespace.value, DEFS + d))
         == Some(Stored(s, d, Types(schemas), annotate))
  {
    var s, types := schemas[i], Types(schemas);
    var ns := s.namespace.value;
    var defs := AddFirst(schemas, |schemas|, types, annotate).value;
    TypesCovered(schemas);
    AddFirstFacts(schemas, |schemas|, types, annotate, Namespaces(schemas));
    assert Added(defs, s, types, annotate) && Named(s, Namespaces(schemas));
    assert LocalAdded(defs, s, d, types, annotate);
    SuffixOf(d);
    NoNamespacePrefix(d, ns);
    ResolveNamespaced(defs, ns, d);
  }

  /** The same for the schema itself: a reference to a namespaced schema's own name leads to that
      schema, without its definitions and with its references retargeted. */
  lemma NamespacedNameKept(schemas: seq<Schema>, annotate: Annotation, i: nat)
    requires WellNamed(schemas, annotate)
    requires AddFirst(schemas, |schemas|, Types(schemas), annotate).Ok?
    requires i < |schemas| && schemas[i].namespace.Some? && schemas[i].name !in IGNORED && Slashless(schemas[i].name)
    ensures var s, defs := schemas[i], AddFirst(schemas, |schemas|, Types(schemas), annotate).value;
      Resolve(defs, NamespaceRef(s.namespace.value, DEFS + s.name)) == Some(Body(s, Types(schemas)))
  {
    var s, types := schemas[i], Types(schemas);
    var ns := s.namespace.value;
    var defs := AddFirst(schemas, |schemas|, types, annotate).value;
    TypesCovered(schemas);
    AddFirstFacts(schemas, |schemas|, types, annotate, Namespaces(schemas));
    assert Added(defs, s, types, annotate) && Named(s, Namespaces(schemas));
    SuffixOf(s.name);
    NoNamespacePrefix(s.name, ns);
    ResolveNamespaced(defs, ns, s.name);
  }

  // ---- References inside a namespace stay inside it ----

  ghost predicate PointsInside(refs: set<string>, ns: string) {
    forall r :: r in refs && HasPrefix(r, DEFS) ==> HasPrefix(r, Target(ns, ""))
  }

  ghost predicate SelfContained(defs: Defs, spaces: set<string>) {
    forall ns :: ns in spaces && ns in defs ==> PointsInside(Refs(defs[ns]), ns)
  }

  lemma NamespacedTargets(s: Schema, types: map<string, string>)
    requires s.namespace.Some?
    ensures PointsInside(Targets(s, types), s.namespace.value)
  {
    var ns := s.namespace.value;
    forall r | r in Targets(s, types) && HasPrefix(r, DEFS) ensures HasPrefix(r, Target(ns, "")) {
      var r0 :| r0 in Refs(s.value) && NamespaceRef(ns, r0) == r;
      assert Target(ns, "") == DEFS + (ns + "/");
      if HasPrefix(r0, DEFS) {
        var suffix := Suffix(r);
        assert r == DEFS + suffix;
        PrefixUnder(DEFS, ns + "/", suffix);
        assert HasPrefix(suffix, ns + "/");
      }
    }
  }

  lemma InsertSelfContained(defs: Defs, ns: string, name: string, schema: Json, spaces: set<string>)
    requires InsertIntoNamespace(defs, ns, name, schema).Ok? && name != REF
    requires SelfContained(defs, spaces) && PointsInside(Refs(schema), ns)
    ensures SelfContained(InsertIntoNamespace(defs, ns, name, schema).value, spaces)
  {
    var entry := if ns in defs then defs[ns] else Obj(map[]);
    RefsInsert(entry.fields, name, schema);
  }

  lemma {:induction false} AddLocalsSelfContained(defs: Defs, s: Schema, n: nat, types: map<string, string>,
                                                  annotate: Annotation, spaces: set<string>)
    requires Listed(s) && n <= |s.order| && Named(s, spaces) && KeepsRefs(annotate)
    requires forall d :: d in s.order ==> d in LocalDefs(Prepared(s, types))
    requires AddLocals(defs, s, n, types, annotate).Ok? && SelfContained(defs, spaces)
    ensures SelfContained(AddLocals(defs, s, n, types, annotate).value.defs, spaces)
  {
    if n > 0 {
      AddLocalsSelfContained(defs, s, n - 1, types, annotate, spaces);
      var acc := AddLocals(defs, s, n - 1, types, annotate).value;
      var d := s.order[n - 1];
      assert d in s.order;
      if !Skipped(d) && s.namespace.Some? {
        StoredRefs(s, d, types, annotate);
        NamespacedTargets(s, types);
        InsertSelfContained(acc.defs, s.namespace.value, d, Stored(s, d, types, annotate), spaces);
      }
    }
  }

  lemma AddSchemaSelfContained(defs: Defs, s: Schema, types: map<string, string>, annotate: Annotation,
                               spaces: set<string>)
    requires Listed(s) && Named(s, spaces) && KeepsRefs(annotate)
    requires AddSchema(defs, s, types, annotate).Ok? && SelfContained(defs, spaces)
    requires s.namespace.Some? ==> s.namespace.value in spaces
    ensures SelfContained(AddSchema(defs, s, types, annotate).value, spaces)
  {
    PreparedLocals(s, types);
    if s.name !in IGNORED {
      AddLocalsSelfContained(defs, s, |s.order|, types, annotate, spaces);
      AddLocalsFacts(defs, s, |s.order|, types, annotate, spaces);
      var acc := AddLocals(defs, s, |s.order|, types, annotate).value;
      if s.namespace.Some? {
        BodyRefs(s, types);
        NamespacedTargets(s, types);
        InsertSelfContained(acc.defs, s.namespace.value, s.name, Body(s, types), spaces);
      }
    }
  }

  /** In a built bundle every reference inside a namespace points into that namespace. */
  lemma {:induction false} BundleSelfContained(schemas: seq<Schema>, n: nat, types: map<string, string>,
                                               annotate: Annotation, spaces: set<string>)
    requires n <= |schemas| && AllListed(schemas) && KeepsRefs(annotate)
    requires forall i :: 0 <= i < |schemas| ==>
      Named(schemas[i], spaces) && (schemas[i].namespace.Some? ==> schemas[i].namespace.value in spaces)
    requires AddFirst(schemas, n, types, annotate).Ok?
    ensures SelfContained(AddFirst(schemas, n, types, annotate).value, spaces)
  {
    if n > 0 {
      BundleSelfContained(schemas, n - 1, types, annotate, spaces);
      AddSchemaSelfContained(AddFirst(schemas, n - 1, types, annotate).value, schemas[n - 1], types, annotate, spaces);
    }
  }

  // ---- Root definitions: the last writer wins ----

  /** What an un-namespaced schema puts at the root under `x`. */
  function RootContribution(s: Schema, x: string, types: map<string, string>, annotate: Annotation): Option<Json>
    requires Listed(s)
  {
    PreparedLocals(s, types);
    if s.namespace.Some? || s.name in IGNORED then None
    else if x == s.name then Some(Body(s, types))
    else if x in LocalDefs(s.value) && !Skipped(x) && ForcedNamespace(s, x, types).None?
    then Some(annotate(x, LocalDefs(Prepared(s, types))[x]))
    else None
  }

  function LastContribution(schemas: seq<Schema>, n: nat, x: string, types: map<string, string>,
                            annotate: Annotation): Option<Json>
    requires n <= |schemas| && AllListed(schemas)
  {
    if n == 0 then None
    else match RootContribution(schemas[n - 1], x, types, annotate)
      case Some(v) => Some(v)
      case None => LastContribution(schemas, n - 1, x, types, annotate)
  }

  function RootEntry(defs: Defs, x: string): Option<Json> {
    if x in defs then Some(defs[x]) else None
  }

  lemma AddLocalRoot(acc: Locals, s: Schema, d: string, schema: Json, x: string, types: map<string, string>)
    requires s.namespace.Some? ==> x != s.namespace.value
    requires AddLocal(acc, s, d, schema, types).Ok?
    ensures RootEntry(AddLocal(acc, s, d, schema, types).value.defs, x) ==
            if s.namespace.None? && x == d && ForcedNamespace(s, x, types).None? then Some(schema)
            else RootEntry(acc.defs, x)
  {
  }

  lemma {:induction false} AddLocalsRoot(defs: Defs, s: Schema, n: nat, x: string, types: map<string, string>,
                                         annotate: Annotation)
    requires Listed(s) && n <= |s.order|
    requires forall d :: d in s.order ==> d in LocalDefs(Prepared(s, types))
    requires s.namespace.Some? ==> x != s.namespace.value
    requires AddLocals(defs, s, n, types, annotate).Ok?
    ensures RootEntry(AddLocals(defs, s, n, types, annotate).value.defs, x) ==
            if s.namespace.None? && x in s.order[..n] && !Skipped(x) && ForcedNamespace(s, x, types).None?
            then Some(annotate(x, LocalDefs(Prepared(s, types))[x])) else RootEntry(defs, x)
  {
    if n > 0 {
      AddLocalsRoot(defs, s, n - 1, x, types, annotate);
      assert s.order[..n] == s.order[..n - 1] + [s.order[n - 1]];
      var d := s.order[n - 1];
      assert d in s.order;
      if !Skipped(d) {
        AddLocalRoot(AddLocals(defs, s, n - 1, types, annotate).value, s, d,
                     annotate(d, LocalDefs(Prepared(s, types))[d]), x, types);
      }
    }
  }

  lemma ForcedBody(defs: Defs, s: Schema, types: map<string, string>, annotate: Annotation, spaces: set<string>)
    requires Listed(s) && Named(s, spaces) && KeepsRefs(annotate) && Covered(types, spaces) && s.namespace.None?
    requires forall d :: d in s.order ==> d in LocalDefs(Prepared(s, types))
    requires AddLocals(defs, s, |s.order|, types, annotate).Ok?
    ensures ApplyForced(Body(s, types), AddLocals(defs, s, |s.order|, types, annotate).value.forced) == Body(s, types)
  {
    AddLocalsFacts(defs, s, |s.order|, types, annotate, spaces);
    ForcedIdentity(s, types, AddLocals(defs, s, |s.order|, types, annotate).value.forced, spaces);
  }

  lemma InsertRoot(defs: Defs, ns: string, name: string, schema: Json, x: string)
    requires x != ns && InsertIntoNamespace(defs, ns, name, schema).Ok?
    ensures RootEntry(InsertIntoNamespace(defs, ns, name, schema).value, x) == RootEntry(defs, x)
  {
  }

  lemma RootSchemaRoot(defs: Defs, s: Schema, x: string, types: map<string, string>, annotate: Annotation,
                       spaces: set<string>)
    requires Listed(s) && Named(s, spaces) && KeepsRefs(annotate) && Covered(types, spaces)
    requires s.namespace.None? && s.name !in IGNORED && AddSchema(defs, s, types, annotate).Ok?
    ensures RootEntry(AddSchema(defs, s, types, annotate).value, x) ==
            match RootContribution(s, x, types, annotate) case Some(v) => Some(v) case None => RootEntry(defs, x)
  {
    PreparedLocals(s, types);
    AddLocalsRoot(defs, s, |s.order|, x, types, annotate);
    assert s.order[..|s.order|] == s.order;
    assert x in s.order <==> x in LocalDefs(s.value);
    ForcedBody(defs, s, types, annotate, spaces);
  }

  lemma NamespacedSchemaRoot(defs: Defs, s: Schema, x: string, types: map<string, string>, annotate: Annotation)
    requires Listed(s) && s.namespace.Some? && s.namespace.value != x && AddSchema(defs, s, types, annotate).Ok?
    ensures RootEntry(AddSchema(defs, s, types, annotate).value, x) == RootEntry(defs, x)
  {
    PreparedLocals(s, types);
    if s.name !in IGNORED {
      AddLocalsRoot(defs, s, |s.order|, x, types, annotate);
      var acc := AddLocals(defs, s, |s.order|, types, annotate).value;
      InsertRoot(acc.defs, s.namespace.value, s.name, ApplyForced(Body(s, types), acc.forced), x);
    }
  }

  lemma AddSchemaRoot(defs: Defs, s: Schema, x: string, types: map<string, string>, annotate: Annotation,
                      spaces: set<string>)
    requires Listed(s) && Named(s, spaces) && KeepsRefs(annotate) && Covered(types, spaces) && x !in spaces
    requires s.namespace.Some? ==> s.namespace.value in spaces
    requires AddSchema(defs, s, types, annotate).Ok?
    ensures RootEntry(AddSchema(defs, s, types, annotate).value, x) ==
            match RootContribution(s, x, types, annotate) case Some(v) => Some(v) case None => RootEntry(defs, x)
  {
    if s.namespace.Some? {
      NamespacedSchemaRoot(defs, s, x, types, annotate);
    } else if s.name !in IGNORED {
      RootSchemaRoot(defs, s, x, types, annotate, spaces);
    }
  }

  /** A root entry is what the last un-namespaced schema with that name put there: earlier ones are
      silently replaced, so an earlier schema's own definition is kept exactly when it equals the last. */
  lemma {:induction false} RootEntryIsLast(schemas: seq<Schema>, n: nat, x: string, annotate: Annotation)
    requires WellNamed(schemas, annotate) && n <= |schemas| && x !in Namespaces(schemas)
    requires AddFirst(schemas, n, Types(schemas), annotate).Ok?
    ensures RootEntry(AddFirst(schemas, n, Types(schemas), annotate).value, x)
         == LastContribution(schemas, n, x, Types(schemas), annotate)
  {
    if n > 0 {
      RootEntryIsLast(schemas, n - 1, x, annotate);
      TypesCovered(schemas);
      assert Named(schemas[n - 1], Namespaces(schemas));
      AddSchemaRoot(AddFirst(schemas, n - 1, Types(schemas), annotate).value, schemas[n - 1], x,
                    Types(schemas), annotate, Namespaces(schemas));
    }
  }
}
