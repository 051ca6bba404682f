/** Where the references of a built bundle lead: which of them land at all, and when the definition
    they land on is the one their own schema gave. */
module BundleMeaning {
  import opened SchemaJson
  import opened RefRewrites
  import opened Bundle
  import opened BundleClosure
  import opened Wrappers

  // ---- What each schema puts into a namespace ----

  /** The schema puts an entry called `d` into the namespace. */
  predicate Fills(s: Schema, ns: string, d: string) {
    s.namespace == Some(ns) && s.name !in IGNORED && (d == s.name || (d in LocalDefs(s.value) && !Skipped(d)))
  }

  lemma InsertEntry(defs: Defs, space: string, name: string, schema: Json, ns: string, d: string)
    requires InsertIntoNamespace(defs, space, name, schema).Ok?
    ensures HasEntry(InsertIntoNamespace(defs, space, name, schema).value, ns, d)
       <==> HasEntry(defs, ns, d) || (ns == space && d == name)
  {
  }

  lemma AddLocalEntry(acc: Locals, s: Schema, name: string, schema: Json, types: map<string, string>, ns: string,
                      d: string)
    requires AddLocal(acc, s, name, schema, types).Ok? && (s.namespace.None? ==> name != ns)
    ensures HasEntry(AddLocal(acc, s, name, schema, types).value.defs, ns, d)
       <==> HasEntry(acc.defs, ns, d) || (s.namespace == Some(ns) && d == name)
  {
    if s.namespace.Some? {
      InsertEntry(acc.defs, s.namespace.value, name, RewriteToNamespace(schema, s.namespace.value), ns, d);
    }
  }

  lemma {:induction false} AddLocalsEntry(defs: Defs, s: Schema, n: nat, types: map<string, string>,
                                          annotate: Annotation, ns: string, d: string)
    requires n <= |s.order| && (forall x :: x in s.order ==> x in LocalDefs(Prepared(s, types)))
    requires s.namespace.None? ==> ns !in s.order
    requires AddLocals(defs, s, n, types, annotate).Ok?
    ensures HasEntry(AddLocals(defs, s, n, types, annotate).value.defs, ns, d)
       <==> HasEntry(defs, ns, d) || (s.namespace == Some(ns) && d in s.order[..n] && !Skipped(d))
  {
    if n > 0 {
      AddLocalsEntry(defs, s, n - 1, types, annotate, ns, d);
      var name := s.order[n - 1];
      assert name in s.order && s.order[..n] == s.order[..n - 1] + [name];
      if !Skipped(name) {
        AddLocalEntry(AddLocals(defs, s, n - 1, types, annotate).value, s, name,
                      annotate(name, LocalDefs(Prepared(s, types))[name]), types, ns, d);
      }
    }
  }

  lemma AddSchemaEntry(defs: Defs, s: Schema, types: map<string, string>, annotate: Annotation, ns: string, d: string)
    requires Listed(s) && (s.namespace.None? ==> s.name != ns && ns !in LocalDefs(s.value))
    requires AddSchema(defs, s, types, annotate).Ok?
    ensures HasEntry(AddSchema(defs, s, types, annotate).value, ns, d) <==> HasEntry(defs, ns, d) || Fills(s, ns, d)
  {
    PreparedLocals(s, types);
    if s.name !in IGNORED {
      assert forall x :: x in s.order <==> x in LocalDefs(s.value);
      AddLocalsEntry(defs, s, |s.order|, types, annotate, ns, d);
      assert s.order[..|s.order|] == s.order;
      var acc := AddLocals(defs, s, |s.order|, types, annotate).value;
      if s.namespace.Some? {
        InsertEntry(acc.defs, s.namespace.value, s.name, ApplyForced(Body(s, types), acc.forced), ns, d);
      }
    }
  }

  ghost predicate FilledBy(schemas: seq<Schema>, n: nat, ns: string, d: string)
    requires n <= |schemas|
  {
    exists i :: 0 <= i < n && Fills(schemas[i], ns, d)
  }

  /** The entries of a namespace are exactly those its schemas put there. */
  lemma {:induction false} EntriesExactly(schemas: seq<Schema>, n: nat, types: map<string, string>,
                                          annotate: Annotation, ns: string, d: string)
    requires n <= |schemas| && AllListed(schemas) && ns in Namespaces(schemas)
    requires forall i :: 0 <= i < |schemas| ==> Named(schemas[i], Namespaces(schemas))
    requires AddFirst(schemas, n, types, annotate).Ok?
    ensures HasEntry(AddFirst(schemas, n, types, annotate).value, ns, d) <==> FilledBy(schemas, n, ns, d)
  {
    if n > 0 {
      EntriesExactly(schemas, n - 1, types, annotate, ns, d);
      var s := schemas[n - 1];
      assert Named(s, Namespaces(schemas));
      FirstThenOne(schemas, n - 1, types, annotate);
      AddSchemaEntry(AddFirst(schemas, n - 1, types, annotate).value, s, types, annotate, ns, d);
      assert FilledBy(schemas, n, ns, d) <==> FilledBy(schemas, n - 1, ns, d) || Fills(s, ns, d);
    }
  }

  // ---- Which references land ----

  ghost predicate GivenAtRoot(schemas: seq<Schema>, n: nat, x: string, annotate: Annotation)
    requires n <= |schemas| && AllListed(schemas)
  {
    exists i :: 0 <= i < n && RootContribution(schemas[i], x, Types(schemas), annotate).Some?
  }

  lemma {:induction false} SomeContribution(schemas: seq<Schema>, n: nat, x: string, annotate: Annotation)
    requires n <= |schemas| && AllListed(schemas)
    ensures LastContribution(schemas, n, x, Types(schemas), annotate).Some? <==> GivenAtRoot(schemas, n, x, annotate)
  {
    if n > 0 {
      SomeContribution(schemas, n - 1, x, annotate);
    }
  }

  /** Some schema gives what the reference names: at the root in one segment, in a namespace in two. */
  ghost predicate Served(schemas: seq<Schema>, annotate: Annotation, r: string)
    requires AllListed(schemas)
  {
    || (exists name :: r == DEFS + name && Slashless(name) && name !in Namespaces(schemas)
                       && GivenAtRoot(schemas, |schemas|, name, annotate))
    || (exists ns, name :: r == Target(ns, name) && ns in Namespaces(schemas) && Slashless(ns) && Slashless(name)
                           && FilledBy(schemas, |schemas|, ns, name))
  }

  /** A reference lands on an entry of the built bundle exactly when some schema serves it. */
  lemma LandsExactly(schemas: seq<Schema>, annotate: Annotation, r: string)
    requires WellNamed(schemas, annotate)
    requires AddFirst(schemas, |schemas|, Types(schemas), annotate).Ok?
    ensures Landed(AddFirst(schemas, |schemas|, Types(schemas), annotate).value, Namespaces(schemas), r)
       <==> Served(schemas, annotate, r)
  {
    var defs := AddFirst(schemas, |schemas|, Types(schemas), annotate).value;
    forall name | name !in Namespaces(schemas)
      ensures name in defs <==> GivenAtRoot(schemas, |schemas|, name, annotate)
    {
      RootEntryIsLast(schemas, |schemas|, name, annotate);
      SomeContribution(schemas, |schemas|, name, annotate);
    }
    forall ns, name | ns in Namespaces(schemas)
      ensures HasEntry(defs, ns, name) <==> FilledBy(schemas, |schemas|, ns, name)
    {
      EntriesExactly(schemas, |schemas|, Types(schemas), annotate, ns, name);
    }
  }

  /** Every local reference of every schema, once retargeted, is served. */
  ghost predicate AllServed(schemas: seq<Schema>, annotate: Annotation)
    requires AllListed(schemas)
  {
    forall i, r | 0 <= i < |schemas| && schemas[i].name !in IGNORED && r in Targets(schemas[i], Types(schemas)) ::
      HasPrefix(r, DEFS) ==> Served(schemas, annotate, r)
  }

  /** The bundle is closed whenever every reference the schemas bring is served, by whichever of them. */
  lemma BundleClosed(schemas: seq<Schema>, annotate: Annotation)
    requires WellNamed(schemas, annotate) && AllServed(schemas, annotate)
    requires AddFirst(schemas, |schemas|, Types(schemas), annotate).Ok?
    ensures var defs := AddFirst(schemas, |schemas|, Types(schemas), annotate).value;
      forall r :: r in Refs(Root(defs)) && HasPrefix(r, DEFS) ==>
        Landed(defs, Namespaces(schemas), r) && Resolve(defs, r).Some?
  {
    var types := Types(schemas);
    var defs := AddFirst(schemas, |schemas|, types, annotate).value;
    TypesCovered(schemas);
    AddFirstFacts(schemas, |schemas|, types, annotate, Namespaces(schemas));
    RootRefs(defs);
    forall r | r in Refs(Root(defs)) && HasPrefix(r, DEFS)
      ensures Landed(defs, Namespaces(schemas), r) && Resolve(defs, r).Some?
    {
      var i :| 0 <= i < |schemas| && schemas[i].name !in IGNORED && r in Targets(schemas[i], types);
      LandsExactly(schemas, annotate, r);
      LandedResolves(defs, Namespaces(schemas), r);
    }
  }

  /** Schemas as the generator writes them are served. */
  lemma BundleableServed(schemas: seq<Schema>, annotate: Annotation)
    requires Bundleable(schemas, annotate)
    requires AddFirst(schemas, |schemas|, Types(schemas), annotate).Ok?
    ensures AllServed(schemas, annotate)
  {
    var types := Types(schemas);
    var defs := AddFirst(schemas, |schemas|, types, annotate).value;
    TypesCovered(schemas);
    AddFirstFacts(schemas, |schemas|, types, annotate, Namespaces(schemas));
    forall i, r | 0 <= i < |schemas| && schemas[i].name !in IGNORED && r in Targets(schemas[i], types)
      && HasPrefix(r, DEFS)
      ensures Served(schemas, annotate, r)
    {
      var r0 :| r0 in Refs(schemas[i].value) && Retarget(schemas[i], types, r0) == r;
      RetargetLands(schemas, annotate, defs, i, r0);
      LandsExactly(schemas, annotate, r);
    }
  }

  // ---- When a schema's own root definition is kept ----

  /** A reference to a root definition leads to what a schema gave under that name exactly when that is
      what the last schema to give one gave. */
  lemma OwnRootDefinitionKept(schemas: seq<Schema>, annotate: Annotation, i: nat, x: string)
    requires WellNamed(schemas, annotate) && i < |schemas| && Slashless(x) && x !in Namespaces(schemas)
    requires RootContribution(schemas[i], x, Types(schemas), annotate).Some?
    requires AddFirst(schemas, |schemas|, Types(schemas), annotate).Ok?
    ensures var own := RootContribution(schemas[i], x, Types(schemas), annotate);
      Resolve(AddFirst(schemas, |schemas|, Types(schemas), annotate).value, DEFS + x) == own
      <==> LastContribution(schemas, |schemas|, x, Types(schemas), annotate) == own
  {
    var defs := AddFirst(schemas, |schemas|, Types(schemas), annotate).value;
    RootEntryIsLast(schemas, |schemas|, x, annotate);
    ResolveRoot(defs, x);
  }

  // ---- When a local definition gives way to a recorded type ----

  /** The definition as the un-namespaced schema gave it. */
  function OwnLocal(s: Schema, d: string, types: map<string, string>, annotate: Annotation): Json
    requires d in LocalDefs(s.value)
  {
    PreparedLocals(s, types);
    annotate(d, LocalDefs(Prepared(s, types))[d])
  }

  /** What a namespaced schema puts under `d`: itself under its own name, else its local definition. */
  function Recorded(s: Schema, d: string, types: map<string, string>, annotate: Annotation): Json
    requires s.namespace.Some? && (d == s.name || d in LocalDefs(s.value))
  {
    PreparedLocals(s, types);
    if d == s.name then Body(s, types) else Stored(s, d, types, annotate)
  }

  /** An entry of a namespace is what any schema that fills it put there. */
  lemma EntryMeans(schemas: seq<Schema>, annotate: Annotation, j: nat, ns: string, d: string)
    requires WellNamed(schemas, annotate) && j < |schemas| && Fills(schemas[j], ns, d) && Slashless(d)
    requires AddFirst(schemas, |schemas|, Types(schemas), annotate).Ok?
    ensures Resolve(AddFirst(schemas, |schemas|, Types(schemas), annotate).value, Target(ns, d))
         == Some(Recorded(schemas[j], d, Types(schemas), annotate))
  {
    if d == schemas[j].name {
      NamespacedNameKept(schemas, annotate, j);
    } else {
      NamespacedMeaningKept(schemas, annotate, j, d);
    }
    SuffixOf(d);
    NoNamespacePrefix(d, ns);
  }

  lemma KnownRefOfType(types: map<string, string>, d: string)
    requires Slashless(d) && d in types
    ensures KnownRef(types, DEFS + d) == Target(types[d], d)
  {
    SuffixOf(d);
    assert d == d + "";
    HeadOf(d, "");
  }

  /** An un-namespaced schema's reference to a recorded type leads to what the schema that first
      recorded it put there: that schema itself, or its local definition. */
  lemma RecordedTypeLands(schemas: seq<Schema>, annotate: Annotation, i: nat, j: nat, d: string)
    requires WellNamed(schemas, annotate) && i < |schemas| && schemas[i].namespace.None? && Slashless(d)
    requires FirstToName(schemas, j, d) && Fills(schemas[j], schemas[j].namespace.value, d)
    requires AddFirst(schemas, |schemas|, Types(schemas), annotate).Ok?
    ensures var types, defs := Types(schemas), AddFirst(schemas, |schemas|, Types(schemas), annotate).value;
      Resolve(defs, Retarget(schemas[i], types, DEFS + d)) == Some(Recorded(schemas[j], d, types, annotate))
  {
    TypesAreFirstNamed(schemas, d);
    KnownRefOfType(Types(schemas), d);
    EntryMeans(schemas, annotate, j, schemas[j].namespace.value, d);
  }

  /** That holds whatever the schema's own definition of the type says: the reference leads to its own
      exactly when the two are equal. Outside v1 its own is not kept at all. */
  lemma RecordedTypeTakesOver(schemas: seq<Schema>, annotate: Annotation, i: nat, j: nat, d: string)
    requires WellNamed(schemas, annotate) && i < |schemas|
    requires schemas[i].namespace.None? && d in LocalDefs(schemas[i].value)
    requires FirstToName(schemas, j, d) && Fills(schemas[j], schemas[j].namespace.value, d)
    requires AddFirst(schemas, |schemas|, Types(schemas), annotate).Ok?
    ensures var types, defs := Types(schemas), AddFirst(schemas, |schemas|, Types(schemas), annotate).value;
      var landed := Resolve(defs, Retarget(schemas[i], types, DEFS + d));
      && landed == Some(Recorded(schemas[j], d, types, annotate))
      && (landed == Some(OwnLocal(schemas[i], d, types, annotate))
          <==> Recorded(schemas[j], d, types, annotate) == OwnLocal(schemas[i], d, types, annotate))
      && (!schemas[i].inV1 && d != schemas[i].name ==> RootContribution(schemas[i], d, types, annotate) == None)
  {
    assert Named(schemas[i], Namespaces(schemas));
    TypesAreFirstNamed(schemas, d);
    RecordedTypeLands(schemas, annotate, i, j, d);
  }

  // ---- When a reference dangles ----

  lemma MissingEntry(defs: Defs, ns: string, d: string)
    requires Slashless(ns) && Slashless(d) && !HasEntry(defs, ns, d)
    ensures Resolve(defs, Target(ns, d)) == None
  {
    var path := ns + "/" + d;
    SuffixOf(path);
    assert path == ns + ("/" + d);
    HeadOf(ns, "/" + d);
    assert Head(path) == ns && |ns| < |path|;
    assert path[|ns| + 1..] == d == d + "";
    HeadOf(d, "");
    if ns in defs {
      assert Navigate(Obj(defs), path) == Navigate(defs[ns], d);
    }
  }

  lemma KnownRefOfName(types: map<string, string>, d: string)
    requires Slashless(d) && NamespaceFor(d, types).Some?
    ensures KnownRef(types, DEFS + d) == Target(NamespaceFor(d, types).value, d)
  {
    SuffixOf(d);
    assert d == d + "";
    HeadOf(d, "");
  }

  /** An un-namespaced schema's reference to a name that a namespace claims, by the name itself or by
      the name without its trailing digits, resolves exactly when some schema fills that entry. */
  lemma ClaimedNameResolves(schemas: seq<Schema>, annotate: Annotation, i: nat, d: string)
    requires WellNamed(schemas, annotate) && i < |schemas| && schemas[i].namespace.None? && Slashless(d)
    requires NamespaceFor(d, Types(schemas)).Some?
    requires AddFirst(schemas, |schemas|, Types(schemas), annotate).Ok?
    ensures var defs := AddFirst(schemas, |schemas|, Types(schemas), annotate).value;
      Resolve(defs, Retarget(schemas[i], Types(schemas), DEFS + d)).Some?
      <==> FilledBy(schemas, |schemas|, NamespaceFor(d, Types(schemas)).value, d)
  {
    var types, defs := Types(schemas), AddFirst(schemas, |schemas|, Types(schemas), annotate).value;
    var ns := NamespaceFor(d, types).value;
    KnownRefOfName(types, d);
    TypesCovered(schemas);
    EntriesExactly(schemas, |schemas|, types, annotate, ns, d);
    if HasEntry(defs, ns, d) {
      ResolveNamespaced(defs, ns, d);
    } else {
      MissingEntry(defs, ns, d);
    }
  }

  // ---- Two silent losses, at concrete schemas ----

  function Unchanged(): Annotation {
    (d: string, v: Json) => v
  }

  /** A schema with one definition, whose value is just the text. */
  function Holding(namespace: Option<string>, name: string, d: string, text: string): Schema {
    Schema(namespace, name, Obj(map["definitions" := Obj(map[d := Str(text)])]), false, [d])
  }

  lemma HoldingFacts(namespace: Option<string>, name: string, d: string, text: string, types: map<string, string>)
    requires d != REF
    ensures var s := Holding(namespace, name, d, text);
      && Listed(s) && DollarDefs(s.value) == {}
      && LocalDefs(s.value) == LocalDefs(Prepared(s, types)) == map[d := Str(text)]
  {
    var s := Holding(namespace, name, d, text);
    assert (set x | x in s.order) == {d};
    var inner := Obj(map[d := Str(text)]);
    assert Refs(inner) == {};
    assert s.value.fields["definitions"] == inner;
    assert Refs(s.value) == {};
    RewriteIdentity(s.value, Retargeting(s, types));
  }

  lemma {:induction false} RootLocalsOk(defs: Defs, s: Schema, n: nat, types: map<string, string>, annotate: Annotation)
    requires n <= |s.order| && (forall d :: d in s.order ==> d in LocalDefs(Prepared(s, types))) && s.namespace.None?
    ensures AddLocals(defs, s, n, types, annotate).Ok?
  {
    if n > 0 {
      RootLocalsOk(defs, s, n - 1, types, annotate);
      assert s.order[n - 1] in s.order;
    }
  }

  /** Adding an un-namespaced schema cannot fail. */
  lemma RootSchemaOk(defs: Defs, s: Schema, types: map<string, string>, annotate: Annotation)
    requires Listed(s) && s.namespace.None?
    ensures AddSchema(defs, s, types, annotate).Ok?
  {
    PreparedLocals(s, types);
    RootLocalsOk(defs, s, |s.order|, types, annotate);
  }

  lemma PairBuilt(a: Schema, b: Schema, types: map<string, string>, annotate: Annotation)
    requires Listed(a) && Listed(b) && b.namespace.None? && AddSchema(map[], a, types, annotate).Ok?
    ensures AllListed([a, b]) && AddFirst([a, b], 2, types, annotate).Ok?
  {
    assert AddFirst([a, b], 0, types, annotate) == Ok(map[]);
    FirstThenOne([a, b], 0, types, annotate);
    RootSchemaOk(AddFirst([a, b], 1, types, annotate).value, b, types, annotate);
    FirstThenOne([a, b], 1, types, annotate);
  }

  /** Of two un-namespaced schemas that give one name, the second is heard. */
  lemma SecondIsHeard(a: Schema, b: Schema, x: string, annotate: Annotation)
    requires WellNamed([a, b], annotate) && a.namespace.None? && b.namespace.None? && Slashless(x)
    requires RootContribution(b, x, Types([a, b]), annotate).Some?
    ensures AddFirst([a, b], 2, Types([a, b]), annotate).Ok?
    ensures Resolve(AddFirst([a, b], 2, Types([a, b]), annotate).value, DEFS + x)
         == RootContribution(b, x, Types([a, b]), annotate)
  {
    var types := Types([a, b]);
    assert [a, b][0] == a && [a, b][1] == b;
    RootSchemaOk(map[], a, types, annotate);
    PairBuilt(a, b, types, annotate);
    assert Namespaces([a, b]) == {};
    RootEntryIsLast([a, b], 2, x, annotate);
    ResolveRoot(AddFirst([a, b], 2, types, annotate).value, x);
  }

  lemma HoldingGives(name: string, text: string, types: map<string, string>)
    requires name !in IGNORED && name != "X" && "X" !in types
    ensures Listed(Holding(None, name, "X", text))
    ensures RootContribution(Holding(None, name, "X", text), "X", types, Unchanged()) == Some(Str(text))
  {
    HoldingFacts(None, name, "X", text, types);
    assert NamespaceFor("X", types) == None;
  }

  lemma HoldingNamed(namespace: Option<string>, name: string, text: string, spaces: set<string>)
    requires (namespace == None || namespace == Some("v2")) && spaces <= {"v2"} && |name| == 1
    ensures Named(Holding(namespace, name, "X", text), spaces)
  {
    HoldingFacts(namespace, name, "X", text, map[]);
    assert forall x :: x in spaces ==> |x| == 2;
  }

  lemma PairNamed(a: Schema, b: Schema, annotate: Annotation)
    requires Listed(a) && Listed(b) && KeepsRefs(annotate)
    requires Named(a, Namespaces([a, b])) && Named(b, Namespaces([a, b]))
    ensures WellNamed([a, b], annotate)
  {
  }

  lemma PairNamespaces(a: Schema, b: Schema)
    requires (a.namespace == None || a.namespace == Some("v2")) && b.namespace == None
    ensures Namespaces([a, b]) <= {"v2"}
  {
  }

  lemma HoldingPairNamed(a: Schema, b: Schema, namespace: Option<string>)
    requires a == Holding(namespace, "A", "X", "a") && b == Holding(None, "B", "X", "b")
    requires namespace == None || namespace == Some("v2")
    ensures WellNamed([a, b], Unchanged())
  {
    PairNamespaces(a, b);
    HoldingNamed(namespace, "A", "a", Namespaces([a, b]));
    HoldingNamed(None, "B", "b", Namespaces([a, b]));
    HoldingFacts(namespace, "A", "X", "a", map[]);
    HoldingFacts(None, "B", "X", "b", map[]);
    PairNamed(a, b, Unchanged());
  }

  /** Two un-namespaced schemas define `X` differently: the bundle is built all the same, and the first
      one's reference leads to the second one's definition. */
  lemma RootDefinitionReplaced(a: Schema, b: Schema)
    requires a == Holding(None, "A", "X", "a") && b == Holding(None, "B", "X", "b")
    ensures WellNamed([a, b], Unchanged()) && AddFirst([a, b], 2, Types([a, b]), Unchanged()).Ok?
    ensures RootContribution(a, "X", Types([a, b]), Unchanged()) == Some(Str("a"))
    ensures Resolve(AddFirst([a, b], 2, Types([a, b]), Unchanged()).value, DEFS + "X") == Some(Str("b"))
  {
    HoldingPairNamed(a, b, None);
    TypesAreFirstNamed([a, b], "X");
    HoldingGives("A", "a", Types([a, b]));
    HoldingGives("B", "b", Types([a, b]));
    SecondIsHeard(a, b, "X", Unchanged());
  }

  lemma NamespacedHoldingOk(s: Schema, types: map<string, string>)
    requires s == Holding(Some("v2"), "A", "X", "a")
    ensures Listed(s) && AddSchema(map[], s, types, Unchanged()).Ok?
  {
    HoldingFacts(Some("v2"), "A", "X", "a", types);
    var one := AddLocals(map[], s, 1, types, Unchanged());
    assert AddLocals(map[], s, 0, types, Unchanged()) == Ok(Locals(map[], []));
    assert one.Ok? && one.value.defs == map["v2" := Obj(map["X" := Str("a")])];
  }

  /** Of a namespaced schema and a later un-namespaced one that both define `d`, the first is heard. */
  lemma FirstIsHeard(a: Schema, b: Schema, d: string, annotate: Annotation)
    requires Listed(a) && Listed(b) && WellNamed([a, b], annotate)
    requires a.namespace.Some? && b.namespace.None? && a.name !in IGNORED && !Skipped(d)
    requires d in LocalDefs(a.value) && d in LocalDefs(b.value) && AddSchema(map[], a, Types([a, b]), annotate).Ok?
    ensures AddFirst([a, b], 2, Types([a, b]), annotate).Ok?
    ensures Resolve(AddFirst([a, b], 2, Types([a, b]), annotate).value, Retarget(b, Types([a, b]), DEFS + d))
         == Some(Recorded(a, d, Types([a, b]), annotate))
  {
    assert [a, b][0] == a && [a, b][1] == b;
    PairBuilt(a, b, Types([a, b]), annotate);
    assert FirstToName([a, b], 0, d);
    RecordedTypeTakesOver([a, b], annotate, 1, 0, d);
  }

  /** A namespaced schema records `X`, an un-namespaced one defines it differently: the bundle is built
      all the same, and the second one's reference leads to the first one's definition. */
  lemma LocalDefinitionDropped(a: Schema, b: Schema)
    requires a == Holding(Some("v2"), "A", "X", "a") && b == Holding(None, "B", "X", "b")
    ensures WellNamed([a, b], Unchanged()) && AddFirst([a, b], 2, Types([a, b]), Unchanged()).Ok?
    ensures LocalDefs(b.value) == map["X" := Str("b")]
    ensures Resolve(AddFirst([a, b], 2, Types([a, b]), Unchanged()).value, Retarget(b, Types([a, b]), DEFS + "X")) ==
      Some(Str("a"))
  {
    HoldingPairNamed(a, b, Some("v2"));
    HoldingFacts(Some("v2"), "A", "X", "a", Types([a, b]));
    HoldingFacts(None, "B", "X", "b", Types([a, b]));
    NamespacedHoldingOk(a, Types([a, b]));
    FirstIsHeard(a, b, "X", Unchanged());
    assert RewriteToNamespace(Str("a"), "v2") == Str("a");
  }

  /** A namespaced schema with no definitions, and an un-namespaced one that defines `X2` and refers to it. */
  const NAMED_X := Schema(Some("v2"), "X", Obj(map[]), false, [])
  const USES_X2 :=
    Schema(None, "B", Obj(map[REF := Str(DEFS + "X2"), "definitions" := Obj(map["X2" := Str("b")])]), false, ["X2"])

  lemma NamedXFacts(types: map<string, string>)
    ensures Listed(NAMED_X) && TypeNames(NAMED_X) == {"X"} && AddSchema(map[], NAMED_X, types, Unchanged()).Ok?
  {
    var none: seq<string> := [];
    assert (set x | x in none) == {};
    PreparedLocals(NAMED_X, types);
    assert AddLocals(map[], NAMED_X, 0, types, Unchanged()) == Ok(Locals(map[], []));
  }

  lemma UsesX2Facts(types: map<string, string>)
    requires NamespaceFor("X2", types) == Some("v2")
    ensures Listed(USES_X2) && LocalDefs(USES_X2.value).Keys == {"X2"}
    ensures RootContribution(USES_X2, "B", types, Unchanged()) == Some(Body(USES_X2, types))
    ensures Target("v2", "X2") in Refs(Body(USES_X2, types))
  {
    assert (set x | x in USES_X2.order) == {"X2"};
    KnownRefOfName(types, "X2");
    var body := Body(USES_X2, types);
    assert body.fields[REF] == Str(Target("v2", "X2"));
  }

  lemma UsesX2Claimed(types: map<string, string>)
    requires types.Keys == {"X"} && types["X"] == "v2"
    ensures NamespaceFor("X2", types) == Some("v2")
  {
    assert "X2"[..1] == "X" && TrimDigits("X") == "X" && TrimDigits("X2") == "X";
    assert |"X2"| == 2 && |"X"| == 1;
  }

  lemma NamedXNamed(spaces: set<string>)
    ensures Named(NAMED_X, spaces)
  {
    assert LocalDefs(NAMED_X.value) == map[];
    assert REF[0] == '$' && "v2"[0] == 'v' && "X"[0] == 'X';
  }

  lemma UsesX2NamedIn(spaces: set<string>)
    requires spaces <= {"v2"} && LocalDefs(USES_X2.value).Keys == {"X2"}
    ensures Named(USES_X2, spaces)
  {
    assert REF[0] == '$' && "v2"[0] == 'v' && "X2"[0] == 'X' && "B"[0] == 'B';
    assert Slashless("X2");
  }

  lemma UsesX2Named()
    ensures WellNamed([NAMED_X, USES_X2], Unchanged())
  {
    NamedXFacts(map[]);
    UsesX2Facts(map["X2" := "v2"]);
    PairNamespaces(NAMED_X, USES_X2);
    NamedXNamed(Namespaces([NAMED_X, USES_X2]));
    UsesX2NamedIn(Namespaces([NAMED_X, USES_X2]));
    PairNamed(NAMED_X, USES_X2, Unchanged());
  }

  lemma UsesX2Types()
    ensures Types([NAMED_X, USES_X2]).Keys == {"X"} && Types([NAMED_X, USES_X2])["X"] == "v2"
  {
    NamedXFacts(map[]);
    var schemas := [NAMED_X, USES_X2];
    assert TypesOf(schemas, 0) == map[];
    assert TypesOf(schemas, 1) == (map t | t in TypeNames(NAMED_X) :: "v2") + map[];
    assert TypesOf(schemas, 2) == TypesOf(schemas, 1);
  }

  /** Every schema is well named and the build succeeds, but the bundle holds a reference to nothing:
      `X2` was dropped because a namespace records `X`, and its reference went to that namespace. */
  lemma NumberedLocalDangles()
    ensures var schemas := [NAMED_X, USES_X2];
      && WellNamed(schemas, Unchanged()) && AddFirst(schemas, 2, Types(schemas), Unchanged()).Ok?
      && var defs := AddFirst(schemas, 2, Types(schemas), Unchanged()).value;
         Target("v2", "X2") in Refs(Root(defs)) && Resolve(defs, Target("v2", "X2")) == None
  {
    UsesX2Named();
    UsesX2Types();
    var types := Types([NAMED_X, USES_X2]);
    UsesX2Claimed(types);
    NamedXFacts(types);
    UsesX2Facts(types);
    DanglingPair(NAMED_X, USES_X2, types, "X2");
  }

  /** The second of two schemas refers to a name that the first one's namespace claims but does not hold. */
  lemma DanglingPair(a: Schema, b: Schema, types: map<string, string>, d: string)
    requires Listed(a) && Listed(b) && WellNamed([a, b], Unchanged()) && types == Types([a, b])
    requires a.namespace == Some("v2") && b.namespace == None && AddSchema(map[], a, types, Unchanged()).Ok?
    requires NamespaceFor(d, types) == Some("v2") && Slashless(d) && !Fills(a, "v2", d)
    requires RootContribution(b, b.name, types, Unchanged()) == Some(Body(b, types))
    requires Target("v2", d) in Refs(Body(b, types))
    ensures AddFirst([a, b], 2, types, Unchanged()).Ok?
    ensures var defs := AddFirst([a, b], 2, types, Unchanged()).value;
      Target("v2", d) in Refs(Root(defs)) && Resolve(defs, Target("v2", d)) == None
  {
    PairBuilt(a, b, types, Unchanged());
    var schemas, defs := [a, b], AddFirst([a, b], 2, types, Unchanged()).value;
    assert schemas[0] == a && schemas[1] == b;
    assert !FilledBy(schemas, 2, "v2", d);
    KnownRefOfName(types, d);
    ClaimedNameResolves(schemas, Unchanged(), 1, d);
    assert Named(b, Namespaces(schemas));
    RootEntryIsLast(schemas, 2, b.name, Unchanged());
    RefsOfField(defs, b.name);
    RootRefs(defs);
  }
}
