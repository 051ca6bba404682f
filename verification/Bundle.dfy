/** `build_schema_bundle`: every generated schema and its local definitions, in one definitions map,
    with the namespaced ones nested under their namespace. */
module Bundle {
  import opened SchemaJson
  import opened RefRewrites
  import opened Reachability
  import opened Wrappers

  datatype Result<+T> = Ok(value: T) | Err(error: BundleError)
  datatype BundleError = Collision(ns: string, name: string) | NotAnObject(ns: string)

  /** A generated schema; `order` lists the names of its local definitions as its map yields them. */
  datatype Schema = Schema(namespace: Option<string>, name: string, value: Json, inV1: bool, order: seq<string>)

  type Defs = map<string, Json>

  /** The titles written into a definition: any pass that keeps its references. */
  type Annotation = (string, Json) -> Json

  const IGNORED := {"Option<()>"}
  const SPECIAL := {"ClientNotification", "ClientRequest", "ServerNotification", "ServerRequest"}

  function LocalDefs(v: Json): Defs {
    match Definitions(v) case Some(defs) => defs case None => map[]
  }

  /** The order lists the local definitions and nothing else. */
  predicate Listed(s: Schema) {
    (set d | d in s.order) == LocalDefs(s.value).Keys
  }

  // ---- The table of namespaced types ----

  function DollarDefs(v: Json): set<string> {
    if v.Obj? && "$defs" in v.fields && v.fields["$defs"].Obj? then v.fields["$defs"].fields.Keys else {}
  }

  function TypeNames(s: Schema): set<string> {
    {s.name} + LocalDefs(s.value).Keys + DollarDefs(s.value)
  }

  /** The types of the first `n` schemas: the first namespace to name a type keeps it. */
  function TypesOf(schemas: seq<Schema>, n: nat): map<string, string>
    requires n <= |schemas|
  {
    if n == 0 then map[]
    else
      var types, s := TypesOf(schemas, n - 1), schemas[n - 1];
      match s.namespace
      case None => types
      case Some(ns) => (map t | t in TypeNames(s) :: ns) + types
  }

  function Types(schemas: seq<Schema>): map<string, string> {
    TypesOf(schemas, |schemas|)
  }

  /** `collect_namespaced_types`. */
  method CollectNamespacedTypes(schemas: seq<Schema>) returns (types: map<string, string>)
    ensures types == Types(schemas)
  {
    types := map[];
    for i := 0 to |schemas|
      invariant types == TypesOf(schemas, i)
    {
      match schemas[i].namespace {
        case None =>
        case Some(ns) =>
          var names := TypeNames(schemas[i]);
          ghost var before := types;
          while names != {}
            invariant names <= TypeNames(schemas[i])
            invariant types == (map t | t in TypeNames(schemas[i]) - names :: ns) + before
            decreases names
          {
            var t :| t in names;
            if t !in types {
              types := types[t := ns];
            }
            names := names - {t};
          }
          assert TypeNames(schemas[i]) - {} == TypeNames(schemas[i]);
      }
    }
  }

  // ---- Adding one schema ----

  function InsertIntoNamespace(defs: Defs, ns: string, name: string, schema: Json): Result<Defs> {
    var entry := if ns in defs then defs[ns] else Obj(map[]);
    if !entry.Obj? then Err(NotAnObject(ns))
    else if name !in entry.fields then Ok(defs[ns := Obj(entry.fields[name := schema])])
    else if entry.fields[name] == schema then Ok(defs)
    else Err(Collision(ns, name))
  }

  /** A reference of `s` after the first pass over it. */
  function Retarget(s: Schema, types: map<string, string>, r: string): string {
    match s.namespace case Some(ns) => NamespaceRef(ns, r) case None => KnownRef(types, r)
  }

  function Retargeting(s: Schema, types: map<string, string>): string -> string {
    (r: string) => Retarget(s, types, r)
  }

  function Prepared(s: Schema, types: map<string, string>): Json {
    RewriteRefs(s.value, Retargeting(s, types))
  }

  /** The schema without its definitions. */
  function Body(s: Schema, types: map<string, string>): Json {
    var v := Prepared(s, types);
    if v.Obj? then Obj(v.fields - {"definitions"}) else v
  }

  predicate Skipped(name: string) {
    name in IGNORED || name in SPECIAL
  }

  /** Where an un-namespaced schema's definition belongs, if in a namespace. */
  function ForcedNamespace(s: Schema, d: string, types: map<string, string>): Option<string> {
    if s.inV1 then None else NamespaceFor(d, types)
  }

  datatype Locals = Locals(defs: Defs, forced: seq<(string, string)>)

  function AddLocal(acc: Locals, s: Schema, d: string, schema: Json, types: map<string, string>): Result<Locals> {
    match s.namespace
    case Some(ns) =>
      (match InsertIntoNamespace(acc.defs, ns, d, RewriteToNamespace(schema, ns))
       case Ok(defs) => Ok(acc.(defs := defs))
       case Err(e) => Err(e))
    case None =>
      match ForcedNamespace(s, d, types)
      case Some(ns) => Ok(acc.(forced := if (d, ns) in acc.forced then acc.forced else acc.forced + [(d, ns)]))
      case None => Ok(acc.(defs := acc.defs[d := schema]))
  }

  /** The first `n` local definitions added. */
  function AddLocals(defs: Defs, s: Schema, n: nat, types: map<string, string>, annotate: Annotation): Result<Locals>
    requires n <= |s.order|
    requires forall d :: d in s.order ==> d in LocalDefs(Prepared(s, types))
  {
    if n == 0 then Ok(Locals(defs, []))
    else match AddLocals(defs, s, n - 1, types, annotate)
      case Err(e) => Err(e)
      case Ok(acc) =>
        var d := s.order[n - 1];
        if Skipped(d) then Ok(acc)
        else AddLocal(acc, s, d, annotate(d, LocalDefs(Prepared(s, types))[d]), types)
  }

  function ApplyForced(v: Json, forced: seq<(string, string)>): Json {
    if |forced| == 0 then v
    else RewriteNamed(ApplyForced(v, forced[..|forced| - 1]), forced[|forced| - 1].1, forced[|forced| - 1].0)
  }

  lemma PreparedLocals(s: Schema, types: map<string, string>)
    ensures LocalDefs(Prepared(s, types)).Keys == LocalDefs(s.value).Keys
    ensures Refs(Prepared(s, types)) == set r | r in Refs(s.value) :: Retarget(s, types, r)
  {
    RefsOfRewrite(s.value, Retargeting(s, types));
  }

  function AddSchema(defs: Defs, s: Schema, types: map<string, string>, annotate: Annotation): Result<Defs>
    requires Listed(s)
  {
    PreparedLocals(s, types);
    if s.name in IGNORED then Ok(defs)
    else match AddLocals(defs, s, |s.order|, types, annotate)
      case Err(e) => Err(e)
      case Ok(acc) =>
        var body := ApplyForced(Body(s, types), acc.forced);
        match s.namespace
        case Some(ns) => InsertIntoNamespace(acc.defs, ns, s.name, body)
        case None => Ok(acc.defs[s.name := body])
  }

  predicate AllListed(schemas: seq<Schema>) {
    forall i :: 0 <= i < |schemas| ==> Listed(schemas[i])
  }

  function AddFirst(schemas: seq<Schema>, n: nat, types: map<string, string>, annotate: Annotation): Result<Defs>
    requires n <= |schemas| && AllListed(schemas)
  {
    if n == 0 then Ok(map[])
    else match AddFirst(schemas, n - 1, types, annotate)
      case Err(e) => Err(e)
      case Ok(defs) => AddSchema(defs, schemas[n - 1], types, annotate)
  }

  function Root(defs: Defs): Json {
    Obj(map[
      "$schema" := Str("http://json-schema.org/draft-07/schema#"),
      "title" := Str("CodexAppServerProtocol"),
      "type" := Str("object"),
      "definitions" := Obj(defs)])
  }

  /** `build_schema_bundle`. */
  method BuildSchemaBundle(schemas: seq<Schema>, annotate: Annotation) returns (r: Result<Json>)
    requires AllListed(schemas)
    ensures r == match AddFirst(schemas, |schemas|, Types(schemas), annotate)
                 case Ok(defs) => Ok(Root(defs)) case Err(e) => Err(e)
    ensures r.Ok? ==>
      && r.value.Obj? && r.value.fields.Keys == {"$schema", "title", "type", "definitions"}
      && r.value.fields["$schema"] == Str("http://json-schema.org/draft-07/schema#")
      && r.value.fields["title"] == Str("CodexAppServerProtocol")
      && r.value.fields["type"] == Str("object")
  {
    var types := CollectNamespacedTypes(schemas);
    var added := AddEach(schemas, types, annotate);
    match added {
      case Ok(definitions) => return Ok(Root(definitions));
      case Err(e) => return Err(e);
    }
  }

  method AddEach(schemas: seq<Schema>, types: map<string, string>, annotate: Annotation) returns (r: Result<Defs>)
    requires AllListed(schemas)
    ensures r == AddFirst(schemas, |schemas|, types, annotate)
  {
    r := Ok(map[]);
    for i := 0 to |schemas|
      invariant r.Ok? && r == AddFirst(schemas, i, types, annotate)
    {
      FirstThenOne(schemas, i, types, annotate);
      r := AddOne(r.value, schemas[i], types, annotate);
      if r.Err? {
        ErrorStays(schemas, i + 1, |schemas|, types, annotate);
        return;
      }
    }
  }

  lemma FirstThenOne(schemas: seq<Schema>, i: nat, types: map<string, string>, annotate: Annotation)
    requires i < |schemas| && AllListed(schemas) && AddFirst(schemas, i, types, annotate).Ok?
    ensures AddFirst(schemas, i + 1, types, annotate)
         == AddSchema(AddFirst(schemas, i, types, annotate).value, schemas[i], types, annotate)
  {
  }

  lemma ErrorKept(schemas: seq<Schema>, n: nat, types: map<string, string>, annotate: Annotation)
    requires 0 < n <= |schemas| && AllListed(schemas) && AddFirst(schemas, n - 1, types, annotate).Err?
    ensures AddFirst(schemas, n, types, annotate) == AddFirst(schemas, n - 1, types, annotate)
  {
  }

  lemma {:induction false} ErrorStays(schemas: seq<Schema>, m: nat, n: nat, types: map<string, string>,
                                      annotate: Annotation)
    requires m <= n <= |schemas| && AllListed(schemas) && AddFirst(schemas, m, types, annotate).Err?
    ensures AddFirst(schemas, n, types, annotate) == AddFirst(schemas, m, types, annotate)
  {
    if m < n {
      ErrorStays(schemas, m, n - 1, types, annotate);
      ErrorKept(schemas, n, types, annotate);
    }
  }

  lemma {:induction false} LocalErrorStays(defs: Defs, s: Schema, m: nat, n: nat, types: map<string, string>,
                                           annotate: Annotation)
    requires m <= n <= |s.order|
    requires forall d :: d in s.order ==> d in LocalDefs(Prepared(s, types))
    requires AddLocals(defs, s, m, types, annotate).Err?
    ensures AddLocals(defs, s, n, types, annotate) == AddLocals(defs, s, m, types, annotate)
  {
    if m < n {
      LocalErrorStays(defs, s, m, n - 1, types, annotate);
    }
  }

  /** One turn of the loop over schemas. */
  method AddOne(definitions: Defs, schema: Schema, types: map<string, string>, annotate: Annotation)
    returns (r: Result<Defs>)
    requires Listed(schema)
    ensures r == AddSchema(definitions, schema, types, annotate)
  {
    PreparedLocals(schema, types);
    if schema.name in IGNORED {
      return Ok(definitions);
    }
    var added := AddEachLocal(definitions, schema, types, annotate);
    match added {
      case Err(e) => return Err(e);
      case Ok(acc) =>
        var body := ForceEach(Body(schema, types), acc.forced);
        match schema.namespace {
          case Some(ns) => return InsertIntoNamespace(acc.defs, ns, schema.name, body);
          case None => return Ok(acc.defs[schema.name := body]);
        }
    }
  }

  method AddEachLocal(definitions: Defs, schema: Schema, types: map<string, string>, annotate: Annotation)
    returns (r: Result<Locals>)
    requires forall d :: d in schema.order ==> d in LocalDefs(Prepared(schema, types))
    ensures r == AddLocals(definitions, schema, |schema.order|, types, annotate)
  {
    var value := Prepared(schema, types);
    var acc := Locals(definitions, []);
    for i := 0 to |schema.order|
      invariant AddLocals(definitions, schema, i, types, annotate) == Ok(acc)
    {
      var d := schema.order[i];
      assert d in schema.order;
      if Skipped(d) {
        continue;
      }
      var def := annotate(d, LocalDefs(value)[d]);
      match AddLocal(acc, schema, d, def, types) {
        case Err(e) =>
          LocalErrorStays(definitions, schema, i + 1, |schema.order|, types, annotate);
          return Err(e);
        case Ok(acc') => acc := acc';
      }
    }
    return Ok(acc);
  }

  method ForceEach(value: Json, forced: seq<(string, string)>) returns (body: Json)
    ensures body == ApplyForced(value, forced)
  {
    body := value;
    for i := 0 to |forced|
      invariant body == ApplyForced(value, forced[..i])
    {
      assert forced[..i + 1][..i] == forced[..i];
      body := RewriteNamed(body, forced[i].1, forced[i].0);
    }
    assert forced[..|forced|] == forced;
  }
}
