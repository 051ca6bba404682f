/** What a flat schema holds, read off the bundle it was made from. */
module FlatContents {
  import opened SchemaJson
  import opened RefRewrites
  import opened Reachability
  import opened Bundle
  import opened BundleClosure
  import opened FlatV2
  import opened Wrappers

  predicate IsShared(n: string) {
    n == "ClientRequest" || n == "ServerNotification"
  }

  /** The definition `a` refers to the root definition `b`, not to one of v2. */
  predicate RefersTo(defs: Defs, a: string, b: string) {
    && a in defs && "#/definitions/" + b in Refs(defs[a])
    && !("#/definitions/v2/" <= "#/definitions/" + b)
  }

  /** A path of such references from one of the two shared definitions to `n`. */
  ghost predicate Leads(defs: Defs, p: seq<string>, n: string) {
    && |p| > 1 && IsShared(p[0]) && p[|p| - 1] == n
    && forall i :: 0 < i < |p| ==> RefersTo(defs, p[i - 1], p[i])
  }

  ghost predicate NeededByShared(defs: Defs, n: string) {
    exists p :: Leads(defs, p, n)
  }

  lemma NonV2NamesExactly(v: Json, n: string)
    ensures n in NonV2Names(v)
       <==> "#/definitions/" + n in Refs(v) && !("#/definitions/v2/" <= "#/definitions/" + n)
  {
    SuffixOf(n);
    if n in NonV2Names(v) {
      var r :| r in Refs(v) && HasPrefix(r, DEFS) && !HasPrefix(r, V2_DEFS) && Suffix(r) == n;
      assert r == DEFS + n;
    }
  }

  lemma DependsExactly(defs: Defs, a: string, b: string)
    ensures b in DependsOn(defs)(a) <==> RefersTo(defs, a, b)
  {
    if a in defs {
      NonV2NamesExactly(defs[a], b);
    }
  }

  lemma SeedExactly(defs: Defs, n: string)
    ensures n in SharedNames(defs) <==> exists a :: IsShared(a) && RefersTo(defs, a, n)
  {
    forall a | a in defs ensures n in NonV2Names(defs[a]) <==> RefersTo(defs, a, n) {
      NonV2NamesExactly(defs[a], n);
    }
  }

  /** The names the worklist collects are exactly those a path from a shared definition leads to. */
  lemma NeededExactly(defs: Defs, n: string)
    ensures n in Needed(defs) <==> NeededByShared(defs, n)
  {
    NeededCorrect(defs);
    if p :| Path(p, SharedNames(defs), DependsOn(defs)) && p[|p| - 1] == n {
      SeedExactly(defs, p[0]);
      var a :| IsShared(a) && RefersTo(defs, a, p[0]);
      LedFromSeed(defs, a, p);
    }
    if p :| Leads(defs, p, n) {
      LedIsReached(defs, p);
    }
  }

  lemma LedFromSeed(defs: Defs, a: string, p: seq<string>)
    requires Path(p, SharedNames(defs), DependsOn(defs)) && IsShared(a) && RefersTo(defs, a, p[0])
    ensures NeededByShared(defs, p[|p| - 1])
  {
    var q := [a] + p;
    forall i | 0 < i < |q| ensures RefersTo(defs, q[i - 1], q[i]) {
      if i > 1 {
        DependsExactly(defs, p[i - 2], p[i - 1]);
      }
    }
    assert Leads(defs, q, p[|p| - 1]);
  }

  lemma LedIsReached(defs: Defs, p: seq<string>)
    requires |p| > 1 && Leads(defs, p, p[|p| - 1])
    ensures Reachable(p[|p| - 1], SharedNames(defs), DependsOn(defs))
  {
    var q := p[1..];
    SeedExactly(defs, p[1]);
    assert RefersTo(defs, p[0], p[1]);
    forall i | 0 < i < |q| ensures q[i] in DependsOn(defs)(q[i - 1]) {
      assert RefersTo(defs, p[i], p[i + 1]);
      DependsExactly(defs, p[i], p[i + 1]);
    }
    assert Path(q, SharedNames(defs), DependsOn(defs)) && q[|q| - 1] == p[|p| - 1];
  }

  /** The names of the flat definitions: those of v2, the shared ones, and the root ones these need. */
  ghost predicate IsFlatName(defs: Defs, v2: Defs, n: string) {
    n in v2 || (n in defs && (IsShared(n) || (n != "v2" && NeededByShared(defs, n))))
  }

  /** Of definitions of one name the shared one goes first, then that of v2. */
  function Chosen(defs: Defs, v2: Defs, n: string): Json
    requires n in defs || n in v2
  {
    if IsShared(n) && n in defs then defs[n] else if n in v2 then v2[n] else defs[n]
  }

  /** One field of an object after its references were rewritten. */
  function FieldRewritten(k: string, v: Json, f: string -> string): Json {
    if k == "$ref" && v.Str? then Str(f(v.s)) else RewriteRefs(v, f)
  }

  lemma FlatDefsAt(defs: Defs, v2: Defs, needed: set<string>, n: string)
    ensures var flat := FlatDefs(defs, v2, needed);
      && (n in flat <==> n in v2 || (n in defs && (IsShared(n) || (n != "v2" && n in needed))))
      && (n in flat ==> flat[n] == Chosen(defs, v2, n))
  {
  }

  ghost predicate FlatDefinitions(defs: Defs, v2: Defs, out: Defs) {
    && (forall n :: n in out <==> IsFlatName(defs, v2, n))
    && (forall n :: n in out ==> out[n] == FieldRewritten(n, Chosen(defs, v2, n), FlatRef))
  }

  lemma FlatEntries(defs: Defs, v2: Defs, needed: set<string>, out: Defs)
    requires forall n :: n in needed <==> NeededByShared(defs, n)
    requires Obj(out) == RewriteRefs(Obj(FlatDefs(defs, v2, needed)), FlatRef)
    ensures FlatDefinitions(defs, v2, out)
  {
    var flat := FlatDefs(defs, v2, needed);
    assert out.Keys == flat.Keys;
    forall n ensures n in out <==> IsFlatName(defs, v2, n) {
      FlatDefsAt(defs, v2, needed, n);
    }
    forall n | n in out ensures out[n] == FieldRewritten(n, Chosen(defs, v2, n), FlatRef) {
      FlatDefsAt(defs, v2, needed, n);
    }
  }

  predicate HasV2(bundle: Json) {
    && bundle.Obj? && "definitions" in bundle.fields && bundle.fields["definitions"].Obj?
    && "v2" in bundle.fields["definitions"].fields && bundle.fields["definitions"].fields["v2"].Obj?
  }

  /** The fields of the flat root: a title that tells it is flat, and all others as they were, with their
      references rewritten. */
  predicate FlatFields(root: map<string, Json>, out: map<string, Json>) {
    && out.Keys == root.Keys + {"title"}
    && out["title"] == Str((if "title" in root && root["title"].Str? then root["title"].s
                            else "CodexAppServerProtocol") + "V2")
    && forall k :: k in root && k != "title" && k != "definitions" ==>
         out[k] == FieldRewritten(k, root[k], FlatRef)
  }

  lemma LiftedFields(root: map<string, Json>, flat: Defs)
    requires "definitions" in root
    ensures var out := RewriteRefs(Lifted(root, flat), FlatRef);
      && out.Obj? && FlatFields(root, out.fields)
      && "definitions" in out.fields && out.fields["definitions"] == RewriteRefs(Obj(flat), FlatRef)
  {
  }

  /** `out` is the bundle made flat: its definitions are exactly those of v2, the two shared ones and the
      root ones these need, and all references are rewritten. */
  ghost predicate FlatOf(bundle: Json, out: Json)
    requires HasV2(bundle)
  {
    var defs := bundle.fields["definitions"].fields;
    && out.Obj? && FlatFields(bundle.fields, out.fields)
    && "definitions" in out.fields && out.fields["definitions"].Obj?
    && FlatDefinitions(defs, defs["v2"].fields, out.fields["definitions"].fields)
  }

  ghost predicate StillInV2(out: Json) {
    exists r :: r in Refs(out) && "#/definitions/v2/" <= r
  }

  /** Some reference names `n`, and there is no such definition. */
  ghost predicate Lacks(out: Json, n: string)
    requires out.Obj? && "definitions" in out.fields && out.fields["definitions"].Obj?
  {
    n !in out.fields["definitions"].fields && exists r :: r in Refs(out) && NamesDefinition(r, n)
  }

  ghost predicate CheckedAs(result: FlatResult, out: Json)
    requires out.Obj? && "definitions" in out.fields && out.fields["definitions"].Obj?
  {
    if StillInV2(out) then result == Failed(StillNamespaced)
    else if exists n :: Lacks(out, n)
    then result.Failed? && result.error.Missing? && forall n :: n in result.error.names <==> Lacks(out, n)
    else result == Flat(out)
  }

  lemma MissingExactly(out: Json, n: string)
    requires out.Obj? && "definitions" in out.fields && out.fields["definitions"].Obj?
    ensures n in MissingNames(out, out.fields["definitions"].fields) <==> Lacks(out, n)
  {
    forall r ensures LocalName(r) == Some(n) <==> NamesDefinition(r, n) {
      LocalNameExactly(r, n);
    }
  }

  lemma CheckedExactly(out: Json)
    requires out.Obj? && "definitions" in out.fields && out.fields["definitions"].Obj?
    ensures CheckedAs(Checked(out), out)
  {
    var names := MissingNames(out, out.fields["definitions"].fields);
    forall n ensures n in names <==> Lacks(out, n) {
      MissingExactly(out, n);
    }
    var namespaced := set r | r in Refs(out) && HasPrefix(r, V2_DEFS);
    if r :| r in Refs(out) && HasPrefix(r, V2_DEFS) {
      assert r in namespaced;
    }
    if n :| Lacks(out, n) {
      assert n in names;
    }
    if n :| n in names {
      assert Lacks(out, n);
    }
  }

  /** Flattening exactly: without an object, a definitions map or a v2 map it fails with that reason;
      otherwise the flat schema is refused when a reference still goes to v2 or names nothing, with the
      names that are missing, and is the result when there is none. */
  lemma FlatDecided(bundle: Json) returns (out: Json)
    ensures !bundle.Obj? ==> FlatSpec(bundle) == Failed(NoRoot)
    ensures bundle.Obj? && !("definitions" in bundle.fields && bundle.fields["definitions"].Obj?) ==>
      FlatSpec(bundle) == Failed(NoDefinitions)
    ensures bundle.Obj? && "definitions" in bundle.fields && bundle.fields["definitions"].Obj? && !HasV2(bundle) ==>
      FlatSpec(bundle) == Failed(NoV2)
    ensures HasV2(bundle) ==> FlatOf(bundle, out) && CheckedAs(FlatSpec(bundle), out)
  {
    if HasV2(bundle) {
      var defs := bundle.fields["definitions"].fields;
      var v2, needed := defs["v2"].fields, Needed(defs);
      forall n ensures n in needed <==> NeededByShared(defs, n) {
        NeededExactly(defs, n);
      }
      out := RewriteRefs(Lifted(bundle.fields, FlatDefs(defs, v2, needed)), FlatRef);
      LiftedFields(bundle.fields, FlatDefs(defs, v2, needed));
      FlatEntries(defs, v2, needed, out.fields["definitions"].fields);
      CheckedExactly(out);
    } else {
      out := bundle;
    }
  }

  /** So that is what a flat schema holds. */
  lemma FlatHolds(bundle: Json)
    requires FlatSpec(bundle).Flat?
    ensures HasV2(bundle) && FlatOf(bundle, FlatSpec(bundle).schema)
  {
    var out := FlatDecided(bundle);
  }
}
