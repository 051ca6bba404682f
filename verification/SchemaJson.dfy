/** JSON schemas as trees, and the `$ref` strings in them. The order of an object's fields is not
    kept: no pass over schemas depends on it, and schemas are compared without it. */
module SchemaJson {
  import opened Wrappers

  datatype Json =
    | Null
    | Bool(b: bool)
    | Num(text: string)
    | Str(s: string)
    | Arr(items: seq<Json>)
    | Obj(fields: map<string, Json>)

  const REF := "$ref"
  const DEFS := "#/definitions/"

  predicate HasPrefix(s: string, p: string) {
    p <= s
  }

  predicate Slashless(s: string) {
    forall i :: 0 <= i < |s| ==> s[i] != '/'
  }

  /** The part before the first slash. */
  function Head(s: string): string {
    if |s| == 0 || s[0] == '/' then "" else [s[0]] + Head(s[1..])
  }

  lemma {:induction false} HeadPrefix(s: string)
    ensures Head(s) <= s && Slashless(Head(s))
    ensures |Head(s)| < |s| ==> s[|Head(s)|] == '/'
    ensures |Head(s)| == |s| <==> Slashless(s)
  {
    if |s| > 0 && s[0] != '/' {
      HeadPrefix(s[1..]);
      assert Slashless(s) <==> Slashless(s[1..]) by {
        assert Slashless(s) ==> Slashless(s[1..]);
        if Slashless(s[1..]) {
          forall i | 0 <= i < |s| ensures s[i] != '/' {
            assert i > 0 ==> s[i] == s[1..][i - 1];
          }
        }
      }
    }
  }

  lemma {:induction false} HeadOf(name: string, rest: string)
    requires Slashless(name) && (|rest| > 0 ==> rest[0] == '/')
    ensures Head(name + rest) == name
  {
    if |name| == 0 {
      assert name + rest == rest;
    } else {
      assert (name + rest)[1..] == name[1..] + rest;
      HeadOf(name[1..], rest);
    }
  }

  // ---- References in a tree ----

  /** The `$ref` string of an object itself. */
  function OwnRef(fields: map<string, Json>): set<string> {
    if REF in fields && fields[REF].Str? then {fields[REF].s} else {}
  }

  /** Every `$ref` string at any depth. */
  function Refs(v: Json): set<string> {
    match v
    case Arr(items) => set i, r | 0 <= i < |items| && r in Refs(items[i]) :: r
    case Obj(fields) => OwnRef(fields) + set k, r | k in fields && r in Refs(fields[k]) :: r
    case _ => {}
  }

  /** A step into a value. */
  datatype Hop = Key(k: string) | Item(i: nat)

  function Descend(v: Json, path: seq<Hop>): Option<Json> {
    if |path| == 0 then Some(v)
    else match path[0]
      case Key(k) => if v.Obj? && k in v.fields then Descend(v.fields[k], path[1..]) else None
      case Item(i) => if v.Arr? && i < |v.items| then Descend(v.items[i], path[1..]) else None
  }

  /** The path leads to an object with the reference `r`. */
  predicate RefersAt(v: Json, path: seq<Hop>, r: string) {
    match Descend(v, path)
    case Some(Obj(fields)) => "$ref" in fields && fields["$ref"] == Str(r)
    case _ => false
  }

  lemma {:induction false} RefFound(v: Json, r: string) returns (path: seq<Hop>)
    requires r in Refs(v)
    ensures RefersAt(v, path, r)
  {
    match v {
      case Arr(items) =>
        var i :| 0 <= i < |items| && r in Refs(items[i]);
        var rest := RefFound(items[i], r);
        path := [Item(i)] + rest;
        assert path[1..] == rest;
      case Obj(fields) =>
        if r in OwnRef(fields) {
          path := [];
        } else {
          var k :| k in fields && r in Refs(fields[k]);
          var rest := RefFound(fields[k], r);
          path := [Key(k)] + rest;
          assert path[1..] == rest;
        }
      case _ =>
    }
  }

  lemma {:induction false} RefCollected(v: Json, path: seq<Hop>, r: string)
    requires RefersAt(v, path, r)
    ensures r in Refs(v)
  {
    if |path| > 0 {
      match path[0] {
        case Key(k) =>
          RefCollected(v.fields[k], path[1..], r);
          RefsOfField(v.fields, k);
        case Item(i) =>
          RefCollected(v.items[i], path[1..], r);
          RefsOfItem(v.items, i);
      }
    }
  }

  /** The references of a tree are exactly those that some path in it leads to. */
  lemma RefsExactly(v: Json, r: string)
    ensures r in Refs(v) <==> exists path :: RefersAt(v, path, r)
  {
    if r in Refs(v) {
      var path := RefFound(v, r);
    }
    if path :| RefersAt(v, path, r) {
      RefCollected(v, path, r);
    }
  }

  /** Every rewriting pass has this shape: the `$ref` string of each object is replaced, at any depth. */
  function RewriteRefs(v: Json, f: string -> string): Json {
    match v
    case Arr(items) => Arr(seq(|items|, i requires 0 <= i < |items| => RewriteRefs(items[i], f)))
    case Obj(fields) =>
      Obj(map k | k in fields ::
        if k == REF && fields[k].Str? then Str(f(fields[k].s)) else RewriteRefs(fields[k], f))
    case _ => v
  }

  lemma RefsOfItem(items: seq<Json>, i: nat)
    requires i < |items|
    ensures Refs(items[i]) <= Refs(Arr(items))
  {
  }

  lemma RefsOfField(fields: map<string, Json>, k: string)
    requires k in fields
    ensures Refs(fields[k]) <= Refs(Obj(fields))
  {
  }

  lemma {:induction false} RefsOfRewriteFrom(v: Json, f: string -> string, r: string) returns (r0: string)
    requires r in Refs(RewriteRefs(v, f))
    ensures r0 in Refs(v) && f(r0) == r
  {
    match v {
      case Arr(items) =>
        var out := RewriteRefs(v, f).items;
        var i :| 0 <= i < |out| && r in Refs(out[i]);
        r0 := RefsOfRewriteFrom(items[i], f, r);
      case Obj(fields) =>
        var out := RewriteRefs(v, f).fields;
        if r in OwnRef(out) {
          r0 := fields[REF].s;
        } else {
          var k :| k in out && r in Refs(out[k]);
          r0 := RefsOfRewriteFrom(fields[k], f, r);
        }
      case _ =>
    }
  }

  lemma {:induction false} RefsOfRewriteTo(v: Json, f: string -> string, r: string)
    requires r in Refs(v)
    ensures f(r) in Refs(RewriteRefs(v, f))
  {
    match v {
      case Arr(items) =>
        var out := RewriteRefs(v, f).items;
        var i :| 0 <= i < |items| && r in Refs(items[i]);
        RefsOfRewriteTo(items[i], f, r);
        RefsOfItem(out, i);
      case Obj(fields) =>
        var out := RewriteRefs(v, f).fields;
        if r !in OwnRef(fields) {
          var k :| k in fields && r in Refs(fields[k]);
          RefsOfRewriteTo(fields[k], f, r);
          RefsOfField(out, k);
        }
      case _ =>
    }
  }

  /** The references after a pass are the rewritten references before it. */
  lemma RefsOfRewrite(v: Json, f: string -> string)
    ensures Refs(RewriteRefs(v, f)) == set r | r in Refs(v) :: f(r)
  {
    forall r | r in Refs(RewriteRefs(v, f)) ensures exists r0 :: r0 in Refs(v) && f(r0) == r {
      var r0 := RefsOfRewriteFrom(v, f, r);
    }
    forall r | r in Refs(v) ensures f(r) in Refs(RewriteRefs(v, f)) {
      RefsOfRewriteTo(v, f, r);
    }
  }

  lemma {:induction false} RewriteIdentity(v: Json, f: string -> string)
    requires forall r :: r in Refs(v) ==> f(r) == r
    ensures RewriteRefs(v, f) == v
  {
    match v {
      case Arr(items) =>
        forall i | 0 <= i < |items| ensures RewriteRefs(items[i], f) == items[i] {
          RefsOfItem(items, i);
          RewriteIdentity(items[i], f);
        }
      case Obj(fields) =>
        forall k | k in fields ensures RewriteRefs(fields[k], f) == fields[k] {
          RefsOfField(fields, k);
          RewriteIdentity(fields[k], f);
        }
      case _ =>
    }
  }

  /** One pass after another is a pass. */
  lemma {:induction false} RewriteCompose(v: Json, f: string -> string, g: string -> string, h: string -> string)
    requires forall r :: h(r) == g(f(r))
    ensures RewriteRefs(RewriteRefs(v, f), g) == RewriteRefs(v, h)
  {
    match v {
      case Arr(items) =>
        forall i | 0 <= i < |items| ensures RewriteRefs(RewriteRefs(items[i], f), g) == RewriteRefs(items[i], h) {
          RewriteCompose(items[i], f, g, h);
        }
      case Obj(fields) =>
        forall k | k in fields ensures RewriteRefs(RewriteRefs(fields[k], f), g) == RewriteRefs(fields[k], h) {
          RewriteCompose(fields[k], f, g, h);
        }
        ComposedFields(fields, f, g, h);
      case _ =>
    }
  }

  lemma ComposedFields(fields: map<string, Json>, f: string -> string, g: string -> string, h: string -> string)
    requires forall r :: h(r) == g(f(r))
    requires forall k :: k in fields ==> RewriteRefs(RewriteRefs(fields[k], f), g) == RewriteRefs(fields[k], h)
    ensures RewriteRefs(RewriteRefs(Obj(fields), f), g) == RewriteRefs(Obj(fields), h)
  {
    var once, twice := RewriteRefs(Obj(fields), f).fields, RewriteRefs(RewriteRefs(Obj(fields), f), g).fields;
    forall k | k in fields ensures twice[k] == RewriteRefs(Obj(fields), h).fields[k] {
      assert once[k] == if k == REF && fields[k].Str? then Str(f(fields[k].s)) else RewriteRefs(fields[k], f);
    }
    assert twice.Keys == fields.Keys;
  }
}
