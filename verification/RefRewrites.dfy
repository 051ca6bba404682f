/** The passes that retarget `$ref`s while schemas are bundled. */
module RefRewrites {
  import opened SchemaJson
  import opened Wrappers

  /** Where a reference under a definitions map points, without the map. */
  function Suffix(r: string): string
    requires HasPrefix(r, DEFS)
  {
    r[|DEFS|..]
  }

  function Target(ns: string, suffix: string): string {
    DEFS + (ns + "/" + suffix)
  }

  lemma SuffixOf(suffix: string)
    ensures HasPrefix(DEFS + suffix, DEFS) && Suffix(DEFS + suffix) == suffix
  {
  }

  function NamespaceRef(ns: string, r: string): string {
    if HasPrefix(r, DEFS) && !HasPrefix(Suffix(r), ns + "/") then Target(ns, Suffix(r)) else r
  }

  /** `rewrite_refs_to_namespace`. */
  function RewriteToNamespace(v: Json, ns: string): Json {
    RewriteRefs(v, r => NamespaceRef(ns, r))
  }

  predicate IsDigit(c: char) {
    '0' <= c <= '9'
  }

  function TrimDigits(name: string): string {
    if |name| > 0 && IsDigit(name[|name| - 1]) then TrimDigits(name[..|name| - 1]) else name
  }

  /** `namespace_for_definition`: the recorded namespace, or that of the name without trailing digits. */
  function NamespaceFor(name: string, types: map<string, string>): Option<string> {
    if name in types then Some(types[name])
    else if TrimDigits(name) in types then Some(types[TrimDigits(name)])
    else None
  }

  /** `base` is `name` without all its trailing digits. */
  predicate NumberedFrom(name: string, base: string) {
    && base <= name && (|base| > 0 ==> base[|base| - 1] !in "0123456789")
    && forall i :: |base| <= i < |name| ==> name[i] in "0123456789"
  }

  lemma DigitsAre(c: char, digits: string)
    requires digits == "0123456789"
    ensures IsDigit(c) <==> c in digits
  {
    if IsDigit(c) {
      assert digits[c as int - 48] == c;
    }
  }

  lemma {:induction false} TrimDigitsExactly(name: string, base: string)
    ensures TrimDigits(name) == base <==> NumberedFrom(name, base)
  {
    forall c ensures IsDigit(c) <==> c in "0123456789" {
      DigitsAre(c, "0123456789");
    }
    if |name| > 0 && IsDigit(name[|name| - 1]) {
      TrimDigitsExactly(name[..|name| - 1], base);
    }
  }

  /** A namespace claims a name that it records, or an unrecorded one whose unnumbered form it records. */
  lemma ClaimedExactly(name: string, types: map<string, string>, ns: string)
    ensures NamespaceFor(name, types) == Some(ns)
       <==> if name in types then types[name] == ns
            else exists base :: NumberedFrom(name, base) && base in types && types[base] == ns
  {
    TrimDigitsExactly(name, TrimDigits(name));
    forall base | NumberedFrom(name, base) ensures base == TrimDigits(name) {
      TrimDigitsExactly(name, base);
    }
  }

  function KnownRef(types: map<string, string>, r: string): string {
    if !HasPrefix(r, DEFS) then r
    else match NamespaceFor(Head(Suffix(r)), types)
      case Some(ns) => Target(ns, Suffix(r))
      case None => r
  }

  /** `rewrite_refs_to_known_namespaces`. */
  function RewriteToKnown(v: Json, types: map<string, string>): Json {
    RewriteRefs(v, r => KnownRef(types, r))
  }

  function NamedRef(ns: string, name: string, r: string): string {
    if r == DEFS + name || HasPrefix(r, DEFS + name + "/") then Target(ns, Suffix(r)) else r
  }

  /** `rewrite_named_ref_to_namespace`. */
  function RewriteNamed(v: Json, ns: string, name: string): Json {
    RewriteRefs(v, r => NamedRef(ns, name, r))
  }

  // ---- How the passes compose ----

  lemma NamespaceRefIdempotent(ns: string, r: string)
    ensures NamespaceRef(ns, NamespaceRef(ns, r)) == NamespaceRef(ns, r)
  {
    if HasPrefix(r, DEFS) {
      SuffixOf(ns + "/" + Suffix(r));
      assert ns + "/" <= ns + "/" + Suffix(r);
    }
  }

  /** Running the namespace pass again over a rewritten tree changes nothing. */
  lemma RewriteToNamespaceIdempotent(v: Json, ns: string)
    ensures RewriteToNamespace(RewriteToNamespace(v, ns), ns) == RewriteToNamespace(v, ns)
  {
    var f := r => NamespaceRef(ns, r);
    RefsOfRewrite(v, f);
    forall r | r in Refs(RewriteRefs(v, f)) ensures f(r) == r {
      var r0 :| r0 in Refs(v) && f(r0) == r;
      NamespaceRefIdempotent(ns, r0);
    }
    RewriteIdentity(RewriteRefs(v, f), f);
  }

  /** Some recorded type lives in a namespace whose first segment is `name`. */
  ghost predicate NamesNamespace(name: string, types: map<string, string>) {
    exists t :: Slashless(t) && NamespaceFor(t, types).Some? && Head(NamespaceFor(t, types).value) == name
  }

  lemma SlashAfterName(name: string, s: string)
    requires Slashless(name)
    ensures s == name || HasPrefix(s, name + "/") ==> Head(s) == name
    ensures !Slashless(s) && Head(s) == name ==> HasPrefix(s, name + "/")
  {
    if s == name {
      assert s == name + "";
      HeadOf(name, "");
    } else if HasPrefix(s, name + "/") {
      assert s == name + s[|name|..];
      HeadOf(name, s[|name|..]);
    }
    HeadPrefix(s);
    if !Slashless(s) && Head(s) == name {
      assert s[..|name| + 1] == name + "/";
    }
  }

  lemma {:induction false} HeadOfTarget(ns: string, rest: string)
    ensures Head(ns + "/" + rest) == Head(ns)
  {
    HeadPrefix(ns);
    if |Head(ns)| == |ns| {
      assert ns + "/" + rest == ns + ("/" + rest);
      HeadOf(ns, "/" + rest);
      assert Head(ns) == ns;
    } else {
      var tail := ns[|Head(ns)|..] + "/" + rest;
      assert ns + "/" + rest == Head(ns) + tail;
      HeadOf(Head(ns), tail);
    }
  }

  lemma NamedAfterKnown(types: map<string, string>, ns: string, name: string, r: string)
    requires Slashless(name) && NamespaceFor(name, types).Some?
    ensures NamedRef(ns, name, KnownRef(types, r)) != KnownRef(types, r)
       <==> HasPrefix(r, DEFS) && NamespaceFor(Head(Suffix(r)), types).Some?
            && Head(NamespaceFor(Head(Suffix(r)), types).value) == name
  {
    var k := KnownRef(types, r);
    assert k == DEFS + name || HasPrefix(k, DEFS + name + "/") ==> HasPrefix(k, DEFS);
    if HasPrefix(r, DEFS) {
      assert HasPrefix(k, DEFS) by {
        if NamespaceFor(Head(Suffix(r)), types).Some? {
          SuffixOf(NamespaceFor(Head(Suffix(r)), types).value + "/" + Suffix(r));
        }
      }
      var s := Suffix(k);
      assert k == DEFS + s;
      assert k == DEFS + name <==> s == name by { assert Suffix(DEFS + name) == name; }
      assert HasPrefix(k, DEFS + name + "/") <==> HasPrefix(s, name + "/") by {
        assert DEFS + name + "/" == DEFS + (name + "/");
        PrefixUnder(DEFS, name + "/", s);
      }
      assert |Target(ns, s)| > |k|;
      SlashAfterName(name, s);
      match NamespaceFor(Head(Suffix(r)), types) {
        case Some(n) =>
          assert s == n + "/" + Suffix(r);
          assert s[|n|] == '/';
          HeadOfTarget(n, Suffix(r));
        case None =>
          assert s == Suffix(r);
      }
    }
  }

  lemma PrefixUnder(p: string, a: string, b: string)
    ensures HasPrefix(p + b, p + a) <==> HasPrefix(b, a)
  {
    if HasPrefix(p + b, p + a) {
      assert |a| <= |b|;
      assert a == (p + a)[|p|..] && b[..|a|] == (p + b)[|p|..|p| + |a|];
    }
  }

  lemma ForcedUnchanged(types: map<string, string>, ns: string, name: string, v: Json)
    requires Slashless(name) && NamespaceFor(name, types).Some? && !NamesNamespace(name, types)
    ensures RewriteNamed(RewriteToKnown(v, types), ns, name) == RewriteToKnown(v, types)
  {
    var f := r => KnownRef(types, r);
    var g := r => NamedRef(ns, name, r);
    RefsOfRewrite(v, f);
    forall r | r in Refs(RewriteRefs(v, f)) ensures g(r) == r {
      var r0 :| r0 in Refs(v) && f(r0) == r;
      NamedAfterKnown(types, ns, name, r0);
      if HasPrefix(r0, DEFS) {
        HeadPrefix(Suffix(r0));
      }
    }
    RewriteIdentity(RewriteRefs(v, f), g);
  }

  /** A schema that is nothing but a reference. */
  function RefTo(r: string): Json {
    Obj(map[REF := Str(r)])
  }

  lemma RewriteOfRefTo(r: string, f: string -> string)
    ensures RewriteRefs(RefTo(r), f) == RefTo(f(r))
  {
  }

  lemma ForcedChanges(types: map<string, string>, ns: string, name: string, t: string)
    requires Slashless(name) && NamespaceFor(name, types).Some?
    requires Slashless(t) && NamespaceFor(t, types).Some? && Head(NamespaceFor(t, types).value) == name
    ensures RewriteNamed(RewriteToKnown(RefTo(DEFS + t), types), ns, name) != RewriteToKnown(RefTo(DEFS + t), types)
  {
    var f := r => KnownRef(types, r);
    var g := r => NamedRef(ns, name, r);
    SuffixOf(t);
    assert t == t + "";
    HeadOf(t, "");
    NamedAfterKnown(types, ns, name, DEFS + t);
    RewriteOfRefTo(DEFS + t, f);
    RewriteOfRefTo(f(DEFS + t), g);
    assert RefTo(g(f(DEFS + t))).fields[REF] != RefTo(f(DEFS + t)).fields[REF];
  }

  /** The forced pass for a slash-free name changes no tree after the known-namespace pass
      exactly when that name is not (the first segment of) a recorded namespace. */
  lemma ForcedPassIsIdentity(types: map<string, string>, ns: string, name: string)
    requires Slashless(name) && NamespaceFor(name, types).Some?
    ensures (forall v :: RewriteNamed(RewriteToKnown(v, types), ns, name) == RewriteToKnown(v, types))
       <==> !NamesNamespace(name, types)
  {
    if NamesNamespace(name, types) {
      var t :| Slashless(t) && NamespaceFor(t, types).Some? && Head(NamespaceFor(t, types).value) == name;
      ForcedChanges(types, ns, name, t);
    } else {
      forall v ensures RewriteNamed(RewriteToKnown(v, types), ns, name) == RewriteToKnown(v, types) {
        ForcedUnchanged(types, ns, name, v);
      }
    }
  }

  /** A table with a type in a namespace of its own name: there the forced pass does change a reference. */
  lemma ForcedPassChanges()
    ensures var types := map["T" := "T"];
      NamespaceFor("T", types).Some?
      && RewriteNamed(RewriteToKnown(RefTo(DEFS + "T"), types), "T", "T") != RewriteToKnown(RefTo(DEFS + "T"), types)
  {
    assert "T" == "T" + "";
    HeadOf("T", "");
    ForcedChanges(map["T" := "T"], "T", "T", "T");
  }
}
