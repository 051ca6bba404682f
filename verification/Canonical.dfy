/** `canonicalize_json`: normal forms for JSON up to the order of object keys and of the arrays
    whose every item has a sort key. */
module Canonical {
  import opened JsonText
  import opened Sorting
  import opened Wrappers

  function Get(fields: seq<Field>, key: string): Option<Value> {
    if |fields| == 0 then None
    else if fields[0].key == key then Some(fields[0].value)
    else Get(fields[1..], key)
  }

  function SortKey(item: Value): Option<string> {
    match item
    case Null => Some("null")
    case Bool(b) => Some(if b then "b:true" else "b:false")
    case Number(n) => Some("n:" + n)
    case Str(s) => Some("s:" + s)
    case Array(_) => None
    case Object(fields) =>
      match Get(fields, "$ref")
      case Some(Str(reference)) => Some("ref:" + reference)
      case _ =>
        match Get(fields, "title")
        case Some(Str(title)) => Some("title:" + title)
        case _ => None
  }

  predicate AllKeyed(items: seq<Value>) {
    forall i :: 0 <= i < |items| ==> SortKey(items[i]).Some?
  }

  function KeyText(item: Value): string {
    match SortKey(item) case Some(k) => k case None => ""
  }

  /** By sort key, then by printed text. */
  predicate ItemLe(a: Value, b: Value) {
    if KeyText(a) == KeyText(b) then StringLe(Text(a), Text(b)) else StringLe(KeyText(a), KeyText(b))
  }

  predicate FieldLe(a: Field, b: Field) {
    StringLe(a.key, b.key)
  }

  function Canon(v: Value): Value {
    match v
    case Array(items) =>
      var canonical := seq(|items|, i requires 0 <= i < |items| => Canon(items[i]));
      if AllKeyed(canonical) then Array(Sort(canonical, ItemLe)) else Array(canonical)
    case Object(fields) =>
      Object(Sort(seq(|fields|, i requires 0 <= i < |fields| => Field(fields[i].key, Canon(fields[i].value))), FieldLe))
    case _ => v
  }

  function CanonField(f: Field): Field {
    Field(f.key, Canon(f.value))
  }

  ghost predicate HasText(fields: seq<Field>, key: string) {
    exists t :: Field(key, Str(t)) in fields
  }

  /** Everything but arrays, and objects that have neither a `$ref` nor a `title` text. */
  ghost predicate Orderless(v: Value) {
    !v.Array? && (v.Object? ==> HasText(v.fields, "$ref") || HasText(v.fields, "title"))
  }

  ghost predicate AllOrderless(items: seq<Value>) {
    forall i :: 0 <= i < |items| ==> Orderless(items[i])
  }

  /** What an item is sorted by first; `$ref` goes before `title`. */
  ghost predicate KeyIs(v: Value, key: string) {
    match v
    case Null => key == "null"
    case Bool(b) => key == if b then "b:true" else "b:false"
    case Number(n) => key == "n:" + n
    case Str(s) => key == "s:" + s
    case Array(_) => false
    case Object(fields) =>
      if HasText(fields, "$ref") then exists r :: Field("$ref", Str(r)) in fields && key == "ref:" + r
      else exists t :: Field("title", Str(t)) in fields && key == "title:" + t
  }

  /** The two values differ only in the order of object keys and in the order of arrays
      whose every item is orderless. */
  ghost predicate Equivalent(a: Value, b: Value) {
    match a
    case Array(xs) =>
      && b.Array?
      && |xs| == |b.items|
      && (if AllOrderless(xs) then
            exists ys: seq<Value> :: multiset(ys) == multiset(b.items) && |ys| == |xs|
              && forall i :: 0 <= i < |xs| ==> Equivalent(xs[i], ys[i])
          else
            forall i :: 0 <= i < |xs| ==> Equivalent(xs[i], b.items[i]))
    case Object(fs) =>
      && b.Object?
      && exists gs: seq<Field> :: multiset(gs) == multiset(b.fields) && |gs| == |fs|
           && forall i :: 0 <= i < |fs| ==> fs[i].key == gs[i].key && Equivalent(fs[i].value, gs[i].value)
    case _ => a == b
  }

  // ---- The orders ----

  lemma ItemLeTotal(a: Value, b: Value)
    ensures ItemLe(a, b) || ItemLe(b, a)
  {
    StringLeTotal(KeyText(a), KeyText(b));
    StringLeTotal(Text(a), Text(b));
  }

  lemma ItemLeTransitive(a: Value, b: Value, c: Value)
    requires ItemLe(a, b) && ItemLe(b, c)
    ensures ItemLe(a, c)
  {
    if KeyText(a) == KeyText(b) && KeyText(b) == KeyText(c) {
      StringLeTransitive(Text(a), Text(b), Text(c));
    } else if KeyText(a) != KeyText(b) && KeyText(b) != KeyText(c) {
      StringLeTransitive(KeyText(a), KeyText(b), KeyText(c));
      if KeyText(a) == KeyText(c) {
        StringLeAntisymmetric(KeyText(a), KeyText(b));
      }
    }
  }

  lemma ItemLeAntisymmetric(a: Value, b: Value)
    requires WellFormed(a) && WellFormed(b) && ItemLe(a, b) && ItemLe(b, a)
    ensures a == b
  {
    if KeyText(a) == KeyText(b) {
      StringLeAntisymmetric(Text(a), Text(b));
      TextInjective(a, b);
    } else {
      StringLeAntisymmetric(KeyText(a), KeyText(b));
    }
  }

  ghost function Elements<T>(s: seq<T>): set<T> {
    set x | x in s
  }

  lemma ItemsRanked(items: seq<Value>)
    requires WellFormedItems(items)
    ensures Ranks(ItemLe, Elements(items)) && Separates(ItemLe, Elements(items)) && Within(items, Elements(items))
  {
    var dom := Elements(items);
    forall x, y ensures ItemLe(x, y) || ItemLe(y, x) {
      ItemLeTotal(x, y);
    }
    forall x, y, z | ItemLe(x, y) && ItemLe(y, z) ensures ItemLe(x, z) {
      ItemLeTransitive(x, y, z);
    }
    forall x, y | x in dom && y in dom && ItemLe(x, y) && ItemLe(y, x) ensures x == y {
      ItemLeAntisymmetric(x, y);
    }
  }

  lemma FieldsRanked(fields: seq<Field>)
    requires DistinctKeys(fields)
    ensures Ranks(FieldLe, Elements(fields)) && Separates(FieldLe, Elements(fields)) && Within(fields, Elements(fields))
  {
    var dom := Elements(fields);
    forall x: Field, y: Field ensures FieldLe(x, y) || FieldLe(y, x) {
      StringLeTotal(x.key, y.key);
    }
    forall x: Field, y: Field, z: Field | FieldLe(x, y) && FieldLe(y, z) ensures FieldLe(x, z) {
      StringLeTransitive(x.key, y.key, z.key);
    }
    forall x, y | x in dom && y in dom && FieldLe(x, y) && FieldLe(y, x) ensures x == y {
      StringLeAntisymmetric(x.key, y.key);
    }
  }

  // ---- What canonicalization keeps ----

  lemma CanonArray(items: seq<Value>)
    ensures Canon(Array(items)) ==
            if AllKeyed(Map(Canon, items)) then Array(Sort(Map(Canon, items), ItemLe)) else Array(Map(Canon, items))
  {
    assert Map(Canon, items) == seq(|items|, i requires 0 <= i < |items| => Canon(items[i]));
  }

  lemma CanonObject(fields: seq<Field>)
    ensures Canon(Object(fields)) == Object(Sort(Map(CanonField, fields), FieldLe))
  {
    assert Map(CanonField, fields)
        == seq(|fields|, i requires 0 <= i < |fields| => Field(fields[i].key, Canon(fields[i].value)));
  }

  lemma {:induction false} GetOfCanonFields(fields: seq<Field>, key: string)
    ensures Get(Map(CanonField, fields), key) ==
            match Get(fields, key) case Some(v) => Some(Canon(v)) case None => None
  {
    if |fields| > 0 && fields[0].key != key {
      GetOfCanonFields(fields[1..], key);
      assert Map(CanonField, fields)[1..] == Map(CanonField, fields[1..]);
    }
  }

  lemma {:induction false} GetFinds(fields: seq<Field>, i: nat)
    requires DistinctKeys(fields) && i < |fields|
    ensures Get(fields, fields[i].key) == Some(fields[i].value)
  {
    if i > 0 {
      GetFinds(fields[1..], i - 1);
    }
  }

  lemma {:induction false} GetMisses(fields: seq<Field>, key: string)
    requires forall i :: 0 <= i < |fields| ==> fields[i].key != key
    ensures Get(fields, key) == None
  {
    if |fields| > 0 {
      GetMisses(fields[1..], key);
    }
  }

  /** A lookup does not depend on the order of the fields. */
  lemma GetRearranged(a: seq<Field>, b: seq<Field>, key: string)
    requires multiset(a) == multiset(b) && DistinctKeys(a) && DistinctKeys(b)
    ensures Get(a, key) == Get(b, key)
  {
    if i :| 0 <= i < |a| && a[i].key == key {
      var k := Locate(a, b, i);
      GetFinds(a, i);
      GetFinds(b, k);
    } else {
      forall k | 0 <= k < |b| ensures b[k].key != key {
        var i := Locate(b, a, k);
      }
      GetMisses(a, key);
      GetMisses(b, key);
    }
  }

  lemma GetIsField(fields: seq<Field>, key: string, v: Value)
    requires DistinctKeys(fields)
    ensures Get(fields, key) == Some(v) <==> Field(key, v) in fields
  {
    if i :| 0 <= i < |fields| && fields[i].key == key {
      GetFinds(fields, i);
    } else {
      GetMisses(fields, key);
    }
  }

  lemma GetIsText(fields: seq<Field>, key: string)
    requires DistinctKeys(fields)
    ensures HasText(fields, key) <==> Get(fields, key).Some? && Get(fields, key).value.Str?
    ensures forall t :: Field(key, Str(t)) in fields <==> Get(fields, key) == Some(Str(t))
  {
    forall t ensures Field(key, Str(t)) in fields <==> Get(fields, key) == Some(Str(t)) {
      GetIsField(fields, key, Str(t));
    }
  }

  /** An item has a key exactly when it is orderless, and the key is the one its own fields give. */
  lemma SortKeyExactly(v: Value)
    requires WellFormed(v)
    ensures SortKey(v).Some? <==> Orderless(v)
    ensures forall key :: SortKey(v) == Some(key) <==> KeyIs(v, key)
  {
    if v.Object? {
      GetIsText(v.fields, "$ref");
      GetIsText(v.fields, "title");
    }
  }

  lemma AllKeyedExactly(items: seq<Value>)
    requires WellFormedItems(items)
    ensures AllKeyed(items) <==> AllOrderless(items)
  {
    forall i | 0 <= i < |items| ensures SortKey(items[i]).Some? <==> Orderless(items[i]) {
      SortKeyExactly(items[i]);
    }
  }

  ghost predicate NoKey(s: seq<Field>, key: string) {
    forall i :: 0 <= i < |s| ==> s[i].key != key
  }

  lemma NoKeyRearranged(a: seq<Field>, b: seq<Field>, key: string)
    requires multiset(a) == multiset(b) && NoKey(a, key)
    ensures NoKey(b, key)
  {
    forall j | 0 <= j < |b| ensures b[j].key != key {
      var k := Locate(b, a, j);
    }
  }

  /** Insertion keeps keys distinct. */
  lemma {:induction false} InsertDistinct(f: Field, s: seq<Field>)
    requires DistinctKeys(s) && NoKey(s, f.key)
    ensures DistinctKeys(Insert(f, s, FieldLe))
  {
    if |s| > 0 && !FieldLe(f, s[0]) {
      var t := s[1..];
      InsertDistinct(f, t);
      InsertPermutes(f, t, FieldLe);
      NoKeyRearranged([f] + t, Insert(f, t, FieldLe), s[0].key);
    }
  }

  lemma {:induction false} SortDistinct(s: seq<Field>)
    requires DistinctKeys(s)
    ensures DistinctKeys(Sort(s, FieldLe))
  {
    if |s| > 0 {
      var t := s[1..];
      SortDistinct(t);
      SortPermutes(t, FieldLe);
      NoKeyRearranged(t, Sort(t, FieldLe), s[0].key);
      InsertDistinct(s[0], Sort(t, FieldLe));
    }
  }

  lemma {:induction false} CanonWellFormed(v: Value)
    requires WellFormed(v)
    ensures WellFormed(Canon(v))
  {
    match v {
      case Array(items) =>
        CanonArray(items);
        var cs := Map(Canon, items);
        forall i | 0 <= i < |cs| ensures WellFormed(cs[i]) {
          CanonWellFormed(items[i]);
        }
        SortPermutes(cs, ItemLe);
        var sorted := Sort(cs, ItemLe);
        forall i | 0 <= i < |sorted| ensures WellFormed(sorted[i]) {
          var k := Locate(sorted, cs, i);
        }
      case Object(fields) =>
        CanonObject(fields);
        var cs := Map(CanonField, fields);
        forall i | 0 <= i < |cs| ensures WellFormed(cs[i].value) {
          CanonWellFormed(fields[i].value);
        }
        SortPermutes(cs, FieldLe);
        var sorted := Sort(cs, FieldLe);
        forall i | 0 <= i < |sorted| ensures WellFormed(sorted[i].value) {
          var k := Locate(sorted, cs, i);
        }
        SortDistinct(cs);
      case _ =>
    }
  }

  lemma CanonGet(fields: seq<Field>, key: string)
    requires WellFormed(Object(fields))
    ensures Get(Sort(Map(CanonField, fields), FieldLe), key) == Get(Map(CanonField, fields), key)
  {
    CanonObject(fields);
    var cs := Map(CanonField, fields);
    SortPermutes(cs, FieldLe);
    SortDistinct(cs);
    GetRearranged(Sort(cs, FieldLe), cs, key);
  }

  /** An item keeps its sort key. */
  lemma CanonSortKey(v: Value)
    requires WellFormed(v)
    ensures SortKey(Canon(v)) == SortKey(v)
  {
    match v {
      case Array(items) =>
        CanonArray(items);
      case Object(fields) =>
        CanonObject(fields);
        CanonGet(fields, "$ref");
        CanonGet(fields, "title");
        GetOfCanonFields(fields, "$ref");
        GetOfCanonFields(fields, "title");
      case _ =>
    }
  }

  lemma CanonAllKeyed(items: seq<Value>)
    requires WellFormedItems(items)
    ensures AllKeyed(Map(Canon, items)) <==> AllKeyed(items)
  {
    forall i | 0 <= i < |items| ensures SortKey(Map(Canon, items)[i]) == SortKey(items[i]) {
      CanonSortKey(items[i]);
    }
    if AllKeyed(Map(Canon, items)) {
      forall i | 0 <= i < |items| ensures SortKey(items[i]).Some? {
        assert SortKey(Map(Canon, items)[i]).Some?;
      }
    }
  }

  lemma AllKeyedRearranged(a: seq<Value>, b: seq<Value>)
    requires multiset(a) == multiset(b) && AllKeyed(a)
    ensures AllKeyed(b)
  {
    forall i | 0 <= i < |b| ensures SortKey(b[i]).Some? {
      var k := Locate(b, a, i);
    }
  }

  // ---- The normal form decides equivalence ----

  lemma CanonItemsWellFormed(items: seq<Value>)
    requires WellFormedItems(items)
    ensures WellFormedItems(Map(Canon, items))
  {
    forall i | 0 <= i < |items| ensures WellFormed(Map(Canon, items)[i]) {
      CanonWellFormed(items[i]);
    }
  }

  lemma {:induction false} EqualFormsEquivalent(a: Value, b: Value)
    requires WellFormed(a) && WellFormed(b) && Canon(a) == Canon(b)
    ensures Equivalent(a, b)
    decreases a
  {
    match a {
      case Array(xs) =>
        CanonArray(xs);
        var ys := b.items;
        CanonArray(ys);
        var cx, cy := Map(Canon, xs), Map(Canon, ys);
        SortPermutes(cx, ItemLe);
        SortPermutes(cy, ItemLe);
        CanonAllKeyed(xs);
        AllKeyedExactly(xs);
        if AllKeyed(xs) {
          assert multiset(cx) == multiset(cy);
          var zs := Rearrange(Canon, xs, ys);
          SameElements(zs, ys);
          forall i | 0 <= i < |xs| ensures Equivalent(xs[i], zs[i]) {
            var k := Locate(zs, ys, i);
            assert Map(Canon, xs)[i] == Map(Canon, zs)[i];
            EqualFormsEquivalent(xs[i], zs[i]);
          }
        } else {
          if AllKeyed(cy) {
            AllKeyedRearranged(cy, cx);
          }
          forall i | 0 <= i < |xs| ensures Equivalent(xs[i], ys[i]) {
            assert cx[i] == cy[i];
            EqualFormsEquivalent(xs[i], ys[i]);
          }
        }
      case Object(fs) =>
        CanonObject(fs);
        var gs := b.fields;
        CanonObject(gs);
        SortPermutes(Map(CanonField, fs), FieldLe);
        SortPermutes(Map(CanonField, gs), FieldLe);
        var hs := Rearrange(CanonField, fs, gs);
        SameElements(hs, gs);
        forall i | 0 <= i < |fs| ensures fs[i].key == hs[i].key && Equivalent(fs[i].value, hs[i].value) {
          var k := Locate(hs, gs, i);
          assert Map(CanonField, fs)[i] == Map(CanonField, hs)[i];
          EqualFormsEquivalent(fs[i].value, hs[i].value);
        }
      case _ =>
    }
  }

  lemma {:induction false} EquivalentEqualForms(a: Value, b: Value)
    requires WellFormed(a) && WellFormed(b) && Equivalent(a, b)
    ensures Canon(a) == Canon(b)
    decreases a, 1
  {
    match a {
      case Array(xs) =>
        AllKeyedExactly(xs);
        if AllKeyed(xs) {
          var ys: seq<Value> :| multiset(ys) == multiset(b.items) && |ys| == |xs|
            && forall i :: 0 <= i < |xs| ==> Equivalent(xs[i], ys[i]);
          KeyedEqualForms(xs, ys, b.items);
        } else {
          CanonArray(xs);
          CanonArray(b.items);
          forall i | 0 <= i < |xs| ensures Canon(xs[i]) == Canon(b.items[i]) {
            EquivalentEqualForms(xs[i], b.items[i]);
          }
          assert Map(Canon, xs) == Map(Canon, b.items);
        }
      case Object(fs) =>
        var gs: seq<Field> :| multiset(gs) == multiset(b.fields) && |gs| == |fs|
          && forall i :: 0 <= i < |fs| ==> fs[i].key == gs[i].key && Equivalent(fs[i].value, gs[i].value);
        ObjectEqualForms(fs, gs, b.fields);
      case _ =>
    }
  }

  lemma {:induction false} KeyedEqualForms(xs: seq<Value>, ys: seq<Value>, zs: seq<Value>)
    requires WellFormedItems(xs) && WellFormedItems(zs) && AllKeyed(xs)
    requires |ys| == |xs| && multiset(ys) == multiset(zs)
    requires forall i :: 0 <= i < |xs| ==> Equivalent(xs[i], ys[i])
    ensures Canon(Array(xs)) == Canon(Array(zs))
    decreases xs, 0
  {
    var cx, cz := Map(Canon, xs), Map(Canon, zs);
    forall i | 0 <= i < |xs| ensures Canon(xs[i]) == Canon(ys[i]) {
      var k := Locate(ys, zs, i);
      EquivalentEqualForms(xs[i], ys[i]);
    }
    assert cx == Map(Canon, ys);
    MapRearranged(Canon, ys, zs);
    CanonAllKeyed(xs);
    AllKeyedRearranged(cx, cz);
    CanonItemsWellFormed(xs);
    ItemsRanked(cx);
    SortUnique(cx, cz, ItemLe, Elements(cx));
    CanonArray(xs);
    CanonArray(zs);
  }

  lemma {:induction false} ObjectEqualForms(fs: seq<Field>, gs: seq<Field>, hs: seq<Field>)
    requires WellFormed(Object(fs)) && WellFormed(Object(hs))
    requires |gs| == |fs| && multiset(gs) == multiset(hs)
    requires forall i :: 0 <= i < |fs| ==> fs[i].key == gs[i].key && Equivalent(fs[i].value, gs[i].value)
    ensures Canon(Object(fs)) == Canon(Object(hs))
    decreases fs, 0
  {
    var cf, ch := Map(CanonField, fs), Map(CanonField, hs);
    forall i | 0 <= i < |fs| ensures CanonField(fs[i]) == CanonField(gs[i]) {
      var k := Locate(gs, hs, i);
      EquivalentEqualForms(fs[i].value, gs[i].value);
    }
    assert cf == Map(CanonField, gs);
    MapRearranged(CanonField, gs, hs);
    FieldsRanked(cf);
    SortUnique(cf, ch, FieldLe, Elements(cf));
    CanonObject(fs);
    CanonObject(hs);
  }

  /** Two values have the same canonical form exactly when they differ only by the order of object
      keys and of arrays whose every item is orderless. */
  lemma CanonDecidesEquivalence(a: Value, b: Value)
    requires WellFormed(a) && WellFormed(b)
    ensures Canon(a) == Canon(b) <==> Equivalent(a, b)
  {
    if Canon(a) == Canon(b) {
      EqualFormsEquivalent(a, b);
    }
    if Equivalent(a, b) {
      EquivalentEqualForms(a, b);
    }
  }

  ghost predicate ItemsInOrder(a: Value, b: Value) {
    forall j, k :: KeyIs(a, j) && KeyIs(b, k) ==> if j == k then StringLe(Text(a), Text(b)) else StringLe(j, k)
  }

  lemma ItemLeInOrder(a: Value, b: Value)
    requires WellFormed(a) && WellFormed(b) && ItemLe(a, b)
    ensures ItemsInOrder(a, b)
  {
    SortKeyExactly(a);
    SortKeyExactly(b);
  }

  /** The form of an array: its items' forms, by key and then by text when all are orderless, and
      otherwise in their own order. */
  lemma ArrayForm(items: seq<Value>)
    requires WellFormedItems(items)
    ensures var out := Canon(Array(items));
      && out.Array? && |out.items| == |items|
      && (AllOrderless(items) ==>
            && multiset(out.items) == multiset(seq(|items|, i requires 0 <= i < |items| => Canon(items[i])))
            && forall i, j :: 0 <= i < j < |items| ==> ItemsInOrder(out.items[i], out.items[j]))
      && (!AllOrderless(items) ==> forall i :: 0 <= i < |items| ==> out.items[i] == Canon(items[i]))
  {
    var cs := Map(Canon, items);
    CanonArray(items);
    CanonAllKeyed(items);
    AllKeyedExactly(items);
    if AllKeyed(items) {
      SortedItems(items);
      assert cs == seq(|items|, i requires 0 <= i < |items| => Canon(items[i]));
    }
  }

  lemma SortedItems(items: seq<Value>)
    requires WellFormedItems(items)
    ensures var cs := Map(Canon, items);
      var out := Sort(cs, ItemLe);
      && |out| == |items| && multiset(out) == multiset(cs)
      && forall i, j :: 0 <= i < j < |out| ==> ItemsInOrder(out[i], out[j])
  {
    var cs := Map(Canon, items);
    var out := Sort(cs, ItemLe);
    CanonItemsWellFormed(items);
    ItemsRanked(cs);
    SortPermutes(cs, ItemLe);
    SortSorted(cs, ItemLe, Elements(cs));
    forall i, j | 0 <= i < j < |out| ensures ItemsInOrder(out[i], out[j]) {
      var k := Locate(out, cs, i);
      var l := Locate(out, cs, j);
      ItemLeInOrder(out[i], out[j]);
    }
  }

  /** The form of an object: its fields' forms in the order of their keys. */
  lemma ObjectForm(fields: seq<Field>)
    requires WellFormed(Object(fields))
    ensures var out := Canon(Object(fields));
      && out.Object?
      && multiset(out.fields)
         == multiset(seq(|fields|, i requires 0 <= i < |fields| => Field(fields[i].key, Canon(fields[i].value))))
      && forall i, j :: 0 <= i < j < |out.fields| ==> StringLe(out.fields[i].key, out.fields[j].key)
  {
    CanonObject(fields);
    var cs := Map(CanonField, fields);
    assert cs == seq(|fields|, i requires 0 <= i < |fields| => Field(fields[i].key, Canon(fields[i].value)));
    FieldsRanked(cs);
    SortPermutes(cs, FieldLe);
    SortSorted(cs, FieldLe, Elements(cs));
  }

  /** Reordering an array of orderless items does not change its form. */
  lemma ReorderedArray(xs: seq<Value>, ys: seq<Value>)
    requires WellFormedItems(xs) && WellFormedItems(ys) && multiset(xs) == multiset(ys) && AllOrderless(xs)
    ensures Canon(Array(xs)) == Canon(Array(ys))
  {
    AllKeyedExactly(xs);
    SameElements(xs, ys);
    forall i | 0 <= i < |xs| ensures Equivalent(xs[i], xs[i]) {
      CanonDecidesEquivalence(xs[i], xs[i]);
    }
    KeyedEqualForms(xs, xs, ys);
  }

  /** Canonicalizing twice changes nothing more, and the result is equivalent to the input. */
  lemma {:induction false} CanonIdempotent(v: Value)
    requires WellFormed(v)
    ensures Canon(Canon(v)) == Canon(v)
    ensures Equivalent(v, Canon(v))
  {
    CanonFixed(v);
    CanonWellFormed(v);
    CanonDecidesEquivalence(v, Canon(v));
  }

  lemma {:induction false} CanonFixed(v: Value)
    requires WellFormed(v)
    ensures Canon(Canon(v)) == Canon(v)
  {
    match v {
      case Array(items) =>
        CanonArray(items);
        var cs := Map(Canon, items);
        forall i | 0 <= i < |cs| ensures Canon(cs[i]) == cs[i] {
          CanonFixed(items[i]);
        }
        CanonItemsWellFormed(items);
        ItemsRanked(cs);
        SortPermutes(cs, ItemLe);
        SortSorted(cs, ItemLe, Elements(cs));
        var out := if AllKeyed(cs) then Sort(cs, ItemLe) else cs;
        forall i | 0 <= i < |out| ensures Canon(out[i]) == out[i] {
          var k := Locate(out, cs, i);
        }
        assert Map(Canon, out) == out;
        CanonArray(out);
        if AllKeyed(cs) {
          SortSortedIdentity(out, ItemLe, Elements(cs));
          AllKeyedRearranged(cs, out);
        }
      case Object(fields) =>
        CanonObject(fields);
        var cs := Map(CanonField, fields);
        forall i | 0 <= i < |cs| ensures CanonField(cs[i]) == cs[i] {
          CanonFixed(fields[i].value);
        }
        FieldsRanked(cs);
        SortPermutes(cs, FieldLe);
        SortSorted(cs, FieldLe, Elements(cs));
        var out := Sort(cs, FieldLe);
        forall i | 0 <= i < |out| ensures CanonField(out[i]) == out[i] {
          var k := Locate(out, cs, i);
        }
        assert Map(CanonField, out) == out;
        CanonObject(out);
        SortSortedIdentity(out, FieldLe, Elements(cs));
      case _ =>
    }
  }

  // ---- The procedure ----

  type Decorated = (Value, (string, string))

  function Decorate(item: Value): Decorated {
    (item, (KeyText(item), Text(item)))
  }

  predicate DecoratedLe(a: Decorated, b: Decorated) {
    if a.1.0 == b.1.0 then StringLe(a.1.1, b.1.1) else StringLe(a.1.0, b.1.0)
  }

  /** The array case: keys are collected until one is missing; only a full set of keys sorts. */
  method SortKeyed(items: seq<Value>) returns (r: seq<Value>)
    ensures r == if AllKeyed(items) then Sort(items, ItemLe) else items
  {
    var sortable: seq<(string, string)> := [];
    for i := 0 to |items|
      invariant |sortable| == i
      invariant forall j :: 0 <= j < i ==> SortKey(items[j]).Some? && sortable[j] == Decorate(items[j]).1
    {
      match SortKey(items[i]) {
        case None => return items;
        case Some(key) => sortable := sortable + [(key, Text(items[i]))];
      }
    }
    var zipped := seq(|items|, i requires 0 <= i < |items| => (items[i], sortable[i]));
    assert zipped == Map(Decorate, items);
    SortOfMap(Decorate, items, ItemLe, DecoratedLe);
    var sorted := Sort(zipped, DecoratedLe);
    r := seq(|sorted|, i requires 0 <= i < |sorted| => sorted[i].0);
    assert r == Sort(items, ItemLe);
  }

  /** `canonicalize_json`. */
  method Canonicalize(value: Value) returns (r: Value)
    requires WellFormed(value)
    ensures r == Canon(value)
    decreases value, 1
  {
    match value {
      case Array(items) =>
        var canonical := CanonicalizeItems(value, items);
        var sorted := SortKeyed(canonical);
        CanonArray(items);
        r := Array(sorted);
      case Object(fields) =>
        var sorted := CanonicalizeEntries(value, fields);
        CanonObject(fields);
        r := Object(sorted);
      case _ =>
        r := value;
    }
  }

  method CanonicalizeItems(ghost owner: Value, items: seq<Value>) returns (canonical: seq<Value>)
    requires owner == Array(items) && WellFormed(owner)
    ensures canonical == Map(Canon, items)
    decreases owner, 0
  {
    canonical := [];
    for i := 0 to |items|
      invariant canonical == Map(Canon, items[..i])
    {
      var c := Canonicalize(items[i]);
      canonical := canonical + [c];
    }
    assert items[..|items|] == items;
  }

  /** The entries are sorted first and canonicalized after. */
  method CanonicalizeEntries(ghost owner: Value, fields: seq<Field>) returns (sorted: seq<Field>)
    requires owner == Object(fields) && WellFormed(owner)
    ensures sorted == Sort(Map(CanonField, fields), FieldLe)
    decreases owner, 0
  {
    var entries := Sort(fields, FieldLe);
    SortPermutes(fields, FieldLe);
    sorted := [];
    for i := 0 to |entries|
      invariant sorted == Map(CanonField, entries[..i])
    {
      var k := Locate(entries, fields, i);
      var child := Canonicalize(entries[i].value);
      sorted := sorted + [Field(entries[i].key, child)];
    }
    assert entries[..|entries|] == entries;
    SortOfMap(CanonField, fields, FieldLe, FieldLe);
  }
}
