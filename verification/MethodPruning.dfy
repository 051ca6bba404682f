/** Dropping method variants from schemas: the recursive prune of experimental methods, and the
    stripping of v1 methods together with the definitions only they used. */
module MethodPruning {
  import opened SchemaJson
  import opened RefRewrites
  import opened Reachability
  import opened Wrappers

  function Field(v: Json, key: string): Option<Json> {
    if v.Obj? && key in v.fields then Some(v.fields[key]) else None
  }

  // ---- Experimental methods ----

  /** The schema of the `method` property, when there is one and it is an object. */
  function MethodSchema(v: Json): Option<Json> {
    match Field(v, "properties")
    case Some(Obj(properties)) =>
      (match Field(Obj(properties), "method")
       case Some(Obj(schema)) => Some(Obj(schema))
       case _ => None)
    case _ => None
  }

  /** `is_experimental_method_variant`. */
  predicate IsVariant(v: Json, methods: set<string>) {
    match MethodSchema(v)
    case None => false
    case Some(schema) =>
      match Field(schema, "const")
      case Some(Str(m)) => m in methods
      case _ =>
        match Field(schema, "enum")
        case Some(Arr(values)) => |values| == 1 && values[0].Str? && values[0].s in methods
        case _ => false
  }

  const METHOD := [Key("properties"), Key("method")]

  /** The value's `method` property is the constant `m`. */
  predicate IsConstant(v: Json, m: string) {
    Descend(v, METHOD + [Key("const")]) == Some(Str(m))
  }

  ghost predicate NoConstant(v: Json) {
    forall m :: !IsConstant(v, m)
  }

  lemma Descends(v: Json, k: string, rest: seq<Hop>)
    ensures Descend(v, [Key(k)] + rest) ==
            match Field(v, k) case Some(x) => Descend(x, rest) case None => None
  {
    assert ([Key(k)] + rest)[1..] == rest;
  }

  lemma MethodAt(v: Json, rest: seq<Hop>)
    ensures Descend(v, METHOD + rest) ==
            match Descend(v, METHOD) case Some(x) => Descend(x, rest) case None => None
  {
    assert METHOD + rest == [Key("properties")] + ([Key("method")] + rest);
    assert METHOD == [Key("properties")] + ([Key("method")] + []);
    Descends(v, "properties", [Key("method")] + rest);
    Descends(v, "properties", [Key("method")] + []);
    match Field(v, "properties") {
      case Some(x) =>
        Descends(x, "method", rest);
        Descends(x, "method", []);
      case None =>
    }
  }

  lemma MethodSchemaExactly(v: Json, rest: seq<Hop>)
    requires |rest| > 0 && rest[0].Key?
    ensures Descend(v, METHOD + rest) ==
            match MethodSchema(v) case Some(x) => Descend(x, rest) case None => None
  {
    MethodAt(v, rest);
    assert METHOD == [Key("properties")] + ([Key("method")] + []);
    Descends(v, "properties", [Key("method")] + []);
    match Field(v, "properties") {
      case Some(x) => Descends(x, "method", []);
      case None =>
    }
  }

  /** A variant is a value whose `method` property is a listed constant, or is no constant and allows
      one listed method only. */
  lemma VariantExactly(v: Json, methods: set<string>)
    ensures IsVariant(v, methods)
       <==> exists m :: m in methods
              && (IsConstant(v, m) || (NoConstant(v) && Descend(v, METHOD + [Key("enum")]) == Some(Arr([Str(m)]))))
  {
    MethodSchemaExactly(v, [Key("const")]);
    MethodSchemaExactly(v, [Key("enum")]);
    match MethodSchema(v) {
      case None =>
      case Some(x) =>
        OneKey(x, "const");
        OneKey(x, "enum");
        OneMethod(x, methods);
        ConstantField(v, x);
    }
  }

  lemma OneKey(x: Json, k: string)
    ensures Descend(x, [Key(k)]) == Field(x, k)
  {
    assert [Key(k)] == [Key(k)] + [];
    Descends(x, k, []);
  }

  lemma ConstantField(v: Json, x: Json)
    requires Descend(v, METHOD + [Key("const")]) == Field(x, "const")
    ensures forall m :: IsConstant(v, m) <==> Field(x, "const") == Some(Str(m))
    ensures NoConstant(v) <==> !(Field(x, "const").Some? && Field(x, "const").value.Str?)
  {
    if Field(x, "const").Some? && Field(x, "const").value.Str? {
      assert IsConstant(v, Field(x, "const").value.s);
    }
  }

  lemma OneMethod(x: Json, methods: set<string>)
    ensures (match Field(x, "enum")
             case Some(Arr(values)) => |values| == 1 && values[0].Str? && values[0].s in methods
             case _ => false)
       <==> exists m :: m in methods && Field(x, "enum") == Some(Arr([Str(m)]))
  {
    match Field(x, "enum") {
      case Some(Arr(values)) =>
        if |values| == 1 && values[0].Str? {
          assert values == [Str(values[0].s)];
        }
      case _ =>
    }
  }

  /** `prune_experimental_methods_inner`. */
  function Prune(v: Json, methods: set<string>): Json {
    match v
    case Arr(items) => Arr(PruneItems(items, methods))
    case Obj(fields) => Obj(map k | k in fields :: Prune(fields[k], methods))
    case _ => v
  }

  function PruneItems(items: seq<Json>, methods: set<string>): seq<Json> {
    if |items| == 0 then []
    else (if IsVariant(items[0], methods) then [] else [Prune(items[0], methods)]) + PruneItems(items[1..], methods)
  }

  /** No array at any depth holds an experimental variant. */
  ghost predicate NoVariant(v: Json, methods: set<string>) {
    match v
    case Arr(items) => forall i :: 0 <= i < |items| ==> !IsVariant(items[i], methods) && NoVariant(items[i], methods)
    case Obj(fields) => forall k :: k in fields ==> NoVariant(fields[k], methods)
    case _ => true
  }

  function WithoutVariants(items: seq<Json>, methods: set<string>): seq<Json> {
    if |items| == 0 then []
    else (if IsVariant(items[0], methods) then [] else [items[0]]) + WithoutVariants(items[1..], methods)
  }

  /** `rest` is what is left of `items`, in order and unchanged: the items at the indices `kept`, which are
      those of the items that are not `gone`. */
  ghost predicate LeftInOrder(items: seq<Json>, rest: seq<Json>, kept: seq<nat>, gone: Json -> bool) {
    Increasing(kept) && Selects(items, rest, kept, gone) && Covers(items, kept, gone)
  }

  predicate Increasing(kept: seq<nat>) {
    forall i, j :: 0 <= i < j < |kept| ==> kept[i] < kept[j]
  }

  predicate Selects(items: seq<Json>, rest: seq<Json>, kept: seq<nat>, gone: Json -> bool) {
    && |rest| == |kept|
    && forall i :: 0 <= i < |kept| ==> kept[i] < |items| && rest[i] == items[kept[i]] && !gone(items[kept[i]])
  }

  predicate Covers(items: seq<Json>, kept: seq<nat>, gone: Json -> bool) {
    forall i :: 0 <= i < |items| && !gone(items[i]) ==> i in kept
  }

  function Later(kept: seq<nat>): seq<nat> {
    seq(|kept|, i requires 0 <= i < |kept| => kept[i] + 1)
  }

  lemma LaterHolds(kept: seq<nat>, i: nat)
    requires i in kept
    ensures i + 1 in Later(kept)
  {
    var j :| 0 <= j < |kept| && kept[j] == i;
    assert Later(kept)[j] == i + 1;
  }

  lemma HeadGone(items: seq<Json>, rest: seq<Json>, kept: seq<nat>, gone: Json -> bool)
    requires |items| > 0 && gone(items[0]) && LeftInOrder(items[1..], rest, kept, gone)
    ensures LeftInOrder(items, rest, Later(kept), gone)
  {
    forall i | 0 <= i < |items| && !gone(items[i]) ensures i in Later(kept) {
      assert items[1..][i - 1] == items[i];
      LaterHolds(kept, i - 1);
    }
  }

  lemma HeadIncreasing(kept: seq<nat>)
    requires Increasing(kept)
    ensures Increasing([0] + Later(kept))
  {
  }

  lemma HeadSelects(items: seq<Json>, rest: seq<Json>, kept: seq<nat>, gone: Json -> bool)
    requires |items| > 0 && !gone(items[0]) && Selects(items[1..], rest, kept, gone)
    ensures Selects(items, [items[0]] + rest, [0] + Later(kept), gone)
  {
  }

  lemma HeadCovers(items: seq<Json>, kept: seq<nat>, gone: Json -> bool)
    requires |items| > 0 && Covers(items[1..], kept, gone)
    ensures Covers(items, [0] + Later(kept), gone)
  {
    forall i | 0 <= i < |items| && !gone(items[i]) ensures i in [0] + Later(kept) {
      if i > 0 {
        assert items[1..][i - 1] == items[i];
        LaterHolds(kept, i - 1);
      }
    }
  }

  lemma LeftBehind(items: seq<Json>, rest: seq<Json>, kept: seq<nat>, gone: Json -> bool) returns (kept': seq<nat>)
    requires |items| > 0 && LeftInOrder(items[1..], rest, kept, gone)
    ensures LeftInOrder(items, (if gone(items[0]) then [] else [items[0]]) + rest, kept', gone)
  {
    if gone(items[0]) {
      kept' := Later(kept);
      HeadGone(items, rest, kept, gone);
      assert [] + rest == rest;
    } else {
      kept' := [0] + Later(kept);
      HeadIncreasing(kept);
      HeadSelects(items, rest, kept, gone);
      HeadCovers(items, kept, gone);
    }
  }

  lemma {:induction false} SurvivorsInOrder(items: seq<Json>, methods: set<string>) returns (kept: seq<nat>)
    ensures LeftInOrder(items, WithoutVariants(items, methods), kept, v => IsVariant(v, methods))
  {
    if |items| == 0 {
      kept := [];
    } else {
      var gone := v => IsVariant(v, methods);
      var rest := SurvivorsInOrder(items[1..], methods);
      assert LeftInOrder(items[1..], WithoutVariants(items[1..], methods), rest, gone);
      kept := LeftBehind(items, WithoutVariants(items[1..], methods), rest, gone);
    }
  }

  /** Not a variant, but its `enum` list holds variants and, besides them, one experimental method:
      pruning the list leaves that method alone in it. */
  predicate Unmasks(v: Json, methods: set<string>) {
    match MethodSchema(v)
    case None => false
    case Some(schema) =>
      && (match Field(schema, "const") case Some(Str(_)) => false case _ => true)
      && match Field(schema, "enum")
         case Some(Arr(values)) =>
           var rest := WithoutVariants(values, methods);
           |values| != 1 && |rest| == 1 && rest[0].Str? && rest[0].s in methods
         case _ => false
  }

  /** No array item that pruning keeps is unmasked by it. */
  ghost predicate NothingUnmasked(v: Json, methods: set<string>) {
    match v
    case Arr(items) =>
      forall i :: 0 <= i < |items| && !IsVariant(items[i], methods) ==>
        !Unmasks(items[i], methods) && NothingUnmasked(items[i], methods)
    case Obj(fields) => forall k :: k in fields ==> NothingUnmasked(fields[k], methods)
    case _ => true
  }

  lemma {:induction false} SurvivorsPruned(items: seq<Json>, methods: set<string>)
    ensures var kept := WithoutVariants(items, methods);
      && |PruneItems(items, methods)| == |kept|
      && forall i :: 0 <= i < |kept| ==> PruneItems(items, methods)[i] == Prune(kept[i], methods)
  {
    if |items| > 0 {
      SurvivorsPruned(items[1..], methods);
    }
  }

  lemma {:induction false} SurvivorsAre(items: seq<Json>, methods: set<string>, x: Json)
    ensures x in WithoutVariants(items, methods) <==> x in items && !IsVariant(x, methods)
  {
    if |items| > 0 {
      SurvivorsAre(items[1..], methods, x);
      assert items == [items[0]] + items[1..];
    }
  }

  lemma {:induction false} SurvivorsCount(items: seq<Json>, methods: set<string>)
    ensures |WithoutVariants(items, methods)| <= |items|
    ensures |WithoutVariants(items, methods)| == |items| <==>
      forall i :: 0 <= i < |items| ==> !IsVariant(items[i], methods)
    ensures |WithoutVariants(items, methods)| == |items| ==> WithoutVariants(items, methods) == items
  {
    if |items| > 0 {
      SurvivorsCount(items[1..], methods);
      assert items == [items[0]] + items[1..];
      assert forall i :: 0 < i < |items| ==> items[i] == items[1..][i - 1];
      assert forall i :: 0 <= i < |items| - 1 ==> items[1..][i] == items[i + 1];
    }
  }

  /** The items that survive are the non-variants, in order, each pruned. */
  lemma PruneItemsSurvive(items: seq<Json>, methods: set<string>)
    ensures var kept := WithoutVariants(items, methods);
      && |PruneItems(items, methods)| == |kept|
      && forall i :: 0 <= i < |kept| ==> PruneItems(items, methods)[i] == Prune(kept[i], methods)
    ensures forall x :: x in WithoutVariants(items, methods) <==> x in items && !IsVariant(x, methods)
    ensures |WithoutVariants(items, methods)| <= |items|
    ensures |WithoutVariants(items, methods)| == |items| <==>
      forall i :: 0 <= i < |items| ==> !IsVariant(items[i], methods)
    ensures |WithoutVariants(items, methods)| == |items| ==> WithoutVariants(items, methods) == items
  {
    SurvivorsPruned(items, methods);
    SurvivorsCount(items, methods);
    forall x ensures x in WithoutVariants(items, methods) <==> x in items && !IsVariant(x, methods) {
      SurvivorsAre(items, methods, x);
    }
  }

  lemma PrunedField(v: Json, key: string, methods: set<string>)
    ensures Field(Prune(v, methods), key) ==
            match Field(v, key) case Some(x) => Some(Prune(x, methods)) case None => None
  {
  }

  lemma PrunedMethodSchema(v: Json, methods: set<string>)
    ensures MethodSchema(Prune(v, methods)) ==
            match MethodSchema(v) case Some(x) => Some(Prune(x, methods)) case None => None
  {
    PrunedField(v, "properties", methods);
    match Field(v, "properties") {
      case Some(Obj(properties)) =>
        PrunedField(Obj(properties), "method", methods);
      case _ =>
    }
  }

  /** What pruning does to a list of method names. */
  lemma PrunedNames(values: seq<Json>, methods: set<string>)
    ensures var rest, pruned := WithoutVariants(values, methods), PruneItems(values, methods);
      (|pruned| == 1 && pruned[0].Str? && pruned[0].s in methods) <==>
        (|rest| == 1 && rest[0].Str? && rest[0].s in methods)
    ensures |values| == 1 && values[0].Str? ==> WithoutVariants(values, methods) == values
    ensures |values| == 1 && !values[0].Str? ==>
      var rest := WithoutVariants(values, methods); |rest| == 1 ==> !rest[0].Str?
  {
    PruneItemsSurvive(values, methods);
    if |values| == 1 {
      assert WithoutVariants(values[1..], methods) == [];
    }
  }

  /** A pruned value is a variant exactly when it was one or was unmasked. */
  lemma PrunedVariant(v: Json, methods: set<string>)
    ensures IsVariant(Prune(v, methods), methods) <==> IsVariant(v, methods) || Unmasks(v, methods)
  {
    PrunedMethodSchema(v, methods);
    match MethodSchema(v) {
      case Some(schema) =>
        PrunedField(schema, "const", methods);
        PrunedField(schema, "enum", methods);
        match Field(schema, "enum") {
          case Some(Arr(values)) => PrunedNames(values, methods);
          case _ =>
        }
      case None =>
    }
  }

  lemma NoVariantCons(x: Json, rest: seq<Json>, methods: set<string>)
    ensures NoVariant(Arr([x] + rest), methods)
       <==> !IsVariant(x, methods) && NoVariant(x, methods) && NoVariant(Arr(rest), methods)
  {
    var all := [x] + rest;
    assert forall i :: 0 <= i < |rest| ==> rest[i] == all[i + 1];
    assert forall i :: 1 <= i < |all| ==> all[i] == rest[i - 1];
    assert all[0] == x;
  }

  lemma NothingUnmaskedCons(items: seq<Json>, methods: set<string>)
    requires |items| > 0
    ensures NothingUnmasked(Arr(items), methods)
       <==> && (IsVariant(items[0], methods) || (!Unmasks(items[0], methods) && NothingUnmasked(items[0], methods)))
            && NothingUnmasked(Arr(items[1..]), methods)
  {
    var rest := items[1..];
    assert forall i :: 0 <= i < |rest| ==> rest[i] == items[i + 1];
    assert forall i :: 1 <= i < |items| ==> items[i] == rest[i - 1];
  }

  lemma {:induction false} PruneCompleteItems(items: seq<Json>, methods: set<string>)
    ensures NoVariant(Arr(PruneItems(items, methods)), methods) <==> NothingUnmasked(Arr(items), methods)
    decreases items, 0
  {
    if |items| > 0 {
      PruneCompleteItems(items[1..], methods);
      NothingUnmaskedCons(items, methods);
      if !IsVariant(items[0], methods) {
        PrunedVariant(items[0], methods);
        PruneComplete(items[0], methods);
        NoVariantCons(Prune(items[0], methods), PruneItems(items[1..], methods), methods);
      } else {
        assert PruneItems(items, methods) == PruneItems(items[1..], methods);
      }
    }
  }

  lemma {:induction false} PruneComplete(v: Json, methods: set<string>)
    ensures NoVariant(Prune(v, methods), methods) <==> NothingUnmasked(v, methods)
    decreases v, 1
  {
    match v {
      case Arr(items) =>
        PruneCompleteItems(items, methods);
      case Obj(fields) =>
        forall k | k in fields
          ensures NoVariant(Prune(fields[k], methods), methods) <==> NothingUnmasked(fields[k], methods)
        {
          PruneComplete(fields[k], methods);
        }
        var out := Prune(v, methods).fields;
        assert forall k :: k in fields ==> out[k] == Prune(fields[k], methods);
      case _ =>
    }
  }

  /** Pruning leaves a value alone exactly when it holds no variant. */
  lemma {:induction false} PruneFixed(v: Json, methods: set<string>)
    ensures Prune(v, methods) == v <==> NoVariant(v, methods)
  {
    match v {
      case Arr(items) =>
        PruneItemsSurvive(items, methods);
        forall i | 0 <= i < |items| ensures Prune(items[i], methods) == items[i] <==> NoVariant(items[i], methods) {
          PruneFixed(items[i], methods);
        }
        if Prune(v, methods) == v {
          forall i | 0 <= i < |items| ensures NoVariant(items[i], methods) {
            assert PruneItems(items, methods)[i] == Prune(items[i], methods);
          }
        }
      case Obj(fields) =>
        forall k | k in fields ensures Prune(fields[k], methods) == fields[k] <==> NoVariant(fields[k], methods) {
          PruneFixed(fields[k], methods);
        }
        var out := Prune(v, methods).fields;
        assert forall k :: k in fields ==> out[k] == Prune(fields[k], methods);
        if Prune(v, methods) == v {
          assert out == fields;
        }
      case _ =>
    }
  }

  /** Pruning once removes every experimental variant, and pruning twice adds nothing, exactly when
      no kept item is unmasked. */
  lemma PruneCorrect(v: Json, methods: set<string>)
    ensures NoVariant(Prune(v, methods), methods) <==> NothingUnmasked(v, methods)
    ensures Prune(Prune(v, methods), methods) == Prune(v, methods) <==> NothingUnmasked(v, methods)
  {
    PruneComplete(v, methods);
    PruneFixed(Prune(v, methods), methods);
  }

  predicate Scalar(v: Json) {
    !v.Arr? && !v.Obj?
  }

  /** Every `enum` list of a `method` property holds only scalars. */
  ghost predicate ScalarMethodEnums(v: Json) {
    && (match MethodSchema(v)
        case Some(schema) =>
          (match Field(schema, "enum")
           case Some(Arr(values)) => forall i :: 0 <= i < |values| ==> Scalar(values[i])
           case _ => true)
        case None => true)
    && match v
       case Arr(items) => forall i :: 0 <= i < |items| ==> ScalarMethodEnums(items[i])
       case Obj(fields) => forall k :: k in fields ==> ScalarMethodEnums(fields[k])
       case _ => true
  }

  /** Schemas as they are generated: one pruning pass is complete. */
  lemma {:induction false} ScalarEnumsSuffice(v: Json, methods: set<string>)
    requires ScalarMethodEnums(v)
    ensures !Unmasks(v, methods) && NothingUnmasked(v, methods)
  {
    match MethodSchema(v) {
      case Some(schema) =>
        match Field(schema, "enum") {
          case Some(Arr(values)) =>
            PruneItemsSurvive(values, methods);
          case _ =>
        }
      case None =>
    }
    match v {
      case Arr(items) =>
        forall i | 0 <= i < |items| ensures !Unmasks(items[i], methods) && NothingUnmasked(items[i], methods) {
          ScalarEnumsSuffice(items[i], methods);
        }
      case Obj(fields) =>
        forall k | k in fields ensures NothingUnmasked(fields[k], methods) {
          ScalarEnumsSuffice(fields[k], methods);
        }
      case _ =>
    }
  }

  /** A list whose one item is unmasked: after one pass the variant is still there. */
  function MaskedExample(): Json {
    var inner := Obj(map["properties" := Obj(map["method" := Obj(map["const" := Str("m")])])]);
    Arr([Obj(map["properties" := Obj(map["method" := Obj(map["enum" := Arr([Str("m"), inner])])])])])
  }

  lemma OnePassNotAlwaysEnough()
    ensures !NoVariant(Prune(MaskedExample(), {"m"}), {"m"})
  {
    var v := MaskedExample();
    var item := v.items[0];
    var values := item.fields["properties"].fields["method"].fields["enum"].items;
    assert IsVariant(values[1], {"m"}) && !IsVariant(values[0], {"m"});
    assert WithoutVariants(values, {"m"}) == [Str("m")] by {
      assert values[1..] == [values[1]];
      assert values[1..][1..] == [];
    }
    assert Unmasks(item, {"m"}) && !IsVariant(item, {"m"});
    PruneCorrect(v, {"m"});
  }

  /** The pass itself: an array is filtered first, then its items are pruned one by one. */
  method PruneInner(value: Json, methods: set<string>) returns (r: Json)
    ensures r == Prune(value, methods)
    decreases value, 1
  {
    match value {
      case Arr(items) =>
        var kept := RetainNonVariants(items, methods);
        PruneItemsSurvive(items, methods);
        var out := PruneEach(kept, methods, value);
        assert out == PruneItems(items, methods);
        r := Arr(out);
      case Obj(fields) =>
        var out := PruneFields(fields, methods, value);
        assert out == Prune(value, methods).fields;
        r := Obj(out);
      case _ =>
        r := value;
    }
  }

  method PruneEach(kept: seq<Json>, methods: set<string>, ghost owner: Json) returns (out: seq<Json>)
    requires owner.Arr? && forall x :: x in kept ==> x in owner.items
    ensures |out| == |kept| && forall i :: 0 <= i < |kept| ==> out[i] == Prune(kept[i], methods)
    decreases owner, 0
  {
    out := [];
    for i := 0 to |kept|
      invariant |out| == i && forall j :: 0 <= j < i ==> out[j] == Prune(kept[j], methods)
    {
      assert kept[i] in owner.items;
      var item := PruneInner(kept[i], methods);
      out := out + [item];
    }
  }

  method RetainNonVariants(items: seq<Json>, methods: set<string>) returns (kept: seq<Json>)
    ensures kept == WithoutVariants(items, methods)
  {
    kept := [];
    for i := 0 to |items|
      invariant WithoutVariants(items, methods) == kept + WithoutVariants(items[i..], methods)
    {
      assert items[i..][1..] == items[i + 1..];
      if !IsVariant(items[i], methods) {
        kept := kept + [items[i]];
      }
    }
  }

  method PruneFields(fields: map<string, Json>, methods: set<string>, ghost owner: Json)
    returns (out: map<string, Json>)
    requires owner == Obj(fields)
    ensures out.Keys == fields.Keys && forall k :: k in fields ==> out[k] == Prune(fields[k], methods)
    decreases owner, 0
  {
    out := map[];
    var left := fields.Keys;
    while left != {}
      invariant left <= fields.Keys && out.Keys == fields.Keys - left
      invariant forall k :: k in out ==> out[k] == Prune(fields[k], methods)
      decreases left
    {
      var k :| k in left;
      var entry := PruneInner(fields[k], methods);
      out := out[k := entry];
      left := left - {k};
    }
  }

  /** `prune_experimental_methods`: the empty name is no method. */
  method PruneExperimentalMethods(bundle: Json, experimental: seq<string>) returns (r: Json)
    ensures r == Prune(bundle, set m | m in experimental && m != "")
  {
    var methods := {};
    for i := 0 to |experimental|
      invariant methods == set m | m in experimental[..i] && m != ""
    {
      assert experimental[..i + 1] == experimental[..i] + [experimental[i]];
      if experimental[i] != "" {
        methods := methods + {experimental[i]};
      }
    }
    assert experimental[..|experimental|] == experimental;
    r := PruneInner(bundle, methods);
  }

  // ---- v1 methods ----

  /** `string_literal`: the constant, or the first of the listed values. */
  function StringLiteral(v: Json): Option<string> {
    match Field(v, "const")
    case Some(Str(s)) => Some(s)
    case _ =>
      match Field(v, "enum")
      case Some(Arr(values)) => if |values| > 0 && values[0].Str? then Some(values[0].s) else None
      case _ => None
  }

  predicate IsVariantInSet(v: Json, methods: set<string>) {
    match Field(v, "properties")
    case Some(Obj(properties)) =>
      (match Field(Obj(properties), "method")
       case Some(schema) => (match StringLiteral(schema) case Some(m) => m in methods case None => false)
       case None => false)
    case _ => false
  }

  /** A variant to strip is a value whose `method` property is a listed constant, or is no constant and
      allows a listed method first. */
  ghost predicate NamesListed(v: Json, methods: set<string>) {
    exists m :: m in methods
      && (IsConstant(v, m) || (NoConstant(v) && Descend(v, METHOD + [Key("enum"), Item(0)]) == Some(Str(m))))
  }

  lemma FirstListed(x: Json)
    ensures Descend(x, [Key("enum"), Item(0)]) ==
            match Field(x, "enum")
            case Some(Arr(values)) => (if |values| > 0 then Some(values[0]) else None)
            case _ => None
  {
    assert [Key("enum"), Item(0)] == [Key("enum")] + [Item(0)];
    Descends(x, "enum", [Item(0)]);
    assert [Item(0)][1..] == [];
  }

  lemma InSetExactly(v: Json, methods: set<string>)
    ensures IsVariantInSet(v, methods) <==> NamesListed(v, methods)
  {
    MethodAt(v, [Key("const")]);
    MethodAt(v, [Key("enum"), Item(0)]);
    assert METHOD == [Key("properties")] + ([Key("method")] + []);
    Descends(v, "properties", [Key("method")] + []);
    match Field(v, "properties") {
      case None =>
      case Some(x) =>
        Descends(x, "method", []);
        match Field(x, "method") {
          case None =>
          case Some(y) =>
            OneKey(y, "const");
            ConstantField(v, y);
            FirstListed(y);
        }
    }
  }

  function Retained(variants: seq<Json>, methods: set<string>): seq<Json> {
    if |variants| == 0 then []
    else (if IsVariantInSet(variants[0], methods) then [] else [variants[0]]) + Retained(variants[1..], methods)
  }

  predicate HasVariants(schema: Json) {
    schema.Obj? && "oneOf" in schema.fields && schema.fields["oneOf"].Arr?
  }

  /** The schema once the variants are gone and before definitions are collected. */
  function VariantsRetained(schema: Json, methods: set<string>): Json
    requires HasVariants(schema)
  {
    Obj(schema.fields["oneOf" := Arr(Retained(schema.fields["oneOf"].items, methods))])
  }

  lemma {:induction false} RetainedInOrder(variants: seq<Json>, methods: set<string>) returns (kept: seq<nat>)
    ensures LeftInOrder(variants, Retained(variants, methods), kept, v => IsVariantInSet(v, methods))
  {
    if |variants| == 0 {
      kept := [];
    } else {
      var gone := v => IsVariantInSet(v, methods);
      var rest := RetainedInOrder(variants[1..], methods);
      assert LeftInOrder(variants[1..], Retained(variants[1..], methods), rest, gone);
      kept := LeftBehind(variants, Retained(variants[1..], methods), rest, gone);
    }
  }

  /** Some reference of `r` outside its definition maps names `n`. */
  ghost predicate NamedOutside(r: Json, n: string) {
    exists path, reference :: RefersAt(r, path, reference) && OutsideMaps(path) && NamesDefinition(reference, n)
  }

  /** Some reference in the definition `a` names `b`. */
  ghost predicate NamedInside(definitions: map<string, Json>, a: string, b: string) {
    a in definitions && exists path, reference ::
      RefersAt(definitions[a], path, reference) && NamesDefinition(reference, b)
  }

  /** A chain of such references from `r` to `n`. */
  ghost predicate Chain(r: Json, definitions: map<string, Json>, p: seq<string>, n: string) {
    && |p| > 0 && p[|p| - 1] == n && NamedOutside(r, p[0])
    && forall i :: 0 < i < |p| ==> NamedInside(definitions, p[i - 1], p[i])
  }

  ghost predicate StillNamed(r: Json, definitions: map<string, Json>, n: string) {
    exists p :: Chain(r, definitions, p, n)
  }

  /** What stripping does: the variants with a listed method are gone, the others stay in order, the
      definitions that something still leads to stay as they were, and nothing else changes. */
  ghost predicate StripsTo(schema: Json, methods: set<string>, r: Json)
    requires HasVariants(schema)
  {
    && r.Obj? && r.fields.Keys == schema.fields.Keys
    && (forall k :: k in schema.fields && k != "oneOf" && k != "definitions" ==> r.fields[k] == schema.fields[k])
    && VariantsGone(schema.fields["oneOf"].items, r.fields["oneOf"], methods)
    && ("definitions" in schema.fields ==>
          if schema.fields["definitions"].Obj?
          then DefinitionsKept(r, schema.fields["definitions"].fields, r.fields["definitions"])
          else r.fields["definitions"] == schema.fields["definitions"])
  }

  ghost function Listing(methods: set<string>): Json -> bool {
    (v: Json) => NamesListed(v, methods)
  }

  ghost predicate VariantsGone(variants: seq<Json>, left: Json, methods: set<string>) {
    left.Arr? && exists kept :: LeftInOrder(variants, left.items, kept, Listing(methods))
  }

  ghost predicate DefinitionsKept(r: Json, definitions: map<string, Json>, left: Json) {
    && left.Obj?
    && (forall n :: n in left.fields <==> n in definitions && StillNamed(r, definitions, n))
    && (forall n :: n in left.fields ==> left.fields[n] == definitions[n])
  }

  lemma RetainedGone(variants: seq<Json>, methods: set<string>)
    ensures VariantsGone(variants, Arr(Retained(variants, methods)), methods)
  {
    var kept := RetainedInOrder(variants, methods);
    var gone := Listing(methods);
    forall v ensures IsVariantInSet(v, methods) <==> gone(v) {
      InSetExactly(v, methods);
    }
    assert LeftInOrder(variants, Retained(variants, methods), kept, gone);
  }

  lemma RootsExactly(schema: Json, n: string)
    ensures n in Roots(schema) <==> NamedOutside(schema, n)
  {
    if n in Roots(schema) {
      var reference :| reference in RefsOutside(schema) && LocalName(reference) == Some(n);
      RefsOutsideExactly(schema, reference);
      LocalNameExactly(reference, n);
    }
    if path, reference :|
      RefersAt(schema, path, reference) && OutsideMaps(path) && NamesDefinition(reference, n) {
      RefsOutsideExactly(schema, reference);
      LocalNameExactly(reference, n);
    }
  }

  lemma ReferencesExactly(definitions: map<string, Json>, a: string, b: string)
    ensures b in LocallyReferences(definitions)(a) <==> NamedInside(definitions, a, b)
  {
    if b in LocallyReferences(definitions)(a) {
      var reference :| reference in Refs(definitions[a]) && LocalName(reference) == Some(b);
      RefsExactly(definitions[a], reference);
      LocalNameExactly(reference, b);
    }
    if a in definitions {
      if path, reference :| RefersAt(definitions[a], path, reference) && NamesDefinition(reference, b) {
        RefsExactly(definitions[a], reference);
        LocalNameExactly(reference, b);
      }
    }
  }

  lemma ReachedExactly(schema: Json, definitions: map<string, Json>, n: string)
    ensures Reachable(n, Roots(schema), LocallyReferences(definitions)) <==> StillNamed(schema, definitions, n)
  {
    forall x ensures x in Roots(schema) <==> NamedOutside(schema, x) {
      RootsExactly(schema, x);
    }
    forall a, b ensures b in LocallyReferences(definitions)(a) <==> NamedInside(definitions, a, b) {
      ReferencesExactly(definitions, a, b);
    }
    if p :| Path(p, Roots(schema), LocallyReferences(definitions)) && p[|p| - 1] == n {
      assert Chain(schema, definitions, p, n);
    }
    if p :| Chain(schema, definitions, p, n) {
      assert Path(p, Roots(schema), LocallyReferences(definitions));
    }
  }

  /** `strip_method_variants_from_json_schema`. */
  method StripMethodVariants(schema: Json, methods: set<string>) returns (r: Json)
    ensures !HasVariants(schema) ==> r == schema
    ensures HasVariants(schema) ==> Stripped(VariantsRetained(schema, methods), r) && StripsTo(schema, methods, r)
  {
    if !HasVariants(schema) {
      return schema;
    }
    var retained := VariantsRetained(schema, methods);
    var reachable := ReachableLocalDefinitions(retained);
    r := retained;
    if Definitions(retained).Some? {
      var definitions := Definitions(retained).value;
      r := Obj(retained.fields["definitions" := Obj(map n | n in definitions && n in reachable :: definitions[n])]);
    }
    StrippedExactly(schema, methods, r);
  }

  lemma StrippedExactly(schema: Json, methods: set<string>, r: Json)
    requires HasVariants(schema) && Stripped(VariantsRetained(schema, methods), r)
    ensures StripsTo(schema, methods, r)
  {
    var retained := VariantsRetained(schema, methods);
    RetainedGone(schema.fields["oneOf"].items, methods);
    match Definitions(retained) {
      case None =>
      case Some(definitions) =>
        OutsideUnchanged(retained, Definitions(r).value);
        forall n ensures Reachable(n, Roots(retained), LocallyReferences(definitions))
                    <==> StillNamed(r, definitions, n) {
          ReachedExactly(r, definitions, n);
        }
    }
  }

  ghost predicate Stripped(schema: Json, r: Json) {
    match Definitions(schema)
    case None => r == schema
    case Some(definitions) =>
      && Definitions(r).Some?
      && r == Obj(schema.fields["definitions" := Obj(Definitions(r).value)])
      && var kept := Definitions(r).value;
         && (forall n :: n in kept <==> n in definitions && Reachable(n, Roots(schema), LocallyReferences(definitions)))
         && (forall n :: n in kept ==> kept[n] == definitions[n])
  }

  /** Every reference outside the definition maps or inside a kept definition that named a definition
      still names it, and it is unchanged. */
  lemma StrippedStillResolves(schema: Json, r: Json, reference: string)
    requires Definitions(schema).Some? && Stripped(schema, r)
    requires reference in RefsOutside(r)
      || exists n :: n in Definitions(r).value && reference in Refs(Definitions(r).value[n])
    requires LocalName(reference).Some? && LocalName(reference).value in Definitions(schema).value
    ensures LocalName(reference).value in Definitions(r).value
    ensures Definitions(r).value[LocalName(reference).value] == Definitions(schema).value[LocalName(reference).value]
  {
    var definitions, kept := Definitions(schema).value, Definitions(r).value;
    var next, name := LocallyReferences(definitions), LocalName(reference).value;
    assert Reachable(name, Roots(schema), next) by {
      if reference in RefsOutside(r) {
        OutsideUnchanged(schema, kept);
        assert name in LocalNames(RefsOutside(schema));
        SeedReachable(name, Roots(schema), next);
      } else {
        var n :| n in kept && reference in Refs(kept[n]);
        assert name in LocalNames(Refs(definitions[n]));
        NextReachable(n, name, Roots(schema), next);
      }
    }
  }

  /** The definition map is not looked into from outside. */
  lemma OutsideUnchanged(schema: Json, kept: map<string, Json>)
    requires schema.Obj? && "definitions" in schema.fields
    ensures RefsOutside(Obj(schema.fields["definitions" := Obj(kept)])) == RefsOutside(schema)
  {
    var fields, fields' := schema.fields, schema.fields["definitions" := Obj(kept)];
    assert OwnRef(fields) == OwnRef(fields');
    forall r | r in RefsOutside(Obj(fields')) ensures r in RefsOutside(schema) {
      if r !in OwnRef(fields') {
        var k :| k in fields' && k != "$defs" && k != "definitions" && r in RefsOutside(fields'[k]);
        assert k in fields && r in RefsOutside(fields[k]);
      }
    }
    forall r | r in RefsOutside(schema) ensures r in RefsOutside(Obj(fields')) {
      if r !in OwnRef(fields) {
        var k :| k in fields && k != "$defs" && k != "definitions" && r in RefsOutside(fields[k]);
        assert k in fields' && r in RefsOutside(fields'[k]);
      }
    }
  }
}
