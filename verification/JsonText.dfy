/** JSON values with their field order, and the compact text `serde_json::to_string` gives them.
    A number is held by the text it prints as. */
module JsonText {

  datatype Value =
    | Null
    | Bool(b: bool)
    | Number(text: string)
    | Str(s: string)
    | Array(items: seq<Value>)
    | Object(fields: seq<Field>)

  datatype Field = Field(key: string, value: Value)

  predicate NumberChar(c: char) {
    '0' <= c <= '9' || c == '-' || c == '+' || c == '.' || c == 'e' || c == 'E'
  }

  ghost predicate DistinctKeys(fields: seq<Field>) {
    forall i, j :: 0 <= i < j < |fields| ==> fields[i].key != fields[j].key
  }

  /** What every `serde_json::Value` satisfies: an object never repeats a key. */
  ghost predicate WellFormed(v: Value) {
    match v
    case Number(text) => |text| > 0 && forall i :: 0 <= i < |text| ==> NumberChar(text[i])
    case Array(items) => forall i :: 0 <= i < |items| ==> WellFormed(items[i])
    case Object(fields) =>
      && DistinctKeys(fields)
      && forall i :: 0 <= i < |fields| ==> WellFormed(fields[i].value)
    case _ => true
  }

  function HexDigit(n: nat): char
    requires n < 16
  {
    "0123456789abcdef"[n]
  }

  function EscapeChar(c: char): (r: string)
    ensures |r| > 0 && r[0] != '"'
  {
    var code := c as int;
    if c == '"' then ['\\', '"']
    else if c == '\\' then ['\\', '\\']
    else if code == 8 then ['\\', 'b']
    else if code == 9 then ['\\', 't']
    else if code == 10 then ['\\', 'n']
    else if code == 12 then ['\\', 'f']
    else if code == 13 then ['\\', 'r']
    else if code < 0x20 then ['\\', 'u', '0', '0', HexDigit(code / 16), HexDigit(code % 16)]
    else [c]
  }

  // Each `Emit` function writes its argument in front of the text `rest`.

  /** A string up to and including its closing quote. */
  function EmitString(s: string, rest: string): string {
    if |s| == 0 then ['"'] + rest else EscapeChar(s[0]) + EmitString(s[1..], rest)
  }

  function Emit(v: Value, rest: string): string
    decreases v, 1
  {
    match v
    case Null => "null" + rest
    case Bool(b) => if b then "true" + rest else "false" + rest
    case Number(text) => text + rest
    case Str(s) => ['"'] + EmitString(s, rest)
    case Array(items) =>
      ['['] + (if |items| == 0 then [']'] + rest else Emit(items[0], EmitMoreItems(items[1..], rest)))
    case Object(fields) =>
      ['{'] + (if |fields| == 0 then ['}'] + rest else EmitField(fields[0], EmitMoreFields(fields[1..], rest)))
  }

  /** The items after the first, each after a comma, and the closing bracket. */
  function EmitMoreItems(items: seq<Value>, rest: string): string
    decreases items, 0
  {
    if |items| == 0 then [']'] + rest else [','] + Emit(items[0], EmitMoreItems(items[1..], rest))
  }

  function EmitField(f: Field, rest: string): string
    decreases f, 0
  {
    ['"'] + EmitString(f.key, [':'] + Emit(f.value, rest))
  }

  function EmitMoreFields(fields: seq<Field>, rest: string): string
    decreases fields, 0
  {
    if |fields| == 0 then ['}'] + rest else [','] + EmitField(fields[0], EmitMoreFields(fields[1..], rest))
  }

  /** `serde_json::to_string`. */
  function Text(v: Value): string {
    Emit(v, "")
  }

  /** What may follow a complete value inside a larger text. */
  predicate Stops(rest: string) {
    |rest| > 0 ==> rest[0] == ',' || rest[0] == ']' || rest[0] == '}'
  }

  lemma CancelFirst(c: char, x: string, y: string)
    requires [c] + x == [c] + y
    ensures x == y
  {
    assert x == ([c] + x)[1..] && y == ([c] + y)[1..];
  }

  lemma CancelPrefix(p: string, x: string, y: string)
    requires p + x == p + y
    ensures x == y
  {
    assert x == (p + x)[|p|..] && y == (p + y)[|p|..];
  }

  lemma HexDigitsIdentify(m: nat, n: nat)
    requires m < 16 && n < 16 && HexDigit(m) == HexDigit(n)
    ensures m == n
  {
  }

  lemma EscapeCharPrefix(c: char, d: char, x: string, y: string)
    requires EscapeChar(c) + x == EscapeChar(d) + y
    ensures c == d && x == y
  {
    var e, f := EscapeChar(c), EscapeChar(d);
    var s := e + x;
    assert s == f + y;
    assert forall i :: 0 <= i < |e| ==> s[i] == e[i];
    assert forall i :: 0 <= i < |f| ==> s[i] == f[i];
    assert e[0] == f[0];
    if |e| == 6 && |f| == 6 {
      var m, n := c as int, d as int;
      assert e[4] == f[4] && e[5] == f[5];
      HexDigitsIdentify(m / 16, n / 16);
      HexDigitsIdentify(m % 16, n % 16);
      assert m == 16 * (m / 16) + m % 16 && n == 16 * (n / 16) + n % 16;
      assert m as char == n as char;
    } else if |e| > 1 && |f| > 1 {
      assert e[1] == f[1];
    }
    assert c == d;
    CancelPrefix(e, x, y);
  }

  /** A quoted string marks its own end. */
  lemma {:induction false} StringReadable(s: string, t: string, x: string, y: string)
    requires EmitString(s, x) == EmitString(t, y)
    ensures s == t && x == y
  {
    assert |s| == 0 <==> EmitString(s, x)[0] == '"';
    assert |t| == 0 <==> EmitString(t, y)[0] == '"';
    if |s| == 0 {
      CancelFirst('"', x, y);
    } else {
      EscapeCharPrefix(s[0], t[0], EmitString(s[1..], x), EmitString(t[1..], y));
      StringReadable(s[1..], t[1..], x, y);
      assert s == [s[0]] + s[1..] && t == [t[0]] + t[1..];
    }
  }

  lemma NumberReadable(m: string, n: string, x: string, y: string)
    requires forall i :: 0 <= i < |m| ==> NumberChar(m[i])
    requires forall i :: 0 <= i < |n| ==> NumberChar(n[i])
    requires Stops(x) && Stops(y)
    requires m + x == n + y
    ensures m == n && x == y
  {
    assert |m| < |m + x| ==> (m + x)[|m|] == x[0];
    assert |n| < |n + y| ==> (n + y)[|n|] == y[0];
    assert |m| == |n|;
    assert m == (m + x)[..|m|] && n == (n + y)[..|n|];
    CancelPrefix(m, x, y);
  }

  /** The first character of a value's text tells which kind of value it is. */
  lemma Lead(v: Value, rest: string)
    requires WellFormed(v)
    ensures |Emit(v, rest)| > 0
    ensures var c := Emit(v, rest)[0];
      && c != ']' && c != '}' && c != ','
      && (v.Null? <==> c == 'n')
      && (v == Bool(true) <==> c == 't')
      && (v == Bool(false) <==> c == 'f')
      && (v.Str? <==> c == '"')
      && (v.Array? <==> c == '[')
      && (v.Object? <==> c == '{')
  {
  }

  /** Texts are uniquely readable: a value is determined by any text it begins. */
  lemma {:induction false} Readable(a: Value, b: Value, x: string, y: string)
    requires WellFormed(a) && WellFormed(b)
    requires Stops(x) && Stops(y)
    requires Emit(a, x) == Emit(b, y)
    ensures a == b && x == y
    decreases a, 1
  {
    Lead(a, x);
    Lead(b, y);
    match a {
      case Null =>
        CancelPrefix("null", x, y);
      case Bool(p) =>
        CancelPrefix(if p then "true" else "false", x, y);
      case Number(m) =>
        NumberReadable(m, b.text, x, y);
      case Str(s) =>
        CancelFirst('"', EmitString(s, x), EmitString(b.s, y));
        StringReadable(s, b.s, x, y);
      case Array(items) =>
        ArrayReadable(items, b.items, x, y);
      case Object(fields) =>
        ObjectReadable(fields, b.fields, x, y);
    }
  }

  ghost predicate WellFormedItems(items: seq<Value>) {
    forall i :: 0 <= i < |items| ==> WellFormed(items[i])
  }

  lemma {:induction false} ArrayReadable(a: seq<Value>, b: seq<Value>, x: string, y: string)
    requires WellFormedItems(a) && WellFormedItems(b)
    requires Emit(Array(a), x) == Emit(Array(b), y)
    ensures a == b && x == y
    decreases a, 1
  {
    var s, t := Emit(Array(a), x)[1..], Emit(Array(b), y)[1..];
    assert |a| == 0 <==> s[0] == ']' by { if |a| > 0 { Lead(a[0], EmitMoreItems(a[1..], x)); } }
    assert |b| == 0 <==> t[0] == ']' by { if |b| > 0 { Lead(b[0], EmitMoreItems(b[1..], y)); } }
    if |a| == 0 {
      assert s == [']'] + x && t == [']'] + y;
      CancelFirst(']', x, y);
    } else {
      assert s == Emit(a[0], EmitMoreItems(a[1..], x)) && t == Emit(b[0], EmitMoreItems(b[1..], y));
      Readable(a[0], b[0], EmitMoreItems(a[1..], x), EmitMoreItems(b[1..], y));
      MoreItemsReadable(a[1..], b[1..], x, y);
      assert a == [a[0]] + a[1..] && b == [b[0]] + b[1..];
    }
  }

  lemma {:induction false} MoreItemsReadable(a: seq<Value>, b: seq<Value>, x: string, y: string)
    requires WellFormedItems(a) && WellFormedItems(b)
    requires EmitMoreItems(a, x) == EmitMoreItems(b, y)
    ensures a == b && x == y
    decreases a, 0
  {
    assert |a| == 0 <==> EmitMoreItems(a, x)[0] == ']';
    assert |b| == 0 <==> EmitMoreItems(b, y)[0] == ']';
    if |a| == 0 {
      CancelFirst(']', x, y);
    } else {
      var s, t := EmitMoreItems(a[1..], x), EmitMoreItems(b[1..], y);
      CancelFirst(',', Emit(a[0], s), Emit(b[0], t));
      Readable(a[0], b[0], s, t);
      MoreItemsReadable(a[1..], b[1..], x, y);
      assert a == [a[0]] + a[1..] && b == [b[0]] + b[1..];
    }
  }

  ghost predicate WellFormedFields(fields: seq<Field>) {
    forall i :: 0 <= i < |fields| ==> WellFormed(fields[i].value)
  }

  lemma {:induction false} FieldReadable(f: Field, g: Field, x: string, y: string)
    requires WellFormed(f.value) && WellFormed(g.value)
    requires Stops(x) && Stops(y)
    requires EmitField(f, x) == EmitField(g, y)
    ensures f == g && x == y
    decreases f, 0
  {
    var s, t := [':'] + Emit(f.value, x), [':'] + Emit(g.value, y);
    CancelFirst('"', EmitString(f.key, s), EmitString(g.key, t));
    StringReadable(f.key, g.key, s, t);
    CancelFirst(':', Emit(f.value, x), Emit(g.value, y));
    Readable(f.value, g.value, x, y);
  }

  lemma {:induction false} ObjectReadable(a: seq<Field>, b: seq<Field>, x: string, y: string)
    requires WellFormedFields(a) && WellFormedFields(b)
    requires Emit(Object(a), x) == Emit(Object(b), y)
    ensures a == b && x == y
    decreases a, 1
  {
    var s, t := Emit(Object(a), x)[1..], Emit(Object(b), y)[1..];
    assert |a| == 0 <==> s[0] == '}';
    assert |b| == 0 <==> t[0] == '}';
    if |a| == 0 {
      assert s == ['}'] + x && t == ['}'] + y;
      CancelFirst('}', x, y);
    } else {
      var s', t' := EmitMoreFields(a[1..], x), EmitMoreFields(b[1..], y);
      assert s == EmitField(a[0], s') && t == EmitField(b[0], t');
      FieldReadable(a[0], b[0], s', t');
      MoreFieldsReadable(a[1..], b[1..], x, y);
      assert a == [a[0]] + a[1..] && b == [b[0]] + b[1..];
    }
  }

  lemma {:induction false} MoreFieldsReadable(a: seq<Field>, b: seq<Field>, x: string, y: string)
    requires WellFormedFields(a) && WellFormedFields(b)
    requires EmitMoreFields(a, x) == EmitMoreFields(b, y)
    ensures a == b && x == y
    decreases a, 0
  {
    assert |a| == 0 <==> EmitMoreFields(a, x)[0] == '}';
    assert |b| == 0 <==> EmitMoreFields(b, y)[0] == '}';
    if |a| == 0 {
      CancelFirst('}', x, y);
    } else {
      var s, t := EmitMoreFields(a[1..], x), EmitMoreFields(b[1..], y);
      CancelFirst(',', EmitField(a[0], s), EmitField(b[0], t));
      FieldReadable(a[0], b[0], s, t);
      MoreFieldsReadable(a[1..], b[1..], x, y);
      assert a == [a[0]] + a[1..] && b == [b[0]] + b[1..];
    }
  }

  /** Different values print differently. */
  lemma TextInjective(a: Value, b: Value)
    requires WellFormed(a) && WellFormed(b) && Text(a) == Text(b)
    ensures a == b
  {
    Readable(a, b, "", "");
  }

  // ---- The text, written out ----

  lemma {:induction false} StringPast(s: string, a: string, b: string)
    ensures EmitString(s, a) + b == EmitString(s, a + b)
  {
    if |s| == 0 {
      assert ['"'] + a + b == ['"'] + (a + b);
    } else {
      StringPast(s[1..], a, b);
      Regroup(EscapeChar(s[0]), EmitString(s[1..], a), b);
    }
  }

  lemma Regroup(a: string, b: string, c: string)
    ensures a + b + c == a + (b + c)
  {
  }

  /** What is written after a value is only put behind it. */
  lemma {:induction false} EmitPast(v: Value, a: string, b: string)
    ensures Emit(v, a) + b == Emit(v, a + b)
    decreases v, 1
  {
    match v {
      case Null => Regroup("null", a, b);
      case Bool(p) => Regroup(if p then "true" else "false", a, b);
      case Number(text) => Regroup(text, a, b);
      case Str(s) =>
        StringPast(s, a, b);
        Regroup(['"'], EmitString(s, a), b);
      case Array(items) =>
        if |items| == 0 {
          Regroup(['['], [']'] + a, b);
          Regroup([']'], a, b);
        } else {
          EmitPast(items[0], EmitMoreItems(items[1..], a), b);
          MoreItemsPast(items[1..], a, b);
          Regroup(['['], Emit(items[0], EmitMoreItems(items[1..], a)), b);
        }
      case Object(fields) =>
        if |fields| == 0 {
          Regroup(['{'], ['}'] + a, b);
          Regroup(['}'], a, b);
        } else {
          FieldPast(fields[0], EmitMoreFields(fields[1..], a), b);
          MoreFieldsPast(fields[1..], a, b);
          Regroup(['{'], EmitField(fields[0], EmitMoreFields(fields[1..], a)), b);
        }
    }
  }

  lemma {:induction false} MoreItemsPast(items: seq<Value>, a: string, b: string)
    ensures EmitMoreItems(items, a) + b == EmitMoreItems(items, a + b)
    decreases items, 0
  {
    if |items| == 0 {
      Regroup([']'], a, b);
    } else {
      MoreItemsPast(items[1..], a, b);
      EmitPast(items[0], EmitMoreItems(items[1..], a), b);
      Regroup([','], Emit(items[0], EmitMoreItems(items[1..], a)), b);
    }
  }

  lemma {:induction false} FieldPast(f: Field, a: string, b: string)
    ensures EmitField(f, a) + b == EmitField(f, a + b)
    decreases f, 0
  {
    EmitPast(f.value, a, b);
    StringPast(f.key, [':'] + Emit(f.value, a), b);
    Regroup([':'], Emit(f.value, a), b);
    Regroup(['"'], EmitString(f.key, [':'] + Emit(f.value, a)), b);
  }

  lemma {:induction false} MoreFieldsPast(fields: seq<Field>, a: string, b: string)
    ensures EmitMoreFields(fields, a) + b == EmitMoreFields(fields, a + b)
    decreases fields, 0
  {
    if |fields| == 0 {
      Regroup(['}'], a, b);
    } else {
      MoreFieldsPast(fields[1..], a, b);
      FieldPast(fields[0], EmitMoreFields(fields[1..], a), b);
      Regroup([','], EmitField(fields[0], EmitMoreFields(fields[1..], a)), b);
    }
  }

  /** The parts with a comma between any two. */
  function Commas(parts: seq<string>): string {
    if |parts| == 0 then "" else if |parts| == 1 then parts[0] else parts[0] + "," + Commas(parts[1..])
  }

  function Texts(items: seq<Value>): seq<string> {
    seq(|items|, i requires 0 <= i < |items| => Text(items[i]))
  }

  function Members(fields: seq<Field>): seq<string> {
    seq(|fields|, i requires 0 <= i < |fields| => Text(Str(fields[i].key)) + ":" + Text(fields[i].value))
  }

  lemma FieldText(f: Field)
    ensures EmitField(f, "") == Text(Str(f.key)) + ":" + Text(f.value)
  {
    var tail := [':'] + Emit(f.value, "");
    StringPast(f.key, "", tail);
    assert "" + tail == tail;
    Regroup(['"'], EmitString(f.key, ""), tail);
    Regroup(Text(Str(f.key)), ":", Text(f.value));
  }

  lemma CommasCons(part: string, parts: seq<string>)
    ensures Commas([part] + parts) == part + (if |parts| == 0 then "" else "," + Commas(parts))
  {
    assert ([part] + parts)[1..] == parts;
    Regroup(part, ",", Commas(parts));
  }

  lemma {:induction false} MoreItemsText(items: seq<Value>)
    ensures EmitMoreItems(items, "") == (if |items| == 0 then "" else "," + Commas(Texts(items))) + "]"
  {
    if |items| > 0 {
      var rest := items[1..];
      MoreItemsText(rest);
      EmitPast(items[0], "", EmitMoreItems(rest, ""));
      assert "" + EmitMoreItems(rest, "") == EmitMoreItems(rest, "");
      assert Texts(items) == [Text(items[0])] + Texts(rest);
      CommasCons(Text(items[0]), Texts(rest));
    }
  }

  lemma {:induction false} MoreFieldsText(fields: seq<Field>)
    ensures EmitMoreFields(fields, "") == (if |fields| == 0 then "" else "," + Commas(Members(fields))) + "}"
  {
    if |fields| > 0 {
      var rest := fields[1..];
      MoreFieldsText(rest);
      FieldPast(fields[0], "", EmitMoreFields(rest, ""));
      FieldText(fields[0]);
      assert "" + EmitMoreFields(rest, "") == EmitMoreFields(rest, "");
      assert Members(fields) == [EmitField(fields[0], "")] + Members(rest);
      CommasCons(EmitField(fields[0], ""), Members(rest));
    }
  }

  /** The compact text, written out: literals, numbers as they are, strings between quotes, and arrays
      and objects as their parts between commas. */
  lemma TextExactly(v: Value)
    ensures match v
      case Null => Text(v) == "null"
      case Bool(b) => Text(v) == if b then "true" else "false"
      case Number(text) => Text(v) == text
      case Str(s) => Text(v) == "\"" + Escaped(s) + "\""
      case Array(items) => Text(v) == "[" + Commas(Texts(items)) + "]"
      case Object(fields) => Text(v) == "{" + Commas(Members(fields)) + "}"
  {
    match v {
      case Str(s) =>
        EscapedText(s);
      case Array(items) =>
        MoreItemsText(items);
        if |items| > 0 {
          assert EmitMoreItems(items, "") == [','] + (Commas(Texts(items)) + "]");
          CancelFirst(',', Emit(items[0], EmitMoreItems(items[1..], "")), Commas(Texts(items)) + "]");
        }
      case Object(fields) =>
        MoreFieldsText(fields);
        if |fields| > 0 {
          assert EmitMoreFields(fields, "") == [','] + (Commas(Members(fields)) + "}");
          CancelFirst(',', EmitField(fields[0], EmitMoreFields(fields[1..], "")), Commas(Members(fields)) + "}");
        }
      case _ =>
    }
  }

  /** The characters of a text one after the other, each as it is written. */
  function Escaped(s: string): string {
    if |s| == 0 then "" else EscapeChar(s[0]) + Escaped(s[1..])
  }

  lemma {:induction false} EscapedText(s: string)
    ensures EmitString(s, "") == Escaped(s) + "\""
  {
    if |s| > 0 {
      EscapedText(s[1..]);
      Regroup(EscapeChar(s[0]), Escaped(s[1..]), "\"");
    }
  }

  function HexValue(c: char): nat {
    if '0' <= c <= '9' then c as int - '0' as int else if 'a' <= c <= 'f' then c as int - 'a' as int + 10 else 0
  }

  /** How a JSON reader takes one written character, by section 7 of RFC 8259. */
  function ReadChar(t: string): (c: int)
    requires |t| > 0
  {
    if t[0] != '\\' || |t| == 1 then t[0] as int
    else match t[1]
      case 'b' => 8
      case 't' => 9
      case 'n' => 10
      case 'f' => 12
      case 'r' => 13
      case 'u' =>
        if |t| == 6 then ((HexValue(t[2]) * 16 + HexValue(t[3])) * 16 + HexValue(t[4])) * 16 + HexValue(t[5]) else 0
      case other => other as int
  }

  lemma HexReads(n: nat)
    requires n < 16
    ensures HexValue(HexDigit(n)) == n
  {
  }

  /** Control characters with a two-character form. */
  predicate HasShortForm(c: char) {
    c as int in {8, 9, 10, 12, 13}
  }

  /** A written character is read back as itself; quotes, backslashes and control characters are the only
      ones escaped, in two characters where there is such a form. */
  lemma EscapeReads(c: char)
    ensures ReadChar(EscapeChar(c)) == c as int
    ensures forall i :: 0 <= i < |EscapeChar(c)| ==> EscapeChar(c)[i] as int >= 0x20
    ensures EscapeChar(c) == [c] <==> c != '"' && c != '\\' && c as int >= 0x20
    ensures |EscapeChar(c)| == 2 <==> c == '"' || c == '\\' || HasShortForm(c)
    ensures |EscapeChar(c)| != 1 ==> EscapeChar(c)[0] == '\\'
  {
    var code := c as int;
    if code < 0x20 {
      HexReads(code / 16);
      HexReads(code % 16);
    }
  }
}
