/** What the scanner and the small parsers beside it read, said without them: strings and their escapes,
    bracket depths, property names, and which union arms and fields are dropped. */
module TsTokens {
  import opened TsScanner
  import opened TsFilter
  import opened TsFile
  import opened Wrappers

  // ---- Strings ----

  /** A character of a string, as it is or after a backslash. */
  datatype Unit = Raw(c: char) | Escaped(c: char)

  function UnitText(u: Unit): string {
    match u case Raw(c) => [c] case Escaped(c) => ['\\', c]
  }

  function Written(us: seq<Unit>): string {
    if |us| == 0 then "" else UnitText(us[0]) + Written(us[1..])
  }

  predicate IsQuote(c: char) {
    c == '"' || c == '\''
  }

  /** What can stand between two such quotes: they and backslashes only after a backslash. */
  predicate Fit(us: seq<Unit>, quote: char) {
    IsQuote(quote) && forall i :: 0 <= i < |us| && us[i].Raw? ==> us[i].c != '\\' && us[i].c != quote
  }

  lemma {:induction false} WrittenPush(us: seq<Unit>, u: Unit)
    ensures Written(us + [u]) == Written(us) + UnitText(u)
  {
    if |us| == 0 {
      assert us + [u] == [u];
      assert Written([u]) == UnitText(u) + Written([]);
    } else {
      WrittenPush(us[1..], u);
      assert (us + [u])[1..] == us[1..] + [u];
      assert UnitText(us[0]) + (Written(us[1..]) + UnitText(u)) == Written(us) + UnitText(u);
    }
  }

  lemma RunOne(s: Scan, c: char)
    ensures Run(s, [c]) == Next(s, c)
  {
    assert [c][1..] == "";
  }

  lemma RunPush(s: Scan, t: string, c: char)
    ensures Run(s, t + [c]) == Next(Run(s, t), c)
  {
    RunConcat(s, t, [c]);
    RunOne(Run(s, t), c);
  }

  lemma RunUnit(s: Scan, u: Unit, quote: char)
    requires s.delim == Some(quote) && !s.escape && Fit([u], quote)
    ensures Run(s, UnitText(u)) == s
  {
    assert [u][0] == u;
    match u {
      case Raw(c) => RunOne(s, c);
      case Escaped(c) =>
        assert UnitText(u) == ['\\'] + [c];
        RunOne(s, '\\');
        RunPush(s, ['\\'], c);
    }
  }

  lemma {:induction false} RunUnits(s: Scan, us: seq<Unit>, quote: char)
    requires s.delim == Some(quote) && !s.escape && Fit(us, quote)
    ensures Run(s, Written(us)) == s
  {
    if |us| > 0 {
      RunUnit(s, us[0], quote);
      RunUnits(s, us[1..], quote);
      RunConcat(s, UnitText(us[0]), Written(us[1..]));
    }
  }

  // ---- What the scanner knows ----

  datatype Token = Outside(c: char) | Literal(quote: char, units: seq<Unit>)

  /** How a text ends: outside strings, or within one, perhaps just after a backslash. */
  datatype Ending = Ended | Within(quote: char, units: seq<Unit>, pending: bool)

  function TokenText(t: Token): string {
    match t case Outside(c) => [c] case Literal(q, us) => [q] + Written(us) + [q]
  }

  function TokensText(ts: seq<Token>): string {
    if |ts| == 0 then "" else TokensText(ts[..|ts| - 1]) + TokenText(ts[|ts| - 1])
  }

  function EndingText(e: Ending): string {
    match e
    case Ended => ""
    case Within(q, us, pending) => [q] + Written(us) + (if pending then ['\\'] else "")
  }

  predicate GoodTokens(ts: seq<Token>) {
    forall i :: 0 <= i < |ts| ==> GoodToken(ts[i])
  }

  predicate GoodToken(t: Token) {
    match t case Outside(c) => !IsQuote(c) case Literal(q, us) => Fit(us, q)
  }

  predicate GoodEnding(e: Ending) {
    e.Within? ==> Fit(e.units, e.quote)
  }

  /** The characters outside strings. */
  function Bare(ts: seq<Token>): string {
    if |ts| == 0 then ""
    else Bare(ts[..|ts| - 1]) + BareOf(ts[|ts| - 1])
  }

  function Excess(t: string, open: char, close: char): int {
    multiset(t)[open] as int - multiset(t)[close] as int
  }

  /** `d` is the greatest excess of opening over closing brackets in any end of the text: a closing bracket
      that matches nothing counts for nothing. */
  ghost predicate Depth(t: string, open: char, close: char, d: nat) {
    && (exists k :: 0 <= k <= |t| && Excess(t[k..], open, close) == d)
    && (forall k :: 0 <= k <= |t| ==> Excess(t[k..], open, close) <= d)
  }

  lemma ExcessPush(t: string, x: char, open: char, close: char)
    requires open != close
    ensures Excess(t + [x], open, close)
         == Excess(t, open, close) + (if x == open then 1 else if x == close then -1 else 0)
  {
  }

  lemma DepthPush(t: string, x: char, open: char, close: char, d: nat)
    requires open != close && Depth(t, open, close, d)
    ensures Depth(t + [x], open, close, if x == open then d + 1 else if x == close then Less(d) else d)
  {
    var all := t + [x];
    var d' := if x == open then d + 1 else if x == close then Less(d) else d;
    assert t[|t|..] == "" && all[|all|..] == "";
    assert Excess("", open, close) == 0;
    forall k | 0 <= k <= |t| ensures all[k..] == t[k..] + [x] {
    }
    forall k | 0 <= k <= |all| ensures Excess(all[k..], open, close) <= d' {
      if k <= |t| {
        ExcessPush(t[k..], x, open, close);
      }
    }
    var k :| 0 <= k <= |t| && Excess(t[k..], open, close) == d;
    ExcessPush(t[k..], x, open, close);
    if x == close && d == 0 {
      assert Excess(all[|all|..], open, close) == d';
    } else {
      assert Excess(all[k..], open, close) == d';
    }
  }

  lemma DepthStart(open: char, close: char)
    ensures Depth("", open, close, 0)
  {
    assert ""[0..] == "" && Excess("", open, close) == 0;
  }

  ghost predicate Depths(bare: string, s: Scan) {
    && Depth(bare, '{', '}', s.brace) && Depth(bare, '[', ']', s.bracket)
    && Depth(bare, '(', ')', s.paren) && Depth(bare, '<', '>', s.angle)
  }

  lemma DepthsPush(bare: string, x: char, s: Scan)
    requires Depths(bare, s) && s.delim.None? && !IsQuote(x)
    ensures Depths(bare + [x], Next(s, x))
  {
    DepthPush(bare, x, '{', '}', s.brace);
    DepthPush(bare, x, '[', ']', s.bracket);
    DepthPush(bare, x, '(', ')', s.paren);
    DepthPush(bare, x, '<', '>', s.angle);
  }

  lemma RunLiteral(s: Scan, q: char, us: seq<Unit>)
    requires s.delim.None? && !s.escape && Fit(us, q)
    ensures Run(s, [q] + Written(us)) == s.(delim := Some(q))
    ensures Run(s, [q] + Written(us) + [q]) == s
  {
    RunConcat(s, [q], Written(us));
    RunOne(s, q);
    RunUnits(s.(delim := Some(q)), us, q);
    RunPush(s, [q] + Written(us), q);
  }

  function BareOf(t: Token): string {
    match t case Outside(c) => [c] case Literal(_, _) => ""
  }

  ghost predicate Between(s: Scan, bare: string) {
    s.delim == None && !s.escape && Depths(bare, s)
  }

  lemma StartBetween()
    ensures Between(START, "")
  {
    DepthStart('{', '}');
    DepthStart('[', ']');
    DepthStart('(', ')');
    DepthStart('<', '>');
  }

  lemma OutsideScanned(s: Scan, bare: string, c: char)
    requires Between(s, bare) && !IsQuote(c)
    ensures Between(Run(s, [c]), bare + [c])
  {
    RunOne(s, c);
    DepthsPush(bare, c, s);
    NextOutside(s, c);
  }

  lemma NextOutside(s: Scan, c: char)
    requires s.delim == None && !IsQuote(c)
    ensures Next(s, c).delim == None && Next(s, c).escape == s.escape
  {
  }

  lemma TokenScanned(s: Scan, bare: string, t: Token)
    requires Between(s, bare) && GoodToken(t)
    ensures Between(Run(s, TokenText(t)), bare + BareOf(t))
  {
    match t {
      case Outside(c) =>
        OutsideScanned(s, bare, c);
      case Literal(q, us) =>
        RunLiteral(s, q, us);
        assert bare + "" == bare;
    }
  }

  lemma {:induction false} TokensScanned(ts: seq<Token>)
    requires GoodTokens(ts)
    ensures Between(Run(START, TokensText(ts)), Bare(ts))
  {
    if |ts| == 0 {
      StartBetween();
    } else {
      var init, last := ts[..|ts| - 1], ts[|ts| - 1];
      TokensScanned(init);
      assert GoodToken(last);
      RunConcat(START, TokensText(init), TokenText(last));
      TokenScanned(Run(START, TokensText(init)), Bare(init), last);
    }
  }

  /** What scanning a text tells: whether it ends within a string and which, whether a backslash is pending,
      and how deep the brackets outside strings are. */
  lemma ScanExactly(ts: seq<Token>, e: Ending, text: string)
    requires GoodTokens(ts) && GoodEnding(e) && text == TokensText(ts) + EndingText(e)
    ensures var s := Run(START, text);
      && Depths(Bare(ts), s)
      && s.delim == (match e case Ended => None case Within(q, _, _) => Some(q))
      && s.escape == (e.Within? && e.pending)
  {
    TokensScanned(ts);
    var s := Run(START, TokensText(ts));
    RunConcat(START, TokensText(ts), EndingText(e));
    match e {
      case Ended =>
      case Within(q, us, pending) =>
        RunLiteral(s, q, us);
        if pending {
          RunPush(s, [q] + Written(us), '\\');
        } else {
          assert [q] + Written(us) + "" == [q] + Written(us);
        }
    }
  }

  lemma TokensPush(ts: seq<Token>, t: Token)
    requires GoodTokens(ts) && GoodToken(t)
    ensures GoodTokens(ts + [t]) && TokensText(ts + [t]) == TokensText(ts) + TokenText(t)
  {
    assert (ts + [t])[..|ts|] == ts;
  }

  lemma FitPush(us: seq<Unit>, u: Unit, quote: char)
    requires Fit(us, quote) && (u.Raw? ==> u.c != '\\' && u.c != quote)
    ensures Fit(us + [u], quote)
  {
  }

  lemma EndingPush(e: Ending, c: char) returns (e': Ending)
    requires GoodEnding(e) && e.Within? && (e.pending || c != e.quote)
    ensures GoodEnding(e') && EndingText(e') == EndingText(e) + [c]
  {
    var q, us := e.quote, e.units;
    if e.pending {
      e' := Within(q, us + [Escaped(c)], false);
      FitPush(us, Escaped(c), q);
      WrittenPush(us, Escaped(c));
      assert [q] + (Written(us) + ['\\', c]) + "" == [q] + Written(us) + ['\\'] + [c];
    } else if c == '\\' {
      e' := Within(q, us, true);
      assert [q] + Written(us) + "" + [c] == [q] + Written(us) + ['\\'];
    } else {
      e' := Within(q, us + [Raw(c)], false);
      FitPush(us, Raw(c), q);
      WrittenPush(us, Raw(c));
      assert [q] + (Written(us) + [c]) + "" == [q] + Written(us) + "" + [c];
    }
  }

  lemma Reassociated(a: string, b: string, c: string)
    ensures a + (b + c) == a + b + c
  {
  }

  /** Every text can be read so. */
  lemma {:induction false} Tokenized(text: string) returns (ts: seq<Token>, e: Ending)
    ensures GoodTokens(ts) && GoodEnding(e) && text == TokensText(ts) + EndingText(e)
    decreases |text|
  {
    if |text| == 0 {
      ts, e := [], Ended;
    } else {
      var init, c := text[..|text| - 1], text[|text| - 1];
      assert text == init + [c];
      ts, e := Tokenized(init);
      if e.Ended? && IsQuote(c) {
        e := Within(c, [], false);
        assert EndingText(e) == [c];
      } else if e.Ended? {
        TokensPush(ts, Outside(c));
        ts := ts + [Outside(c)];
      } else if e.pending || c != e.quote {
        Reassociated(TokensText(ts), EndingText(e), [c]);
        e := EndingPush(e, c);
      } else {
        TokensPush(ts, Literal(c, e.units));
        assert TokenText(Literal(c, e.units)) == EndingText(e) + [c];
        Reassociated(TokensText(ts), EndingText(e), [c]);
        ts, e := ts + [Literal(c, e.units)], Ended;
      }
    }
  }

  // ---- String literals ----

  /** The input begins with the literal `q lit q`. */
  predicate LeadingLiteral(input: string, q: char, us: seq<Unit>, lit: string) {
    Fit(us, q) && lit == Written(us) && [q] + lit + [q] <= input
  }

  lemma PrefixBehind(t: string, a: string, b: string)
    requires a + b <= t
    ensures a <= t && b <= t[|a|..]
  {
    assert t[..|a + b|] == a + b;
    assert t[..|a|] == (a + b)[..|a|] == a;
    assert t[|a|..][..|b|] == (a + b)[|a|..] == b;
  }

  lemma {:induction false} EndFound(text: string, i: nat, q: char, us: seq<Unit>)
    requires Fit(us, q) && i <= |text| && Written(us) + [q] <= text[i..]
    ensures LiteralEnd(text, i, q, false) == Some(i + |Written(us)|)
    decreases |us|
  {
    if |us| == 0 {
      assert Written(us) + [q] == [q];
      assert text[i..][0] == q;
    } else {
      var u, rest := us[0], us[1..];
      Reassociated(UnitText(u), Written(rest), [q]);
      PrefixBehind(text[i..], UnitText(u), Written(rest) + [q]);
      var j := i + |UnitText(u)|;
      assert text[j..] == text[i..][|UnitText(u)|..];
      assert text[i] == text[i..][0] == UnitText(u)[0];
      EndFound(text, j, q, rest);
      if u.Escaped? {
        assert LiteralEnd(text, i, q, false) == LiteralEnd(text, i + 1, q, true) == LiteralEnd(text, j, q, false);
      }
    }
  }

  lemma {:induction false} UnitsFound(text: string, i: nat, q: char) returns (us: seq<Unit>)
    requires IsQuote(q) && i <= |text| && LiteralEnd(text, i, q, false).Some?
    ensures Fit(us, q) && Written(us) + [q] <= text[i..]
    decreases |text| - i
  {
    if text[i] == '\\' {
      assert LiteralEnd(text, i + 1, q, true).Some? && i + 1 < |text|;
      var rest := UnitsFound(text, i + 2, q);
      us := [Escaped(text[i + 1])] + rest;
      assert us[1..] == rest;
      assert text[i..] == ['\\', text[i + 1]] + text[i + 2..];
      assert Written(us) + [q] == ['\\', text[i + 1]] + (Written(rest) + [q]);
    } else if text[i] == q {
      us := [];
      assert Written(us) + [q] == [q];
    } else {
      var rest := UnitsFound(text, i + 1, q);
      us := [Raw(text[i])] + rest;
      assert us[1..] == rest;
      assert text[i..] == [text[i]] + text[i + 1..];
      assert Written(us) + [q] == [text[i]] + (Written(rest) + [q]);
    }
  }

  lemma LiteralRead(input: string, q: char, us: seq<Unit>, lit: string)
    requires LeadingLiteral(input, q, us, lit)
    ensures StringLiteral(input) == Some((lit, |lit| + 2))
  {
    var whole := [q] + lit + [q];
    assert input[..|whole|] == whole;
    assert input[0] == whole[0] == q;
    assert input[1..][..|lit| + 1] == whole[1..] == lit + [q];
    EndFound(input, 1, q, us);
    assert input[1..1 + |lit|] == whole[1..1 + |lit|] == lit;
  }

  /** The literal at the front is read up to its first quote that no backslash escapes, and no other way. */
  lemma LiteralExactly(input: string, lit: string, n: nat)
    ensures StringLiteral(input) == Some((lit, n))
       <==> n == |lit| + 2 && exists q, us :: LeadingLiteral(input, q, us, lit)
  {
    if StringLiteral(input).Some? {
      var q := input[0];
      var us := UnitsFound(input, 1, q);
      var w := Written(us);
      assert [q] + (w + [q]) == [q] + w + [q];
      assert input == [q] + input[1..];
      assert LeadingLiteral(input, q, us, w);
      LiteralRead(input, q, us, w);
    }
    if q, us :| LeadingLiteral(input, q, us, lit) {
      LiteralRead(input, q, us, lit);
    }
  }

  // ---- Property names ----

  /** ASCII letters, digits and the underscore. */
  predicate WordChar(c: char) {
    var n := c as int;
    65 <= n <= 90 || 97 <= n <= 122 || 48 <= n <= 57 || n == 95
  }

  predicate IsWord(name: string) {
    |name| > 0 && forall i :: 0 <= i < |name| ==> WordChar(name[i])
  }

  /** How a property called `name` is written before its colon: as a word, with or without a question mark,
      or as a string. */
  ghost predicate KeyFor(key: string, name: string) {
    || (IsWord(name) && key == name)
    || (IsWord(name) && exists v :: Blank(v) && key == name + v + "?")
    || (exists q, us :: Fit(us, q) && name == Written(us) && key == [q] + name + [q])
  }

  ghost predicate Starts(input: string, w: string, key: string, v: string, rest: string) {
    Blank(w) && Blank(v) && input == w + (key + (v + (":" + rest)))
  }

  /** The input begins with a property called `name`. */
  ghost predicate NamedBy(input: string, name: string) {
    exists w, key, v, rest :: Starts(input, w, key, v, rest) && KeyFor(key, name)
  }

  lemma {:induction false} WordLength(name: string, t: string)
    requires (forall i :: 0 <= i < |name| ==> WordChar(name[i])) && (|t| > 0 ==> !WordChar(t[0]))
    ensures IdentLength(name + t) == |name|
  {
    if |name| == 0 {
      assert name + t == t;
    } else {
      assert (name + t)[1..] == name[1..] + t;
      WordLength(name[1..], t);
    }
  }

  lemma {:induction false} WordRead(t: string)
    ensures var n := IdentLength(t);
      && (forall i :: 0 <= i < n ==> WordChar(t[i]))
      && (n < |t| ==> !WordChar(t[n]))
  {
    if |t| > 0 && IsIdentChar(t[0]) {
      WordRead(t[1..]);
      var n := IdentLength(t);
      assert forall i :: 0 < i < n ==> t[i] == t[1..][i - 1];
    }
  }

  lemma TrimmedFront(w: string, t: string)
    requires Blank(w) && (|t| > 0 ==> !IsSpace(t[0]))
    ensures TrimStart(w + t) == t
  {
    TrimStartBlank(w, t);
  }

  lemma FirstOf(v: string, t: string)
    requires Blank(v) && |t| > 0 && !WordChar(t[0])
    ensures |v + t| > 0 && !WordChar((v + t)[0])
  {
  }

  /** Reading a name written as a word. */
  lemma WordNamed(name: string, v: string, rest: string)
    requires IsWord(name) && Blank(v)
    ensures PropertyName(name + (v + (":" + rest))) == Some(name)
  {
    var t := name + (v + (":" + rest));
    FirstOf(v, ":" + rest);
    WordLength(name, v + (":" + rest));
    assert WordChar(t[0]) && StringLiteral(t) == None;
    assert t[|name|..] == v + (":" + rest) && t[..|name|] == name;
    TrimmedFront(v, ":" + rest);
  }

  lemma MarkedNamed(name: string, u: string, v: string, rest: string)
    requires IsWord(name) && Blank(u) && Blank(v)
    ensures PropertyName(name + (u + ("?" + (v + (":" + rest))))) == Some(name)
  {
    var tail := "?" + (v + (":" + rest));
    var t := name + (u + tail);
    FirstOf(u, tail);
    WordLength(name, u + tail);
    assert WordChar(t[0]) && StringLiteral(t) == None;
    assert t[|name|..] == u + tail && t[..|name|] == name;
    TrimmedFront(u, tail);
    assert tail[1..] == v + (":" + rest);
    TrimmedFront(v, ":" + rest);
  }

  lemma QuotedNamed(q: char, us: seq<Unit>, name: string, v: string, rest: string)
    requires Fit(us, q) && name == Written(us) && Blank(v)
    ensures PropertyName([q] + name + [q] + (v + (":" + rest))) == Some(name)
  {
    var t := [q] + name + [q] + (v + (":" + rest));
    assert LeadingLiteral(t, q, us, name);
    LiteralRead(t, q, us, name);
    assert t[0] == q && TrimStart(t) == t;
    assert t[|name| + 2..] == v + (":" + rest);
    TrimmedFront(v, ":" + rest);
  }

  lemma TrimIrrelevant(w: string, t: string)
    requires Blank(w)
    ensures PropertyName(w + t) == PropertyName(t)
  {
    TrimStartBlank(w, t);
  }

  lemma KeyIsRead(key: string, name: string, v: string, rest: string)
    requires KeyFor(key, name) && Blank(v)
    ensures PropertyName(key + (v + (":" + rest))) == Some(name)
  {
    if q, us :| Fit(us, q) && name == Written(us) && key == [q] + name + [q] {
      QuotedNamed(q, us, name, v, rest);
    } else if key == name {
      WordNamed(name, v, rest);
    } else {
      var u :| Blank(u) && key == name + u + "?";
      FourParts(name, u, "?", v + (":" + rest));
      MarkedNamed(name, u, v, rest);
    }
  }

  lemma FourParts(a: string, b: string, c: string, d: string)
    ensures a + b + c + d == a + (b + (c + d))
  {
  }

  lemma NameIsRead(input: string, name: string)
    requires NamedBy(input, name)
    ensures PropertyName(input) == Some(name)
  {
    var w, key, v, rest :| Starts(input, w, key, v, rest) && KeyFor(key, name);
    TrimIrrelevant(w, key + (v + (":" + rest)));
    KeyIsRead(key, name, v, rest);
  }

  lemma HeadOff(t: string, c: char)
    requires StartsWith(t, c)
    ensures t == [c] + t[1..]
  {
  }

  lemma ColonFound(t: string) returns (v: string, rest: string)
    requires StartsWith(TrimStart(t), ':')
    ensures Blank(v) && t == v + (":" + rest)
  {
    v := TrimStartSplits(t);
    rest := TrimStart(t)[1..];
    HeadOff(TrimStart(t), ':');
  }

  lemma QuotedRead(t: string, name: string)
    requires StringLiteral(t).Some? && TrimStart(t) == t && PropertyName(t) == Some(name)
    ensures exists key, v, rest :: Starts(t, "", key, v, rest) && KeyFor(key, name)
  {
    var n := StringLiteral(t).value.1;
    LiteralExactly(t, name, n);
    var q, us :| LeadingLiteral(t, q, us, name);
    var key := [q] + name + [q];
    var v, rest := ColonFound(t[n..]);
    assert t == "" + (key + t[n..]);
    assert Starts(t, "", key, v, rest) && KeyFor(key, name);
  }

  lemma ReadIsNamed(input: string, name: string)
    requires PropertyName(input) == Some(name)
    ensures NamedBy(input, name)
  {
    var w := TrimStartSplits(input);
    var t := TrimStart(input);
    TrimStartFixed(input);
    if StringLiteral(t).Some? {
      QuotedRead(t, name);
    } else {
      WordNameRead(t, name);
    }
    var key, v, rest :| Starts(t, "", key, v, rest) && KeyFor(key, name);
    assert "" + (key + (v + (":" + rest))) == key + (v + (":" + rest));
    assert Starts(input, w, key, v, rest);
  }

  lemma MarkedRead(t: string, name: string, tail: string)
    requires IsWord(name) && t == name + tail
    requires StartsWith(TrimStart(tail), '?') && StartsWith(TrimStart(TrimStart(tail)[1..]), ':')
    ensures exists key, v, rest :: Starts(t, "", key, v, rest) && KeyFor(key, name)
  {
    var u := TrimStartSplits(tail);
    var r := TrimStart(tail);
    HeadOff(r, '?');
    var v, rest := ColonFound(r[1..]);
    var key := name + u + "?";
    FourParts(name, u, "?", v + (":" + rest));
    assert t == "" + (key + (v + (":" + rest)));
    assert Starts(t, "", key, v, rest) && KeyFor(key, name);
  }

  lemma PlainRead(t: string, name: string, tail: string)
    requires IsWord(name) && t == name + tail && StartsWith(TrimStart(tail), ':')
    ensures exists key, v, rest :: Starts(t, "", key, v, rest) && KeyFor(key, name)
  {
    var v, rest := ColonFound(tail);
    assert t == "" + (name + (v + (":" + rest)));
    assert Starts(t, "", name, v, rest) && KeyFor(name, name);
  }

  lemma WordNameRead(t: string, name: string)
    requires StringLiteral(t) == None && TrimStart(t) == t && PropertyName(t) == Some(name)
    ensures exists key, v, rest :: Starts(t, "", key, v, rest) && KeyFor(key, name)
  {
    WordRead(t);
    var n := IdentLength(t);
    assert name == t[..n] && IsWord(name) && t == name + t[n..];
    if StartsWith(TrimStart(t[n..]), '?') {
      MarkedRead(t, name, t[n..]);
    } else {
      PlainRead(t, name, t[n..]);
    }
  }

  /** A property's name is read exactly when the input begins with a property of that name. */
  lemma NameExactly(input: string, name: string)
    ensures PropertyName(input) == Some(name) <==> NamedBy(input, name)
  {
    if PropertyName(input) == Some(name) {
      ReadIsNamed(input, name);
    }
    if NamedBy(input, name) {
      NameIsRead(input, name);
    }
  }

  // ---- Union arms ----

  ghost predicate Quotes(t: string, m: string) {
    exists q, us :: LeadingLiteral(t, q, us, m)
  }

  predicate Parted(field: string, head: string, w: string, t: string) {
    ':' !in head && Blank(w) && field == head + (":" + (w + t))
  }

  /** The value after the first colon begins with the string `m`. */
  ghost predicate ValueIs(field: string, m: string) {
    exists head, w, t :: Parted(field, head, w, t) && Quotes(t, m)
  }

  /** The first property called `method` has the value `m`. */
  ghost predicate FirstMethod(fields: seq<string>, m: string) {
    exists k: nat :: FirstMethodAt(fields, k, m)
  }

  ghost predicate FirstMethodAt(fields: seq<string>, k: nat, m: string) {
    && k < |fields| && NamedBy(fields[k], "method") && ValueIs(fields[k], m)
    && forall i :: 0 <= i < k ==> !NamedBy(fields[i], "method")
  }

  lemma ColonIn(input: string, name: string)
    requires NamedBy(input, name)
    ensures ':' in input
  {
    var w, key, v, rest :| Starts(input, w, key, v, rest) && KeyFor(key, name);
    assert input[|w| + |key| + |v|] == ':';
  }

  lemma QuotesExactly(t: string, m: string)
    ensures Quotes(t, m) <==> StringLiteral(t).Some? && StringLiteral(t).value.0 == m
    ensures Quotes(t, m) ==> |t| > 0 && !IsSpace(t[0])
  {
    LiteralExactly(t, m, |m| + 2);
    if StringLiteral(t).Some? {
      LiteralExactly(t, StringLiteral(t).value.0, StringLiteral(t).value.1);
    }
  }

  function ValueText(field: string): string
    requires ':' in field
  {
    TrimStart(TrimStart(field[Find(field, ':').value + 1..]))
  }

  lemma PartedFound(field: string, head: string, w: string, t: string)
    requires Parted(field, head, w, t) && (|t| > 0 ==> !IsSpace(t[0]))
    ensures ':' in field && ValueText(field) == t
  {
    assert field[|head|] == ':';
    var j := Find(field, ':').value;
    assert forall k :: 0 <= k < |head| ==> field[k] == head[k] && head[k] in head;
    assert j == |head|;
    assert field[j + 1..] == w + t;
    TrimmedFront(w, t);
  }

  lemma PartsOf(field: string) returns (head: string, w: string)
    requires ':' in field
    ensures Parted(field, head, w, ValueText(field))
  {
    var j := Find(field, ':').value;
    head := field[..j];
    w := TrimStartSplits(field[j + 1..]);
    TrimStartFixed(field[j + 1..]);
    assert field == head + (":" + field[j + 1..]);
  }

  lemma ValueRead(field: string, m: string)
    requires ':' in field
    ensures ValueIs(field, m) <==> StringLiteral(ValueText(field)).Some? && StringLiteral(ValueText(field)).value.0 == m
  {
    QuotesExactly(ValueText(field), m);
    var head, w := PartsOf(field);
    if h, v, t :| Parted(field, h, v, t) && Quotes(t, m) {
      QuotesExactly(t, m);
      PartedFound(field, h, v, t);
    }
  }

  lemma FirstMethodStep(fields: seq<string>, m: string)
    requires |fields| > 0
    ensures FirstMethod(fields, m)
       <==> if NamedBy(fields[0], "method") then ValueIs(fields[0], m) else FirstMethod(fields[1..], m)
  {
    var rest := fields[1..];
    if k: nat :| FirstMethodAt(fields, k, m) {
      if k > 0 {
        assert !NamedBy(fields[0], "method");
        FirstMethodShift(fields, k - 1, m);
      }
    }
    if NamedBy(fields[0], "method") {
      if ValueIs(fields[0], m) {
        assert FirstMethodAt(fields, 0, m);
      }
    } else if k: nat :| FirstMethodAt(rest, k, m) {
      FirstMethodShift(fields, k, m);
    }
  }

  lemma FirstMethodShift(fields: seq<string>, k: nat, m: string)
    requires |fields| > 0 && !NamedBy(fields[0], "method")
    ensures FirstMethodAt(fields, k + 1, m) <==> FirstMethodAt(fields[1..], k, m)
  {
    var rest := fields[1..];
    assert forall i :: 0 <= i < |rest| ==> rest[i] == fields[i + 1];
    if FirstMethodAt(fields, k + 1, m) {
      forall i | 0 <= i < k ensures !NamedBy(rest[i], "method") {
        assert !NamedBy(fields[i + 1], "method");
      }
    }
    if FirstMethodAt(rest, k, m) {
      forall i | 0 <= i < k + 1 ensures !NamedBy(fields[i], "method") {
        if i > 0 {
          assert !NamedBy(rest[i - 1], "method");
        }
      }
    }
  }

  lemma {:induction false} MethodExactly(fields: seq<string>, m: string)
    ensures MethodOfFields(fields) == Some(m) <==> FirstMethod(fields, m)
  {
    if |fields| > 0 {
      MethodExactly(fields[1..], m);
      FirstMethodStep(fields, m);
      NameExactly(fields[0], "method");
      if NamedBy(fields[0], "method") {
        ColonIn(fields[0], "method");
        ValueRead(fields[0], m);
      }
    }
  }

  /** Between the arm's first closed braces, the first property called `method` has the value `m`. */
  ghost predicate ArmMethod(arm: string, m: string) {
    exists o: nat, c: nat :: FirstSpan(arm, o, c) && FirstMethod(Split(arm[o + 1..c], {','}), m)
  }

  lemma ArmMethodExactly(arm: string, m: string)
    ensures MethodOfArm(arm) == Some(m) <==> ArmMethod(arm, m)
  {
    BraceSpanExactly(arm);
    match BraceSpan(arm) {
      case None =>
      case Some((o, c)) =>
        assert FirstSpan(arm, o, c);
        MethodExactly(Split(arm[o + 1..c], {','}), m);
    }
  }

  /** An arm is dropped exactly when it has a method that is experimental; the empty name is none. */
  lemma ArmDroppedExactly(arm: string, experimental: set<string>)
    ensures !KeepsArm(arm, experimental) <==> exists m :: m in experimental && m != "" && ArmMethod(arm, m)
  {
    forall m ensures MethodOfArm(arm) == Some(m) <==> ArmMethod(arm, m) {
      ArmMethodExactly(arm, m);
    }
  }

  /** There is an alias to filter exactly when some `;` comes after some `=`. */
  lemma AliasExactly(content: string)
    ensures SplitTypeAlias(content).Some?
       <==> exists i, j :: 0 <= i < j < |content| && content[i] == '=' && content[j] == ';'
  {
    if SplitTypeAlias(content).Some? {
      var i, j := Find(content, '=').value, FindLast(content, ';').value;
      assert 0 <= i < j < |content| && content[i] == '=' && content[j] == ';';
    }
  }

  // ---- Fields ----

  /** Behind blanks and closed comments, the field is a property called `name`. */
  ghost predicate FieldNamed(field: string, name: string) {
    exists p, r :: Skippable(p) && field == p + r && NamedBy(r, name)
  }

  lemma NamedFront(r: string, name: string)
    requires NamedBy(r, name)
    ensures var t := TrimStart(r); |t| > 0 && !IsSpace(t[0]) && t[0] != '/'
  {
    var w, key, v, rest :| Starts(r, w, key, v, rest) && KeyFor(key, name);
    var t := key + (v + (":" + rest));
    assert |key| > 0 && (WordChar(key[0]) || IsQuote(key[0]));
    TrimmedFront(w, t);
  }

  lemma {:induction false} SkipBlanks(p: string, w: string)
    requires Skippable(p) && Blank(w)
    ensures Skippable(p + w)
    decreases |w|
  {
    if |w| == 0 {
      assert p + w == p;
    } else {
      SkipOne(p, w[0]);
      SkipBlanks(p + [w[0]], w[1..]);
      assert p + [w[0]] + w[1..] == p + w;
    }
  }

  lemma {:induction false} SkipOne(p: string, c: char)
    requires Skippable(p) && IsSpace(c)
    ensures Skippable(p + [c])
    decreases |p|
  {
    if |p| == 0 {
      assert p + [c] == [c] && [c][1..] == "";
    } else if IsSpace(p[0]) {
      SkipOne(p[1..], c);
      assert (p + [c])[1..] == p[1..] + [c];
    } else {
      var i := AfterCommentEnd(p[2..]).value;
      CommentEndAppend(p[2..], [c]);
      assert (p + [c])[2..] == p[2..] + [c];
      assert (p[2..] + [c])[i..] == p[2..][i..] + [c];
      SkipOne(p[2..][i..], c);
    }
  }

  lemma NamedTrimmed(r: string, name: string) returns (w: string)
    requires NamedBy(r, name)
    ensures var t := TrimStart(r); Blank(w) && r == w + t && PropertyName(t) == Some(name)
    ensures var t := TrimStart(r); |t| > 0 && !IsSpace(t[0]) && t[0] != '/'
  {
    NamedFront(r, name);
    w := TrimStartSplits(r);
    NameExactly(r, name);
    TrimIrrelevant(w, TrimStart(r));
  }

  lemma NotAComment(t: string)
    requires |t| > 0 && t[0] != '/'
    ensures !LeadsComment(t) && StripComments(t) == t
  {
  }

  lemma FieldStripped(field: string, name: string)
    requires FieldNamed(field, name)
    ensures PropertyName(StripComments(TrimStart(field))) == Some(name)
  {
    var p, r :| Skippable(p) && field == p + r && NamedBy(r, name);
    var w := NamedTrimmed(r, name);
    var t := TrimStart(r);
    SkipBlanks(p, w);
    Reassociated(p, w, t);
    NotAComment(t);
    SkipsAll(p + w, t);
  }

  /** A field is dropped exactly when it is a property with an experimental name. */
  lemma FieldDroppedByName(field: string, experimental: set<string>)
    ensures !KeepsField(field, experimental) <==> exists name :: name in experimental && FieldNamed(field, name)
  {
    var rest := StripComments(TrimStart(field));
    StripExactly(field, rest);
    if !KeepsField(field, experimental) {
      var name := PropertyName(rest).value;
      NameExactly(rest, name);
      assert FieldNamed(field, name);
    }
    if name :| name in experimental && FieldNamed(field, name) {
      FieldStripped(field, name);
    }
  }

  // ---- Where things are found ----

  predicate IsAt(s: string, m: string, k: nat) {
    k + |m| <= |s| && s[k..k + |m|] == m
  }

  /** `i` is the first place where `m` is found. */
  ghost predicate FirstAt(s: string, m: string, i: nat) {
    IsAt(s, m, i) && forall k: nat :: k < i ==> !IsAt(s, m, k)
  }

  lemma IsAtShift(s: string, m: string, k: nat)
    requires |s| > 0
    ensures IsAt(s[1..], m, k) <==> IsAt(s, m, k + 1)
  {
    if k + 1 + |m| <= |s| {
      assert s[1..][k..k + |m|] == s[k + 1..k + 1 + |m|];
    }
  }

  lemma FirstAtShift(s: string, m: string, i: nat)
    requires |s| > 0 && !IsAt(s, m, 0)
    ensures FirstAt(s[1..], m, i) <==> FirstAt(s, m, i + 1)
  {
    forall k: nat ensures IsAt(s[1..], m, k) <==> IsAt(s, m, k + 1) {
      IsAtShift(s, m, k);
    }
    if FirstAt(s[1..], m, i) {
      forall k: nat | k < i + 1 ensures !IsAt(s, m, k) {
        if k > 0 {
          assert !IsAt(s[1..], m, k - 1);
        }
      }
    }
  }

  lemma FoundAtOnce(s: string, m: string, i: nat)
    requires IsAt(s, m, 0)
    ensures FindText(s, m) == Some(0) && (FirstAt(s, m, i) <==> i == 0)
  {
    assert s[0..|m|] == s[..|m|];
  }

  lemma FoundLater(s: string, m: string)
    requires |m| > 0 && |s| >= |m| && !IsAt(s, m, 0)
    ensures FindText(s, m) == match FindText(s[1..], m) case None => None case Some(i) => Some(i + 1)
  {
    assert s[0..|m|] == s[..|m|];
  }

  lemma {:induction false} FindTextExactly(s: string, m: string, i: nat)
    requires |m| > 0
    ensures FindText(s, m) == Some(i) <==> FirstAt(s, m, i)
    decreases |s|
  {
    if IsAt(s, m, 0) {
      FoundAtOnce(s, m, i);
    } else if |s| >= |m| {
      FoundLater(s, m);
      if i > 0 {
        FindTextExactly(s[1..], m, i - 1);
        FirstAtShift(s, m, i - 1);
      }
    }
  }

  // A comment ends at the first end mark after its start.
  lemma {:induction false} CommentEndExactly(s: string, i: nat)
    ensures AfterCommentEnd(s) == Some(i + 2) <==> FirstAt(s, "*/", i)
    decreases |s|
  {
    if |s| >= 2 {
      assert s[0..2] == [s[0], s[1]];
      if s[0] == '*' && s[1] == '/' {
        assert IsAt(s, "*/", 0);
      } else {
        assert !IsAt(s, "*/", 0);
        if i > 0 {
          CommentEndExactly(s[1..], i - 1);
          FirstAtShift(s, "*/", i - 1);
        }
      }
    }
  }

  lemma EqualsAt(s: string, i: nat)
    ensures FirstAt(s, "=", i) <==> Find(s, '=') == Some(i)
  {
    forall k: nat ensures IsAt(s, "=", k) <==> k < |s| && s[k] == '=' {
      if k < |s| {
        assert s[k..k + 1] == [s[k]];
      }
    }
  }

  /** The search for the body starts after the first `=`, or without one after `export interface`. */
  lemma BodyStartExactly(content: string, at: nat, keyword: string)
    requires keyword == "export interface"
    ensures BodyStart(content) == Some(at)
       <==> if '=' in content then at > 0 && FirstAt(content, "=", at - 1)
            else at >= 16 && FirstAt(content, keyword, at - 16)
  {
    if at > 0 {
      EqualsAt(content, at - 1);
    }
    if at >= 16 {
      FindTextExactly(content, keyword, at - 16);
    }
  }

  /** Blanks are the characters with the Unicode property White_Space. */
  lemma SpacesAre(c: char)
    ensures IsSpace(c) <==> c as int in {
      0x9, 0xA, 0xB, 0xC, 0xD, 0x20, 0x85, 0xA0, 0x1680, 0x2000, 0x2001, 0x2002, 0x2003, 0x2004, 0x2005, 0x2006,
      0x2007, 0x2008, 0x2009, 0x200A, 0x2028, 0x2029, 0x202F, 0x205F, 0x3000}
  {
  }
}
