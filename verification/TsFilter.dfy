/** The filters that drop experimental union arms and fields from generated TypeScript. */
module TsFilter {
  import opened TsScanner
  import opened Wrappers

  // ---- Reading an arm ----

  /** The span of the first top-level braces at or after index `i`; `open` is the last top-level `{` seen. */
  function BraceSpanFrom(text: string, i: nat, s: Scan, open: Option<nat>): Option<(nat, nat)>
    requires i <= |text|
    decreases |text| - i
  {
    if i == |text| then None
    else
      var ch := text[i];
      var open' := if s.delim.None? && ch == '{' && AtTop(s) then Some(i) else open;
      var s' := Next(s, ch);
      if s'.delim.None? && ch == '}' && AtTop(s') && open'.Some? then Some((open'.value, i))
      else BraceSpanFrom(text, i + 1, s', open')
  }

  function BraceSpan(text: string): Option<(nat, nat)> {
    BraceSpanFrom(text, 0, START, None)
  }

  /** `find_top_level_brace_span`. */
  method FindTopLevelBraceSpan(input: string) returns (span: Option<(nat, nat)>)
    ensures span == BraceSpan(input)
  {
    var state := new ScanState();
    var openIndex: Option<nat> := None;
    for index := 0 to |input|
      invariant state.Valid() && fresh(state)
      invariant BraceSpan(input) == BraceSpanFrom(input, index, state.View(), openIndex)
    {
      var ch := input[index];
      if !state.InString() && ch == '{' && state.IsTopLevel() {
        openIndex := Some(index);
      }
      state.Observe(ch);
      if !state.InString() && ch == '}' && state.IsTopLevel() && openIndex.Some? {
        return Some((openIndex.value, index));
      }
    }
    return None;
  }

  /** A `{` at the top level, and a `}` after which the scanner is back there. */
  ghost predicate Opens(text: string, o: nat) {
    o < |text| && text[o] == '{' && Closed(text[..o])
  }

  ghost predicate Closes(text: string, c: nat) {
    c < |text| && text[c] == '}' && Closed(text[..c + 1])
  }

  /** `c` is the first closing brace with an opening one before it, and `o` the last of those. */
  ghost predicate FirstSpan(text: string, o: nat, c: nat) {
    && o < c && Opens(text, o) && Closes(text, c)
    && (forall o': nat :: o < o' < c ==> !Opens(text, o'))
    && (forall o': nat, c': nat :: o' < c' < c ==> !(Opens(text, o') && Closes(text, c')))
  }

  /** What is known after `i` characters: the last opening brace, and that no span has ended yet. */
  ghost predicate Scanned(text: string, i: nat, s: Scan, open: Option<nat>) {
    && i <= |text| && s == Run(START, text[..i]) && Sound(s)
    && (open.Some? ==> open.value < i && Opens(text, open.value))
    && (forall o: nat :: o < i && (open.Some? ==> open.value < o) ==> !Opens(text, o))
    && (forall o: nat, c: nat :: o < c < i ==> !(Opens(text, o) && Closes(text, c)))
  }

  lemma RunNext(text: string, i: nat)
    requires i < |text|
    ensures Run(START, text[..i + 1]) == Next(Run(START, text[..i]), text[i])
  {
    assert text[..i + 1] == text[..i] + [text[i]];
    RunConcat(START, text[..i], [text[i]]);
    assert [text[i]][1..] == "";
  }

  lemma SoundTop(s: Scan)
    requires Sound(s)
    ensures AtTop(s) <==> s == START
  {
  }

  lemma ScannedStep(text: string, i: nat, s: Scan, open: Option<nat>)
    requires Scanned(text, i, s, open) && i < |text|
    ensures var open' := if s.delim.None? && text[i] == '{' && AtTop(s) then Some(i) else open;
      var s' := Next(s, text[i]);
      if s'.delim.None? && text[i] == '}' && AtTop(s') && open'.Some? then FirstSpan(text, open'.value, i)
      else Scanned(text, i + 1, s', open')
  {
    RunNext(text, i);
    SoundTop(s);
    SoundTop(Next(s, text[i]));
    assert Opens(text, i) <==> text[i] == '{' && s == START;
    assert Closes(text, i) <==> text[i] == '}' && Next(s, text[i]) == START;
  }

  lemma {:induction false} BraceSpanFromFirst(text: string, i: nat, s: Scan, open: Option<nat>)
    requires Scanned(text, i, s, open)
    ensures match BraceSpanFrom(text, i, s, open)
            case Some(span) => FirstSpan(text, span.0, span.1)
            case None => forall o: nat, c: nat :: o < c ==> !(Opens(text, o) && Closes(text, c))
    decreases |text| - i
  {
    if i < |text| {
      ScannedStep(text, i, s, open);
      var open' := if s.delim.None? && text[i] == '{' && AtTop(s) then Some(i) else open;
      var s' := Next(s, text[i]);
      if !(s'.delim.None? && text[i] == '}' && AtTop(s') && open'.Some?) {
        BraceSpanFromFirst(text, i + 1, s', open');
      }
    }
  }

  /** A span is found if and only if some top-level brace is opened and later closed; the one found is
      the first to be closed, from the last brace opened before that. */
  lemma BraceSpanExactly(text: string)
    ensures BraceSpan(text).None? <==> forall o: nat, c: nat :: o < c ==> !(Opens(text, o) && Closes(text, c))
    ensures forall o: nat, c: nat :: BraceSpan(text) == Some((o, c)) <==> FirstSpan(text, o, c)
  {
    assert text[..0] == "";
    BraceSpanFromFirst(text, 0, START, None);
    forall o: nat, c: nat | FirstSpan(text, o, c) ensures BraceSpan(text) == Some((o, c)) {
      assert Opens(text, o) && Closes(text, c);
    }
  }

  lemma BraceSpanSound(text: string)
    ensures var span := BraceSpan(text);
      span.Some? ==> span.value.0 < span.value.1 < |text| && Opens(text, span.value.0) && Closes(text, span.value.1)
  {
    BraceSpanExactly(text);
    if BraceSpan(text).Some? {
      var (o, c) := BraceSpan(text).value;
      assert BraceSpan(text) == Some((o, c));
      assert FirstSpan(text, o, c);
    }
  }

  /** Index of the quote that ends the literal, from `i` on. */
  function LiteralEnd(text: string, i: nat, quote: char, escape: bool): Option<nat>
    requires i <= |text|
    decreases |text| - i
  {
    if i == |text| then None
    else if escape then LiteralEnd(text, i + 1, quote, false)
    else if text[i] == '\\' then LiteralEnd(text, i + 1, quote, true)
    else if text[i] == quote then Some(i)
    else LiteralEnd(text, i + 1, quote, false)
  }

  lemma {:induction false} LiteralEndRange(text: string, i: nat, quote: char, escape: bool)
    requires i <= |text|
    ensures LiteralEnd(text, i, quote, escape).Some? ==> i <= LiteralEnd(text, i, quote, escape).value < |text|
    decreases |text| - i
  {
    if i < |text| {
      LiteralEndRange(text, i + 1, quote, if escape then false else text[i] == '\\');
    }
  }

  /** The literal at the front of `input` and how many characters it takes. */
  function StringLiteral(input: string): (r: Option<(string, nat)>)
    ensures r.Some? ==> r.value.1 <= |input|
  {
    if |input| == 0 || (input[0] != '"' && input[0] != '\'') then None
    else
      LiteralEndRange(input, 1, input[0], false);
      match LiteralEnd(input, 1, input[0], false)
      case None => None
      case Some(i) => Some((input[1..i], i + 1))
  }

  /** `parse_string_literal`. */
  method ParseStringLiteral(input: string) returns (r: Option<(string, nat)>)
    ensures r == StringLiteral(input)
  {
    if |input| == 0 {
      return None;
    }
    var quote := input[0];
    if quote != '"' && quote != '\'' {
      return None;
    }
    var escape := false;
    for index := 1 to |input|
      invariant LiteralEnd(input, 1, quote, false) == LiteralEnd(input, index, quote, escape)
    {
      var ch := input[index];
      if escape {
        escape := false;
      } else if ch == '\\' {
        escape := true;
      } else if ch == quote {
        return Some((input[1..index], index + 1));
      }
    }
    return None;
  }

  predicate IsIdentChar(c: char) {
    'a' <= c <= 'z' || 'A' <= c <= 'Z' || '0' <= c <= '9' || c == '_'
  }

  function IdentLength(s: string): (n: nat)
    ensures n <= |s|
  {
    if |s| > 0 && IsIdentChar(s[0]) then 1 + IdentLength(s[1..]) else 0
  }

  predicate StartsWith(s: string, c: char) {
    |s| > 0 && s[0] == c
  }

  function PropertyName(input: string): Option<string> {
    var trimmed := TrimStart(input);
    if trimmed == "" then None
    else
      match StringLiteral(trimmed)
      case Some((literal, consumed)) =>
        if StartsWith(TrimStart(trimmed[consumed..]), ':') then Some(literal) else None
      case None =>
        var end := IdentLength(trimmed);
        if end == 0 then None
        else
          var rest := TrimStart(trimmed[end..]);
          var rest' := if StartsWith(rest, '?') then TrimStart(rest[1..]) else rest;
          if StartsWith(rest', ':') then Some(trimmed[..end]) else None
  }

  function Find(s: string, c: char): (r: Option<nat>)
    ensures match r
      case Some(i) => i < |s| && s[i] == c && forall k :: 0 <= k < i ==> s[k] != c
      case None => forall k :: 0 <= k < |s| ==> s[k] != c
  {
    if |s| == 0 then None
    else if s[0] == c then Some(0)
    else match Find(s[1..], c)
      case None => None
      case Some(i) => Some(i + 1)
  }

  function FindLast(s: string, c: char): (r: Option<nat>)
    ensures match r
      case Some(i) => i < |s| && s[i] == c && forall k :: i < k < |s| ==> s[k] != c
      case None => forall k :: 0 <= k < |s| ==> s[k] != c
  {
    if |s| == 0 then None
    else if s[|s| - 1] == c then Some(|s| - 1)
    else FindLast(s[..|s| - 1], c)
  }

  function Property(input: string): Option<(string, string)> {
    match PropertyName(input)
    case None => None
    case Some(name) =>
      match Find(input, ':')
      case None => None
      case Some(colon) => Some((name, TrimStart(input[colon + 1..])))
  }

  function MethodOfFields(fields: seq<string>): Option<string> {
    if |fields| == 0 then None
    else match Property(fields[0])
      case Some(("method", value)) =>
        (match StringLiteral(TrimStart(value)) case Some((literal, _)) => Some(literal) case None => None)
      case _ => MethodOfFields(fields[1..])
  }

  /** `extract_method_from_arm`. */
  function MethodOfArm(arm: string): Option<string> {
    BraceSpanSound(arm);
    match BraceSpan(arm)
    case None => None
    case Some((open, close)) => MethodOfFields(Split(arm[open + 1..close], {','}))
  }

  // ---- Filtering a union ----

  predicate KeepsArm(arm: string, experimental: set<string>) {
    match MethodOfArm(arm)
    case None => true
    case Some(m) => m == "" || m !in experimental
  }

  function Filtered(ps: seq<string>, keep: string -> bool): seq<string> {
    if |ps| == 0 then [] else (if keep(ps[0]) then [ps[0]] else []) + Filtered(ps[1..], keep)
  }

  lemma {:induction false} FilteredIsSelection(ps: seq<string>, keep: string -> bool) returns (marks: seq<bool>)
    ensures |marks| == |ps| && Filtered(ps, keep) == Select(ps, marks)
    ensures forall i :: 0 <= i < |ps| ==> marks[i] == keep(ps[i])
    ensures forall p :: p in Filtered(ps, keep) <==> p in ps && keep(p)
    ensures Filtered(Filtered(ps, keep), keep) == Filtered(ps, keep)
  {
    if |ps| == 0 {
      marks := [];
    } else {
      var rest := FilteredIsSelection(ps[1..], keep);
      marks := [keep(ps[0])] + rest;
      assert marks[1..] == rest;
      assert ps == [ps[0]] + ps[1..];
      var fs := Filtered(ps[1..], keep);
      if keep(ps[0]) {
        assert ([ps[0]] + fs)[1..] == fs;
      } else {
        assert [] + fs == fs;
      }
    }
  }

  /** Filtering a text split at `delims` and joined with `sep`. */
  function FilterText(text: string, keep: string -> bool, sep: string, delims: set<char>): string {
    Join(Filtered(Split(text, delims), keep), sep)
  }

  /** The filtered text splits into exactly the kept pieces, so filtering it again changes nothing. */
  lemma FilterTextStable(text: string, keep: string -> bool, sep: string, delims: set<char>)
    requires Delimiters(delims) && Separator(sep, delims)
    ensures var out := FilterText(text, keep, sep, delims);
      && Split(out, delims) == Filtered(Split(text, delims), keep)
      && (forall p :: p in Split(out, delims) <==> p in Split(text, delims) && keep(p))
      && FilterText(out, keep, sep, delims) == out
  {
    var marks := FilteredIsSelection(Split(text, delims), keep);
    SplitSelectJoin(text, marks, sep, delims);
  }

  function SplitTypeAlias(content: string): Option<(string, string, string)> {
    match Find(content, '=')
    case None => None
    case Some(eq) =>
      match FindLast(content, ';')
      case None => None
      case Some(semi) =>
        if semi <= eq then None
        else Some((content[..eq + 1], content[eq + 1..semi], content[semi..]))
  }

  const ARM_SEP := " | "

  /** `filter_client_request_ts_contents` up to the pruning of imports. */
  function FilterUnion(content: string, experimental: set<string>): string {
    match SplitTypeAlias(content)
    case None => content
    case Some((prefix, body, suffix)) =>
      prefix + FilterText(body, arm => KeepsArm(arm, experimental), ARM_SEP, {'|'}) + suffix
  }

  /** The shape of the text before and after an alias body. */
  ghost predicate AliasEnds(prefix: string, suffix: string) {
    && |prefix| > 0 && prefix[|prefix| - 1] == '=' && (forall k :: 0 <= k < |prefix| - 1 ==> prefix[k] != '=')
    && |suffix| > 0 && suffix[0] == ';' && (forall k :: 0 < k < |suffix| ==> suffix[k] != ';')
  }

  lemma AliasEndsFound(content: string)
    requires SplitTypeAlias(content).Some?
    ensures var (prefix, body, suffix) := SplitTypeAlias(content).value;
      AliasEnds(prefix, suffix) && content == prefix + body + suffix
  {
  }

  lemma AliasFound(prefix: string, body: string, suffix: string)
    requires AliasEnds(prefix, suffix)
    ensures SplitTypeAlias(prefix + body + suffix) == Some((prefix, body, suffix))
  {
    var out := prefix + body + suffix;
    var eq, semi := |prefix| - 1, |prefix| + |body|;
    assert out[..eq + 1] == prefix && out[eq + 1..semi] == body && out[semi..] == suffix;
    assert out[eq] == '=' && out[semi] == ';';
    forall k | semi < k < |out| ensures out[k] != ';' {
      assert out[k] == suffix[k - semi];
    }
    assert Find(out, '=') == Some(eq) && FindLast(out, ';') == Some(semi);
  }

  /** A new body between the same prefix and suffix is found again as the body. */
  lemma AliasBodyReplaced(content: string, body': string)
    requires SplitTypeAlias(content).Some?
    ensures var (prefix, body, suffix) := SplitTypeAlias(content).value;
      && content == prefix + body + suffix
      && SplitTypeAlias(prefix + body' + suffix) == Some((prefix, body', suffix))
  {
    AliasEndsFound(content);
    var (prefix, _, suffix) := SplitTypeAlias(content).value;
    AliasFound(prefix, body', suffix);
  }

  /** Filtering a file keeps everything around the body, keeps exactly the arms whose method is not
      experimental, in order and verbatim, and does nothing the second time. */
  lemma FilterUnionCorrect(content: string, experimental: set<string>)
    ensures SplitTypeAlias(content).None? ==> FilterUnion(content, experimental) == content
    ensures SplitTypeAlias(content).Some? ==>
      var (prefix, body, suffix) := SplitTypeAlias(content).value;
      var out := SplitTypeAlias(FilterUnion(content, experimental));
      && out.Some? && out.value.0 == prefix && out.value.2 == suffix
      && Split(out.value.1, {'|'}) == Filtered(Split(body, {'|'}), arm => KeepsArm(arm, experimental))
      && (forall arm :: arm in Split(out.value.1, {'|'}) <==> arm in Split(body, {'|'}) && KeepsArm(arm, experimental))
    ensures FilterUnion(FilterUnion(content, experimental), experimental) == FilterUnion(content, experimental)
  {
    if SplitTypeAlias(content).Some? {
      var (prefix, body, suffix) := SplitTypeAlias(content).value;
      var keep := arm => KeepsArm(arm, experimental);
      ArmSeparator();
      FilterTextStable(body, keep, ARM_SEP, {'|'});
      AliasBodyReplaced(content, FilterText(body, keep, ARM_SEP, {'|'}));
    }
  }

  lemma ArmSeparator()
    ensures Delimiters({'|'}) && Separator(ARM_SEP, {'|'})
  {
    assert ARM_SEP[1] == '|' && !IsSpace(ARM_SEP[1]);
  }

  // ---- Filtering fields ----

  // Index after the first end of a block comment in `s`.
  function AfterCommentEnd(s: string): (r: Option<nat>)
    ensures r.Some? ==> 2 <= r.value <= |s|
  {
    if |s| < 2 then None
    else if s[0] == '*' && s[1] == '/' then Some(2)
    else match AfterCommentEnd(s[1..]) case None => None case Some(i) => Some(i + 1)
  }

  lemma {:induction false} TrimStartShorter(s: string)
    ensures |TrimStart(s)| <= |s|
  {
    var w := TrimStartSplits(s);
  }

  function StripComments(rest: string): string
    decreases |rest|
  {
    if |rest| >= 2 && rest[0] == '/' && rest[1] == '*' then
      match AfterCommentEnd(rest[2..])
      case None => rest
      case Some(i) =>
        TrimStartShorter(rest[2..][i..]);
        StripComments(TrimStart(rest[2..][i..]))
    else rest
  }

  /** `strip_leading_block_comments`. */
  method StripLeadingBlockComments(input: string) returns (rest: string)
    ensures rest == StripComments(TrimStart(input))
  {
    rest := TrimStart(input);
    while true
      invariant StripComments(rest) == StripComments(TrimStart(input))
      decreases |rest|
    {
      if !(|rest| >= 2 && rest[0] == '/' && rest[1] == '*') {
        return;
      }
      match AfterCommentEnd(rest[2..]) {
        case None => return;
        case Some(i) =>
          TrimStartShorter(rest[2..][i..]);
          rest := TrimStart(rest[2..][i..]);
      }
    }
  }

  predicate LeadsComment(s: string) {
    |s| >= 2 && s[0] == '/' && s[1] == '*' && AfterCommentEnd(s[2..]).Some?
  }

  /** Blanks and closed block comments only. */
  predicate Skippable(p: string)
    decreases |p|
  {
    if |p| == 0 then true
    else if IsSpace(p[0]) then Skippable(p[1..])
    else LeadsComment(p) && Skippable(p[2..][AfterCommentEnd(p[2..]).value..])
  }

  lemma {:induction false} CommentEndAppend(s: string, t: string)
    requires AfterCommentEnd(s).Some?
    ensures AfterCommentEnd(s + t) == AfterCommentEnd(s)
  {
    if !(s[0] == '*' && s[1] == '/') {
      assert (s + t)[1..] == s[1..] + t;
      CommentEndAppend(s[1..], t);
    }
  }

  /** One comment off the front. */
  lemma CommentOff(p: string, r: string)
    requires LeadsComment(p)
    ensures var rest := p[2..][AfterCommentEnd(p[2..]).value..];
      LeadsComment(p + r) && (p + r)[2..][AfterCommentEnd((p + r)[2..]).value..] == rest + r
  {
    assert (p + r)[2..] == p[2..] + r;
    CommentEndAppend(p[2..], r);
  }

  lemma {:induction false} SkipsAll(p: string, r: string)
    requires Skippable(p) && TrimStart(r) == r && !LeadsComment(r)
    ensures StripComments(TrimStart(p + r)) == r
    decreases |p|
  {
    if |p| == 0 {
      assert p + r == r;
    } else if IsSpace(p[0]) {
      assert (p + r)[1..] == p[1..] + r;
      SkipsAll(p[1..], r);
    } else {
      var rest := p[2..][AfterCommentEnd(p[2..]).value..];
      CommentOff(p, r);
      assert (p + r)[0] == p[0];
      assert TrimStart(p + r) == p + r;
      SkipsAll(rest, r);
    }
  }

  lemma {:induction false} SkippableBlank(w: string, p: string)
    requires Blank(w) && Skippable(p)
    ensures Skippable(w + p)
  {
    if |w| == 0 {
      assert w + p == p;
    } else {
      assert (w + p)[1..] == w[1..] + p;
      SkippableBlank(w[1..], p);
    }
  }

  lemma {:induction false} StripsFront(s: string) returns (p: string)
    ensures s == p + StripComments(TrimStart(s)) && Skippable(p)
    ensures var r := StripComments(TrimStart(s)); TrimStart(r) == r && !LeadsComment(r)
    decreases |s|
  {
    var w := TrimStartSplits(s);
    var t := TrimStart(s);
    TrimStartFixed(s);
    if LeadsComment(t) {
      var c := CommentFront(t);
      var rest := t[|c|..];
      var q := StripsFront(rest);
      SkippableComment(c, q, t);
      p := w + (c + q);
      SkippableBlank(w, c + q);
      FourTexts(w, c, q, StripComments(TrimStart(rest)));
    } else {
      p := w;
      assert w + "" == w;
      SkippableBlank(w, "");
      assert StripComments(t) == t;
    }
  }

  /** The comment at the front, and what is left once it is off. */
  lemma CommentFront(t: string) returns (c: string)
    requires LeadsComment(t)
    ensures 2 <= |c| <= |t| && c == t[..|c|] && |c| == 2 + AfterCommentEnd(t[2..]).value
    ensures StripComments(t) == StripComments(TrimStart(t[|c|..])) && t == c + t[|c|..]
  {
    c := t[..2 + AfterCommentEnd(t[2..]).value];
    assert t[2..][AfterCommentEnd(t[2..]).value..] == t[|c|..];
  }

  lemma FourTexts(a: string, b: string, c: string, d: string)
    ensures a + (b + (c + d)) == a + (b + c) + d
  {
  }

  lemma {:induction false} TrimStartFixed(s: string)
    ensures TrimStart(TrimStart(s)) == TrimStart(s)
  {
    if |s| > 0 && IsSpace(s[0]) {
      TrimStartFixed(s[1..]);
    }
  }

  lemma {:induction false} CommentEndFirst(s: string)
    requires AfterCommentEnd(s).Some?
    ensures AfterCommentEnd(s[..AfterCommentEnd(s).value]) == AfterCommentEnd(s)
  {
    var i := AfterCommentEnd(s).value;
    if !(s[0] == '*' && s[1] == '/') {
      CommentEndFirst(s[1..]);
      assert s[..i][1..] == s[1..][..i - 1];
    }
  }

  lemma SkippableComment(c: string, q: string, t: string)
    requires LeadsComment(t) && c == t[..2 + AfterCommentEnd(t[2..]).value] && Skippable(q)
    ensures Skippable(c + q)
  {
    var i := AfterCommentEnd(t[2..]).value;
    assert c[2..] == t[2..][..i];
    CommentEndFirst(t[2..]);
    assert LeadsComment(c) && c[2..][i..] == "";
    CommentOff(c, q);
    assert "" + q == q;
    assert (c + q)[0] == '/';
  }

  /** Stripping takes off exactly the blanks and closed comments in front: what is left neither starts
      with a blank nor with a closed comment, and no other rest fits. */
  lemma StripExactly(input: string, rest: string)
    ensures StripComments(TrimStart(input)) == rest <==>
      TrimStart(rest) == rest && !LeadsComment(rest) && exists p :: Skippable(p) && input == p + rest
  {
    if StripComments(TrimStart(input)) == rest {
      var p := StripsFront(input);
    }
    if TrimStart(rest) == rest && !LeadsComment(rest) && exists p :: Skippable(p) && input == p + rest {
      var p :| Skippable(p) && input == p + rest;
      SkipsAll(p, rest);
    }
  }

  predicate KeepsField(field: string, experimental: set<string>) {
    match PropertyName(StripComments(TrimStart(field)))
    case None => true
    case Some(name) => name !in experimental
  }

  /** The fields between the braces of a type body, without the experimental ones. */
  function FilterFields(inner: string, experimental: set<string>): string {
    FilterText(inner, field => KeepsField(field, experimental), ", ", {',', ';'})
  }

  /** The filtered fields are exactly the kept ones, in order and verbatim, and stay so. */
  lemma FilterFieldsCorrect(inner: string, experimental: set<string>)
    ensures var out := FilterFields(inner, experimental);
      && Split(out, {',', ';'}) == Filtered(Split(inner, {',', ';'}), field => KeepsField(field, experimental))
      && (forall f :: f in Split(out, {',', ';'}) <==> f in Split(inner, {',', ';'}) && KeepsField(f, experimental))
      && FilterFields(out, experimental) == out
  {
    var sep := ", ";
    assert sep[0] == ',' && !IsSpace(sep[0]);
    FilterTextStable(inner, field => KeepsField(field, experimental), sep, {',', ';'});
  }

  // ---- Generated arms ----

  const INSIDE := START.(brace := 1)

  /** Text that stays inside the braces it is put in. */
  predicate StaysInside(s: Scan, text: string)
    decreases |text|
  {
    !AtTop(s) && if |text| == 0 then s == INSIDE else StaysInside(Next(s, text[0]), text[1..])
  }

  /** A name that can stand between quotes as it is. */
  predicate Plain(name: string) {
    forall i :: 0 <= i < |name| ==> name[i] != '"' && name[i] != '\\'
  }

  function Quote(name: string): string {
    ['"'] + name + ['"']
  }

  /** The first field of a generated arm. */
  function MethodField(name: string): string {
    Quote("method") + ": " + Quote(name)
  }

  /** A union arm as it is generated: the method first, then the other fields. */
  function GeneratedArm(name: string, rest: string): string {
    "{" + ArmInner(name, rest) + "}"
  }

  lemma {:induction false} RunPlain(s: Scan, name: string, delims: set<char>)
    requires Plain(name) && s.delim == Some('"') && !s.escape
    ensures Run(s, name) == s && Uncut(s, name, delims)
    decreases |name|
  {
    if |name| > 0 {
      RunPlain(s, name[1..], delims);
    }
  }

  lemma RunChar(s: Scan, c: char, delims: set<char>)
    ensures Run(s, [c]) == Next(s, c)
    ensures Uncut(s, [c], delims) <==> !Cuts(s, c, delims)
  {
    assert [c][1..] == "";
  }

  /** A quoted name is passed over, whatever it holds. */
  lemma RunQuote(s: Scan, name: string, delims: set<char>)
    requires Plain(name) && s.delim.None? && !s.escape && (AtTop(s) ==> '"' !in delims)
    ensures Run(s, Quote(name)) == s && Uncut(s, Quote(name), delims)
  {
    var q := s.(delim := Some('"'));
    RunChar(s, '"', delims);
    RunPlain(q, name, delims);
    RunChar(q, '"', delims);
    RunConcat(s, ['"'], name);
    UncutConcat(s, ['"'], name, delims);
    RunConcat(s, ['"'] + name, ['"']);
    UncutConcat(s, ['"'] + name, ['"'], delims);
  }

  lemma RunMethodField(s: Scan, name: string, delims: set<char>)
    requires Plain(name) && s.delim.None? && !s.escape && (AtTop(s) ==> delims == {','})
    ensures Run(s, MethodField(name)) == s && Uncut(s, MethodField(name), delims)
  {
    RunQuote(s, "method", delims);
    RunChar(s, ':', delims);
    RunChar(s, ' ', delims);
    assert ": " == [':'] + [' '];
    RunConcat(s, [':'], [' ']);
    UncutConcat(s, [':'], [' '], delims);
    RunQuote(s, name, delims);
    RunConcat(s, Quote("method"), ": ");
    UncutConcat(s, Quote("method"), ": ", delims);
    RunConcat(s, Quote("method") + ": ", Quote(name));
    UncutConcat(s, Quote("method") + ": ", Quote(name), delims);
  }

  lemma {:induction false} UncutNeither(s: Scan, t: string, delims: set<char>)
    requires Uncut(s, t, delims) && forall i :: 0 <= i < |t| ==> t[i] in delims
    ensures Neither(s, t)
    decreases |t|
  {
    if |t| > 0 {
      UncutNeither(Next(s, t[0]), t[1..], delims);
    }
  }

  lemma {:induction false} StaysInsideConcat(s: Scan, t: string, u: string)
    requires StaysInside(Run(s, t), u) && Neither(s, t)
    ensures StaysInside(s, t + u)
    decreases |t|
  {
    if |t| == 0 {
      assert t + u == u;
    } else {
      assert (t + u)[1..] == t[1..] + u && (t + u)[0] == t[0];
      StaysInsideConcat(Next(s, t[0]), t[1..], u);
    }
  }

  /** No state while scanning `t` from `s` is at the top. */
  predicate Neither(s: Scan, t: string)
    decreases |t|
  {
    |t| > 0 ==> !AtTop(s) && Neither(Next(s, t[0]), t[1..])
  }

  lemma {:induction false} BraceSpanInside(text: string, i: nat, s: Scan, open: nat)
    requires i < |text| && text[|text| - 1] == '}' && StaysInside(s, text[i..|text| - 1])
    ensures BraceSpanFrom(text, i, s, Some(open)) == Some((open, |text| - 1))
    decreases |text| - i
  {
    var t := text[i..|text| - 1];
    if i < |text| - 1 {
      assert t[0] == text[i] && t[1..] == text[i + 1..|text| - 1];
      BraceSpanInside(text, i + 1, Next(s, text[i]), open);
    }
  }

  lemma {:induction false} LiteralEndPlain(text: string, i: nat, name: string, tail: string)
    requires i <= |text| && Plain(name) && text[i..] == name + (['"'] + tail)
    ensures LiteralEnd(text, i, '"', false) == Some(i + |name|)
    decreases |name|
  {
    if |name| == 0 {
      assert text[i] == text[i..][0] == '"';
    } else {
      assert text[i] == text[i..][0] == name[0];
      assert text[i + 1..] == text[i..][1..] == name[1..] + (['"'] + tail);
      LiteralEndPlain(text, i + 1, name[1..], tail);
    }
  }

  lemma QuoteIsLiteral(name: string, tail: string)
    requires Plain(name)
    ensures StringLiteral(Quote(name) + tail) == Some((name, |name| + 2))
  {
    var text := Quote(name) + tail;
    assert text[1..] == name + (['"'] + tail);
    LiteralEndPlain(text, 1, name, tail);
    assert text[1..1 + |name|] == name;
  }

  lemma MethodFieldParses(name: string)
    requires Plain(name)
    ensures Property(MethodField(name)) == Some(("method", Quote(name)))
  {
    var f, tail := MethodField(name), ": " + Quote(name);
    assert f == Quote("method") + tail;
    QuoteIsLiteral("method", tail);
    assert TrimStart(f) == f;
    assert f[8..] == tail && TrimStart(tail) == tail;
    forall k | 0 <= k < 8 ensures f[k] != ':' {
      assert f[k] == Quote("method")[k];
    }
    assert f[8] == tail[0] == ':';
    assert Find(f, ':') == Some(8);
    assert f[9..] == " " + Quote(name);
    TrimStartBlank(" ", Quote(name));
    assert TrimStart(Quote(name)) == Quote(name);
  }

  function ArmInner(name: string, rest: string): string {
    " " + MethodField(name) + "," + rest
  }

  lemma GeneratedArmSpan(name: string, rest: string)
    requires Plain(name) && StaysInside(INSIDE, rest)
    ensures var arm := GeneratedArm(name, rest);
      BraceSpan(arm) == Some((0, |arm| - 1)) && arm[1..|arm| - 1] == ArmInner(name, rest)
  {
    var arm := GeneratedArm(name, rest);
    InnerStaysInside(name, rest);
    assert arm[1..|arm| - 1] == ArmInner(name, rest) && arm[0] == '{' && arm[|arm| - 1] == '}';
    BraceSpanInside(arm, 1, INSIDE, 0);
  }

  lemma FirstFieldIsMethod(name: string, rest: string)
    requires Plain(name)
    ensures |Split(ArmInner(name, rest), {','})| > 0 && Split(ArmInner(name, rest), {','})[0] == MethodField(name)
  {
    var field := MethodField(name);
    RunChar(START, ' ', {','});
    RunMethodField(START, name, {','});
    RunConcat(START, " ", field);
    UncutConcat(START, " ", field, {','});
    assert ArmInner(name, rest) == (" " + field) + ("," + rest);
    Feed(START, "", " " + field, "," + rest, {','});
    assert "" + (" " + field) == " " + field + "";
    assert field[0] == '"' && field[|field| - 1] == '"';
    TrimPadded(" ", field, "");
    assert " " + field + "" == " " + field;
    assert Trim(" " + field) == field && |field| > 0;
    assert Kept(" " + field) == [field];
    assert ("," + rest)[0] == ',';
  }

  /** A generated arm yields the method it was generated with, so it is dropped exactly when that
      method is experimental. */
  lemma GeneratedArmMethod(name: string, rest: string, experimental: set<string>)
    requires Plain(name) && StaysInside(INSIDE, rest)
    ensures MethodOfArm(GeneratedArm(name, rest)) == Some(name)
    ensures KeepsArm(GeneratedArm(name, rest), experimental) <==> name == "" || name !in experimental
  {
    GeneratedArmSpan(name, rest);
    FirstFieldIsMethod(name, rest);
    MethodFieldParses(name);
    assert TrimStart(Quote(name)) == Quote(name) == Quote(name) + "";
    QuoteIsLiteral(name, "");
  }

  lemma InnerStaysInside(name: string, rest: string)
    requires Plain(name) && StaysInside(INSIDE, rest)
    ensures StaysInside(INSIDE, ArmInner(name, rest))
  {
    var head := " " + MethodField(name) + ",";
    var chars := set i | 0 <= i < |head| :: head[i];
    RunChar(INSIDE, ' ', chars);
    RunChar(INSIDE, ',', chars);
    RunMethodField(INSIDE, name, chars);
    RunConcat(INSIDE, " ", MethodField(name));
    UncutConcat(INSIDE, " ", MethodField(name), chars);
    RunConcat(INSIDE, " " + MethodField(name), ",");
    UncutConcat(INSIDE, " " + MethodField(name), ",", chars);
    UncutNeither(INSIDE, head, chars);
    StaysInsideConcat(INSIDE, head, rest);
  }
}
