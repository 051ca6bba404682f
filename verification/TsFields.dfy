/** Declared fields, and when the field filter sees them as they were declared. The splitter knows strings
    and brackets but not comments, so a delimiter or a quote in a comment changes what it sees. */
module TsFields {
  import opened TsScanner
  import opened TsFilter
  import opened TsFile
  import opened Wrappers

  // ---- A declared field ----

  predicate IsName(name: string) {
    |name| > 0 && forall i :: 0 <= i < |name| ==> IsIdentChar(name[i])
  }

  /** A field: the comments before it, its name, whether it is optional, and its type. */
  datatype Declared = Declared(lead: string, name: string, optional: bool, typ: string)

  function Label(name: string, optional: bool): string {
    name + (if optional then "?:" else ":")
  }

  function Text(f: Declared): string {
    f.lead + (Label(f.name, f.optional) + f.typ)
  }

  /** Blanks and closed comments, a name and a type, with no blank at either end. */
  predicate Shaped(f: Declared) {
    && Skippable(f.lead) && (|f.lead| > 0 ==> !IsSpace(f.lead[0]))
    && IsName(f.name) && (|f.typ| > 0 ==> !IsSpace(f.typ[|f.typ| - 1]))
  }

  // ---- Trimming around a lead ----

  lemma {:induction false} TrimStartLead(lead: string, r: string) returns (q: string)
    requires Skippable(lead) && |r| > 0 && !IsSpace(r[0])
    ensures TrimStart(lead + r) == q + r && Skippable(q)
    decreases |lead|
  {
    if |lead| == 0 {
      q := "";
      assert lead + r == r == q + r;
    } else if IsSpace(lead[0]) {
      assert (lead + r)[1..] == lead[1..] + r;
      q := TrimStartLead(lead[1..], r);
    } else {
      q := lead;
      assert (lead + r)[0] == lead[0];
    }
  }

  lemma {:induction false} TrimEndTail(q: string, r: string)
    requires |TrimEnd(r)| > 0
    ensures TrimEnd(q + r) == q + TrimEnd(r)
    decreases |r|
  {
    assert (q + r)[|q + r| - 1] == r[|r| - 1];
    if IsSpace(r[|r| - 1]) {
      assert (q + r)[..|q + r| - 1] == q + r[..|r| - 1];
      TrimEndTail(q, r[..|r| - 1]);
    }
  }

  lemma {:induction false} TrimEndKeepsFirst(r: string)
    requires |r| > 0 && !IsSpace(r[0])
    ensures |TrimEnd(r)| > 0 && TrimEnd(r)[0] == r[0] && TrimEnd(r) <= r
    decreases |r|
  {
    if IsSpace(r[|r| - 1]) {
      TrimEndKeepsFirst(r[..|r| - 1]);
    }
  }

  /** What the name is read from, once a piece that starts with a lead is trimmed and stripped. */
  lemma StripTrimmed(lead: string, r: string)
    requires Skippable(lead) && |r| > 0 && !IsSpace(r[0]) && !LeadsComment(TrimEnd(r))
    ensures StripComments(TrimStart(Trim(lead + r))) == TrimEnd(r)
  {
    var q := TrimStartLead(lead, r);
    TrimEndKeepsFirst(r);
    TrimEndTail(q, r);
    SkipsAll(q, TrimEnd(r));
  }

  // ---- Reading the name ----

  lemma {:induction false} IdentLengthOf(name: string, rest: string)
    requires (forall i :: 0 <= i < |name| ==> IsIdentChar(name[i])) && (|rest| > 0 ==> !IsIdentChar(rest[0]))
    ensures IdentLength(name + rest) == |name|
    decreases |name|
  {
    if |name| == 0 {
      assert name + rest == rest;
    } else {
      assert (name + rest)[1..] == name[1..] + rest;
      IdentLengthOf(name[1..], rest);
    }
  }

  lemma NameStart(name: string, rest: string)
    requires IsName(name)
    ensures var t := name + rest;
      !IsSpace(t[0]) && TrimStart(t) == t && StringLiteral(t) == None && !LeadsComment(t) && t[0] != '/'
  {
    assert (name + rest)[0] == name[0] && IsIdentChar(name[0]);
  }

  lemma LabelRead(name: string, optional: bool, y: string)
    requires IsName(name)
    ensures PropertyName(Label(name, optional) + y) == Some(name)
  {
    var rest := (if optional then "?:" else ":") + y;
    assert Label(name, optional) + y == name + rest;
    NameStart(name, rest);
    IdentLengthOf(name, rest);
    assert (name + rest)[|name|..] == rest && (name + rest)[..|name|] == name;
    assert TrimStart(rest) == rest;
    if optional {
      assert rest[1..] == ":" + y && TrimStart(rest[1..]) == rest[1..];
    }
  }

  lemma LabelTrimmed(name: string, optional: bool, x: string) returns (y: string)
    requires IsName(name)
    ensures TrimEnd(Label(name, optional) + x) == Label(name, optional) + y
  {
    var tag := Label(name, optional);
    assert tag[|tag| - 1] == ':';
    if |TrimEnd(x)| > 0 {
      TrimEndTail(tag, x);
      y := TrimEnd(x);
    } else {
      var w := TrimEndSplits(x);
      assert x == w;
      TrimEndBlank(tag, x);
      assert TrimEnd(tag) == tag == tag + "";
      y := "";
    }
  }

  /** A piece that begins with a whole lead and label is kept exactly when the name is not experimental. */
  lemma WholeFieldRead(lead: string, name: string, optional: bool, x: string, experimental: set<string>)
    requires Skippable(lead) && IsName(name)
    ensures KeepsField(Trim(lead + (Label(name, optional) + x)), experimental) <==> name !in experimental
  {
    var r := Label(name, optional) + x;
    var y := LabelTrimmed(name, optional, x);
    var tail := if optional then "?:" else ":";
    assert r == name + (tail + x) && Label(name, optional) + y == name + (tail + y);
    NameStart(name, tail + x);
    NameStart(name, tail + y);
    StripTrimmed(lead, r);
    LabelRead(name, optional, y);
  }

  // ---- The first piece ----

  lemma TrimNotEmpty(s: string)
    ensures Trim(s) == "" <==> Blank(s)
  {
    var w, v := TrimSplits(s);
    if Blank(s) {
      assert s == s + "" + "";
      TrimPadded(s, "", "");
    }
  }

  lemma {:induction false} FirstPiece(s: Scan, piece: string, text: string) returns (x: string)
    requires !Blank(piece)
    ensures |Pieces(s, piece, text, FIELD_DELIMS)| > 0 && Pieces(s, piece, text, FIELD_DELIMS)[0] == Trim(piece + x)
    decreases |text|
  {
    TrimNotEmpty(piece);
    if |text| == 0 || Cuts(s, text[0], FIELD_DELIMS) {
      x := "";
      assert piece + x == piece;
    } else {
      var i :| 0 <= i < |piece| && !IsSpace(piece[i]);
      assert (piece + [text[0]])[i] == piece[i];
      var rest := FirstPiece(Next(s, text[0]), piece + [text[0]], text[1..]);
      x := [text[0]] + rest;
      assert piece + [text[0]] + rest == piece + x;
    }
  }

  lemma {:induction false} NoDelimUncut(s: Scan, t: string)
    requires forall i :: 0 <= i < |t| ==> t[i] !in FIELD_DELIMS
    ensures Uncut(s, t, FIELD_DELIMS)
    decreases |t|
  {
    if |t| > 0 {
      NoDelimUncut(Next(s, t[0]), t[1..]);
    }
  }

  lemma LabelUncut(s: Scan, name: string, optional: bool)
    requires IsName(name)
    ensures Uncut(s, Label(name, optional), FIELD_DELIMS)
  {
    var tag := Label(name, optional);
    forall i | 0 <= i < |tag| ensures tag[i] !in FIELD_DELIMS {
      assert i < |name| ==> tag[i] == name[i] && IsIdentChar(name[i]);
    }
    NoDelimUncut(s, tag);
  }

  lemma UncutHeadFirst(head: string, rest: string) returns (x: string)
    requires Uncut(START, head, FIELD_DELIMS) && !Blank(head)
    ensures var ps := Split(head + rest, FIELD_DELIMS); |ps| > 0 && ps[0] == Trim(head + x)
  {
    assert "" + head == head;
    Feed(START, "", head, rest, FIELD_DELIMS);
    x := FirstPiece(Run(START, head), head, rest);
  }

  lemma Reassociate(a: string, b: string, c: string)
    ensures a + (b + c) == a + b + c
  {
  }

  lemma UncutLeadFirst(lead: string, name: string, optional: bool, rest: string) returns (x: string)
    requires IsName(name) && Uncut(START, lead, FIELD_DELIMS)
    ensures var ps := Split(lead + (Label(name, optional) + rest), FIELD_DELIMS);
      |ps| > 0 && ps[0] == Trim(lead + (Label(name, optional) + x))
  {
    var tag := Label(name, optional);
    LabelUncut(Run(START, lead), name, optional);
    UncutConcat(START, lead, tag, FIELD_DELIMS);
    assert (lead + tag)[|lead|] == name[0] && IsIdentChar(name[0]);
    x := UncutHeadFirst(lead + tag, rest);
    Reassociate(lead, tag, rest);
    Reassociate(lead, tag, x);
  }

  // ---- A cut in a comment ----

  predicate Unclosed(u: string) {
    |u| >= 2 && u[0] == '/' && u[1] == '*' && AfterCommentEnd(u[2..]).None?
  }

  /** Where scanning a text is first cut. */
  lemma {:induction false} FirstCut(s: Scan, t: string) returns (k: nat)
    requires !Uncut(s, t, FIELD_DELIMS)
    ensures k < |t| && Uncut(s, t[..k], FIELD_DELIMS) && Cuts(Run(s, t[..k]), t[k], FIELD_DELIMS)
    decreases |t|
  {
    if Cuts(s, t[0], FIELD_DELIMS) {
      k := 0;
      assert t[..0] == "";
    } else {
      var j := FirstCut(Next(s, t[0]), t[1..]);
      k := j + 1;
      assert t[..k][0] == t[0] && t[..k][1..] == t[1..][..j];
    }
  }

  lemma {:induction false} NoEarlierEnd(s: string, m: nat)
    requires AfterCommentEnd(s).Some? && m < AfterCommentEnd(s).value
    ensures AfterCommentEnd(s[..m]).None?
    decreases |s|
  {
    if !(s[0] == '*' && s[1] == '/') {
      if m > 0 {
        NoEarlierEnd(s[1..], m - 1);
        assert s[..m][1..] == s[1..][..m - 1];
      }
    }
  }

  /** The first `n` characters set aside. */
  lemma Aside(lead: string, n: nat, k: nat, q: string, u: string)
    requires n <= k <= |lead| && lead[n..][..k - n] == q + u
    ensures lead[..k] == (lead[..n] + q) + u
  {
    assert lead[..k] == lead[..n] + lead[n..][..k - n];
  }

  lemma SplitAtChar(lead: string, k: nat, rest: string)
    requires k < |lead|
    ensures lead + rest == lead[..k] + ([lead[k]] + (lead[k + 1..] + rest))
  {
  }

  lemma SkippableAfterBlank(lead: string, q: string)
    requires |lead| > 0 && IsSpace(lead[0]) && Skippable(q)
    ensures Skippable(lead[..1] + q)
  {
    assert (lead[..1] + q)[0] == lead[0] && (lead[..1] + q)[1..] == q;
  }

  lemma InFirstComment(lead: string, k: nat)
    requires LeadsComment(lead) && k < |lead| && lead[k] in FIELD_DELIMS && k < 2 + AfterCommentEnd(lead[2..]).value
    ensures Unclosed(lead[..k])
  {
    assert k >= 2;
    assert lead[..k][2..] == lead[2..][..k - 2];
    NoEarlierEnd(lead[2..], k - 2);
  }

  /** A delimiter in a lead lies in a comment: what is before it ends with that comment unclosed. */
  lemma {:induction false} CutInComment(lead: string, k: nat) returns (q: string, u: string)
    requires Skippable(lead) && k < |lead| && lead[k] in FIELD_DELIMS
    ensures lead[..k] == q + u && Skippable(q) && Unclosed(u)
    decreases |lead|
  {
    if IsSpace(lead[0]) {
      q, u := CutInComment(lead[1..], k - 1);
      Aside(lead, 1, k, q, u);
      SkippableAfterBlank(lead, q);
      q := lead[..1] + q;
    } else {
      var n := 2 + AfterCommentEnd(lead[2..]).value;
      if k < n {
        q, u := "", lead[..k];
        InFirstComment(lead, k);
      } else {
        DropTwice(lead, n);
        q, u := CutInComment(lead[n..], k - n);
        Aside(lead, n, k, q, u);
        SkippableComment(lead[..n], q, lead);
        q := lead[..n] + q;
      }
    }
  }

  lemma DropTwice(s: string, n: nat)
    requires 2 <= n <= |s|
    ensures s[2..][n - 2..] == s[n..]
  {
  }

  lemma UnclosedTrimmed(u: string)
    requires Unclosed(u)
    ensures !LeadsComment(TrimEnd(u)) && PropertyName(TrimEnd(u)) == None
  {
    TrimEndKeepsFirst(u);
    var t := TrimEnd(u);
    assert TrimStart(t) == t && t[0] == '/';
    if LeadsComment(t) {
      assert u[2..] == t[2..] + u[|t|..];
      CommentEndAppend(t[2..], u[|t|..]);
    }
  }

  /** The text before the first cut is the first piece. */
  lemma CutSplit(a: string, c: char, b: string)
    requires Uncut(START, a, FIELD_DELIMS) && Cuts(Run(START, a), c, FIELD_DELIMS) && !Blank(a)
    ensures |Split(a + ([c] + b), FIELD_DELIMS)| > 0 && Split(a + ([c] + b), FIELD_DELIMS)[0] == Trim(a)
  {
    assert "" + a == a && ([c] + b)[1..] == b;
    Feed(START, "", a, [c] + b, FIELD_DELIMS);
    TrimNotEmpty(a);
  }

  lemma CutLeadKept(lead: string, rest: string, experimental: set<string>)
    requires Skippable(lead) && !Uncut(START, lead, FIELD_DELIMS)
    ensures |Split(lead + rest, FIELD_DELIMS)| > 0 && KeepsField(Split(lead + rest, FIELD_DELIMS)[0], experimental)
  {
    var k := FirstCut(START, lead);
    var q, u := CutInComment(lead, k);
    SplitAtChar(lead, k, rest);
    assert (q + u)[|q|] == '/';
    CutSplit(lead[..k], lead[k], lead[k + 1..] + rest);
    UnclosedTrimmed(u);
    StripTrimmed(q, u);
  }

  /** A field is dropped exactly when its name is experimental and the comments before it are not cut: a
      delimiter that the splitter sees in a comment keeps the field, whatever its name. */
  lemma FieldDroppedExactly(lead: string, name: string, optional: bool, rest: string, experimental: set<string>)
    requires Skippable(lead) && IsName(name)
    ensures var ps := Split(lead + (Label(name, optional) + rest), FIELD_DELIMS);
      && |ps| > 0
      && (!KeepsField(ps[0], experimental) <==> name in experimental && Uncut(START, lead, FIELD_DELIMS))
  {
    if Uncut(START, lead, FIELD_DELIMS) {
      var x := UncutLeadFirst(lead, name, optional, rest);
      WholeFieldRead(lead, name, optional, x, experimental);
    } else {
      CutLeadKept(lead, Label(name, optional) + rest, experimental);
    }
  }

  // ---- A body of declared fields ----

  function Texts(fs: seq<Declared>): seq<string> {
    seq(|fs|, i requires 0 <= i < |fs| => Text(fs[i]))
  }

  function Without(fs: seq<Declared>, experimental: set<string>): seq<Declared> {
    if |fs| == 0 then []
    else (if fs[0].name in experimental then [] else [fs[0]]) + Without(fs[1..], experimental)
  }

  predicate AllShaped(fs: seq<Declared>) {
    forall i :: 0 <= i < |fs| ==> Shaped(fs[i])
  }

  /** Each field is read alone: the splitter cuts none of them, and none but the last leaves a string or a
      bracket open. */
  predicate ReadAlone(fs: seq<Declared>) {
    && (forall i :: 0 <= i < |fs| ==> Uncut(START, Text(fs[i]), FIELD_DELIMS))
    && (forall i :: 0 <= i < |fs| - 1 ==> Closed(Text(fs[i])))
  }

  lemma ShapedText(f: Declared)
    requires Shaped(f)
    ensures |Text(f)| > 0 && Trimmed(Text(f))
  {
    var t, tail := Text(f), Label(f.name, f.optional) + f.typ;
    assert tail[0] == f.name[0] && IsIdentChar(f.name[0]);
    assert t[0] == if |f.lead| > 0 then f.lead[0] else tail[0];
    assert t[|t| - 1] == tail[|tail| - 1];
    assert |f.typ| == 0 ==> tail[|tail| - 1] == ':';
    assert |f.typ| > 0 ==> tail[|tail| - 1] == f.typ[|f.typ| - 1];
  }

  lemma TrimOfTrimmed(t: string)
    requires Trimmed(t)
    ensures Trim(t) == t
  {
    assert t == "" + t + "";
    TrimPadded("", t, "");
  }

  lemma DeclaredKept(f: Declared, experimental: set<string>)
    requires Shaped(f)
    ensures KeepsField(Text(f), experimental) <==> f.name !in experimental
  {
    ShapedText(f);
    TrimOfTrimmed(Text(f));
    WholeFieldRead(f.lead, f.name, f.optional, f.typ, experimental);
  }

  lemma TextsCons(f: Declared, rest: seq<Declared>)
    ensures Texts([f] + rest) == [Text(f)] + Texts(rest)
  {
  }

  lemma FilteredCons(t: string, ts: seq<string>, keep: string -> bool)
    ensures Filtered([t] + ts, keep) == (if keep(t) then [t] else []) + Filtered(ts, keep)
  {
    assert ([t] + ts)[1..] == ts;
  }

  lemma {:induction false} FilteredTexts(fs: seq<Declared>, experimental: set<string>)
    requires AllShaped(fs)
    ensures Filtered(Texts(fs), field => KeepsField(field, experimental)) == Texts(Without(fs, experimental))
    decreases |fs|
  {
    if |fs| > 0 {
      var f, rest := fs[0], fs[1..];
      var kept := Without(rest, experimental);
      assert fs == [f] + rest;
      FilteredTexts(rest, experimental);
      DeclaredKept(f, experimental);
      TextsCons(f, rest);
      FilteredCons(Text(f), Texts(rest), field => KeepsField(field, experimental));
      TextsCons(f, kept);
      assert [] + kept == kept && [] + Texts(kept) == Texts(kept);
    }
  }

  lemma AlonePieces(fs: seq<Declared>)
    requires AllShaped(fs)
    ensures PieceList(Texts(fs), FIELD_DELIMS) <==> ReadAlone(fs)
  {
    forall i | 0 <= i < |fs| ensures Piece(Texts(fs)[i], FIELD_DELIMS) <==> Uncut(START, Text(fs[i]), FIELD_DELIMS) {
      ShapedText(fs[i]);
    }
    assert forall i :: 0 <= i < |fs| ==> Texts(fs)[i] == Text(fs[i]);
  }

  /** The splitter sees a body of declared fields as declared exactly when each field is read alone. */
  lemma ReadAsDeclared(gaps: seq<string>, fs: seq<Declared>)
    requires AllShaped(fs) && Gaps(gaps, Texts(fs), FIELD_DELIMS)
    ensures Split(Weave(gaps, Texts(fs)), FIELD_DELIMS) == Texts(fs) <==> ReadAlone(fs)
  {
    AlonePieces(fs);
    SplitCharacterized(Weave(gaps, Texts(fs)), Texts(fs), FIELD_DELIMS);
  }

  /** Then exactly the fields whose declared name is experimental go, and the others stay as written. */
  lemma DeclaredFieldsFiltered(gaps: seq<string>, fs: seq<Declared>, experimental: set<string>)
    requires AllShaped(fs) && Gaps(gaps, Texts(fs), FIELD_DELIMS) && ReadAlone(fs)
    ensures FilterFields(Weave(gaps, Texts(fs)), experimental) == Join(Texts(Without(fs, experimental)), ", ")
  {
    ReadAsDeclared(gaps, fs);
    FilteredTexts(fs, experimental);
  }

  /** The same for a file whose type body is such a list of fields. */
  lemma DeclaredFileFiltered(content: string, gaps: seq<string>, fs: seq<Declared>, experimental: set<string>)
    requires TypeBodySpan(content).Some? && AllShaped(fs) && ReadAlone(fs) && Gaps(gaps, Texts(fs), FIELD_DELIMS)
    requires var (o, c) := TypeBodySpan(content).value; o < c < |content| && content[o + 1..c] == Weave(gaps, Texts(fs))
    ensures var (o, c) := TypeBodySpan(content).value;
      FilterFile(content, experimental)
      == content[..o + 1] + Join(Texts(Without(fs, experimental)), ", ") + content[c..]
  {
    DeclaredFieldsFiltered(gaps, fs, experimental);
  }

  lemma {:induction false} NeutralRun(s: Scan, t: string)
    requires s.delim.None? && forall i :: 0 <= i < |t| ==> Neutral(t[i])
    ensures Run(s, t) == s
    decreases |t|
  {
    if |t| > 0 {
      NeutralRun(Next(s, t[0]), t[1..]);
    }
  }

  lemma LabelRun(name: string, optional: bool)
    requires IsName(name)
    ensures Closed(Label(name, optional))
  {
    var tag := Label(name, optional);
    forall i | 0 <= i < |tag| ensures Neutral(tag[i]) {
      assert i < |name| ==> tag[i] == name[i] && IsIdentChar(name[i]);
    }
    NeutralRun(START, tag);
  }

  /** After comments that leave nothing open, it is a matter of the comments and the type. */
  lemma FieldParts(f: Declared)
    requires Shaped(f) && Closed(f.lead)
    ensures Uncut(START, Text(f), FIELD_DELIMS)
       <==> Uncut(START, f.lead, FIELD_DELIMS) && Uncut(START, f.typ, FIELD_DELIMS)
    ensures Closed(Text(f)) <==> Closed(f.typ)
  {
    var tag := Label(f.name, f.optional);
    LabelRun(f.name, f.optional);
    LabelUncut(START, f.name, f.optional);
    UncutConcat(START, f.lead, tag + f.typ, FIELD_DELIMS);
    UncutConcat(START, tag, f.typ, FIELD_DELIMS);
    RunConcat(START, f.lead, tag + f.typ);
    RunConcat(START, tag, f.typ);
  }

  // ---- Two bodies that are not seen as declared ----

  lemma CutCommentPieces(p: string, q: string)
    requires p == "/*a" && q == "b*/x:T"
    ensures Piece(p, FIELD_DELIMS) && Piece(q, FIELD_DELIMS) && Closed(p)
  {
    NoDelimUncut(START, p);
    NoDelimUncut(START, q);
    NeutralRun(START, p);
  }

  lemma CutCommentKept(p: string, q: string)
    requires p == "/*a" && q == "b*/x:T"
    ensures KeepsField(p, {"x"}) && KeepsField(q, {"x"})
  {
    assert p[2..] == "a" && Unclosed(p);
    assert TrimStart(p) == p && TrimEnd(p) == p;
    UnclosedTrimmed(p);
    var name, rest := "b", "*/x:T";
    assert q == name + rest;
    NameStart(name, rest);
    IdentLengthOf(name, rest);
    assert q[1..] == rest && TrimStart(rest) == rest;
  }

  lemma BothKept(p: string, q: string, experimental: set<string>)
    requires Piece(p, FIELD_DELIMS) && Piece(q, FIELD_DELIMS) && Closed(p)
    requires KeepsField(p, experimental) && KeepsField(q, experimental)
    ensures FilterFields(p + "," + q, experimental) == p + ", " + q
  {
    PairSplit(p, q);
    FilteredBoth(p, q, field => KeepsField(field, experimental));
    JoinBoth(p, q);
  }

  lemma CommaTexts(p: string, q: string)
    requires p == "/*a" && q == "b*/x:T"
    ensures p + "," + q == "/*a,b*/x:T" && p + ", " + q == "/*a, b*/x:T"
  {
  }

  /** A comma in its comment keeps an experimental field. */
  lemma CommaKeepsField(body: string, out: string)
    requires body == "/*a,b*/x:T" && out == "/*a, b*/x:T"
    ensures FilterFields(body, {"x"}) == out
  {
    var p, q := "/*a", "b*/x:T";
    CommaTexts(p, q);
    CutCommentPieces(p, q);
    CutCommentKept(p, q);
    BothKept(p, q, {"x"});
  }

  lemma FilteredBoth(p: string, q: string, keep: string -> bool)
    requires keep(p) && keep(q)
    ensures Filtered([p, q], keep) == [p, q]
  {
    assert [p, q][1..] == [q] && [q][1..] == [];
    assert Filtered([q], keep) == [q] + Filtered([q][1..], keep);
  }

  lemma JoinBoth(p: string, q: string)
    ensures Join([p, q], ", ") == p + ", " + q
  {
    assert [p, q][1..] == [q];
  }

  lemma {:induction false} InStringUncut(s: Scan, t: string)
    requires s.delim == Some('\'') && forall i :: 0 <= i < |t| ==> t[i] != '\''
    ensures Uncut(s, t, FIELD_DELIMS)
    decreases |t|
  {
    if |t| > 0 {
      InStringUncut(Next(s, t[0]), t[1..]);
    }
  }

  lemma QuotedLead(rest: string)
    requires forall i :: 0 <= i < |rest| ==> rest[i] != '\''
    ensures Uncut(START, "/*'" + rest, FIELD_DELIMS)
  {
    var a := "/*'";
    NoDelimUncut(START, a);
    assert a == "/*" + "'" && "'"[1..] == "";
    RunConcat(START, "/*", "'");
    NeutralRun(START, "/*");
    UncutConcat(START, a, rest, FIELD_DELIMS);
    InStringUncut(Run(START, a), rest);
  }

  lemma WholeSplit(t: string)
    requires Uncut(START, t, FIELD_DELIMS) && Trimmed(t) && |t| > 0
    ensures Split(t, FIELD_DELIMS) == [t]
  {
    assert t + "" == t && "" + t == t;
    Feed(START, "", t, "", FIELD_DELIMS);
    TrimOfTrimmed(t);
  }

  lemma WholeDropped(f: Declared, experimental: set<string>)
    requires Shaped(f) && Uncut(START, Text(f), FIELD_DELIMS) && f.name in experimental
    ensures FilterFields(Text(f), experimental) == ""
  {
    ShapedText(f);
    WholeSplit(Text(f));
    DeclaredKept(f, experimental);
    FilteredCons(Text(f), [], field => KeepsField(field, experimental));
    assert [Text(f)] + [] == [Text(f)];
  }

  /** An apostrophe in a comment makes the next field part of this one: dropping the one drops the other. */
  lemma ApostropheLosesField(body: string)
    requires body == "/*'*/x:T,y:T"
    ensures FilterFields(body, {"x"}) == ""
  {
    var f := Declared("/*'*/", "x", false, "T,y:T");
    ApostropheShaped(f);
    assert body == "/*'" + "*/x:T,y:T";
    QuotedLead("*/x:T,y:T");
    WholeDropped(f, {"x"});
  }

  lemma ApostropheShaped(f: Declared)
    requires f == Declared("/*'*/", "x", false, "T,y:T")
    ensures Shaped(f) && Text(f) == "/*'*/x:T,y:T"
  {
    assert f.lead[2..] == "'*/" && "'*/"[1..] == "*/";
    assert AfterCommentEnd("*/") == Some(2) && AfterCommentEnd("'*/") == Some(3);
    assert f.lead[2..][3..] == "";
    assert Label("x", false) == "x:";
  }
}
