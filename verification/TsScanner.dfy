/** The bracket- and string-aware scanner that cuts TypeScript text at its top level. */
module TsScanner {
  import opened Wrappers

  /** Nesting depths, the quote that opened the current string, and whether a backslash is pending. */
  datatype Scan = Scan(brace: nat, bracket: nat, paren: nat, angle: nat, delim: Option<char>, escape: bool)

  const START := Scan(0, 0, 0, 0, None, false)

  function Less(n: nat): nat {
    if n > 0 then n - 1 else 0
  }

  function Next(s: Scan, ch: char): Scan {
    match s.delim
    case Some(delim) =>
      if s.escape then s.(escape := false)
      else if ch == '\\' then s.(escape := true)
      else if ch == delim then s.(delim := None)
      else s
    case None =>
      match ch
      case '"' => s.(delim := Some(ch))
      case '\'' => s.(delim := Some(ch))
      case '{' => s.(brace := s.brace + 1)
      case '}' => s.(brace := Less(s.brace))
      case '[' => s.(bracket := s.bracket + 1)
      case ']' => s.(bracket := Less(s.bracket))
      case '(' => s.(paren := s.paren + 1)
      case ')' => s.(paren := Less(s.paren))
      case '<' => s.(angle := s.angle + 1)
      case '>' => s.(angle := Less(s.angle))
      case _ => s
  }

  predicate AtTop(s: Scan) {
    s.delim.None? && s.brace == 0 && s.bracket == 0 && s.paren == 0 && s.angle == 0
  }

  /** The scanner object; `View` is its value. */
  class ScanState {
    var brace: int
    var bracket: int
    var paren: int
    var angle: int
    var stringDelim: Option<char>
    var escape: bool

    ghost predicate Valid()
      reads this
    {
      brace >= 0 && bracket >= 0 && paren >= 0 && angle >= 0
    }

    ghost function View(): Scan
      reads this
      requires Valid()
    {
      Scan(brace, bracket, paren, angle, stringDelim, escape)
    }

    constructor ()
      ensures Valid() && View() == START
    {
      brace, bracket, paren, angle := 0, 0, 0, 0;
      stringDelim, escape := None, false;
    }

    method Observe(ch: char)
      requires Valid()
      modifies this
      ensures Valid() && View() == Next(old(View()), ch)
    {
      if stringDelim.Some? {
        if escape {
          escape := false;
          return;
        }
        if ch == '\\' {
          escape := true;
          return;
        }
        if ch == stringDelim.value {
          stringDelim := None;
        }
        return;
      }
      match ch {
        case '"' => stringDelim := Some(ch);
        case '\'' => stringDelim := Some(ch);
        case '{' => brace := brace + 1;
        case '}' => brace := if brace - 1 > 0 then brace - 1 else 0;
        case '[' => bracket := bracket + 1;
        case ']' => bracket := if bracket - 1 > 0 then bracket - 1 else 0;
        case '(' => paren := paren + 1;
        case ')' => paren := if paren - 1 > 0 then paren - 1 else 0;
        case '<' => angle := angle + 1;
        case '>' => angle := if angle > 0 then angle - 1 else angle;
        case _ =>
      }
    }

    predicate InString()
      reads this
    {
      stringDelim.Some?
    }

    predicate IsTopLevel()
      reads this
    {
      brace == 0 && bracket == 0 && paren == 0 && angle == 0
    }
  }

  // ---- Trimming ----

  /** The Unicode White_Space characters, which Rust's `trim` removes. */
  predicate IsSpace(c: char) {
    var n := c as int;
    || 9 <= n <= 13 || n == 0x20 || n == 0x85 || n == 0xA0 || n == 0x1680
    || 0x2000 <= n <= 0x200A || n == 0x2028 || n == 0x2029 || n == 0x202F || n == 0x205F || n == 0x3000
  }

  predicate Blank(s: string) {
    forall i :: 0 <= i < |s| ==> IsSpace(s[i])
  }

  function TrimStart(s: string): string {
    if |s| > 0 && IsSpace(s[0]) then TrimStart(s[1..]) else s
  }

  function TrimEnd(s: string): string {
    if |s| > 0 && IsSpace(s[|s| - 1]) then TrimEnd(s[..|s| - 1]) else s
  }

  function Trim(s: string): string {
    TrimEnd(TrimStart(s))
  }

  /** Nothing to trim. */
  predicate Trimmed(s: string) {
    |s| > 0 ==> !IsSpace(s[0]) && !IsSpace(s[|s| - 1])
  }

  lemma {:induction false} TrimStartSplits(s: string) returns (w: string)
    ensures s == w + TrimStart(s) && Blank(w)
    ensures |TrimStart(s)| > 0 ==> !IsSpace(TrimStart(s)[0])
  {
    if |s| > 0 && IsSpace(s[0]) {
      w := TrimStartSplits(s[1..]);
      w := [s[0]] + w;
      assert s == [s[0]] + s[1..];
    } else {
      w := "";
    }
  }

  lemma {:induction false} TrimEndSplits(s: string) returns (w: string)
    ensures s == TrimEnd(s) + w && Blank(w)
    ensures |TrimEnd(s)| > 0 ==> !IsSpace(TrimEnd(s)[|TrimEnd(s)| - 1])
  {
    if |s| > 0 && IsSpace(s[|s| - 1]) {
      w := TrimEndSplits(s[..|s| - 1]);
      w := w + [s[|s| - 1]];
      assert s == s[..|s| - 1] + [s[|s| - 1]];
    } else {
      w := "";
    }
  }

  lemma TrimSplits(s: string) returns (w: string, v: string)
    ensures s == w + Trim(s) + v && Blank(w) && Blank(v) && Trimmed(Trim(s))
  {
    w := TrimStartSplits(s);
    var t := TrimStart(s);
    v := TrimEndSplits(t);
    assert w + (Trim(s) + v) == w + Trim(s) + v;
    assert |Trim(s)| > 0 ==> Trim(s)[0] == t[0];
  }

  lemma {:induction false} TrimStartBlank(w: string, s: string)
    requires Blank(w)
    ensures TrimStart(w + s) == TrimStart(s)
  {
    if |w| == 0 {
      assert w + s == s;
    } else {
      TrimStartBlank(w[1..], s);
      assert (w + s)[1..] == w[1..] + s;
    }
  }

  lemma {:induction false} TrimEndBlank(s: string, w: string)
    requires Blank(w)
    ensures TrimEnd(s + w) == TrimEnd(s)
  {
    if |w| == 0 {
      assert s + w == s;
    } else {
      TrimEndBlank(s, w[..|w| - 1]);
      assert (s + w)[..|s + w| - 1] == s + w[..|w| - 1];
    }
  }

  /** Trimming undoes padding. */
  lemma TrimPadded(w: string, p: string, v: string)
    requires Blank(w) && Blank(v) && Trimmed(p)
    ensures Trim(w + p + v) == p
  {
    assert w + p + v == w + (p + v);
    TrimStartBlank(w, p + v);
    if |p| == 0 {
      assert p + v == v + "";
      TrimStartBlank(v, "");
    } else {
      assert TrimStart(p + v) == p + v;
      TrimEndBlank(p, v);
    }
  }

  // ---- Splitting ----

  /** A delimiter is cut at only outside strings and brackets. */
  predicate Cuts(s: Scan, ch: char, delims: set<char>) {
    AtTop(s) && ch in delims
  }

  /** The piece as it is kept: trimmed, and dropped when nothing is left. */
  function Kept(piece: string): seq<string> {
    if Trim(piece) == "" then [] else [Trim(piece)]
  }

  /** The pieces still to come, with scanner state `s` and `piece` read since the last cut. */
  function Pieces(s: Scan, piece: string, text: string, delims: set<char>): seq<string>
    decreases |text|
  {
    if |text| == 0 then Kept(piece)
    else if Cuts(s, text[0], delims) then Kept(piece) + Pieces(Next(s, text[0]), "", text[1..], delims)
    else Pieces(Next(s, text[0]), piece + [text[0]], text[1..], delims)
  }

  function Split(text: string, delims: set<char>): seq<string> {
    Pieces(START, "", text, delims)
  }

  /** One character on. */
  lemma PiecesNext(s: Scan, input: string, start: nat, index: nat, delims: set<char>)
    requires start <= index < |input|
    ensures Pieces(s, input[start..index], input[index..], delims) ==
            if Cuts(s, input[index], delims)
            then Kept(input[start..index]) +
              Pieces(Next(s, input[index]), input[index + 1..index + 1], input[index + 1..], delims)
            else Pieces(Next(s, input[index]), input[start..index + 1], input[index + 1..], delims)
  {
    assert input[index..][0] == input[index] && input[index..][1..] == input[index + 1..];
    assert input[index + 1..index + 1] == "";
    assert input[start..index + 1] == input[start..index] + [input[index]];
  }

  method PushTrimmed(parts: seq<string>, piece: string) returns (r: seq<string>)
    ensures r == parts + Kept(piece)
  {
    r := parts;
    var part := Trim(piece);
    if part != "" {
      r := r + [part];
    }
  }

  lemma Regroup(a: seq<string>, b: seq<string>, c: seq<string>)
    ensures a + (b + c) == a + b + c
  {
  }

  lemma PiecesEnd(s: Scan, input: string, start: nat, delims: set<char>)
    requires start <= |input|
    ensures Pieces(s, input[start..|input|], input[|input|..], delims) == Kept(input[start..])
  {
    assert input[|input|..] == "" && input[start..|input|] == input[start..];
  }

  /** `split_top_level_multi`. */
  method SplitTopLevelMulti(input: string, delimiters: set<char>) returns (parts: seq<string>)
    ensures parts == Split(input, delimiters)
  {
    var state := new ScanState();
    var start := 0;
    parts := [];
    ghost var view := START;
    assert input[0..0] == "" && input[0..] == input;
    for index := 0 to |input|
      invariant 0 <= start <= index
      invariant state.Valid() && fresh(state) && state.View() == view
      invariant Split(input, delimiters) == parts + Pieces(view, input[start..index], input[index..], delimiters)
    {
      var ch := input[index];
      PiecesNext(view, input, start, index, delimiters);
      if !state.InString() && state.IsTopLevel() && ch in delimiters {
        Regroup(parts, Kept(input[start..index]),
          Pieces(Next(view, ch), input[index + 1..index + 1], input[index + 1..], delimiters));
        parts := PushTrimmed(parts, input[start..index]);
        start := index + 1;
      }
      state.Observe(ch);
      view := Next(view, ch);
    }
    PiecesEnd(view, input, start, delimiters);
    parts := PushTrimmed(parts, input[start..]);
  }

  // ---- What a piece is ----

  function Run(s: Scan, text: string): Scan
    decreases |text|
  {
    if |text| == 0 then s else Run(Next(s, text[0]), text[1..])
  }

  /** Scanning `text` from `s` meets no place to cut. */
  predicate Uncut(s: Scan, text: string, delims: set<char>)
    decreases |text|
  {
    |text| > 0 ==> !Cuts(s, text[0], delims) && Uncut(Next(s, text[0]), text[1..], delims)
  }

  /** Characters that neither open, close nor quote anything. */
  predicate Neutral(c: char) {
    c !in {'"', '\'', '{', '}', '[', ']', '(', ')', '<', '>'}
  }

  predicate Delimiters(delims: set<char>) {
    forall c :: c in delims ==> Neutral(c) && !IsSpace(c) && c != '\\'
  }

  predicate Piece(p: string, delims: set<char>) {
    |p| > 0 && Trimmed(p) && Uncut(START, p, delims)
  }

  /** The scanner is back at its start after `p`. */
  predicate Closed(p: string) {
    Run(START, p) == START
  }

  /** Pieces of some text: only the last may leave a string or a bracket open. */
  predicate PieceList(ps: seq<string>, delims: set<char>) {
    && (forall i :: 0 <= i < |ps| ==> Piece(ps[i], delims))
    && (forall i :: 0 <= i < |ps| - 1 ==> Closed(ps[i]))
  }

  /** Blanks and delimiters only. */
  predicate Gap(g: string, delims: set<char>) {
    forall i :: 0 <= i < |g| ==> IsSpace(g[i]) || g[i] in delims
  }

  /** The text of pieces set between gaps. */
  function Weave(gaps: seq<string>, ps: seq<string>): string
    requires |gaps| == |ps| + 1
    decreases |ps|
  {
    if |ps| == 0 then gaps[0] else gaps[0] + ps[0] + Weave(gaps[1..], ps[1..])
  }

  /** Every inner gap holds a delimiter; after an open last piece only blanks follow. */
  predicate Gaps(gaps: seq<string>, ps: seq<string>, delims: set<char>) {
    && |gaps| == |ps| + 1
    && (forall i :: 0 <= i < |gaps| ==> Gap(gaps[i], delims))
    && (forall i :: 0 < i < |ps| ==> !Blank(gaps[i]))
    && (|ps| > 0 && !Closed(ps[|ps| - 1]) ==> Blank(gaps[|ps|]))
  }

  lemma {:induction false} RunConcat(s: Scan, t: string, u: string)
    ensures Run(s, t + u) == Run(Run(s, t), u)
    decreases |t|
  {
    if |t| == 0 {
      assert t + u == u;
    } else {
      assert (t + u)[1..] == t[1..] + u;
      RunConcat(Next(s, t[0]), t[1..], u);
    }
  }

  lemma {:induction false} UncutConcat(s: Scan, t: string, u: string, delims: set<char>)
    ensures Uncut(s, t + u, delims) <==> Uncut(s, t, delims) && Uncut(Run(s, t), u, delims)
    decreases |t|
  {
    if |t| == 0 {
      assert t + u == u;
    } else {
      assert (t + u)[1..] == t[1..] + u;
      UncutConcat(Next(s, t[0]), t[1..], u, delims);
    }
  }

  /** Blanks change nothing outside strings, and never leave one. */
  lemma {:induction false} RunBlank(s: Scan, w: string, delims: set<char>)
    requires Blank(w) && Delimiters(delims)
    ensures s.delim.None? ==> Run(s, w) == s
    ensures s.delim.Some? && (s.delim == Some('"') || s.delim == Some('\'')) ==> Run(s, w).delim == s.delim
    ensures Uncut(s, w, delims)
    decreases |w|
  {
    if |w| > 0 {
      RunBlank(Next(s, w[0]), w[1..], delims);
    }
  }

  /** States the scanner can be in: a pending backslash only inside a string. */
  predicate Sound(s: Scan) {
    match s.delim
    case None => !s.escape
    case Some(c) => c == '"' || c == '\''
  }

  lemma {:induction false} RunSound(s: Scan, t: string)
    requires Sound(s)
    ensures Sound(Run(s, t))
    decreases |t|
  {
    if |t| > 0 {
      RunSound(Next(s, t[0]), t[1..]);
    }
  }

  /** Trimming keeps a piece uncut, and closed if it was. */
  lemma TrimKeeps(w: string, p: string, v: string, delims: set<char>)
    requires Blank(w) && Blank(v) && Delimiters(delims)
    requires Uncut(START, w + p + v, delims)
    ensures Uncut(START, p, delims)
    ensures Closed(w + p + v) ==> Closed(p)
    ensures !Closed(w + p + v) ==> !Closed(p)
  {
    assert w + p + v == w + (p + v);
    RunBlank(START, w, delims);
    RunConcat(START, w, p + v);
    UncutConcat(START, w, p + v, delims);
    RunConcat(START, p, v);
    UncutConcat(START, p, v, delims);
    RunSound(START, p);
    RunBlank(Run(START, p), v, delims);
  }

  lemma {:induction false} Feed(s: Scan, piece: string, t: string, text: string, delims: set<char>)
    requires Uncut(s, t, delims)
    ensures Pieces(s, piece, t + text, delims) == Pieces(Run(s, t), piece + t, text, delims)
    decreases |t|
  {
    if |t| == 0 {
      assert t + text == text && piece + t == piece;
    } else {
      assert (t + text)[1..] == t[1..] + text;
      Feed(Next(s, t[0]), piece + [t[0]], t[1..], text, delims);
      assert piece + [t[0]] + t[1..] == piece + t;
    }
  }

  /** One character of a gap. */
  lemma FeedGapChar(piece: string, g: string, text: string, delims: set<char>)
    requires |g| > 0 && Gap(g, delims) && Delimiters(delims)
    ensures Gap(g[1..], delims) && (g[0] in delims ==> !IsSpace(g[0])) && (g[0] !in delims ==> IsSpace(g[0]))
    ensures Pieces(START, piece, g + text, delims) ==
            if g[0] in delims then Kept(piece) + Pieces(START, "", g[1..] + text, delims)
            else Pieces(START, piece + [g[0]], g[1..] + text, delims)
  {
    assert (g + text)[0] == g[0] && (g + text)[1..] == g[1..] + text;
    assert IsSpace(g[0]) || g[0] in delims;
    assert Next(START, g[0]) == START;
  }

  /** A gap flushes the piece before it if it holds a delimiter, and leaves blanks behind. */
  lemma {:induction false} FeedGap(piece: string, g: string, text: string, delims: set<char>) returns (w: string)
    requires Gap(g, delims) && Delimiters(delims)
    ensures Blank(g) ==> w == piece + g
    ensures !Blank(g) ==> Blank(w)
    ensures Pieces(START, piece, g + text, delims)
         == (if Blank(g) then [] else Kept(piece)) + Pieces(START, w, text, delims)
    decreases |g|
  {
    if |g| == 0 {
      w := piece;
      assert g + text == text && piece + g == piece;
      assert [] + Pieces(START, w, text, delims) == Pieces(START, w, text, delims);
    } else {
      var g' := g[1..];
      FeedGapChar(piece, g, text, delims);
      BlankCons(g);
      if g[0] in delims {
        w := FeedGap("", g', text, delims);
        BlankKept("");
        assert "" + g' == g' && [] + Pieces(START, w, text, delims) == Pieces(START, w, text, delims);
      } else {
        w := FeedGap(piece + [g[0]], g', text, delims);
        assert piece + [g[0]] + g' == piece + g;
        KeptPadded(piece, g[0]);
      }
    }
  }

  lemma BlankCons(g: string)
    requires |g| > 0
    ensures Blank(g) <==> IsSpace(g[0]) && Blank(g[1..])
  {
    assert g == [g[0]] + g[1..];
  }

  lemma KeptPadded(piece: string, c: char)
    requires IsSpace(c)
    ensures Kept(piece + [c]) == Kept(piece)
  {
    var w, v := TrimSplits(piece);
    assert piece + [c] == w + Trim(piece) + (v + [c]);
    TrimPadded(w, Trim(piece), v + [c]);
  }

  lemma KeptPiece(w: string, p: string, delims: set<char>)
    requires Blank(w) && Piece(p, delims)
    ensures Kept(w + p) == [p]
  {
    assert w + p == w + p + "";
    TrimPadded(w, p, "");
  }

  lemma BlankKept(w: string)
    requires Blank(w)
    ensures Kept(w) == []
  {
    assert w == w + "" + "";
    TrimPadded(w, "", "");
  }

  /** The last piece and what follows it. */
  lemma LastPiece(w: string, p: string, g: string, delims: set<char>)
    requires Delimiters(delims) && Blank(w) && Piece(p, delims) && Gap(g, delims) && (!Closed(p) ==> Blank(g))
    ensures Pieces(Run(START, p), w + p, g, delims) == [p]
  {
    assert g == g + "";
    KeptPiece(w, p, delims);
    if Closed(p) {
      var v := FeedGap(w + p, g, "", delims);
      if Blank(g) {
        TrimPadded(w, p, g);
      } else {
        BlankKept(v);
      }
    } else {
      RunBlank(Run(START, p), g, delims);
      Feed(Run(START, p), w + p, g, "", delims);
      TrimPadded(w, p, g);
    }
  }

  /** Splitting a woven text gives back its pieces. */
  lemma {:induction false} SplitWoven(lead: string, gaps: seq<string>, ps: seq<string>, delims: set<char>)
    requires Delimiters(delims) && PieceList(ps, delims) && Gaps(gaps, ps, delims) && Blank(lead)
    ensures Pieces(START, lead, Weave(gaps, ps), delims) == ps
    decreases |ps|
  {
    BlankKept(lead);
    if |ps| == 0 {
      assert gaps[0] + "" == gaps[0];
      var w := FeedGap(lead, gaps[0], "", delims);
      BlankKept(w);
    } else {
      var rest := Weave(gaps[1..], ps[1..]);
      assert Weave(gaps, ps) == gaps[0] + (ps[0] + rest);
      var w := FeedGap(lead, gaps[0], ps[0] + rest, delims);
      Feed(START, w, ps[0], rest, delims);
      if |ps| == 1 {
        LastPiece(w, ps[0], gaps[1], delims);
      } else {
        SplitAfter(w, gaps, ps, delims);
      }
    }
  }

  /** The pieces after the first, with nothing before them. */
  lemma RestWoven(gaps: seq<string>, ps: seq<string>, delims: set<char>)
    requires PieceList(ps, delims) && Gaps(gaps, ps, delims) && |ps| > 1
    ensures PieceList(ps[1..], delims) && Gaps([""] + gaps[2..], ps[1..], delims)
    ensures Weave([""] + gaps[2..], ps[1..]) == ps[1] + Weave(gaps[2..], ps[2..])
    ensures Weave(gaps[1..], ps[1..]) == gaps[1] + (ps[1] + Weave(gaps[2..], ps[2..]))
  {
    var qs, hs := ps[1..], [""] + gaps[2..];
    assert hs[1..] == gaps[2..] == gaps[1..][1..] && qs[1..] == ps[2..];
    assert gaps[1] + ps[1] + Weave(gaps[2..], ps[2..]) == gaps[1] + (ps[1] + Weave(gaps[2..], ps[2..]));
    assert forall i :: 0 <= i < |qs| ==> qs[i] == ps[i + 1];
    assert forall i :: 0 < i < |hs| ==> hs[i] == gaps[i + 1];
  }

  lemma {:induction false} SplitAfter(w: string, gaps: seq<string>, ps: seq<string>, delims: set<char>)
    requires Delimiters(delims) && PieceList(ps, delims) && Gaps(gaps, ps, delims) && Blank(w) && |ps| > 1
    ensures Pieces(START, w + ps[0], Weave(gaps[1..], ps[1..]), delims) == ps
    decreases |ps|, 0
  {
    var text := ps[1] + Weave(gaps[2..], ps[2..]);
    RestWoven(gaps, ps, delims);
    var v := FeedGap(w + ps[0], gaps[1], text, delims);
    KeptPiece(w, ps[0], delims);
    SplitWoven(v, [""] + gaps[2..], ps[1..], delims);
    assert ps == [ps[0]] + ps[1..];
  }

  lemma {:induction false} PiecesWoven(s: Scan, piece: string, text: string, delims: set<char>)
    returns (gaps: seq<string>)
    requires Delimiters(delims) && Sound(s) && Run(START, piece) == s && Uncut(START, piece, delims)
    ensures PieceList(Pieces(s, piece, text, delims), delims)
    ensures Gaps(gaps, Pieces(s, piece, text, delims), delims)
    ensures piece + text == Weave(gaps, Pieces(s, piece, text, delims))
    decreases |text|
  {
    if |text| == 0 {
      gaps := LastWoven(piece, delims);
      assert piece + text == piece;
    } else {
      var c, text' := text[0], text[1..];
      assert text == [c] + text';
      if Cuts(s, c, delims) {
        assert s == START;
        var gaps' := PiecesWoven(Next(s, c), "", text', delims);
        assert "" + text' == text';
        gaps := CutWoven(piece, c, text', gaps', Pieces(Next(s, c), "", text', delims), delims);
      } else {
        RunConcat(START, piece, [c]);
        UncutConcat(START, piece, [c], delims);
        assert Run(s, [c]) == Next(s, c) by { assert [c][1..] == ""; }
        assert Uncut(s, [c], delims) by { assert [c][1..] == ""; }
        gaps := PiecesWoven(Next(s, c), piece + [c], text', delims);
        assert piece + [c] + text' == piece + text;
      }
    }
  }

  lemma WeaveOne(w: string, t: string, v: string)
    ensures Weave([w, v], [t]) == w + t + v
  {
    assert [t][1..] == [] && [w, v][1..] == [v];
  }

  lemma OneWoven(w: string, t: string, v: string, delims: set<char>)
    requires Blank(w) && Blank(v) && Piece(t, delims)
    ensures PieceList([t], delims) && Gaps([w, v], [t], delims) && Weave([w, v], [t]) == w + t + v
  {
    WeaveOne(w, t, v);
  }

  lemma NoneWoven(piece: string, delims: set<char>)
    requires Blank(piece)
    ensures PieceList([], delims) && Gaps([piece], [], delims) && Weave([piece], []) == piece
  {
  }

  lemma LastWoven(piece: string, delims: set<char>) returns (gaps: seq<string>)
    requires Delimiters(delims) && Uncut(START, piece, delims)
    ensures PieceList(Kept(piece), delims) && Gaps(gaps, Kept(piece), delims)
    ensures piece == Weave(gaps, Kept(piece))
  {
    var w, v := TrimSplits(piece);
    var t := Trim(piece);
    if t == "" {
      gaps := [piece];
      NoneWoven(piece, delims);
    } else {
      TrimKeeps(w, t, v, delims);
      gaps := [w, v];
      OneWoven(w, t, v, delims);
    }
  }

  lemma WidenFirst(g: string, gaps: seq<string>, ps: seq<string>, delims: set<char>)
    requires Gap(g, delims) && Gaps(gaps, ps, delims)
    ensures Gaps([g + gaps[0]] + gaps[1..], ps, delims)
    ensures Weave([g + gaps[0]] + gaps[1..], ps) == g + Weave(gaps, ps)
  {
    var wide := [g + gaps[0]] + gaps[1..];
    assert wide[1..] == gaps[1..];
    assert forall i :: 1 <= i < |gaps| ==> wide[i] == gaps[i];
    if |ps| > 0 {
      assert g + gaps[0] + ps[0] + Weave(gaps[1..], ps[1..]) == g + Weave(gaps, ps);
    }
  }

  lemma PushPiece(w: string, t: string, gaps: seq<string>, ps: seq<string>, delims: set<char>)
    requires Gap(w, delims) && Piece(t, delims) && Closed(t)
    requires PieceList(ps, delims) && Gaps(gaps, ps, delims) && !Blank(gaps[0])
    ensures PieceList([t] + ps, delims) && Gaps([w] + gaps, [t] + ps, delims)
    ensures Weave([w] + gaps, [t] + ps) == w + t + Weave(gaps, ps)
  {
    var all, wide := [t] + ps, [w] + gaps;
    assert all[1..] == ps && wide[1..] == gaps;
    assert forall i :: 1 <= i < |all| ==> all[i] == ps[i - 1];
    assert forall i :: 1 <= i < |wide| ==> wide[i] == gaps[i - 1];
  }

  lemma CutAfterPiece(piece: string, w: string, t: string, v: string, c: char, gaps: seq<string>, ps: seq<string>,
                      delims: set<char>)
    returns (gaps': seq<string>)
    requires Delimiters(delims) && c in delims && Gap(w, delims) && Gap(v, delims) && Piece(t, delims) && Closed(t)
    requires PieceList(ps, delims) && Gaps(gaps, ps, delims) && piece == w + t + v
    ensures PieceList([t] + ps, delims) && Gaps(gaps', [t] + ps, delims)
    ensures Weave(gaps', [t] + ps) == piece + ([c] + Weave(gaps, ps))
  {
    var g, rest := v + [c], Weave(gaps, ps);
    var tail := [g + gaps[0]] + gaps[1..];
    assert !Blank(tail[0]) by { assert tail[0][|v|] == c; }
    WidenFirst(g, gaps, ps, delims);
    PushPiece(w, t, tail, ps, delims);
    gaps' := [w] + tail;
    assert w + t + (v + [c] + rest) == w + t + v + ([c] + rest);
  }

  lemma CutAfterBlank(piece: string, c: char, gaps: seq<string>, ps: seq<string>, delims: set<char>)
    returns (gaps': seq<string>)
    requires Blank(piece) && c in delims && Gaps(gaps, ps, delims)
    ensures Gaps(gaps', ps, delims) && Weave(gaps', ps) == piece + ([c] + Weave(gaps, ps))
  {
    var g := piece + [c];
    gaps' := [g + gaps[0]] + gaps[1..];
    WidenFirst(g, gaps, ps, delims);
    assert piece + ([c] + Weave(gaps, ps)) == g + Weave(gaps, ps);
  }

  lemma CutWoven(piece: string, c: char, text: string, gaps: seq<string>, ps: seq<string>, delims: set<char>)
    returns (gaps': seq<string>)
    requires Delimiters(delims) && c in delims
    requires Uncut(START, piece, delims) && Closed(piece)
    requires PieceList(ps, delims) && Gaps(gaps, ps, delims) && text == Weave(gaps, ps)
    ensures PieceList(Kept(piece) + ps, delims) && Gaps(gaps', Kept(piece) + ps, delims)
    ensures piece + ([c] + text) == Weave(gaps', Kept(piece) + ps)
  {
    var w, v := TrimSplits(piece);
    var t := Trim(piece);
    if t == "" {
      gaps' := CutAfterBlank(piece, c, gaps, ps, delims);
      assert Kept(piece) + ps == ps;
    } else {
      TrimKeeps(w, t, v, delims);
      gaps' := CutAfterPiece(piece, w, t, v, c, gaps, ps, delims);
    }
  }

  /** The split of a text is its one decomposition into uncut, trimmed pieces between gaps:
      nothing but blanks and delimiters is lost, and no other list of pieces fits. */
  lemma SplitCharacterized(text: string, ps: seq<string>, delims: set<char>)
    requires Delimiters(delims)
    ensures Split(text, delims) == ps
       <==> PieceList(ps, delims) && exists gaps :: Gaps(gaps, ps, delims) && text == Weave(gaps, ps)
  {
    if Split(text, delims) == ps {
      var gaps := PiecesWoven(START, "", text, delims);
      assert "" + text == text;
    }
    if PieceList(ps, delims) && exists gaps :: Gaps(gaps, ps, delims) && text == Weave(gaps, ps) {
      var gaps :| Gaps(gaps, ps, delims) && text == Weave(gaps, ps);
      SplitWoven("", gaps, ps, delims);
    }
  }

  // ---- Filtering and joining ----

  function Join(ps: seq<string>, sep: string): string {
    if |ps| == 0 then "" else if |ps| == 1 then ps[0] else ps[0] + sep + Join(ps[1..], sep)
  }

  /** The pieces whose mark is set, in order. */
  function Select(ps: seq<string>, marks: seq<bool>): seq<string>
    requires |marks| == |ps|
  {
    if |ps| == 0 then [] else (if marks[0] then [ps[0]] else []) + Select(ps[1..], marks[1..])
  }

  lemma {:induction false} SelectPieces(ps: seq<string>, marks: seq<bool>, delims: set<char>)
    requires |marks| == |ps| && PieceList(ps, delims)
    ensures PieceList(Select(ps, marks), delims)
    ensures forall i :: 0 <= i < |Select(ps, marks)| ==> Select(ps, marks)[i] in ps
  {
    if |ps| > 0 {
      assert PieceList(ps[1..], delims);
      SelectPieces(ps[1..], marks[1..], delims);
      var rest := Select(ps[1..], marks[1..]);
      assert forall p :: p in ps[1..] ==> p in ps;
      if marks[0] && |rest| > 0 {
        assert |ps[1..]| > 0;
        assert Closed(ps[0]);
      }
    }
  }

  /** A separator: one or more delimiters, possibly with blanks. */
  predicate Separator(sep: string, delims: set<char>) {
    Gap(sep, delims) && !Blank(sep)
  }

  /** A piece and a separator put before the rest. */
  lemma JoinedGaps(p: string, sep: string, hs: seq<string>, qs: seq<string>, delims: set<char>)
    requires Piece(p, delims) && Closed(p) && Separator(sep, delims)
    requires PieceList(qs, delims) && Gaps(hs, qs, delims)
    ensures Gaps([""] + ([sep + hs[0]] + hs[1..]), [p] + qs, delims)
    ensures Weave([""] + ([sep + hs[0]] + hs[1..]), [p] + qs) == p + sep + Weave(hs, qs)
  {
    var tail, rest := [sep + hs[0]] + hs[1..], Weave(hs, qs);
    WidenFirst(sep, hs, qs, delims);
    assert !Blank(tail[0]) by {
      var i :| 0 <= i < |sep| && !IsSpace(sep[i]);
      assert tail[0][i] == sep[i];
    }
    assert Gap("", delims);
    PushPiece("", p, tail, qs, delims);
    assert "" + p + (sep + rest) == p + sep + rest;
  }

  lemma {:induction false} JoinWoven(ps: seq<string>, sep: string, delims: set<char>) returns (gaps: seq<string>)
    requires PieceList(ps, delims) && Separator(sep, delims)
    ensures Gaps(gaps, ps, delims) && Join(ps, sep) == Weave(gaps, ps)
    ensures gaps[0] == "" && gaps[|ps|] == ""
  {
    if |ps| <= 1 {
      gaps := seq(|ps| + 1, _ => "");
    } else {
      var qs := ps[1..];
      assert PieceList(qs, delims);
      var hs := JoinWoven(qs, sep, delims);
      gaps := [""] + ([sep + hs[0]] + hs[1..]);
      JoinedGaps(ps[0], sep, hs, qs, delims);
      assert [ps[0]] + qs == ps;
    }
  }

  /** Keeping any of the pieces, joining them and splitting again gives back exactly those kept. */
  lemma SplitSelectJoin(text: string, marks: seq<bool>, sep: string, delims: set<char>)
    requires Delimiters(delims) && Separator(sep, delims)
    requires |marks| == |Split(text, delims)|
    ensures var kept := Select(Split(text, delims), marks);
      Split(Join(kept, sep), delims) == kept
  {
    var kept := Select(Split(text, delims), marks);
    SplitCharacterized(text, Split(text, delims), delims);
    SelectPieces(Split(text, delims), marks, delims);
    var gaps := JoinWoven(kept, sep, delims);
    SplitWoven("", gaps, kept, delims);
  }
}
