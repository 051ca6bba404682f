/** Dropping experimental fields from a whole TypeScript file, and when the filtered body is found again. */
module TsFile {
  import opened TsScanner
  import opened TsFilter
  import opened Wrappers

  const FIELD_DELIMS := {',', ';'}

  // ---- Being the body between braces ----

  /** No top-level brace opens and none closes back to the top while `t` is read from `s`. */
  predicate Clean(s: Scan, t: string)
    decreases |t|
  {
    |t| > 0 ==>
      && !(t[0] == '{' && s == START) && !(t[0] == '}' && Next(s, t[0]) == START)
      && Clean(Next(s, t[0]), t[1..])
  }

  /** Put between braces, the text is all there is to their body. */
  predicate Fits(x: string) {
    Clean(INSIDE, x) && Next(Run(INSIDE, x), '}') == START
  }

  lemma {:induction false} LaterOpen(text: string, i: nat, s: Scan, o: nat)
    requires i <= |text| && o < i
    ensures var span := BraceSpanFrom(text, i, s, Some(o)); span.Some? ==> span.value.0 >= o && span.value.1 >= i
    decreases |text| - i
  {
    if i < |text| {
      var open' := if s.delim.None? && text[i] == '{' && AtTop(s) then i else o;
      LaterOpen(text, i + 1, Next(s, text[i]), open');
    }
  }

  /** From inside its first brace, a text closes at `n` exactly when what comes before it fits. */
  lemma {:induction false} ClosesAt(text: string, i: nat, n: nat, s: Scan, o: nat)
    requires o < i <= n < |text| && text[n] == '}' && Sound(s)
    ensures BraceSpanFrom(text, i, s, Some(o)) == Some((o, n))
       <==> Clean(s, text[i..n]) && Next(Run(s, text[i..n]), '}') == START
    decreases n - i
  {
    var s' := Next(s, text[i]);
    RunSound(s, [text[i]]);
    assert [text[i]][1..] == "";
    SoundTop(s);
    SoundTop(s');
    if i == n {
      assert text[i..n] == "";
      if s' != START {
        LaterOpen(text, i + 1, s', o);
      }
    } else {
      assert text[i..n][0] == text[i] && text[i..n][1..] == text[i + 1..n];
      if text[i] == '{' && s == START {
        LaterOpen(text, i + 1, s', i);
      } else {
        ClosesAt(text, i + 1, n, s', o);
      }
    }
  }

  /** Two texts that agree up to `k` are scanned alike up to there. */
  lemma {:induction false} ScannedAlike(text: string, text': string, i: nat, k: nat, s: Scan, open: Option<nat>)
    returns (open': Option<nat>)
    requires i <= k <= |text| && k <= |text'| && text[..k] == text'[..k]
    requires var span := BraceSpanFrom(text, i, s, open); span.Some? && span.value.1 >= k
    ensures BraceSpanFrom(text, i, s, open) == BraceSpanFrom(text, k, Run(s, text[i..k]), open')
    ensures BraceSpanFrom(text', i, s, open) == BraceSpanFrom(text', k, Run(s, text[i..k]), open')
    decreases k - i
  {
    if i == k {
      open' := open;
      assert text[i..k] == "";
    } else {
      assert text[i] == text[..k][i] == text'[..k][i] == text'[i];
      assert text[i..k][0] == text[i] && text[i..k][1..] == text[i + 1..k];
      var next := if s.delim.None? && text[i] == '{' && AtTop(s) then Some(i) else open;
      open' := ScannedAlike(text, text', i + 1, k, Next(s, text[i]), next);
    }
  }

  /** The body of a found span fits, and another put in its place is found there exactly when it fits. */
  lemma BodyReplaced(text: string, o: nat, c: nat, x: string)
    requires BraceSpan(text) == Some((o, c))
    ensures o < c < |text| && Fits(text[o + 1..c])
    ensures BraceSpan(text[..o + 1] + x + text[c..]) == Some((o, o + 1 + |x|)) <==> Fits(x)
  {
    BraceSpanSound(text);
    var out := text[..o + 1] + x + text[c..];
    var n := o + 1 + |x|;
    assert out[..o] == text[..o] && out[o] == '{' && out[n] == '}' && out[o + 1..n] == x;
    var open := ScannedAlike(text, out, 0, o, START, None);
    assert text[0..o] == text[..o];
    ClosesAt(text, o + 1, c, INSIDE, o);
    ClosesAt(out, o + 1, n, INSIDE, o);
  }

  // ---- Reading pieces from inside and from the top ----

  function Lift(s: Scan): Scan {
    s.(brace := s.brace + 1)
  }

  /** A closing brace outside strings that matches no opening one. */
  predicate Dips(s: Scan, t: string)
    decreases |t|
  {
    |t| > 0 && ((s.delim.None? && t[0] == '}' && s.brace == 0) || Dips(Next(s, t[0]), t[1..]))
  }

  /** One brace deeper, the scanner stays one brace deeper until the text dips; from there on it is where
      it would be anyway. */
  lemma {:induction false} LiftRun(s: Scan, t: string)
    ensures Run(Lift(s), t) == if Dips(s, t) then Run(s, t) else Lift(Run(s, t))
    decreases |t|
  {
    if |t| > 0 {
      if s.delim.None? && t[0] == '}' && s.brace == 0 {
        assert Next(Lift(s), t[0]) == s == Next(s, t[0]);
      } else {
        assert Next(Lift(s), t[0]) == Lift(Next(s, t[0]));
        LiftRun(Next(s, t[0]), t[1..]);
      }
    }
  }

  /** What is clean from the top is clean from inside. */
  lemma {:induction false} LiftClean(s: Scan, t: string)
    requires Clean(s, t)
    ensures Clean(Lift(s), t)
    decreases |t|
  {
    if |t| > 0 {
      if s.delim.None? && t[0] == '}' && s.brace == 0 {
        assert Next(Lift(s), t[0]) == s == Next(s, t[0]);
      } else {
        assert Next(Lift(s), t[0]) == Lift(Next(s, t[0]));
        LiftClean(Next(s, t[0]), t[1..]);
      }
    }
  }

  lemma {:induction false} CleanConcat(s: Scan, a: string, b: string)
    ensures Clean(s, a + b) <==> Clean(s, a) && Clean(Run(s, a), b)
    decreases |a|
  {
    if |a| == 0 {
      assert a + b == b;
    } else {
      assert (a + b)[1..] == a[1..] + b;
      CleanConcat(Next(s, a[0]), a[1..], b);
    }
  }

  lemma {:induction false} GapIsClean(s: Scan, g: string)
    requires Gap(g, FIELD_DELIMS)
    ensures Clean(s, g) && (s.delim.None? ==> Run(s, g) == s)
    decreases |g|
  {
    if |g| > 0 {
      assert IsSpace(g[0]) || g[0] in FIELD_DELIMS;
      GapIsClean(Next(s, g[0]), g[1..]);
    }
  }

  // ---- Reading a list of pieces ----

  function Flow(t: Scan, ps: seq<string>): Scan
    decreases |ps|
  {
    if |ps| == 0 then t else Flow(Run(t, ps[0]), ps[1..])
  }

  predicate AllClean(t: Scan, ps: seq<string>)
    decreases |ps|
  {
    |ps| > 0 ==> Clean(t, ps[0]) && AllClean(Run(t, ps[0]), ps[1..])
  }

  /** Where a piece can begin: inside the braces, or at the top once a piece has dipped. */
  predicate Between(t: Scan) {
    t == INSIDE || t == START
  }

  lemma ClosedPiece(t: Scan, p: string)
    requires Between(t) && Closed(p)
    ensures Run(t, p) == if t == START || Dips(START, p) then START else INSIDE
  {
    assert INSIDE == Lift(START);
    LiftRun(START, p);
  }

  lemma TrailingGap(t: Scan, p: string, g: string)
    requires Sound(t) && Gap(g, FIELD_DELIMS) && (t.delim.Some? ==> Blank(g))
    ensures Next(Run(t, g), '}') == START <==> Next(t, '}') == START
  {
    GapIsClean(t, g);
    if t.delim.Some? {
      RunBlank(t, g, {});
    }
  }

  lemma {:induction false} WovenFlow(t: Scan, gaps: seq<string>, ps: seq<string>)
    requires Between(t) && PieceList(ps, FIELD_DELIMS) && Gaps(gaps, ps, FIELD_DELIMS)
    ensures Clean(t, Weave(gaps, ps)) <==> AllClean(t, ps)
    ensures Next(Run(t, Weave(gaps, ps)), '}') == START <==> Next(Flow(t, ps), '}') == START
    decreases |ps|
  {
    GapIsClean(t, gaps[0]);
    if |ps| > 0 {
      var rest := Weave(gaps[1..], ps[1..]);
      var t' := Run(t, ps[0]);
      assert Weave(gaps, ps) == gaps[0] + (ps[0] + rest);
      CleanConcat(t, gaps[0], ps[0] + rest);
      CleanConcat(t, ps[0], rest);
      RunConcat(t, gaps[0], ps[0] + rest);
      RunConcat(t, ps[0], rest);
      RunSound(t, ps[0]);
      if |ps| == 1 {
        assert rest == gaps[1];
        GapIsClean(t', gaps[1]);
        LastGap(t, ps[0], gaps[1]);
      } else {
        ClosedPiece(t, ps[0]);
        TailWoven(gaps, ps);
        WovenFlow(t', gaps[1..], ps[1..]);
      }
    }
  }

  lemma LastGap(t: Scan, p: string, g: string)
    requires Between(t) && Gap(g, FIELD_DELIMS) && (!Closed(p) ==> Blank(g))
    ensures Next(Run(Run(t, p), g), '}') == START <==> Next(Run(t, p), '}') == START
  {
    RunSound(t, p);
    if Closed(p) {
      ClosedPiece(t, p);
    }
    TrailingGap(Run(t, p), p, g);
  }

  lemma TailWoven(gaps: seq<string>, ps: seq<string>)
    requires |ps| > 1 && PieceList(ps, FIELD_DELIMS) && Gaps(gaps, ps, FIELD_DELIMS)
    ensures PieceList(ps[1..], FIELD_DELIMS) && Gaps(gaps[1..], ps[1..], FIELD_DELIMS)
  {
    assert forall i :: 0 <= i < |ps[1..]| ==> ps[1..][i] == ps[i + 1];
    assert forall i :: 0 <= i < |gaps[1..]| ==> gaps[1..][i] == gaps[i + 1];
  }

  // ---- Keeping some of the pieces ----

  ghost predicate SomeDip(ps: seq<string>) {
    exists p :: p in ps && Dips(START, p)
  }

  ghost predicate SomeOpen(ps: seq<string>) {
    exists p :: p in ps && !Closed(p)
  }

  /** A piece left open leaves one brace open. */
  ghost predicate OpenInside(ps: seq<string>) {
    forall p :: p in ps && !Closed(p) ==> Run(START, p) == INSIDE
  }

  ghost predicate ClosedButLast(ps: seq<string>) {
    forall i :: 0 <= i < |ps| - 1 ==> Closed(ps[i])
  }

  lemma ConsIn(ps: seq<string>)
    requires |ps| > 0
    ensures SomeDip(ps) <==> Dips(START, ps[0]) || SomeDip(ps[1..])
    ensures SomeOpen(ps) <==> !Closed(ps[0]) || SomeOpen(ps[1..])
    ensures OpenInside(ps) <==> (Closed(ps[0]) || Run(START, ps[0]) == INSIDE) && OpenInside(ps[1..])
    ensures ClosedButLast(ps) ==> ClosedButLast(ps[1..])
  {
    assert ps == [ps[0]] + ps[1..];
    assert forall i :: 0 <= i < |ps[1..]| ==> ps[1..][i] == ps[i + 1];
  }

  lemma LastOpen(t: Scan, p: string)
    requires Between(t) && !Closed(p) && Next(Run(t, p), '}') == START
    ensures Run(START, p) == INSIDE && (t == START || Dips(START, p))
  {
    RunSound(START, p);
    assert INSIDE == Lift(START);
    LiftRun(START, p);
  }

  /** Pieces close the body exactly when, if one of them is left open, one has dipped. */
  lemma {:induction false} FlowEnds(t: Scan, ps: seq<string>)
    requires Between(t) && ClosedButLast(ps)
    ensures Next(Flow(t, ps), '}') == START ==> OpenInside(ps)
    ensures OpenInside(ps) ==>
      (Next(Flow(t, ps), '}') == START <==> (SomeOpen(ps) ==> t == START || SomeDip(ps)))
    decreases |ps|
  {
    if |ps| > 0 {
      ConsIn(ps);
      if Closed(ps[0]) {
        ClosedPiece(t, ps[0]);
        FlowEnds(Run(t, ps[0]), ps[1..]);
      } else {
        assert ps[1..] == [];
        assert Flow(t, ps) == Run(t, ps[0]);
        if Next(Run(t, ps[0]), '}') == START {
          LastOpen(t, ps[0]);
        } else {
          assert INSIDE == Lift(START);
          LiftRun(START, ps[0]);
        }
      }
    }
  }

  lemma {:induction false} KeptClean(t: Scan, t': Scan, ps: seq<string>, keep: string -> bool)
    requires Between(t) && Between(t') && (t' == START ==> t == START)
    requires ClosedButLast(ps) && AllClean(t, ps)
    ensures AllClean(t', Filtered(ps, keep))
    decreases |ps|
  {
    if |ps| > 0 {
      ConsIn(ps);
      var p, rest := ps[0], ps[1..];
      if Closed(p) {
        ClosedPiece(t, p);
        ClosedPiece(t', p);
        KeptClean(Run(t, p), if keep(p) then Run(t', p) else t', rest, keep);
      } else {
        assert rest == [] && Filtered(rest, keep) == [];
      }
      if keep(p) {
        if t' != t {
          assert t' == Lift(t);
          LiftClean(t, p);
        }
        assert ([p] + Filtered(rest, keep))[1..] == Filtered(rest, keep);
      } else {
        assert [] + Filtered(rest, keep) == Filtered(rest, keep);
      }
    }
  }

  function KeptFields(inner: string, experimental: set<string>): seq<string> {
    Filtered(Split(inner, FIELD_DELIMS), field => KeepsField(field, experimental))
  }

  lemma KeptFieldsFacts(inner: string, experimental: set<string>) returns (gaps: seq<string>)
    ensures PieceList(KeptFields(inner, experimental), FIELD_DELIMS)
    ensures forall p :: p in KeptFields(inner, experimental) ==> p in Split(inner, FIELD_DELIMS)
    ensures Gaps(gaps, KeptFields(inner, experimental), FIELD_DELIMS)
    ensures FilterFields(inner, experimental) == Weave(gaps, KeptFields(inner, experimental))
  {
    var ps := Split(inner, FIELD_DELIMS);
    var keep := field => KeepsField(field, experimental);
    var sep := ", ";
    assert sep[0] == ',' && !IsSpace(sep[0]);
    SplitCharacterized(inner, ps, FIELD_DELIMS);
    var marks := FilteredIsSelection(ps, keep);
    SelectPieces(ps, marks, FIELD_DELIMS);
    gaps := JoinWoven(Filtered(ps, keep), sep, FIELD_DELIMS);
  }

  /** The filtered body still fits exactly when it does not keep a field left open without keeping one
      with an unmatched closing brace. */
  lemma FilteredFits(inner: string, experimental: set<string>)
    requires Fits(inner)
    ensures var kept := KeptFields(inner, experimental);
      Fits(FilterFields(inner, experimental)) <==> (SomeOpen(kept) ==> SomeDip(kept))
  {
    var ps, kept := Split(inner, FIELD_DELIMS), KeptFields(inner, experimental);
    SplitCharacterized(inner, ps, FIELD_DELIMS);
    var gaps :| Gaps(gaps, ps, FIELD_DELIMS) && inner == Weave(gaps, ps);
    WovenFlow(INSIDE, gaps, ps);
    FlowEnds(INSIDE, ps);
    var gaps' := KeptFieldsFacts(inner, experimental);
    KeptClean(INSIDE, INSIDE, ps, field => KeepsField(field, experimental));
    FlowEnds(INSIDE, kept);
    WovenFlow(INSIDE, gaps', kept);
  }

  /** A body without an unmatched closing brace fits whichever fields are dropped. */
  lemma BalancedFits(inner: string, experimental: set<string>)
    requires Fits(inner) && !SomeDip(Split(inner, FIELD_DELIMS))
    ensures Fits(FilterFields(inner, experimental))
  {
    var ps := Split(inner, FIELD_DELIMS);
    SplitCharacterized(inner, ps, FIELD_DELIMS);
    var gaps :| Gaps(gaps, ps, FIELD_DELIMS) && inner == Weave(gaps, ps);
    WovenFlow(INSIDE, gaps, ps);
    FlowEnds(INSIDE, ps);
    var gaps' := KeptFieldsFacts(inner, experimental);
    FilteredFits(inner, experimental);
  }

  // ---- The file ----

  const INTERFACE := "export interface"

  /** `str::find` for a text. */
  function FindText(s: string, m: string): (r: Option<nat>)
    ensures r.Some? ==> r.value + |m| <= |s|
  {
    if |s| < |m| then None
    else if s[..|m|] == m then Some(0)
    else if |s| == 0 then None
    else match FindText(s[1..], m)
      case None => None
      case Some(i) => Some(i + 1)
  }

  /** Where the search for the body starts: after the first `=`, or else after the interface keyword. */
  function BodyStart(content: string): (r: Option<nat>)
    ensures r.Some? ==> r.value <= |content|
  {
    match Find(content, '=')
    case Some(eq) => Some(eq + 1)
    case None =>
      match FindText(content, INTERFACE)
      case Some(i) => Some(i + |INTERFACE|)
      case None => None
  }

  /** `type_body_brace_span`. */
  function TypeBodySpan(content: string): Option<(nat, nat)> {
    match BodyStart(content)
    case None => None
    case Some(at) =>
      match BraceSpan(content[at..])
      case None => None
      case Some((o, c)) => Some((at + o, at + c))
  }

  /** `filter_experimental_type_fields_ts_contents` up to the pruning of imports. */
  function FilterFile(content: string, experimental: set<string>): string {
    match TypeBodySpan(content)
    case None => content
    case Some((o, c)) =>
      BodySpanRange(content);
      content[..o + 1] + FilterFields(content[o + 1..c], experimental) + content[c..]
  }

  lemma BodySpanRange(content: string)
    ensures TypeBodySpan(content).Some? ==>
      var (o, c) := TypeBodySpan(content).value; o < c < |content| && BodyStart(content).value <= o
  {
    if BodyStart(content).Some? {
      BraceSpanSound(content[BodyStart(content).value..]);
    }
  }

  lemma {:induction false} WovenChars(gaps: seq<string>, ps: seq<string>, p: string, ch: char)
    requires |gaps| == |ps| + 1 && p in ps && ch in p
    ensures ch in Weave(gaps, ps)
    decreases |ps|
  {
    if p != ps[0] {
      assert ps == [ps[0]] + ps[1..];
      WovenChars(gaps[1..], ps[1..], p, ch);
    }
  }

  lemma {:induction false} CharOfWoven(gaps: seq<string>, ps: seq<string>, ch: char)
    requires |gaps| == |ps| + 1 && ch in Weave(gaps, ps)
    ensures (exists g :: g in gaps && ch in g) || (exists p :: p in ps && ch in p)
    decreases |ps|
  {
    if |ps| == 0 {
      assert gaps[0] in gaps;
    } else if ch in gaps[0] {
      assert gaps[0] in gaps;
    } else if ch in ps[0] {
      assert ps[0] in ps;
    } else {
      CharOfWoven(gaps[1..], ps[1..], ch);
    }
  }

  /** Filtering brings no character but blanks and delimiters. */
  lemma NoNewChars(inner: string, experimental: set<string>, ch: char)
    requires ch in FilterFields(inner, experimental) && !IsSpace(ch) && ch !in FIELD_DELIMS
    ensures ch in inner
  {
    var kept := KeptFields(inner, experimental);
    var gaps := KeptFieldsFacts(inner, experimental);
    CharOfWoven(gaps, kept, ch);
    var p :| p in kept && ch in p;
    PieceChars(inner, p, ch);
  }

  lemma PieceChars(inner: string, p: string, ch: char)
    requires p in Split(inner, FIELD_DELIMS) && ch in p
    ensures ch in inner
  {
    var ps := Split(inner, FIELD_DELIMS);
    SplitCharacterized(inner, ps, FIELD_DELIMS);
    var gaps :| Gaps(gaps, ps, FIELD_DELIMS) && inner == Weave(gaps, ps);
    WovenChars(gaps, ps, p, ch);
  }

  /** The search starts at the same place in the filtered file. */
  lemma SameFind(content: string, out: string, n: nat)
    requires n < |content| && n < |out| && content[..n + 1] == out[..n + 1] && Find(content, '=').Some?
      && Find(content, '=').value <= n
    ensures Find(out, '=') == Find(content, '=')
  {
    forall k | 0 <= k <= n ensures out[k] == content[k] {
      assert out[k] == out[..n + 1][k] && content[k] == content[..n + 1][k];
    }
  }

  lemma SameStart(content: string, o: nat, c: nat, x: string)
    requires TypeBodySpan(content) == Some((o, c)) && o < c < |content| && BodyStart(content).value <= o
    requires '=' in x ==> '=' in content[o + 1..c]
    ensures BodyStart(content[..o + 1] + x + content[c..]) == BodyStart(content)
  {
    var out := content[..o + 1] + x + content[c..];
    assert out[..o + 1] == content[..o + 1];
    if Find(content, '=').Some? {
      SameFind(content, out, o);
    } else {
      forall k | 0 <= k < |out| ensures out[k] != '=' {
        NoEquals(content, o, c, x, k);
      }
      assert Find(out, '=') == None;
      SameFound(content, out, INTERFACE, o + 1);
    }
  }

  lemma NoEquals(content: string, o: nat, c: nat, x: string, k: nat)
    requires o < c < |content| && ('=' in x ==> '=' in content[o + 1..c])
    requires (forall i :: 0 <= i < |content| ==> content[i] != '=') && k < |content[..o + 1] + x + content[c..]|
    ensures (content[..o + 1] + x + content[c..])[k] != '='
  {
    var out := content[..o + 1] + x + content[c..];
    if k <= o {
      assert out[k] == content[k];
    } else if k < o + 1 + |x| {
      assert out[k] == x[k - o - 1];
      assert '=' !in content[o + 1..c];
    } else {
      assert out[k] == content[c + (k - o - 1 - |x|)];
    }
  }

  /** A text found within the first `n` characters is found there in any text that begins with them. */
  lemma {:induction false} SameFound(s: string, s': string, m: string, n: nat)
    requires n <= |s| && n <= |s'| && s[..n] == s'[..n]
    requires FindText(s, m).Some? && FindText(s, m).value + |m| <= n
    ensures FindText(s', m) == FindText(s, m)
    decreases n
  {
    assert s[..|m|] == s[..n][..|m|] == s'[..n][..|m|] == s'[..|m|];
    if s[..|m|] != m {
      assert s[1..][..n - 1] == s[..n][1..] == s'[..n][1..] == s'[1..][..n - 1];
      SameFound(s[1..], s'[1..], m, n - 1);
    }
  }

  lemma Parts(a: string, x: string, z: string)
    ensures var out := a + x + z;
      out[..|a|] == a && out[|a|..|a| + |x|] == x && out[|a| + |x|..] == z
  {
  }

  lemma SliceOfDrop(s: string, at: nat, i: nat, j: nat)
    requires at <= i <= j <= |s|
    ensures s[at..][i - at..j - at] == s[i..j] && s[at..][..i - at] == s[at..i] && s[at..][j - at..] == s[j..]
  {
  }

  lemma DropOfParts(content: string, at: nat, i: nat, x: string, j: nat)
    requires at <= i <= j <= |content|
    ensures (content[..i] + x + content[j..])[at..] == content[at..i] + x + content[j..]
  {
  }

  lemma SlicedBody(content: string, at: nat, o: nat, c: nat, x: string)
    requires at <= o < c < |content| && BraceSpan(content[at..]) == Some((o - at, c - at))
    ensures Fits(content[o + 1..c])
    ensures at <= |content[..o + 1] + x + content[c..]|
    ensures BraceSpan((content[..o + 1] + x + content[c..])[at..]) == Some((o - at, o - at + 1 + |x|)) <==> Fits(x)
  {
    var text := content[at..];
    BodyReplaced(text, o - at, c - at, x);
    SliceOfDrop(content, at, o + 1, c);
    DropOfParts(content, at, o + 1, x, c);
  }

  lemma SpanFrom(content: string, at: nat, o: nat, c: nat)
    requires BodyStart(content) == Some(at) && at <= o && at <= c
    ensures TypeBodySpan(content) == Some((o, c)) <==> BraceSpan(content[at..]) == Some((o - at, c - at))
  {
  }

  lemma FileBodyReplaced(content: string, o: nat, c: nat, x: string, experimental: set<string>)
    requires TypeBodySpan(content) == Some((o, c)) && o < c < |content| && BodyStart(content).value <= o
    requires x == FilterFields(content[o + 1..c], experimental)
    ensures Fits(content[o + 1..c])
    ensures TypeBodySpan(content[..o + 1] + x + content[c..]) == Some((o, o + 1 + |x|)) <==> Fits(x)
  {
    var at := BodyStart(content).value;
    if '=' in x {
      NoNewChars(content[o + 1..c], experimental, '=');
    }
    SameStart(content, o, c, x);
    SpanFrom(content, at, o, c);
    SpanFrom(content[..o + 1] + x + content[c..], at, o, o + 1 + |x|);
    SlicedBody(content, at, o, c, x);
  }

  lemma FilterAgain(content: string, o: nat, x: string, z: string, experimental: set<string>)
    requires o < |content| && |z| > 0 && FilterFields(x, experimental) == x
    requires TypeBodySpan(content[..o + 1] + x + z) == Some((o, o + 1 + |x|))
    ensures FilterFile(content[..o + 1] + x + z, experimental) == content[..o + 1] + x + z
  {
    Parts(content[..o + 1], x, z);
  }

  /** The whole file: without a body it is left alone. With one, only the body changes, to its kept
      fields. That body is found again in the result exactly when the filter does not keep a field left
      open without keeping one with an unmatched closing brace; then the fields found are exactly the
      kept ones, and filtering again changes nothing. */
  lemma FilterFileCorrect(content: string, experimental: set<string>)
    ensures match TypeBodySpan(content)
      case None => FilterFile(content, experimental) == content
      case Some((o, c)) =>
        o < c < |content| && BodyFiltered(content, o, c, FilterFile(content, experimental), experimental)
  {
    BodySpanRange(content);
    if TypeBodySpan(content).Some? {
      var (o, c) := TypeBodySpan(content).value;
      FilteredBody(content, o, c, experimental);
    }
  }

  ghost predicate BodyFiltered(content: string, o: nat, c: nat, out: string, experimental: set<string>)
    requires o < c < |content|
  {
    var inner := content[o + 1..c];
    var x, kept := FilterFields(inner, experimental), KeptFields(inner, experimental);
    && out == content[..o + 1] + x + content[c..]
    && (TypeBodySpan(out) == Some((o, o + 1 + |x|)) <==> (SomeOpen(kept) ==> SomeDip(kept)))
    && (TypeBodySpan(out) == Some((o, o + 1 + |x|)) ==>
         Split(x, FIELD_DELIMS) == kept && FilterFile(out, experimental) == out)
  }

  lemma FilteredBody(content: string, o: nat, c: nat, experimental: set<string>)
    requires TypeBodySpan(content) == Some((o, c)) && o < c < |content| && BodyStart(content).value <= o
    ensures
      var out := content[..o + 1] + FilterFields(content[o + 1..c], experimental) + content[c..];
      BodyFiltered(content, o, c, out, experimental)
  {
    var inner := content[o + 1..c];
    var x := FilterFields(inner, experimental);
    FileBodyReplaced(content, o, c, x, experimental);
    FilteredFits(inner, experimental);
    KeptSplit(inner, experimental);
    if TypeBodySpan(content[..o + 1] + x + content[c..]) == Some((o, o + 1 + |x|)) {
      FilterAgain(content, o, x, content[c..], experimental);
    }
  }

  lemma KeptSplit(inner: string, experimental: set<string>)
    ensures var x := FilterFields(inner, experimental);
      Split(x, FIELD_DELIMS) == KeptFields(inner, experimental) && FilterFields(x, experimental) == x
  {
    FilterFieldsCorrect(inner, experimental);
  }

  // ---- A body that is not found again ----

  /** Reading one character more. */
  lemma Read(s: Scan, c: char, t: string)
    ensures Run(s, [c] + t) == Run(Next(s, c), t)
    ensures Uncut(s, [c] + t, FIELD_DELIMS) <==> !Cuts(s, c, FIELD_DELIMS) && Uncut(Next(s, c), t, FIELD_DELIMS)
    ensures Dips(s, [c] + t) <==> (s.delim.None? && c == '}' && s.brace == 0) || Dips(Next(s, c), t)
    ensures Clean(s, [c] + t) <==>
      !(c == '{' && s == START) && !(c == '}' && Next(s, c) == START) && Clean(Next(s, c), t)
  {
    assert ([c] + t)[0] == c && ([c] + t)[1..] == t;
  }

  /** A field that dips inside brackets, and one that leaves a brace open inside brackets. */
  const DIPPING := ['x'] + ([':'] + (['['] + (['}'] + ([']'] + ""))))
  const OPENING := ['y'] + ([':'] + (['('] + (['{'] + ([')'] + ""))))

  lemma DippingRead(s: Scan)
    requires s == START || s == INSIDE
    ensures Run(s, DIPPING) == START && Uncut(START, DIPPING, FIELD_DELIMS) && Dips(START, DIPPING) && Clean(s, DIPPING)
  {
    var b := START.(bracket := 1);
    Read(b, ']', "");
    Read(b, '}', [']'] + "");
    Read(s.(bracket := 1), '}', [']'] + "");
    Read(START, '[', ['}'] + ([']'] + ""));
    Read(s, '[', ['}'] + ([']'] + ""));
    Read(START, ':', ['['] + (['}'] + ([']'] + "")));
    Read(s, ':', ['['] + (['}'] + ([']'] + "")));
    Read(START, 'x', [':'] + (['['] + (['}'] + ([']'] + ""))));
    Read(s, 'x', [':'] + (['['] + (['}'] + ([']'] + ""))));
  }

  lemma OpeningRead()
    ensures Run(START, OPENING) == INSIDE && Uncut(START, OPENING, FIELD_DELIMS) && !Dips(START, OPENING)
      && Clean(START, OPENING)
  {
    var p := START.(paren := 1);
    Read(Lift(p), ')', "");
    Read(p, '{', [')'] + "");
    Read(START, '(', ['{'] + ([')'] + ""));
    Read(START, ':', ['('] + (['{'] + ([')'] + "")));
    Read(START, 'y', [':'] + (['('] + (['{'] + ([')'] + ""))));
  }

  lemma OneLetterName(field: string, experimental: set<string>)
    requires |field| > 1 && (field[0] == 'x' || field[0] == 'y') && field[1] == ':'
    ensures KeepsField(field, experimental) <==> [field[0]] !in experimental
  {
    assert TrimStart(field) == field && StripComments(field) == field;
    assert field[1..][0] == ':' && TrimStart(field[1..]) == field[1..];
    assert IdentLength(field[1..]) == 0;
    assert IdentLength(field) == 1 && field[..1] == [field[0]];
  }

  lemma WeaveTwo(p: string, q: string)
    ensures Weave(["", ",", ""], [p, q]) == p + "," + q
  {
    assert ["", ",", ""][1..] == [",", ""] && [p, q][1..] == [q];
    assert [",", ""][1..] == [""] && [q][1..] == [];
    assert Weave([",", ""], [q]) == "," + q + "";
    assert "" + p + ("," + q + "") == p + "," + q;
  }

  lemma PairSplit(p: string, q: string)
    requires Piece(p, FIELD_DELIMS) && Piece(q, FIELD_DELIMS) && Closed(p)
    ensures PieceList([p, q], FIELD_DELIMS) && Gaps(["", ",", ""], [p, q], FIELD_DELIMS)
    ensures Split(p + "," + q, FIELD_DELIMS) == [p, q]
  {
    assert !Blank(",") by { assert !IsSpace(","[0]); }
    assert Gap(",", FIELD_DELIMS) && Gap("", FIELD_DELIMS);
    WeaveTwo(p, q);
    SplitCharacterized(p + "," + q, [p, q], FIELD_DELIMS);
  }

  lemma PairFits(p: string, q: string)
    requires Piece(p, FIELD_DELIMS) && Piece(q, FIELD_DELIMS) && Closed(p) && Dips(START, p)
    requires Clean(INSIDE, p) && Clean(START, q) && Run(START, q) == INSIDE
    ensures Fits(p + "," + q)
  {
    PairSplit(p, q);
    WeaveTwo(p, q);
    WovenFlow(INSIDE, ["", ",", ""], [p, q]);
    PairFlows(p, q);
  }

  lemma PairFlows(p: string, q: string)
    requires Closed(p) && Dips(START, p) && Clean(INSIDE, p) && Clean(START, q) && Run(START, q) == INSIDE
    ensures AllClean(INSIDE, [p, q]) && Flow(INSIDE, [p, q]) == INSIDE
  {
    ClosedPiece(INSIDE, p);
    assert [p, q][1..] == [q] && [q][1..] == [];
    assert Flow(INSIDE, []) == INSIDE && AllClean(INSIDE, []);
    assert Flow(START, [q]) == INSIDE && AllClean(START, [q]);
  }

  lemma FilteredPair(p: string, q: string, keep: string -> bool)
    requires !keep(p) && keep(q)
    ensures Filtered([p, q], keep) == [q]
  {
    assert [p, q][1..] == [q] && [q][1..] == [];
    assert Filtered([q], keep) == [q] + Filtered([q][1..], keep);
  }

  /** Two fields that fit only together: without the first, the second leaves the body open. */
  lemma PairLosesBody(p: string, q: string, experimental: set<string>)
    requires Piece(p, FIELD_DELIMS) && Piece(q, FIELD_DELIMS) && Closed(p) && Dips(START, p)
    requires Clean(INSIDE, p) && Clean(START, q) && Run(START, q) == INSIDE && !Dips(START, q)
    requires !KeepsField(p, experimental) && KeepsField(q, experimental)
    ensures Fits(p + "," + q) && !Fits(FilterFields(p + "," + q, experimental))
  {
    PairFits(p, q);
    PairSplit(p, q);
    FilteredPair(p, q, field => KeepsField(field, experimental));
    assert KeptFields(p + "," + q, experimental) == [q];
    FilteredFits(p + "," + q, experimental);
    assert q in [q];
  }

  /** A body that is found, and whose filtered form is not. */
  lemma DroppedFieldLosesBody()
    ensures Fits(DIPPING + "," + OPENING) && !Fits(FilterFields(DIPPING + "," + OPENING, {"x"}))
  {
    DippingRead(START);
    DippingRead(INSIDE);
    OpeningRead();
    OneLetterName(DIPPING, {"x"});
    OneLetterName(OPENING, {"x"});
    assert |DIPPING| == |OPENING| == 5 && DIPPING[4] == ']' && OPENING[4] == ')';
    PairLosesBody(DIPPING, OPENING, {"x"});
  }

  // ---- The same in a file ----

  lemma {:induction false} NeverCloses(text: string, i: nat, s: Scan, o: nat)
    requires o < i <= |text| && Clean(s, text[i..]) && Sound(s)
    ensures BraceSpanFrom(text, i, s, Some(o)) == None
    decreases |text| - i
  {
    if i < |text| {
      assert text[i..][0] == text[i] && text[i..][1..] == text[i + 1..];
      var s' := Next(s, text[i]);
      SoundTop(s);
      SoundTop(s');
      NeverCloses(text, i + 1, s', o);
    }
  }

  lemma Enclosed(x: string)
    ensures var text := "{" + x + "}";
      |text| == |x| + 2 && text[0] == '{' && text[|x| + 1] == '}' && text[1..|x| + 1] == x && text[1..] == x + "}"
  {
  }

  lemma FirstBrace(text: string)
    requires |text| > 0 && text[0] == '{'
    ensures BraceSpan(text) == BraceSpanFrom(text, 1, INSIDE, Some(0))
  {
  }

  /** A text between braces and nothing else. */
  lemma EnclosedSpan(x: string)
    ensures BraceSpan("{" + x + "}") == Some((0, |x| + 1)) <==> Fits(x)
    ensures Clean(INSIDE, x + "}") ==> BraceSpan("{" + x + "}") == None
  {
    Enclosed(x);
    FirstBrace("{" + x + "}");
    ClosesAt("{" + x + "}", 1, |x| + 1, INSIDE, 0);
    if Clean(INSIDE, x + "}") {
      NeverCloses("{" + x + "}", 1, INSIDE, 0);
    }
  }

  function AliasOf(x: string): string {
    "=" + ("{" + x + "}")
  }

  lemma AliasStart(text: string)
    ensures BodyStart("=" + text) == Some(1) && ("=" + text)[1..] == text
  {
    assert ("=" + text)[0] == '=';
  }

  lemma NoSpanFrom(content: string, at: nat)
    requires BodyStart(content) == Some(at)
    ensures TypeBodySpan(content) == None <==> BraceSpan(content[at..]) == None
  {
  }

  lemma AliasSpan(x: string)
    ensures TypeBodySpan(AliasOf(x)) == Some((1, |x| + 2)) <==> Fits(x)
    ensures Clean(INSIDE, x + "}") ==> TypeBodySpan(AliasOf(x)) == None
  {
    AliasStart("{" + x + "}");
    EnclosedSpan(x);
    SpanFrom(AliasOf(x), 1, 1, |x| + 2);
    NoSpanFrom(AliasOf(x), 1);
  }

  lemma FilteredAlias(x: string, experimental: set<string>)
    requires Fits(x)
    ensures FilterFile(AliasOf(x), experimental) == AliasOf(FilterFields(x, experimental))
  {
    AliasSpan(x);
    var content := AliasOf(x);
    assert content[..2] == "={" && content[2..|x| + 2] == x && content[|x| + 2..] == "}";
    assert "={" + FilterFields(x, experimental) + "}" == AliasOf(FilterFields(x, experimental));
  }

  lemma OpeningNeverCloses()
    ensures Clean(INSIDE, OPENING + "}")
  {
    OpeningRead();
    assert INSIDE == Lift(START);
    LiftClean(START, OPENING);
    LiftRun(START, OPENING);
    CleanConcat(INSIDE, OPENING, "}");
    assert "}"[1..] == "";
  }

  lemma OnlyOpeningKept()
    ensures FilterFields(DIPPING + "," + OPENING, {"x"}) == OPENING
  {
    DippingRead(START);
    OpeningRead();
    OneLetterName(DIPPING, {"x"});
    OneLetterName(OPENING, {"x"});
    assert |DIPPING| == |OPENING| == 5 && DIPPING[4] == ']' && OPENING[4] == ')';
    PairSplit(DIPPING, OPENING);
    FilteredPair(DIPPING, OPENING, field => KeepsField(field, {"x"}));
  }

  /** A file whose body is found, and whose filtered form has none. */
  lemma DroppedFieldLosesFile()
    ensures TypeBodySpan(AliasOf(DIPPING + "," + OPENING)).Some?
    ensures TypeBodySpan(FilterFile(AliasOf(DIPPING + "," + OPENING), {"x"})) == None
  {
    var x := DIPPING + "," + OPENING;
    DroppedFieldLosesBody();
    AliasSpan(x);
    FilteredAlias(x, {"x"});
    OnlyOpeningKept();
    OpeningNeverCloses();
    AliasSpan(OPENING);
  }
}
