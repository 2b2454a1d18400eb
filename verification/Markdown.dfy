/** Headings and fences of a Markdown document: one specification, line by line, and the two
    scanners that compute it (plan/sections.go, reconcile.go). A document is a sequence of
    characters; everything that decides its structure is ASCII, except white space. */
module Markdown {
  import opened Records

  // ---------------------------------------------------------------------------------
  // Characters and trimming
  // ---------------------------------------------------------------------------------

  predicate Indent(c: char) {
    c == ' ' || c == '\t'
  }

  /** The characters TrimRight(" \t\r\n") removes. */
  predicate Layout(c: char) {
    c == ' ' || c == '\t' || c == '\r' || c == '\n'
  }

  /** unicode.IsSpace */
  predicate White(c: char) {
    || Layout(c) || c == '\U{0B}' || c == '\U{0C}' || c == '\U{85}' || c == '\U{A0}' || c == '\U{1680}'
    || '\U{2000}' <= c <= '\U{200A}' || c == '\U{2028}' || c == '\U{2029}' || c == '\U{202F}' || c == '\U{205F}'
    || c == '\U{3000}'
  }

  predicate AllWhite(s: string) {
    forall k :: 0 <= k < |s| ==> White(s[k])
  }

  predicate AllLayout(s: string) {
    forall k :: 0 <= k < |s| ==> Layout(s[k])
  }

  function TrimIndent(s: string): string {
    if s != "" && Indent(s[0]) then TrimIndent(s[1..]) else s
  }

  function TrimRight(s: string): (r: string)
    ensures |r| <= |s|
  {
    if s != "" && Layout(s[|s| - 1]) then TrimRight(s[..|s| - 1]) else s
  }

  function DropWhite(s: string): string {
    if s != "" && White(s[0]) then DropWhite(s[1..]) else s
  }

  function TrimSpace(s: string): string {
    if s != "" && White(s[|s| - 1]) then TrimSpace(s[..|s| - 1]) else DropWhite(s)
  }

  function Marker(s: string, mark: char): (n: nat)
    ensures n <= |s|
  {
    if s != "" && s[0] == mark then 1 + Marker(s[1..], mark) else 0
  }

  lemma {:induction false} TrimRightSplits(s: string)
    ensures TrimRight(s) <= s && AllLayout(s[|TrimRight(s)|..])
    ensures TrimRight(s) != "" ==> !Layout(TrimRight(s)[|TrimRight(s)| - 1])
  {
    if s != "" && Layout(s[|s| - 1]) {
      var before, body := s[..|s| - 1], TrimRight(s);
      TrimRightSplits(before);
      assert body == TrimRight(before) && body <= before;
      assert s[|body|..] == before[|body|..] + [s[|s| - 1]];
    }
  }

  lemma {:induction false} TrimRightIgnores(s: string, w: string)
    requires AllLayout(w)
    ensures TrimRight(s + w) == TrimRight(s)
    decreases |w|
  {
    if w == "" {
      assert s + w == s;
    } else {
      assert (s + w)[..|s + w| - 1] == s + w[..|w| - 1];
      TrimRightIgnores(s, w[..|w| - 1]);
    }
  }

  lemma {:induction false} TrimSpaceIgnores(s: string, w: string)
    requires AllWhite(w)
    ensures TrimSpace(s + w) == TrimSpace(s)
    decreases |w|
  {
    if w == "" {
      assert s + w == s;
    } else {
      assert (s + w)[..|s + w| - 1] == s + w[..|w| - 1];
      TrimSpaceIgnores(s, w[..|w| - 1]);
    }
  }

  lemma {:induction false} TrimSpaceOfWhite(s: string)
    ensures AllWhite(s) <==> TrimSpace(s) == ""
    decreases |s|
  {
    if s != "" {
      if White(s[|s| - 1]) {
        TrimSpaceOfWhite(s[..|s| - 1]);
        if AllWhite(s[..|s| - 1]) {
          forall k | 0 <= k < |s| ensures White(s[k]) {
            if k < |s| - 1 { assert s[..|s| - 1][k] == s[k]; }
          }
        } else {
          var k :| 0 <= k < |s| - 1 && !White(s[..|s| - 1][k]);
          assert !White(s[k]);
        }
      } else {
        DropWhiteKeeps(s);
      }
    }
  }

  lemma {:induction false} DropWhiteKeeps(s: string)
    requires s != "" && !White(s[|s| - 1])
    ensures DropWhite(s) != ""
  {
    if White(s[0]) {
      DropWhiteKeeps(s[1..]);
    }
  }

  lemma {:induction false} MarkerIgnores(s: string, w: string, mark: char)
    requires AllLayout(w) && !Layout(mark)
    ensures Marker(s + w, mark) == Marker(s, mark)
  {
    if s == "" {
      assert s + w == w;
    } else {
      assert (s + w)[1..] == s[1..] + w;
      MarkerIgnores(s[1..], w, mark);
    }
  }

  /** Trailing layout changes neither what TrimIndent leaves of a line nor how much it drops,
      unless the line was blank. */
  lemma {:induction false} TrimIndentIgnores(s: string, w: string)
    requires AllLayout(w)
    ensures TrimIndent(s) != "" ==> TrimIndent(s + w) == TrimIndent(s) + w
    ensures TrimIndent(s) == "" ==> AllLayout(TrimIndent(s + w))
  {
    if s == "" {
      assert s + w == w;
      TrimIndentOfLayout(w);
    } else {
      assert (s + w)[1..] == s[1..] + w;
      TrimIndentIgnores(s[1..], w);
    }
  }

  lemma {:induction false} TrimIndentOfLayout(w: string)
    requires AllLayout(w)
    ensures AllLayout(TrimIndent(w))
  {
    if w != "" && Indent(w[0]) {
      TrimIndentOfLayout(w[1..]);
    }
  }

  // ---------------------------------------------------------------------------------
  // Lines, fences and headings
  // ---------------------------------------------------------------------------------

  datatype Head = Head(level: nat, title: string)

  datatype Fence = Outside | Inside(mark: char, length: nat)
  {
    predicate Valid() {
      Inside? ==> length >= 3 && (mark == '`' || mark == '~')
    }
  }

  datatype Turn = Turn(fence: Fence, head: Option<Head>)

  /** How long the first line is, its newline included. */
  function LineLength(t: string): (n: nat)
    requires t != ""
    ensures 0 < n <= |t|
    ensures n < |t| ==> t[n - 1] == '\n'
    ensures forall k :: 0 <= k < n - 1 ==> t[k] != '\n'
  {
    if t[0] == '\n' || |t| == 1 then 1 else 1 + LineLength(t[1..])
  }

  /** A line without its newline and one carriage return. */
  function Text(line: string): (text: string)
    ensures |text| <= |line|
  {
    var body := if line != "" && line[|line| - 1] == '\n' then line[..|line| - 1] else line;
    if body != "" && body[|body| - 1] == '\r' then body[..|body| - 1] else body
  }

  function Opens(text: string): Option<Fence> {
    var trimmed := TrimIndent(text);
    if |text| - |trimmed| <= 3 && trimmed != "" && (trimmed[0] == '`' || trimmed[0] == '~')
       && Marker(trimmed, trimmed[0]) >= 3
    then Some(Inside(trimmed[0], Marker(trimmed, trimmed[0])))
    else None
  }

  predicate Closes(text: string, mark: char, length: nat) {
    var trimmed := TrimIndent(text);
    && |text| - |trimmed| <= 3 && Marker(trimmed, mark) >= length
    && TrimSpace(trimmed[Marker(trimmed, mark)..]) == ""
  }

  function HeadingOf(text: string): Option<Head> {
    var level := Marker(text, '#');
    if 1 <= level <= 6 && |text| > level && Indent(text[level]) && TrimSpace(text[level..]) != ""
    then Some(Head(level, TrimSpace(text[level..])))
    else None
  }

  /** One line of the scan. */
  function Step(fence: Fence, text: string): Turn {
    match fence
    case Inside(mark, length) => Turn(if Closes(text, mark, length) then Outside else fence, None)
    case Outside =>
      match Opens(text)
      case Some(inside) => Turn(inside, None)
      case None => Turn(Outside, HeadingOf(text))
  }

  function End(t: string, fence: Fence): Fence {
    if t == "" then fence
    else
      var n := LineLength(t);
      End(t[n..], Step(fence, Text(t[..n])).fence)
  }

  datatype HeadingLine = HeadingLine(start: nat, textEnd: nat, level: nat, title: string)

  /** Where the line after the one at `start` begins. */
  function NextStart(raw: string, start: nat): (next: nat)
    requires start < |raw|
    ensures start < next <= |raw|
  {
    start + LineLength(raw[start..])
  }

  function TextAt(raw: string, start: nat): (text: string)
    requires start < |raw|
    ensures start + |text| <= NextStart(raw, start)
  {
    Text(raw[start..NextStart(raw, start)])
  }

  /** The headings from a line start on, with their offsets. */
  function HeadingsAt(raw: string, start: nat, fence: Fence): seq<HeadingLine>
    requires start <= |raw|
    decreases |raw| - start
  {
    if start == |raw| then []
    else
      var text := TextAt(raw, start);
      var turn := Step(fence, text);
      Entry(turn.head, start, start + |text|) + HeadingsAt(raw, NextStart(raw, start), turn.fence)
  }

  function Entry(head: Option<Head>, start: nat, textEnd: nat): seq<HeadingLine> {
    match head
    case Some(h) => [HeadingLine(start, textEnd, h.level, h.title)]
    case None => []
  }

  predicate Top(head: Option<Head>) {
    head.Some? && head.value.level <= 3
  }

  /** The document cut before every heading of level three or less; the first piece is what
      precedes all of them. */
  function Pieces(t: string, fence: Fence): (ps: seq<string>)
    ensures ps != []
  {
    if t == "" then [""]
    else
      var n := LineLength(t);
      var turn := Step(fence, Text(t[..n]));
      Attach(Top(turn.head), t[..n], Pieces(t[n..], turn.fence))
  }

  /** A line joins the piece that follows it; at a top heading a new piece begins. */
  function Attach(top: bool, line: string, rest: seq<string>): (ps: seq<string>)
    requires rest != []
    ensures |ps| == |rest| + (if top then 1 else 0)
  {
    (if top then [""] else []) + [line + rest[0]] + rest[1..]
  }

  /** Two decompositions, the last piece of one running into the first of the other. */
  function Glue(ps: seq<string>, qs: seq<string>): (all: seq<string>)
    requires ps != [] && qs != []
    ensures |all| == |ps| + |qs| - 1
  {
    ps[..|ps| - 1] + [ps[|ps| - 1] + qs[0]] + qs[1..]
  }

  function Join(ps: seq<string>): string {
    if ps == [] then "" else ps[0] + Join(ps[1..])
  }

  predicate Terminated(t: string) {
    t == "" || t[|t| - 1] == '\n'
  }

  /** The heading a text begins with. */
  function Front(t: string): Option<Head> {
    if t == "" then None else Step(Outside, Text(t[..LineLength(t)])).head
  }

  // ---------------------------------------------------------------------------------
  // Trailing layout decides nothing
  // ---------------------------------------------------------------------------------

  lemma StepIgnores(fence: Fence, text: string, w: string)
    requires AllLayout(w) && fence.Valid()
    ensures Step(fence, text + w) == Step(fence, text)
  {
    match fence
    case Inside(mark, length) => ClosesIgnores(text, w, mark, length);
    case Outside =>
      OpensIgnores(text, w);
      HeadingIgnores(text, w);
  }

  lemma ClosesIgnores(text: string, w: string, mark: char, length: nat)
    requires AllLayout(w) && !Layout(mark) && length > 0
    ensures Closes(text + w, mark, length) <==> Closes(text, mark, length)
  {
    var trimmed := TrimIndent(text);
    TrimIndentIgnores(text, w);
    if trimmed != "" {
      MarkerIgnores(trimmed, w, mark);
      var n := Marker(trimmed, mark);
      assert (trimmed + w)[n..] == trimmed[n..] + w;
      TrimSpaceIgnores(trimmed[n..], w);
    } else {
      MarkerIgnores("", TrimIndent(text + w), mark);
      assert "" + TrimIndent(text + w) == TrimIndent(text + w);
    }
  }

  lemma OpensIgnores(text: string, w: string)
    requires AllLayout(w)
    ensures Opens(text + w) == Opens(text)
  {
    var trimmed := TrimIndent(text);
    TrimIndentIgnores(text, w);
    if trimmed != "" && (trimmed[0] == '`' || trimmed[0] == '~') {
      MarkerIgnores(trimmed, w, trimmed[0]);
    }
  }

  lemma HeadingIgnores(text: string, w: string)
    requires AllLayout(w)
    ensures HeadingOf(text + w) == HeadingOf(text)
  {
    MarkerIgnores(text, w, '#');
    var level := Marker(text, '#');
    assert (text + w)[level..] == text[level..] + w;
    TrimSpaceIgnores(text[level..], w);
    if |text| == level {
      TrimSpaceOfWhite(w);
      assert text[level..] + w == w;
    }
  }

  /** Text drops layout only. */
  lemma TextSplits(line: string)
    ensures Text(line) <= line && AllLayout(line[|Text(line)|..])
  {
  }

  /** Two lines that differ in trailing layout turn the scan alike. */
  lemma SameTurn(fence: Fence, line: string, w: string)
    requires AllLayout(w) && fence.Valid()
    ensures Step(fence, Text(line + w)) == Step(fence, Text(line))
  {
    TextSplits(line);
    TextSplits(line + w);
    StepIgnores(fence, Text(line), line[|Text(line)|..]);
    assert Text(line) + line[|Text(line)|..] == line;
    StepIgnores(fence, Text(line + w), (line + w)[|Text(line + w)|..]);
    assert Text(line + w) + (line + w)[|Text(line + w)|..] == line + w;
    StepIgnores(fence, line, w);
  }

  lemma BlankLineTurn(line: string, fence: Fence)
    requires AllLayout(line) && fence.Valid()
    ensures Step(fence, Text(line)) == Turn(fence, None)
  {
    SameTurn(fence, "", line);
    assert "" + line == line;
    NothingOnEmpty(fence);
  }

  lemma {:induction false} LayoutIsNeutral(w: string, fence: Fence)
    requires AllLayout(w) && fence.Valid()
    ensures End(w, fence) == fence && Pieces(w, fence) == [w]
    decreases |w|
  {
    hide Step, Text, LineLength;
    if w != "" {
      var n := LineLength(w);
      BlankLineTurn(w[..n], fence);
      LayoutIsNeutral(w[n..], fence);
      assert w[..n] + w[n..] == w;
      FirstThenRest(w[..n], w[n..], fence);
    }
  }

  lemma NothingOnEmpty(fence: Fence)
    requires fence.Valid()
    ensures Step(fence, "") == Turn(fence, None)
  {
  }

  lemma StepKeepsValid(fence: Fence, text: string)
    requires fence.Valid()
    ensures Step(fence, text).fence.Valid()
  {
  }

  /** Layout glued to the last piece. */
  function Padded(ps: seq<string>, w: string): seq<string>
    requires ps != []
  {
    ps[|ps| - 1 := ps[|ps| - 1] + w]
  }

  lemma AttachPadded(top: bool, line: string, rest: seq<string>, w: string)
    requires rest != []
    ensures Attach(top, line, Padded(rest, w)) == Padded(Attach(top, line, rest), w)
  {
    assert line + (rest[0] + w) == line + rest[0] + w;
  }

  /** Trailing layout joins the last piece and changes nothing else. */
  lemma {:induction false} TrailingLayout(t: string, w: string, fence: Fence)
    requires AllLayout(w) && fence.Valid()
    ensures End(t + w, fence) == End(t, fence)
    ensures Pieces(t + w, fence) == Padded(Pieces(t, fence), w)
    decreases |t|
  {
    hide Step, Text, LineLength;
    if t == "" {
      assert t + w == w;
      LayoutIsNeutral(w, fence);
    } else {
      var n := LineLength(t);
      var turn := Step(fence, Text(t[..n]));
      SameLine(t, w);
      if t[n - 1] == '\n' {
        assert (t + w)[..n] == t[..n] && (t + w)[n..] == t[n..] + w;
        StepKeepsValid(fence, Text(t[..n]));
        TrailingLayout(t[n..], w, turn.fence);
        AttachPadded(Top(turn.head), t[..n], Pieces(t[n..], turn.fence), w);
      } else {
        LayoutOnLine(t, w, fence);
      }
    }
  }

  lemma LayoutAfterLine(t: string, u: string, v: string, fence: Fence)
    requires AllLayout(u) && AllLayout(v) && fence.Valid()
    requires t != "" && LineLength(t) == |t| && LineLength(t + u + v) == |t + u|
    ensures End(t + u + v, fence) == End(t, fence)
    ensures Pieces(t, fence) == (if Top(Step(fence, Text(t)).head) then [""] else []) + [t]
    ensures Pieces(t + u + v, fence) == (if Top(Step(fence, Text(t)).head) then [""] else []) + [t + u + v]
  {
    SameTurn(fence, t, u);
    StepKeepsValid(fence, Text(t));
    LayoutIsNeutral(v, Step(fence, Text(t)).fence);
    OneLine(t, fence);
    FirstThenRest(t + u, v, fence);
  }

  lemma LayoutOnLine(t: string, w: string, fence: Fence)
    requires AllLayout(w) && fence.Valid() && t != "" && LineLength(t) == |t| <= LineLength(t + w)
    ensures End(t + w, fence) == End(t, fence)
    ensures Pieces(t + w, fence) == Padded(Pieces(t, fence), w)
  {
    hide Step, Text, End, Pieces, LineLength;
    var k := LineLength(t + w) - |t|;
    var u, v := w[..k], w[k..];
    assert t + w == t + u + v;
    LayoutAfterLine(t, u, v, fence);
    PaddedLine(Top(Step(fence, Text(t)).head), t, w);
  }

  lemma PaddedLine(top: bool, t: string, w: string)
    ensures Padded((if top then [""] else []) + [t], w) == (if top then [""] else []) + [t + w]
  {
  }

  lemma OneLine(t: string, fence: Fence)
    requires t != "" && LineLength(t) == |t|
    ensures End(t, fence) == Step(fence, Text(t)).fence
    ensures Pieces(t, fence) == (if Top(Step(fence, Text(t)).head) then [""] else []) + [t]
  {
    assert t[..|t|] == t && t[|t|..] == "";
    assert t + "" == t;
  }

  lemma FirstThenRest(line: string, rest: string, fence: Fence)
    requires line + rest != "" && LineLength(line + rest) == |line|
    requires Pieces(rest, Step(fence, Text(line)).fence) == [rest]
    ensures End(line + rest, fence) == End(rest, Step(fence, Text(line)).fence)
    ensures Pieces(line + rest, fence) == (if Top(Step(fence, Text(line)).head) then [""] else []) + [line + rest]
  {
    assert (line + rest)[..|line|] == line && (line + rest)[|line|..] == rest;
  }

  /** The first line of a longer text. */
  lemma {:induction false} SameLine(t: string, u: string)
    requires t != ""
    ensures var n := LineLength(t);
            if t[n - 1] == '\n' then LineLength(t + u) == n else n == |t| && LineLength(t + u) >= |t|
    decreases |t|
  {
    if t[0] != '\n' && |t| > 1 {
      assert (t + u)[1..] == t[1..] + u;
      SameLine(t[1..], u);
    }
  }

  lemma FrontIgnores(t: string, w: string)
    requires AllLayout(w) && t != ""
    ensures Front(t + w) == Front(t)
  {
    var n := LineLength(t);
    SameLine(t, w);
    if t[n - 1] == '\n' {
      assert (t + w)[..n] == t[..n];
    } else {
      var k := LineLength(t + w) - |t|;
      assert (t + w)[..LineLength(t + w)] == t + w[..k] && t[..n] == t;
      SameTurn(Outside, t, w[..k]);
    }
  }

  // ---------------------------------------------------------------------------------
  // Concatenation
  // ---------------------------------------------------------------------------------

  lemma TerminatedLine(a: string)
    requires a != "" && Terminated(a)
    ensures a[LineLength(a) - 1] == '\n' && Terminated(a[LineLength(a)..])
  {
  }

  lemma AttachGlue(top: bool, line: string, rest: seq<string>, qs: seq<string>)
    requires rest != [] && qs != []
    ensures Attach(top, line, Glue(rest, qs)) == Glue(Attach(top, line, rest), qs)
  {
    if |rest| == 1 {
      assert line + (rest[0] + qs[0]) == line + rest[0] + qs[0];
    }
  }

  lemma CutLine(a: string, b: string)
    requires a != "" && Terminated(a)
    ensures var n := LineLength(a);
            && Terminated(a[n..]) && a + b != "" && LineLength(a + b) == n
            && (a + b)[..n] == a[..n] && (a + b)[n..] == a[n..] + b
  {
    TerminatedLine(a);
    SameLine(a, b);
  }

  /** Scanning terminated text and then more is scanning the two in turn. */
  lemma {:induction false} ConcatScan(a: string, b: string, fence: Fence)
    requires Terminated(a)
    ensures End(a + b, fence) == End(b, End(a, fence))
    ensures Pieces(a + b, fence) == Glue(Pieces(a, fence), Pieces(b, End(a, fence)))
    decreases |a|
  {
    hide *;
    if a == "" {
      assert a + b == b;
      NothingScanned(Pieces(b, fence), fence);
    } else {
      CutLine(a, b);
      var line, tail, turn := UnfoldPieces(a, fence);
      var first, rest, same := UnfoldPieces(a + b, fence);
      ConcatScan(tail, b, turn.fence);
      AttachGlue(Top(turn.head), line, Pieces(tail, turn.fence), Pieces(b, End(a, fence)));
    }
  }

  lemma NothingScanned(qs: seq<string>, fence: Fence)
    requires qs != []
    ensures End("", fence) == fence && Pieces("", fence) == [""] && Glue([""], qs) == qs
  {
    assert "" + qs[0] == qs[0];
  }

  lemma JoinAttach(top: bool, line: string, rest: seq<string>)
    requires rest != []
    ensures Join(Attach(top, line, rest)) == line + Join(rest)
  {
    var ps := [line + rest[0]] + rest[1..];
    assert ps[1..] == rest[1..];
    assert ([""] + ps)[1..] == ps;
    assert Attach(top, line, rest) == if top then [""] + ps else ps;
    assert line + (rest[0] + Join(rest[1..])) == line + rest[0] + Join(rest[1..]);
    assert "" + Join(ps) == Join(ps);
  }

  lemma UnfoldPieces(t: string, fence: Fence) returns (line: string, tail: string, turn: Turn)
    requires t != ""
    ensures t == line + tail && line != "" && |tail| < |t| && turn == Step(fence, Text(line))
    ensures line == t[..LineLength(t)] && tail == t[LineLength(t)..]
    ensures Pieces(t, fence) == Attach(Top(turn.head), line, Pieces(tail, turn.fence))
    ensures End(t, fence) == End(tail, turn.fence)
    ensures LineLength(line) == |line| && (line[|line| - 1] == '\n' || tail == "")
  {
    var n := LineLength(t);
    line, tail, turn := t[..n], t[n..], Step(fence, Text(t[..n]));
    LineAlone(t);
  }

  lemma {:induction false} LineAlone(t: string)
    requires t != ""
    ensures LineLength(t[..LineLength(t)]) == LineLength(t)
  {
    if t[0] != '\n' && |t| > 1 {
      LineAlone(t[1..]);
      assert t[..LineLength(t)][1..] == t[1..][..LineLength(t[1..])];
    }
  }

  lemma {:induction false} PiecesJoin(t: string, fence: Fence)
    ensures Join(Pieces(t, fence)) == t
    decreases |t|
  {
    if t != "" {
      var line, tail, turn := UnfoldPieces(t, fence);
      PiecesJoin(tail, turn.fence);
      JoinAttach(Top(turn.head), line, Pieces(tail, turn.fence));
    }
  }

  // ---------------------------------------------------------------------------------
  // What a piece is
  // ---------------------------------------------------------------------------------

  /** One section: it begins with a heading of level three or less and has no other. */
  predicate Section(s: string, after: Fence) {
    Pieces(s, Outside) == ["", s] && End(s, Outside) == after
  }

  /** A section that leaves no fence open. */
  predicate Solo(s: string) {
    Section(s, Outside)
  }

  /** Text without such a heading. */
  predicate Plain(s: string, fence: Fence, after: Fence) {
    Pieces(s, fence) == [s] && End(s, fence) == after
  }

  /** Only the last section may lack its newline or leave a fence open. */
  predicate Sections(ss: seq<string>, after: Fence)
    requires ss != []
  {
    if |ss| == 1 then Section(ss[0], after)
    else Solo(ss[0]) && Terminated(ss[0]) && Sections(ss[1..], after)
  }

  /** The pieces of a text: a plain start, then sections. */
  predicate Decomposed(ps: seq<string>, fence: Fence, after: Fence) {
    && ps != []
    && if |ps| == 1 then Plain(ps[0], fence, after)
       else Plain(ps[0], fence, Outside) && Terminated(ps[0]) && Sections(ps[1..], after)
  }

  lemma {:induction false} PiecesAreSections(t: string, fence: Fence)
    ensures Decomposed(Pieces(t, fence), fence, End(t, fence))
    decreases |t|
  {
    if t != "" {
      var line, tail, turn := UnfoldPieces(t, fence);
      var rest := Pieces(tail, turn.fence);
      PiecesAreSections(tail, turn.fence);
      if tail == "" { assert rest == [""]; }
      GrowFirst(line, fence, turn.fence, turn.head, rest[0], End(rest[0], turn.fence));
      if Top(turn.head) {
        AttachSection(line, rest, End(t, fence));
      } else {
        AttachPlain(line, rest, fence, turn.fence, End(t, fence));
      }
    }
  }

  lemma AttachSection(line: string, rest: seq<string>, after: Fence)
    requires Decomposed(rest, Outside, after)
    requires Section(line + rest[0], End(rest[0], Outside))
    requires |rest| > 1 ==> Terminated(line + rest[0])
    ensures Decomposed(Attach(true, line, rest), Outside, after)
  {
    var ps := Attach(true, line, rest);
    assert ps[0] == "" && ps[1] == line + rest[0] && ps[1..][0] == ps[1] && ps[1..][1..] == rest[1..];
    assert Plain("", Outside, Outside);
  }

  lemma AttachPlain(line: string, rest: seq<string>, fence: Fence, next: Fence, after: Fence)
    requires Decomposed(rest, next, after)
    requires Plain(line + rest[0], fence, End(rest[0], next))
    requires |rest| > 1 ==> Terminated(line + rest[0])
    ensures Decomposed(Attach(false, line, rest), fence, after)
  {
    var ps := Attach(false, line, rest);
    assert ps[0] == line + rest[0] && ps[1..] == rest[1..];
  }

  /** A line in front of the plain start of what follows it. */
  lemma GrowFirst(line: string, fence: Fence, next: Fence, head: Option<Head>, first: string, after: Fence)
    requires line != "" && LineLength(line) == |line| && Step(fence, Text(line)) == Turn(next, head)
    requires Plain(first, next, after) && (line[|line| - 1] == '\n' || first == "")
    ensures End(line + first, fence) == after
    ensures Pieces(line + first, fence) == if Top(head) then ["", line + first] else [line + first]
    ensures Terminated(line) && Terminated(first) ==> Terminated(line + first)
  {
    SameLine(line, first);
    if first == "" { assert line + first == line; }
    FirstThenRest(line, first, fence);
  }
}
