/** Accepted specifications: their requirement blocks by offset, as the rewriter reads them, and
    by section, as the proofs use them (reconcile.go). */
module Accepted {
  import opened Records
  import opened Markdown
  import opened Scanners

  /** Requirement identities and delta headings depend on case folding, which stays abstract. */
  datatype Rules = Rules(identity: string -> string, deltaTitle: string -> bool)

  /** A requirement block, from its heading through the bytes before the next section. */
  datatype Block = Block(start: nat, headEnd: nat, end: nat, name: string)

  datatype Requirement = Requirement(name: string, body: string)

  const PREFIX := "Requirement: "

  /** The requirement a heading introduces; its name may turn out empty. */
  function NameIn(level: nat, title: string): Option<string> {
    if level == 3 && PREFIX <= title then Some(TrimSpace(title[|PREFIX|..])) else None
  }

  function NameOf(head: Option<Head>): Option<string> {
    if head.None? then None else NameIn(head.value.level, head.value.title)
  }

  predicate Named(s: string) {
    NameOf(Front(s)).Some? && NameOf(Front(s)).value != ""
  }

  /** The offset of a section's second line, or rather of the end of its heading. */
  function HeadEnd(s: string): (n: nat)
    ensures n <= |s|
  {
    if s == "" then 0 else |Text(s[..LineLength(s)])|
  }

  // ---------------------------------------------------------------------------------
  // Blocks from headings, blocks from sections
  // ---------------------------------------------------------------------------------

  /** Where the next section starts. */
  function NextTop(headings: seq<HeadingLine>, length: nat): nat {
    if headings == [] then length
    else if headings[0].level <= 3 then headings[0].start
    else NextTop(headings[1..], length)
  }

  function BlockAt(heading: HeadingLine, end: nat): seq<Block> {
    match NameIn(heading.level, heading.title)
    case None => []
    case Some(name) => if name == "" then [] else [Block(heading.start, heading.textEnd, end, name)]
  }

  function BlocksFrom(headings: seq<HeadingLine>, length: nat): seq<Block> {
    if headings == [] then []
    else BlockAt(headings[0], NextTop(headings[1..], length)) + BlocksFrom(headings[1..], length)
  }

  function BlockOf(s: string, offset: nat): seq<Block> {
    if Named(s) then [Block(offset, offset + HeadEnd(s), offset + |s|, NameOf(Front(s)).value)] else []
  }

  function BlocksOf(ss: seq<string>, offset: nat): seq<Block> {
    if ss == [] then [] else BlockOf(ss[0], offset) + BlocksOf(ss[1..], offset + |ss[0]|)
  }

  // The two are linked through the trace of the scan: its lines, each with what it opened.

  datatype Scanned = Scanned(line: string, textEnd: nat, head: Option<Head>)

  function TraceAt(raw: string, start: nat, fence: Fence): seq<Scanned>
    requires start <= |raw|
    decreases |raw| - start
  {
    if start == |raw| then []
    else
      var turn := Step(fence, TextAt(raw, start));
      [Scanned(raw[start..NextStart(raw, start)], |TextAt(raw, start)|, turn.head)] +
        TraceAt(raw, NextStart(raw, start), turn.fence)
  }

  function TracedHeadings(trace: seq<Scanned>, offset: nat): seq<HeadingLine> {
    if trace == [] then []
    else Entry(trace[0].head, offset, offset + trace[0].textEnd) + TracedHeadings(trace[1..], offset + |trace[0].line|)
  }

  function TracedPieces(trace: seq<Scanned>): (ps: seq<string>)
    ensures ps != []
  {
    if trace == [] then [""] else Attach(Top(trace[0].head), trace[0].line, TracedPieces(trace[1..]))
  }

  function Length(trace: seq<Scanned>): nat {
    if trace == [] then 0 else |trace[0].line| + Length(trace[1..])
  }

  /** The lines that begin a section. */
  function Tops(trace: seq<Scanned>): (tops: seq<Scanned>)
    ensures |tops| == |TracedPieces(trace)| - 1
  {
    if trace == [] then [] else (if Top(trace[0].head) then [trace[0]] else []) + Tops(trace[1..])
  }

  lemma UnfoldTraced(trace: seq<Scanned>, offset: nat)
    requires trace != []
    ensures var top, rest := trace[0], trace[1..];
            && TracedHeadings(trace, offset) ==
                 Entry(top.head, offset, offset + top.textEnd) + TracedHeadings(rest, offset + |top.line|)
            && TracedPieces(trace) == Attach(Top(top.head), top.line, TracedPieces(rest))
            && Length(trace) == |top.line| + Length(rest)
            && Tops(trace) == (if Top(top.head) then [top] else []) + Tops(rest)
  {
  }

  lemma UnfoldTrace(raw: string, start: nat, fence: Fence)
    requires start < |raw|
    ensures var trace, turn, next := TraceAt(raw, start, fence), Step(fence, TextAt(raw, start)), NextStart(raw, start);
            && trace != [] && trace[0] == Scanned(raw[start..next], |TextAt(raw, start)|, turn.head)
            && trace[1..] == TraceAt(raw, next, turn.fence)
  {
    hide Step, TextAt, NextStart;
  }

  lemma NoTrace(raw: string, fence: Fence)
    ensures TraceAt(raw, |raw|, fence) == [] && HeadingsAt(raw, |raw|, fence) == []
    ensures TracedHeadings([], |raw|) == [] && Length([]) == 0
  {
  }

  lemma {:induction false} TraceIsScan(raw: string, start: nat, fence: Fence)
    requires start <= |raw|
    ensures TracedHeadings(TraceAt(raw, start, fence), start) == HeadingsAt(raw, start, fence)
    ensures Length(TraceAt(raw, start, fence)) == |raw| - start
    decreases |raw| - start
  {
    hide *;
    if start < |raw| {
      var next, turn := NextStart(raw, start), Step(fence, TextAt(raw, start));
      TraceIsScan(raw, next, turn.fence);
      UnfoldTrace(raw, start, fence);
      UnfoldTraced(TraceAt(raw, start, fence), start);
      Scanners.NextHeading(raw, start, fence);
    } else {
      NoTrace(raw, fence);
    }
  }

  lemma {:induction false} TraceIsPieces(raw: string, start: nat, fence: Fence)
    requires start <= |raw|
    ensures TracedPieces(TraceAt(raw, start, fence)) == Pieces(raw[start..], fence)
    decreases |raw| - start
  {
    if start < |raw| {
      var next, turn := NextStart(raw, start), Step(fence, TextAt(raw, start));
      TraceIsPieces(raw, next, turn.fence);
      assert TraceAt(raw, start, fence)[1..] == TraceAt(raw, next, turn.fence);
      Suffix(raw, start);
    }
  }

  /** Blocks by the sections' own first lines. */
  function BlocksBy(tops: seq<Scanned>, ss: seq<string>, offset: nat): seq<Block>
    requires |tops| == |ss|
  {
    if ss == [] then []
    else
      BlockBy(tops[0], offset, offset + |ss[0]|) + BlocksBy(tops[1..], ss[1..], offset + |ss[0]|)
  }

  function BlockBy(top: Scanned, start: nat, end: nat): seq<Block> {
    match top.head
    case None => []
    case Some(h) => BlockAt(HeadingLine(start, start + top.textEnd, h.level, h.title), end)
  }

  lemma {:induction false} TracedBlocks(trace: seq<Scanned>, offset: nat)
    ensures var ps, hs := TracedPieces(trace), TracedHeadings(trace, offset);
            && NextTop(hs, offset + Length(trace)) == offset + |ps[0]|
            && BlocksFrom(hs, offset + Length(trace)) == BlocksBy(Tops(trace), ps[1..], offset + |ps[0]|)
  {
    hide Entry, NameIn, BlockAt, Attach, Top;
    if trace != [] {
      hide *;
      var top, rest := trace[0], trace[1..];
      var after := offset + |top.line|;
      UnfoldTraced(trace, offset);
      TracedBlocks(rest, after);
      OneMoreHeading(top.head, offset, offset + top.textEnd, TracedHeadings(rest, after), offset + Length(trace));
      OneMoreSection(Top(top.head), top, TracedPieces(rest), Tops(rest), offset);
    }
  }

  lemma OneMoreHeading(head: Option<Head>, start: nat, textEnd: nat, hs: seq<HeadingLine>, length: nat)
    ensures NextTop(Entry(head, start, textEnd) + hs, length) == if Top(head) then start else NextTop(hs, length)
    ensures BlocksFrom(Entry(head, start, textEnd) + hs, length) ==
            (match head
             case None => []
             case Some(h) => BlockAt(HeadingLine(start, textEnd, h.level, h.title), NextTop(hs, length)))
            + BlocksFrom(hs, length)
  {
    match head
    case None => assert Entry(head, start, textEnd) + hs == hs;
    case Some(h) => assert (Entry(head, start, textEnd) + hs)[1..] == hs;
  }

  lemma OneMoreSection(begins: bool, top: Scanned, rest: seq<string>, tops: seq<Scanned>, offset: nat)
    requires rest != [] && |tops| == |rest| - 1 && begins == Top(top.head)
    ensures var ps := Attach(begins, top.line, rest);
            var after := offset + |top.line| + |rest[0]|;
            && offset + |ps[0]| == (if begins then offset else after)
            && BlocksBy((if begins then [top] else []) + tops, ps[1..], offset + |ps[0]|) ==
               BlockBy(top, offset, after) + BlocksBy(tops, rest[1..], after)
  {
    var ps := Attach(begins, top.line, rest);
    if begins {
      assert ps[1..] == [top.line + rest[0]] + rest[1..];
      assert ps[1..][1..] == rest[1..] && ([top] + tops)[1..] == tops;
    } else {
      assert ps[1..] == rest[1..] && [] + tops == tops;
    }
  }

  /** A trace of some document's lines. */
  predicate Coherent(trace: seq<Scanned>) {
    trace != [] ==>
      var top := trace[0];
      && top.line != "" && LineLength(top.line) == |top.line| && top.textEnd == |Text(top.line)|
      && (Top(top.head) ==> Step(Outside, Text(top.line)).head == top.head)
      && (top.line[|top.line| - 1] == '\n' || trace[1..] == [])
      && Coherent(trace[1..])
  }

  lemma OnlyOutside(fence: Fence, text: string)
    ensures Step(fence, text).head.Some? ==> fence == Outside
  {
  }

  lemma {:induction false} TraceIsCoherent(raw: string, start: nat, fence: Fence)
    requires start <= |raw|
    ensures Coherent(TraceAt(raw, start, fence))
    decreases |raw| - start
  {
    if start < |raw| {
      var next, turn := NextStart(raw, start), Step(fence, TextAt(raw, start));
      TraceIsCoherent(raw, next, turn.fence);
      assert TraceAt(raw, start, fence)[1..] == TraceAt(raw, next, turn.fence);
      Suffix(raw, start);
      LineAlone(raw[start..]);
      OnlyOutside(fence, TextAt(raw, start));
    }
  }

  /** The section that begins with a line. */
  lemma FrontOfLine(line: string, first: string)
    requires line != "" && LineLength(line) == |line| && (line[|line| - 1] == '\n' || first == "")
    ensures Front(line + first) == Step(Outside, Text(line)).head && HeadEnd(line + first) == |Text(line)|
  {
    SameLine(line, first);
    if first == "" { assert line + first == line; }
    assert (line + first)[..|line|] == line;
  }

  lemma {:induction false} FrontsOfSections(trace: seq<Scanned>, k: nat)
    requires Coherent(trace) && k < |Tops(trace)|
    ensures var s := TracedPieces(trace)[k + 1];
            Front(s) == Tops(trace)[k].head && HeadEnd(s) == Tops(trace)[k].textEnd
  {
    hide Step, Text, Front, HeadEnd;
    var top, rest := trace[0], trace[1..];
    var ps := TracedPieces(rest);
    if Top(top.head) {
      if k == 0 {
        FrontOfLine(top.line, ps[0]);
      } else {
        FrontsOfSections(rest, k - 1);
      }
    } else {
      FrontsOfSections(rest, k);
    }
  }

  lemma BlockByFront(top: Scanned, s: string, offset: nat)
    requires Front(s) == top.head && HeadEnd(s) == top.textEnd
    ensures BlockBy(top, offset, offset + |s|) == BlockOf(s, offset)
  {
    hide Front, HeadEnd;
  }

  lemma {:induction false} BlocksByFront(tops: seq<Scanned>, ss: seq<string>, offset: nat)
    requires |tops| == |ss|
    requires forall k :: 0 <= k < |ss| ==> Front(ss[k]) == tops[k].head && HeadEnd(ss[k]) == tops[k].textEnd
    ensures BlocksBy(tops, ss, offset) == BlocksOf(ss, offset)
  {
    hide Front, HeadEnd, BlockOf, BlockBy;
    if ss != [] {
      BlockByFront(tops[0], ss[0], offset);
      BlocksByFront(tops[1..], ss[1..], offset + |ss[0]|);
    }
  }

  /** The blocks the rewriter reads off the headings are the named sections. */
  lemma BlocksAreSections(raw: string)
    ensures BlocksFrom(HeadingsAt(raw, 0, Outside), |raw|) ==
            BlocksOf(Pieces(raw, Outside)[1..], |Pieces(raw, Outside)[0]|)
  {
    hide *;
    var trace := TraceAt(raw, 0, Outside);
    TraceIsScan(raw, 0, Outside);
    TraceIsPieces(raw, 0, Outside);
    TraceIsCoherent(raw, 0, Outside);
    TracedBlocks(trace, 0);
    assert raw[0..] == raw;
    var ss := Pieces(raw, Outside)[1..];
    forall k | 0 <= k < |ss|
      ensures Front(ss[k]) == Tops(trace)[k].head && HeadEnd(ss[k]) == Tops(trace)[k].textEnd
    {
      FrontsOfSections(trace, k);
    }
    BlocksByFront(Tops(trace), ss, |Pieces(raw, Outside)[0]|);
  }

  // ---------------------------------------------------------------------------------
  // What an accepted specification must satisfy
  // ---------------------------------------------------------------------------------

  function Requirements(ss: seq<string>): seq<Requirement> {
    if ss == [] then []
    else
      (if Named(ss[0]) then [Requirement(NameOf(Front(ss[0])).value, TrimRight(ss[0]))] else [])
      + Requirements(ss[1..])
  }

  function Identities(rules: Rules, rs: seq<Requirement>): (ids: seq<string>)
    ensures |ids| == |rs| && forall k :: 0 <= k < |rs| ==> ids[k] == rules.identity(rs[k].name)
  {
    seq(|rs|, k requires 0 <= k < |rs| => rules.identity(rs[k].name))
  }

  ghost predicate Distinct(ids: seq<string>) {
    forall i, j :: 0 <= i < j < |ids| ==> ids[i] != ids[j]
  }

  predicate Lawful(rules: Rules, s: string) {
    && !(Front(s).Some? && Front(s).value.level == 2 && rules.deltaTitle(Front(s).value.title))
    && NameOf(Front(s)) != Some("")
  }

  /** What the rewriter demands of the accepted document. */
  ghost predicate Titled(rules: Rules, raw: string) {
    var ss := Pieces(raw, Outside)[1..];
    && (forall s :: s in ss ==> Lawful(rules, s))
    && Distinct(Identities(rules, Requirements(ss)))
  }

  /** And that no fence is left open. */
  ghost predicate Sound(rules: Rules, raw: string) {
    End(raw, Outside) == Outside && Titled(rules, raw)
  }
}
