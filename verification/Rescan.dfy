/** What a rescan of a rebuilt specification finds: every section where it was, edited ones
    edited, added ones after the last requirement. */
module Rescan {
  import opened Records
  import opened Markdown
  import opened Accepted
  import opened Reconcile

  /** Pieces up to the layout they end in. */
  function Bodies(ps: seq<string>): (bs: seq<string>)
    ensures |bs| == |ps|
  {
    seq(|ps|, k requires 0 <= k < |ps| => TrimRight(ps[k]))
  }

  /** The text's pieces have these bodies, and this is the fence it leaves. */
  predicate Reads(t: string, bodies: seq<string>, after: Fence) {
    End(t, Outside) == after && Bodies(Pieces(t, Outside)) == bodies
  }

  predicate AllTerminated(ss: seq<string>) {
    forall k :: 0 <= k < |ss| ==> Terminated(ss[k])
  }

  predicate AllSolo(ss: seq<string>) {
    forall k :: 0 <= k < |ss| ==> Solo(ss[k])
  }

  // ---------------------------------------------------------------------------------
  // Growing a text
  // ---------------------------------------------------------------------------------

  lemma BodiesConcat(a: seq<string>, b: seq<string>)
    ensures Bodies(a + b) == Bodies(a) + Bodies(b)
  {
  }

  lemma ReadsLayout(t: string, w: string, bodies: seq<string>, after: Fence)
    requires Reads(t, bodies, after) && AllLayout(w)
    ensures Reads(t + w, bodies, after)
  {
    hide End, Pieces, TrimRight;
    TrailingLayout(t, w, Outside);
    var ps := Pieces(t, Outside);
    TrimRightIgnores(ps[|ps| - 1], w);
    assert Bodies(Padded(ps, w)) == Bodies(ps);
  }

  lemma ReadsSection(t: string, s: string, bodies: seq<string>, after: Fence)
    requires Reads(t, bodies, Outside) && Terminated(t) && Section(s, after)
    ensures Reads(t + s, bodies + [TrimRight(s)], after)
  {
    hide End, Pieces, TrimRight;
    ConcatScan(t, s, Outside);
    var ps := Pieces(t, Outside);
    assert ps[|ps| - 1] + "" == ps[|ps| - 1];
    assert Glue(ps, ["", s]) == ps + [s];
    BodiesConcat(ps, [s]);
    assert Bodies([s]) == [TrimRight(s)];
  }

  lemma TerminatedConcat(t: string, s: string)
    requires Terminated(t) && Terminated(s)
    ensures Terminated(t + s)
  {
  }

  lemma {:induction false} ReadsSections(t: string, ss: seq<string>, bodies: seq<string>, after: Fence)
    requires Reads(t, bodies, Outside) && Terminated(t) && ss != [] && Sections(ss, after)
    ensures Reads(t + Join(ss), bodies + Bodies(ss), after)
    ensures AllTerminated(ss) ==> Terminated(t + Join(ss))
    decreases |ss|
  {
    hide End, Pieces, TrimRight, Solo, Reads, Terminated, Section;
    var s, rest := ss[0], ss[1..];
    assert t + (s + Join(rest)) == t + s + Join(rest);
    assert Bodies(ss) == [TrimRight(s)] + Bodies(rest);
    assert bodies + ([TrimRight(s)] + Bodies(rest)) == bodies + [TrimRight(s)] + Bodies(rest);
    assert AllTerminated(ss) ==> Terminated(ss[0]);
    if rest == [] {
      ReadsSection(t, s, bodies, after);
      assert Join(rest) == "" && t + Join(ss) == t + s;
      assert Bodies(rest) == [] && bodies + Bodies(ss) == bodies + [TrimRight(s)];
      if Terminated(s) { TerminatedConcat(t, s); }
    } else {
      FirstTerminated(ss, after);
      ReadsSection(t, s, bodies, Outside);
      TerminatedConcat(t, s);
      ReadsSections(t + s, rest, bodies + [TrimRight(s)], after);
    }
  }

  lemma FirstTerminated(ss: seq<string>, after: Fence)
    requires |ss| > 1 && Sections(ss, after)
    ensures Solo(ss[0]) && Section(ss[0], Outside) && Terminated(ss[0]) && Sections(ss[1..], after)
  {
  }

  lemma LastSection(ss: seq<string>, after: Fence)
    requires |ss| == 1 && Sections(ss, after)
    ensures Section(ss[0], after)
  {
  }

  lemma SpacedIsLayout(out: string)
    ensures AllLayout(Missing(out)) && Terminated(Spaced(out))
  {
  }

  lemma TrimTwice(s: string)
    ensures TrimRight(TrimRight(s)) == TrimRight(s)
  {
    TrimRightSplits(s);
    var body := TrimRight(s);
    assert body == "" || !Layout(body[|body| - 1]);
    assert TrimRight(body) == body;
  }

  /** A section without the layout it ends in is a section. */
  lemma TrimmedSolo(s: string)
    requires Solo(s)
    ensures Solo(TrimRight(s)) && TrimRight(s) != ""
  {
    hide End, Pieces, TrimRight;
    var body := TrimRight(s);
    TrimRightSplits(s);
    var w := s[|body|..];
    assert body + w == s;
    TrailingLayout(body, w, Outside);
    var ps := Pieces(body, Outside);
    PiecesJoin(body, Outside);
    assert |Padded(ps, w)| == 2 && Padded(ps, w)[0] == ps[0] == "";
    JoinTwo(ps);
    if body == "" { NoPieces(); }
  }

  lemma JoinTwo(ps: seq<string>)
    requires |ps| == 2 && ps[0] == ""
    ensures Join(ps) == ps[1]
  {
    assert ps[1..][1..] == [];
    assert ps[1] + "" == ps[1] && "" + ps[1] == ps[1];
    assert Join(ps[1..]) == ps[1];
  }

  lemma NoPieces()
    ensures Pieces("", Outside) == [""]
  {
  }

  lemma PaddedSolo(s: string, w: string)
    requires Solo(s) && AllLayout(w)
    ensures Solo(s + w)
  {
    hide End, Pieces;
    TrailingLayout(s, w, Outside);
  }

  lemma {:induction false} ReadsAppended(out: string, blocks: seq<string>, bodies: seq<string>)
    requires Reads(out, bodies, Outside) && AllSolo(blocks)
    ensures Reads(Appended(out, blocks), bodies + Bodies(blocks), Outside)
    decreases |blocks|
  {
    hide End, Pieces, TrimRight, Reads, Terminated, Spaced, Missing, Section;
    if blocks == [] {
      assert bodies + Bodies(blocks) == bodies;
    } else {
      var b, rest := blocks[0], blocks[1..];
      SpacedReads(out, bodies, Outside);
      TrimmedSolo(b);
      ReadsSection(Spaced(out), TrimRight(b), bodies, Outside);
      TrimTwice(b);
      ReadsLayout(Spaced(out) + TrimRight(b), "\n", bodies + [TrimRight(b)], Outside);
      ReadsAppended(Spaced(out) + TrimRight(b) + "\n", rest, bodies + [TrimRight(b)]);
      assert Bodies(blocks) == [TrimRight(b)] + Bodies(rest);
      assert bodies + ([TrimRight(b)] + Bodies(rest)) == bodies + [TrimRight(b)] + Bodies(rest);
    }
  }

  lemma SpacedReads(out: string, bodies: seq<string>, after: Fence)
    requires Reads(out, bodies, after)
    ensures Reads(Spaced(out), bodies, after) && Terminated(Spaced(out))
  {
    hide Reads;
    SpacedIsLayout(out);
    ReadsLayout(out, Missing(out), bodies, after);
  }

  // ---------------------------------------------------------------------------------
  // Edited sections are sections
  // ---------------------------------------------------------------------------------

  /** An operation the planner would have accepted: its written block is one section under its
      name. The new name of a rename may be empty. */
  predicate Editable(operation: Operation) {
    match operation
    case Added(name, raw) => Solo(raw) && NameOf(Front(raw)) == Some(name) && TrimSpace(name) != ""
    case Modified(name, raw) => Solo(raw) && NameOf(Front(raw)) == Some(name) && TrimSpace(name) != ""
    case Removed(name) => TrimSpace(name) != ""
    case Renamed(from, to) => TrimSpace(from) != "" && TrimSpace(to) == to && '\n' !in to
  }

  predicate EditableActions(actions: Actions) {
    forall id :: id in actions ==> Editable(actions[id]) && !actions[id].Added?
  }

  lemma ReplacedIsSolo(raw: string, s: string)
    requires Solo(raw) && s != ""
    ensures Solo(Replaced(raw, s)) && Front(Replaced(raw, s)) == Front(raw)
    ensures TrimRight(Replaced(raw, s)) == TrimRight(raw)
    ensures Terminated(s) ==> Terminated(Replaced(raw, s))
  {
    hide Solo, Front, TrimRight;
    TrimmedSolo(raw);
    TrimRightSplits(s);
    TrimRightSplits(raw);
    var w := s[|TrimRight(s)|..];
    PaddedSolo(TrimRight(raw), w);
    FrontIgnores(TrimRight(raw), w);
    FrontIgnores(TrimRight(raw), raw[|TrimRight(raw)|..]);
    assert TrimRight(raw) + raw[|TrimRight(raw)|..] == raw;
    TrimRightIgnores(TrimRight(raw), w);
    TrimTwice(raw);
    KeepsNewline(s, TrimRight(raw));
  }

  lemma NotEmpty(s: string, after: Fence)
    requires Section(s, after)
    ensures s != ""
  {
    NoPieces();
  }

  lemma KeepsNewline(s: string, front: string)
    ensures s != "" && Terminated(s) ==> Terminated(front + s[|TrimRight(s)|..])
  {
    hide TrimRight;
    TrimRightSplits(s);
  }

  /** A section's first line is a top heading; what follows is plain. */
  lemma SectionParts(s: string, after: Fence) returns (line: string, rest: string)
    requires Section(s, after)
    ensures s == line + rest && line != "" && LineLength(line) == |line| && (line[|line| - 1] == '\n' || rest == "")
    ensures line == s[..LineLength(s)]
    ensures Top(Step(Outside, Text(line)).head) && Step(Outside, Text(line)).fence == Outside
    ensures Pieces(rest, Outside) == [rest] && End(rest, Outside) == after
  {
    hide Text, End, Pieces;
    NotEmpty(s, after);
    var turn;
    line, rest, turn := UnfoldPieces(s, Outside);
    var ps := Pieces(rest, turn.fence);
    PiecesJoin(rest, turn.fence);
    HeadStaysOutside(Text(line));
    assert Attach(Top(turn.head), line, ps)[0] == "";
    assert |ps| == 1;
    JoinOne(ps);
  }

  lemma JoinOne(ps: seq<string>)
    requires |ps| == 1
    ensures Join(ps) == ps[0]
  {
    assert ps[1..] == [];
    assert ps[0] + "" == ps[0];
  }

  lemma HeadStaysOutside(text: string)
    ensures Step(Outside, text).head.Some? ==> Step(Outside, text).fence == Outside
  {
  }

  lemma {:induction false} TrimSpaceShrinks(s: string)
    ensures |TrimSpace(s)| <= |s|
    decreases |s|
  {
    if s != "" && White(s[|s| - 1]) {
      TrimSpaceShrinks(s[..|s| - 1]);
    } else {
      DropShrinks(s);
    }
  }

  lemma {:induction false} DropShrinks(s: string)
    ensures |DropWhite(s)| <= |s|
  {
    if s != "" && White(s[0]) {
      DropShrinks(s[1..]);
    }
  }

  lemma TrimmedEnds(to: string)
    requires to != "" && TrimSpace(to) == to
    ensures !White(to[|to| - 1])
  {
    TrimSpaceShrinks(to[..|to| - 1]);
  }

  /** The line a rename writes is the requirement's heading. */
  lemma HeadingLineReads(to: string)
    requires to != "" && TrimSpace(to) == to
    ensures Text(HEADING + to) == HEADING + to
    ensures Step(Outside, HEADING + to) == Turn(Outside, Some(Head(3, PREFIX + to)))
  {
    TrimmedEnds(to);
    var line := HEADING + to;
    assert line[|line| - 1] == to[|to| - 1];
    assert line[0] == '#' && line[1] == '#' && line[2] == '#' && line[3] == ' ';
    ThreeMarks(line);
    assert TrimIndent(line) == line;
    TitleReads(to);
  }

  lemma TitleReads(to: string)
    requires to != "" && !White(to[|to| - 1])
    ensures (HEADING + to)[3..] == " " + PREFIX + to
    ensures TrimSpace((HEADING + to)[3..]) == PREFIX + to
  {
    var named := PREFIX + to;
    assert HEADING == "###" + " " + PREFIX;
    assert (HEADING + to)[3..] == " " + PREFIX + to;
    assert " " + PREFIX + to == " " + named;
    var title := " " + named;
    assert title[|title| - 1] == to[|to| - 1];
    assert title[1..] == named && named[0] == 'R';
    assert DropWhite(named) == named;
    assert DropWhite(title) == DropWhite(title[1..]);
  }

  lemma ThreeMarks(line: string)
    requires |line| > 3 && line[0] == '#' && line[1] == '#' && line[2] == '#' && line[3] != '#'
    ensures Marker(line, '#') == 3
  {
    var two := line[1..];
    var one := two[1..];
    var none := one[1..];
    assert none[0] == line[3];
    assert Marker(none, '#') == 0;
    assert Marker(one, '#') == 1;
    assert Marker(two, '#') == 2;
  }

  lemma BareTitle()
    ensures TrimSpace(" Requirement:") == "Requirement:"
  {
    var title := " Requirement:";
    assert title[1..] == "Requirement:";
    assert DropWhite("Requirement:") == "Requirement:";
    assert DropWhite(title) == DropWhite(title[1..]);
  }

  lemma BareHeading()
    ensures Text("### Requirement:") == "### Requirement:"
    ensures Opens("### Requirement:") == None
    ensures HeadingOf("### Requirement:") == Some(Head(3, "Requirement:"))
  {
    var bare := "### Requirement:";
    assert bare[0] == '#' && bare[1] == '#' && bare[2] == '#' && bare[3] == ' ';
    ThreeMarks(bare);
    assert TrimIndent(bare) == bare;
    assert bare[3..] == " Requirement:";
    BareTitle();
  }

  /** The heading a rename to nothing writes introduces no requirement. */
  lemma NothingNamedBy()
    ensures Step(Outside, Text(HEADING)) == Turn(Outside, Some(Head(3, "Requirement:")))
    ensures NameOf(Some(Head(3, "Requirement:"))) == None
  {
    hide Text, Opens, HeadingOf;
    var bare := "### Requirement:";
    assert HEADING == bare + " ";
    SameTurn(Outside, bare, " ");
    BareHeading();
    assert |PREFIX| == 13;
  }

  /** The heading a rename writes; without a name it introduces no requirement. */
  function NewHeading(to: string): (head: Head)
    ensures head.level == 3
  {
    Head(3, if to == "" then "Requirement:" else PREFIX + to)
  }

  lemma NewHeadingReads(to: string)
    requires TrimSpace(to) == to
    ensures Step(Outside, Text(HEADING + to)) == Turn(Outside, Some(NewHeading(to)))
    ensures NameOf(Some(NewHeading(to))) == if to == "" then None else Some(to)
  {
    hide Step, Text, TrimSpace;
    if to == "" {
      NothingNamedBy();
      assert HEADING + to == HEADING;
    } else {
      HeadingLineReads(to);
      RenamedReads(to);
    }
  }

  /** A retitled section is a section under the new name, and leaves the fence it left. */
  lemma RetitledIsSection(to: string, s: string, after: Fence)
    requires Section(s, after) && TrimSpace(to) == to && '\n' !in to
    ensures Section(Retitled(to, s), after) && Front(Retitled(to, s)) == Some(NewHeading(to))
    ensures Terminated(s) ==> Terminated(Retitled(to, s))
  {
    hide *;
    var line, rest := SectionParts(s, after);
    var w := line[|Text(line)|..];
    var first := HEADING + to + w;
    RetitledText(to, s, line, rest);
    NewHeadingReads(to);
    SameTurn(Outside, HEADING + to, w);
    RetitledLine(to, w);
    FrontOfLine(first, rest);
    LineThenRest(first, rest);
    FirstThenRest(first, rest, Outside);
    SectionOfTop(first + rest, NewHeading(to), after);
    RetitledEnds(to, s, after);
  }

  lemma RetitledText(to: string, s: string, line: string, rest: string)
    requires s == line + rest && line != "" && line == s[..LineLength(s)] && LineLength(line) == |line|
    requires line[|line| - 1] == '\n' || rest == ""
    ensures var w := line[|Text(line)|..];
            && Retitled(to, s) == HEADING + to + w + rest
            && AllLayout(w) && (forall k :: 0 <= k < |w| - 1 ==> w[k] != '\n')
            && HEADING + to + w != "" && (rest != "" ==> (HEADING + to + w)[|HEADING + to + w| - 1] == '\n')
            && Outside.Valid()
  {
    hide LineLength;
    TextSplits(line);
    TextStops(line);
    var w := line[|Text(line)|..];
    assert s[HeadEnd(s)..] == w + rest;
    assert HEADING + to + (w + rest) == HEADING + to + w + rest;
    assert forall k :: 0 <= k < |w| ==> w[k] == line[|Text(line)| + k];
    assert forall k :: 0 <= k < |line| - 1 ==> line[k] != '\n' by { assert LineLength(line) == |line|; }
  }

  lemma SectionOfTop(s: string, head: Head, after: Fence)
    requires head.level == 3 && End(s, Outside) == after
    requires Pieces(s, Outside) == (if Top(Some(head)) then [""] else []) + [s]
    ensures Section(s, after)
  {
  }

  /** The layout that ends a line has its only newline last. */
  lemma RetitledLine(to: string, w: string)
    requires '\n' !in to && AllLayout(w) && forall k :: 0 <= k < |w| - 1 ==> w[k] != '\n'
    ensures LineLength(HEADING + to + w) == |HEADING + to + w|
  {
    var first := HEADING + to + w;
    assert forall k :: 0 <= k < |HEADING| ==> HEADING[k] != '\n';
    assert forall k :: 0 <= k < |first| - 1 ==> first[k] != '\n';
    OneLineOnly(first);
  }

  lemma {:induction false} OneLineOnly(t: string)
    requires t != "" && forall k :: 0 <= k < |t| - 1 ==> t[k] != '\n'
    ensures LineLength(t) == |t|
  {
    if |t| > 1 {
      OneLineOnly(t[1..]);
    }
  }

  lemma LineThenRest(line: string, rest: string)
    requires line != "" && LineLength(line) == |line| && (line[|line| - 1] == '\n' || rest == "")
    ensures LineLength(line + rest) == |line|
  {
    SameLine(line, rest);
    if rest == "" { assert line + rest == line; }
  }

  lemma RetitledEnds(to: string, s: string, after: Fence)
    requires Section(s, after)
    ensures Terminated(s) ==> Terminated(Retitled(to, s))
  {
    hide Text, Pieces, End;
    NotEmpty(s, after);
    TextStops(s[..LineLength(s)]);
  }

  /** A line's text ends before its newline. */
  lemma TextStops(line: string)
    ensures line != "" && line[|line| - 1] == '\n' ==> |Text(line)| < |line|
  {
  }

  /** The name a section carries after an operation on it. */
  function NewName(operation: Option<Operation>, s: string): Option<string> {
    match operation
    case Some(Modified(name, _)) => Some(name)
    case Some(Renamed(_, to)) => if to == "" then None else Some(to)
    case _ => NameOf(Front(s))
  }

  /** The fence a section leaves once an operation has been applied to it: only what is replaced
      or removed can lose an open one. */
  function Left(operation: Option<Operation>, after: Fence): Fence {
    if operation.Some? && (operation.value.Modified? || operation.value.Removed?) then Outside else after
  }

  lemma EditedIsSection(operation: Option<Operation>, s: string, after: Fence)
    requires Section(s, after) && !Dropped(operation)
    requires operation.Some? ==> Editable(operation.value) && !operation.value.Added?
    ensures Section(Edited(operation, s), Left(operation, after))
    ensures Terminated(s) ==> Terminated(Edited(operation, s))
    ensures NameOf(Front(Edited(operation, s))) == NewName(operation, s)
    ensures operation.None? ==> Edited(operation, s) == s
  {
    hide Front, Terminated, Replaced, Retitled, NameOf, Pieces, End, NewHeading, TrimSpace;
    match operation
    case None =>
    case Some(Modified(_, raw)) =>
      NotEmpty(s, after);
      ReplacedIsSolo(raw, s);
    case Some(Renamed(_, to)) =>
      RetitledIsSection(to, s, after);
      NewHeadingReads(to);
  }

  lemma RenamedReads(to: string)
    requires TrimSpace(to) == to
    ensures NameOf(Some(Head(3, PREFIX + to))) == Some(to)
  {
    assert (PREFIX + to)[|PREFIX|..] == to;
  }

  // ---------------------------------------------------------------------------------
  // The rebuilt document
  // ---------------------------------------------------------------------------------

  ghost predicate Chain(ss: seq<string>, after: Fence) {
    ss != [] ==> Sections(ss, after)
  }

  /** The fence that edited sections leave. */
  function EditedEnd(rules: Rules, actions: Actions, ss: seq<string>, after: Fence): Fence {
    if ss == [] then after
    else if |ss| == 1 then Left(ActionOn(rules, actions, ss[0]), after)
    else EditedEnd(rules, actions, ss[1..], after)
  }

  lemma {:induction false} EditedChain(rules: Rules, actions: Actions, ss: seq<string>, after: Fence)
    requires Chain(ss, after) && EditableActions(actions)
    ensures var edits := EditSections(rules, actions, ss);
            && Chain(edits, EditedEnd(rules, actions, ss, after))
            && (ss != [] && edits == [] ==> EditedEnd(rules, actions, ss, after) == Outside)
            && (AllTerminated(ss) ==> AllTerminated(edits))
  {
    hide Section, Solo, Terminated, Edited, Editable, Named, Front;
    if ss != [] {
      var s, rest := ss[0], ss[1..];
      var operation := ActionOn(rules, actions, s);
      var edits := EditSections(rules, actions, rest);
      var own := if rest == [] then after else Outside;
      if rest == [] { LastSection(ss, after); } else { FirstTerminated(ss, after); }
      EditedChain(rules, actions, rest, after);
      ActionIsEditable(rules, actions, s);
      if Dropped(operation) {
        assert EditSections(rules, actions, ss) == [] + edits == edits;
      } else {
        EditedIsSection(operation, s, own);
        assert AllTerminated(ss) ==> Terminated(ss[0]);
        ChainCons(Edited(operation, s), edits, Left(operation, own), EditedEnd(rules, actions, ss, after));
        assert EditSections(rules, actions, ss) == [Edited(operation, s)] + edits;
      }
    }
  }

  lemma ActionIsEditable(rules: Rules, actions: Actions, s: string)
    requires EditableActions(actions)
    ensures var operation := ActionOn(rules, actions, s);
            operation.Some? ==> Named(s) && Editable(operation.value) && !operation.value.Added?
  {
    hide Editable, Front;
  }

  lemma ChainCons(s: string, ss: seq<string>, own: Fence, after: Fence)
    requires Section(s, own) && Chain(ss, after)
    requires if ss == [] then own == after else own == Outside && Terminated(s)
    ensures Chain([s] + ss, after)
    ensures Terminated(s) && AllTerminated(ss) ==> AllTerminated([s] + ss)
  {
    hide Terminated, Pieces, End;
    assert ([s] + ss)[1..] == ss;
  }

  lemma {:induction false} SplitChain(ss: seq<string>, k: nat, after: Fence)
    requires Chain(ss, after) && k <= |ss|
    ensures Chain(ss[..k], if k < |ss| then Outside else after) && Chain(ss[k..], after)
    ensures k < |ss| ==> AllTerminated(ss[..k])
  {
    hide Section, Solo, Terminated;
    if k == 0 {
      assert ss[..0] == [] && ss[0..] == ss;
    } else if k == |ss| {
      assert ss[..k] == ss && ss[k..] == [];
    } else {
      FirstTerminated(ss, after);
      SplitChain(ss[1..], k - 1, after);
      assert ss[..k] == [ss[0]] + ss[1..][..k - 1] && ss[k..] == ss[1..][k - 1..];
      ChainCons(ss[0], ss[1..][..k - 1], Outside, Outside);
    }
  }

  /** A tail of sections is never blank. */
  lemma SectionsAreNotBlank(ss: seq<string>, after: Fence)
    requires ss != [] && Sections(ss, after)
    ensures TrimSpace(Join(ss)) != ""
  {
    hide Pieces, End, TrimSpace;
    BeginsWithMark(ss[0], if |ss| == 1 then after else Outside);
    TrimSpaceOfWhite(Join(ss));
    assert Join(ss)[0] == ss[0][0] == '#';
    assert !White('#');
  }

  lemma BeginsWithMark(s: string, after: Fence)
    requires Section(s, after)
    ensures s != "" && s[0] == '#'
  {
    hide Pieces, End, Text;
    var line, rest := SectionParts(s, after);
    TextSplits(line);
    assert Marker(Text(line), '#') > 0;
  }

  /** What the rebuilt document holds before the added blocks. */
  function FrontText(rules: Rules, actions: Actions, raw: string): string {
    var ps := Pieces(raw, Outside);
    ps[0] + Join(EditSections(rules, actions, ps[1..][..InsertionPoint(ps[1..])]))
  }

  /** The fence it leaves, read off the accepted document: behind the last requirement nothing
      is open when another section follows, or when it is removed or replaced. */
  function FrontEnd(rules: Rules, actions: Actions, raw: string): Fence {
    var ss := Pieces(raw, Outside)[1..];
    var k := InsertionPoint(ss);
    EditedEnd(rules, actions, ss[..k], if k < |ss| then Outside else End(raw, Outside))
  }

  /** The bodies a rescan of the rebuilt document should find, in order. */
  function Expected(rules: Rules, actions: Actions, added: seq<string>, raw: string): seq<string> {
    var ps := Pieces(raw, Outside);
    var ss := ps[1..];
    var k := InsertionPoint(ss);
    Bodies([ps[0]]) + Bodies(EditSections(rules, actions, ss[..k])) + Bodies(added) + Bodies(ss[k..])
  }

  /** Rescanning the rebuilt document finds the old sections in order, edited where the delta
      edits them, the added ones after the last requirement, and everything else untouched,
      provided nothing is added behind an open fence. */
  lemma RescanFinds(rules: Rules, actions: Actions, added: seq<string>, raw: string)
    requires EditableActions(actions) && AllSolo(added)
    requires added == [] || FrontEnd(rules, actions, raw) == Outside
    ensures var ss := Pieces(raw, Outside)[1..];
            var after := if InsertionPoint(ss) < |ss| then End(raw, Outside) else FrontEnd(rules, actions, raw);
            Reads(Rebuilt(rules, actions, added, raw), Expected(rules, actions, added, raw), after)
  {
    hide *;
    var ps := Pieces(raw, Outside);
    var ss := ps[1..];
    var k := InsertionPoint(ss);
    var edits, tail := EditSections(rules, actions, ss[..k]), ss[k..];
    LeadReads(raw);
    SplitChain(ss, k, End(raw, Outside));
    FrontReads(rules, actions, raw);
    InsertedReads(FrontText(rules, actions, raw), tail, added, Bodies([ps[0]]) + Bodies(edits),
                  FrontEnd(rules, actions, raw), End(raw, Outside));
    UnfoldRebuilt(rules, actions, added, raw);
  }

  lemma UnfoldRebuilt(rules: Rules, actions: Actions, added: seq<string>, raw: string)
    ensures var ps := Pieces(raw, Outside);
            var ss := ps[1..];
            var k := InsertionPoint(ss);
            var edits := EditSections(rules, actions, ss[..k]);
            && FrontText(rules, actions, raw) == ps[0] + Join(edits)
            && FrontEnd(rules, actions, raw) ==
                 EditedEnd(rules, actions, ss[..k], if k < |ss| then Outside else End(raw, Outside))
            && Rebuilt(rules, actions, added, raw) == Inserted(FrontText(rules, actions, raw), Join(ss[k..]), added)
            && Expected(rules, actions, added, raw) == Bodies([ps[0]]) + Bodies(edits) + Bodies(added) + Bodies(ss[k..])
  {
    hide Pieces, InsertionPoint, EditSections, Inserted, Join, Bodies, EditedEnd, End;
  }

  lemma LeadReads(raw: string)
    ensures var ps := Pieces(raw, Outside);
            && Reads(ps[0], Bodies([ps[0]]), if ps[1..] == [] then End(raw, Outside) else Outside)
            && Chain(ps[1..], End(raw, Outside)) && (ps[1..] != [] ==> Terminated(ps[0]))
  {
    hide End, Pieces, Sections;
    PiecesAreSections(raw, Outside);
  }

  /** The front of the rebuilt document leaves the fence FrontEnd says. */
  lemma FrontReads(rules: Rules, actions: Actions, raw: string)
    requires EditableActions(actions)
    ensures var ps := Pieces(raw, Outside);
            var ss := ps[1..];
            var k := InsertionPoint(ss);
            var front := FrontText(rules, actions, raw);
            && Reads(front, Bodies([ps[0]]) + Bodies(EditSections(rules, actions, ss[..k])),
                     FrontEnd(rules, actions, raw))
            && (k < |ss| ==> Terminated(front) && FrontEnd(rules, actions, raw) == Outside)
  {
    hide *;
    var ps := Pieces(raw, Outside);
    var ss := ps[1..];
    var k := InsertionPoint(ss);
    var after := if k < |ss| then Outside else End(raw, Outside);
    var edits := EditSections(rules, actions, ss[..k]);
    LeadReads(raw);
    SplitChain(ss, k, End(raw, Outside));
    UnfoldRebuilt(rules, actions, [], raw);
    EditedChain(rules, actions, ss[..k], after);
    OutsideStays(rules, actions, ss[..k]);
    PointIsInside(ss);
    NothingLeft(rules, actions, ss[..k], after);
    LeadThenEdits(ps[0], edits, FrontEnd(rules, actions, raw), ss != []);
  }

  lemma {:induction false} OutsideStays(rules: Rules, actions: Actions, ss: seq<string>)
    ensures EditedEnd(rules, actions, ss, Outside) == Outside
  {
    hide ActionOn;
    if |ss| > 1 { OutsideStays(rules, actions, ss[1..]); }
  }

  lemma PointIsInside(ss: seq<string>)
    ensures InsertionPoint(ss) <= |ss| && (ss != [] ==> InsertionPoint(ss) > 0)
  {
  }

  lemma NothingLeft(rules: Rules, actions: Actions, ss: seq<string>, after: Fence)
    ensures ss == [] ==> EditSections(rules, actions, ss) == [] && EditedEnd(rules, actions, ss, after) == after
  {
  }

  lemma LeadThenEdits(lead: string, edits: seq<string>, after: Fence, more: bool)
    requires Reads(lead, Bodies([lead]), if more then Outside else after) && Chain(edits, after)
    requires more ==> Terminated(lead)
    requires edits == [] || more
    requires more && edits == [] ==> after == Outside
    ensures Reads(lead + Join(edits), Bodies([lead]) + Bodies(edits), after)
    ensures more && AllTerminated(edits) ==> Terminated(lead + Join(edits))
  {
    hide Reads, Sections, Terminated;
    if edits == [] {
      assert lead + Join(edits) == lead && Bodies([lead]) + Bodies(edits) == Bodies([lead]);
    } else {
      ReadsSections(lead, edits, Bodies([lead]), after);
    }
  }

  lemma InsertedReads(front: string, tail: seq<string>, added: seq<string>, bodies: seq<string>, open: Fence,
                      after: Fence)
    requires Reads(front, bodies, open) && AllSolo(added) && (added == [] || open == Outside)
    requires Chain(tail, after) && (tail != [] ==> open == Outside && Terminated(front))
    ensures Reads(Inserted(front, Join(tail), added), bodies + Bodies(added) + Bodies(tail),
                  if tail == [] then open else after)
  {
    hide Reads, Sections, Terminated, Appended, Spaced, TrimSpace, Solo;
    if added == [] {
      assert bodies + Bodies(added) == bodies;
      TailReads(front, tail, bodies, open, after);
    } else {
      ReadsAppended(front, added, bodies);
      var out := Appended(front, added);
      if tail == [] {
        assert Join(tail) == "";
        assert TrimSpace("") == "" by { TrimSpaceOfWhite(""); }
        assert bodies + Bodies(added) + Bodies(tail) == bodies + Bodies(added);
      } else {
        SectionsAreNotBlank(tail, after);
        SpacedReads(out, bodies + Bodies(added), Outside);
        TailReads(Spaced(out), tail, bodies + Bodies(added), Outside, after);
      }
    }
  }

  lemma TailReads(front: string, tail: seq<string>, bodies: seq<string>, open: Fence, after: Fence)
    requires Reads(front, bodies, open) && Chain(tail, after) && (tail != [] ==> open == Outside && Terminated(front))
    ensures Reads(front + Join(tail), bodies + Bodies(tail), if tail == [] then open else after)
  {
    hide Reads, Sections, Terminated;
    if tail == [] {
      assert front + Join(tail) == front && bodies + Bodies(tail) == bodies;
    } else {
      ReadsSections(front, tail, bodies, after);
    }
  }
}
