/** The lines that open a fence, close one, or are a heading, character by character, and what an
    edit leaves of a block (plan/sections.go, reconcile.go). */
module Grammar {
  import opened Records
  import opened Markdown
  import opened Scanners
  import opened Accepted
  import opened Reconcile

  // ---------------------------------------------------------------------------------
  // Fences
  // ---------------------------------------------------------------------------------

  /** `indent` spaces or tabs, then `n` times the mark, and no further one. */
  ghost predicate MarksAt(text: string, indent: nat, mark: char, n: nat) {
    && indent + n <= |text|
    && (forall k :: 0 <= k < indent ==> text[k] == ' ' || text[k] == '\t')
    && (forall k :: indent <= k < indent + n ==> text[k] == mark)
    && (indent + n < |text| ==> text[indent + n] != mark)
  }

  lemma {:induction false} IndentDropped(text: string) returns (i: nat)
    ensures i <= |text| && TrimIndent(text) == text[i..] && (i < |text| ==> !Indent(text[i]))
    ensures forall k :: 0 <= k < i ==> Indent(text[k])
  {
    i := 0;
    if text != "" && Indent(text[0]) {
      i := IndentDropped(text[1..]);
      assert forall k :: 0 < k <= i ==> text[k] == text[1..][k - 1];
      i := i + 1;
    }
  }

  lemma MarksMeasured(text: string, mark: char)
    requires mark != ' ' && mark != '\t'
    ensures var trimmed := TrimIndent(text);
            && |trimmed| <= |text| && MarksAt(text, |text| - |trimmed|, mark, Marker(trimmed, mark))
            && trimmed == text[|text| - |trimmed|..]
            && (trimmed != "" ==> trimmed[0] != ' ' && trimmed[0] != '\t')
  {
    hide TrimIndent, Marker;
    var i := IndentDropped(text);
    var trimmed := text[i..];
    MarkerCounts(trimmed, mark);
    assert forall k :: 0 <= k < |trimmed| ==> trimmed[k] == text[i + k];
    forall k | i <= k < i + Marker(trimmed, mark) ensures text[k] == mark { assert trimmed[k - i] == text[k]; }
  }

  lemma {:induction false} MarkerCounts(text: string, mark: char)
    ensures forall k :: 0 <= k < Marker(text, mark) ==> text[k] == mark
    ensures Marker(text, mark) < |text| ==> text[Marker(text, mark)] != mark
  {
    if text != "" && text[0] == mark {
      MarkerCounts(text[1..], mark);
      assert forall k :: 0 < k < Marker(text, mark) ==> text[k] == text[1..][k - 1];
    }
  }

  lemma {:induction false} MarksMeasure(text: string, indent: nat, mark: char, n: nat)
    requires MarksAt(text, indent, mark, n) && n > 0 && mark != ' ' && mark != '\t'
    ensures TrimIndent(text) == text[indent..] && Marker(text[indent..], mark) == n
  {
    assert text[indent] == mark;
    if indent > 0 {
      var rest := text[1..];
      assert forall k :: 0 <= k < |rest| ==> rest[k] == text[k + 1];
      MarksMeasure(rest, indent - 1, mark, n);
      assert rest[indent - 1..] == text[indent..];
    } else {
      MarkerIs(text, mark, n);
      assert text[0..] == text;
    }
  }

  lemma {:induction false} MarkerIs(text: string, mark: char, n: nat)
    requires n <= |text| && (forall k :: 0 <= k < n ==> text[k] == mark) && (n < |text| ==> text[n] != mark)
    ensures Marker(text, mark) == n
  {
    if n > 0 {
      assert forall k :: 0 <= k < |text[1..]| ==> text[1..][k] == text[k + 1];
      MarkerIs(text[1..], mark, n - 1);
    }
  }

  /** A line opens a fence exactly when it is at most three spaces or tabs and then three or more
      backticks, or three or more tildes. */
  lemma OpensExactly(text: string, mark: char, n: nat)
    ensures Opens(text) == Some(Inside(mark, n)) <==>
            && (mark == '`' || mark == '~') && n >= 3
            && exists indent: nat :: indent <= 3 && MarksAt(text, indent, mark, n)
    ensures Opens(text).Some? ==> Opens(text).value.Inside?
  {
    hide MarksAt;
    if Opens(text) == Some(Inside(mark, n)) {
      MarksMeasured(text, mark);
    }
    if n >= 3 && (mark == '`' || mark == '~') {
      if indent: nat :| indent <= 3 && MarksAt(text, indent, mark, n) {
        MarksMeasure(text, indent, mark, n);
        MarksFollow(text, indent, mark, n);
      }
    }
  }

  lemma MarksFollow(text: string, indent: nat, mark: char, n: nat)
    requires MarksAt(text, indent, mark, n) && n > 0
    ensures indent < |text| && text[indent] == mark
  {
  }

  /** A line closes a fence exactly when it is at most three spaces or tabs, then no fewer of the
      marks that opened it, and then only white space. */
  lemma ClosesExactly(text: string, mark: char, length: nat)
    requires Inside(mark, length).Valid()
    ensures Closes(text, mark, length) <==>
            exists indent: nat, n: nat :: indent <= 3 && n >= length && MarksAt(text, indent, mark, n)
                                          && forall k :: indent + n <= k < |text| ==> White(text[k])
  {
    hide MarksAt;
    var trimmed := TrimIndent(text);
    if Closes(text, mark, length) {
      MarksMeasured(text, mark);
      RestIsWhite(text, |text| - |trimmed|, Marker(trimmed, mark));
    }
    if indent: nat, n: nat :| indent <= 3 && n >= length && MarksAt(text, indent, mark, n)
                              && forall k :: indent + n <= k < |text| ==> White(text[k]) {
      MarksMeasure(text, indent, mark, n);
      MarksFit(text, indent, mark, n);
      RestIsWhite(text, indent, n);
    }
  }

  lemma MarksFit(text: string, indent: nat, mark: char, n: nat)
    requires MarksAt(text, indent, mark, n)
    ensures indent + n <= |text|
  {
  }

  lemma RestIsWhite(text: string, indent: nat, n: nat)
    requires indent + n <= |text|
    ensures TrimSpace(text[indent..][n..]) == "" <==> forall k :: indent + n <= k < |text| ==> White(text[k])
  {
    var rest := text[indent..][n..];
    TrimSpaceOfWhite(rest);
    assert forall k :: 0 <= k < |rest| ==> rest[k] == text[indent + n + k];
    if AllWhite(rest) {
      forall k | indent + n <= k < |text| ensures White(text[k]) { assert White(rest[k - indent - n]); }
    }
  }

  // ---------------------------------------------------------------------------------
  // Headings
  // ---------------------------------------------------------------------------------

  /** text[from..to] is what the text holds after `start`, but for white space around it. */
  ghost predicate Trims(text: string, start: nat, from: nat, to: nat) {
    && start <= from < to <= |text| && !White(text[from]) && !White(text[to - 1])
    && (forall k :: start <= k < from ==> White(text[k]))
    && (forall k :: to <= k < |text| ==> White(text[k]))
  }

  lemma {:induction false} DropsWhite(s: string) returns (from: nat)
    ensures from <= |s| && DropWhite(s) == s[from..] && (from < |s| ==> !White(s[from]))
    ensures forall k :: 0 <= k < from ==> White(s[k])
  {
    from := 0;
    if s != "" && White(s[0]) {
      from := DropsWhite(s[1..]);
      assert forall k :: 0 < k <= from ==> s[k] == s[1..][k - 1];
      from := from + 1;
    }
  }

  lemma {:induction false} TrimSpaceTrims(s: string) returns (from: nat, to: nat)
    requires TrimSpace(s) != ""
    ensures Trims(s, 0, from, to) && TrimSpace(s) == s[from..to]
  {
    if White(s[|s| - 1]) {
      var before := s[..|s| - 1];
      from, to := TrimSpaceTrims(before);
      assert forall k :: 0 <= k < |before| ==> before[k] == s[k];
      assert before[from..to] == s[from..to];
    } else {
      from := DropsWhite(s);
      DropWhiteKeeps(s);
      to := |s|;
    }
  }

  lemma TrimsOnce(text: string, start: nat, from: nat, to: nat, from': nat, to': nat)
    requires Trims(text, start, from, to) && Trims(text, start, from', to')
    ensures from == from' && to == to'
  {
    TrimsHold(text, start, from, to, from');
    TrimsHold(text, start, from, to, to' - 1);
    TrimsHold(text, start, from', to', from);
    TrimsHold(text, start, from', to', to - 1);
  }

  lemma TrimsHold(text: string, start: nat, from: nat, to: nat, k: nat)
    requires Trims(text, start, from, to) && start <= k < |text| && !White(text[k])
    ensures from <= k < to
  {
  }

  /** Trimming the text after `start`. */
  lemma TrimsAfter(text: string, start: nat, title: string)
    requires start <= |text|
    ensures TrimSpace(text[start..]) == title != "" <==>
            exists from: nat, to: nat :: Trims(text, start, from, to) && title == text[from..to]
  {
    hide TrimSpace;
    if TrimSpace(text[start..]) == title != "" {
      var from, to := TrimmedAt(text, start);
    }
    if from: nat, to: nat :| Trims(text, start, from, to) && title == text[from..to] {
      TrimmedIs(text, start, from, to);
    }
  }

  lemma TrimmedAt(text: string, start: nat) returns (from: nat, to: nat)
    requires start <= |text| && TrimSpace(text[start..]) != ""
    ensures Trims(text, start, from, to) && TrimSpace(text[start..]) == text[from..to]
  {
    hide TrimSpace;
    var a, b := TrimSpaceTrims(text[start..]);
    TrimsShift(text, start, a, b);
    from, to := start + a, start + b;
    assert text[start..][a..b] == text[from..to];
  }

  lemma TrimmedIs(text: string, start: nat, from: nat, to: nat)
    requires Trims(text, start, from, to)
    ensures TrimSpace(text[start..]) == text[from..to] != ""
  {
    hide TrimSpace;
    var rest := text[start..];
    assert rest[from - start] == text[from];
    TrimSpaceOfWhite(rest);
    var a, b := TrimmedAt(text, start);
    TrimsOnce(text, start, from, to, a, b);
  }

  lemma TrimsShift(text: string, start: nat, a: nat, b: nat)
    requires start <= |text| && Trims(text[start..], 0, a, b)
    ensures Trims(text, start, start + a, start + b)
  {
    var rest := text[start..];
    assert forall k :: start <= k < |text| ==> text[k] == rest[k - start];
  }

  /** A line is a heading exactly when it begins with one to six hashes, then a space or a tab, and
      what is left is not blank; its title is what is left, trimmed. */
  lemma HeadingExactly(text: string, level: nat, title: string)
    ensures HeadingOf(text) == Some(Head(level, title)) <==>
            && 1 <= level <= 6 && level < |text| && (forall k :: 0 <= k < level ==> text[k] == '#')
            && (text[level] == ' ' || text[level] == '\t')
            && exists from: nat, to: nat :: Trims(text, level, from, to) && title == text[from..to]
  {
    hide Trims, TrimSpace;
    MarkerCounts(text, '#');
    if level <= |text| { TrimsAfter(text, level, title); }
    if level < |text| && (forall k :: 0 <= k < level ==> text[k] == '#') && text[level] != '#' {
      MarkerIs(text, '#', level);
    }
  }

  // ---------------------------------------------------------------------------------
  // Documents
  // ---------------------------------------------------------------------------------

  /** A fence is open before line j exactly when some earlier line, itself outside any, opened it
      and none since closes it. */
  ghost predicate OpenedBy(lines: seq<SourceLine>, i: nat, j: nat, mark: char, length: nat) {
    && i < j <= |lines| && Fences(lines, i) == Outside && Opens(lines[i].text) == Some(Inside(mark, length))
    && forall k :: i < k < j ==> !Closes(lines[k].text, mark, length)
  }

  /** The fence open before line j. */
  function Fences(lines: seq<SourceLine>, j: nat): Fence
    requires j <= |lines|
  {
    EndOf(lines[..j], Outside)
  }

  lemma {:induction false} EndNext(lines: seq<SourceLine>, j: nat, fence: Fence)
    requires j < |lines|
    ensures EndOf(lines[..j + 1], fence) == Step(EndOf(lines[..j], fence), lines[j].text).fence
  {
    var next := Step(fence, lines[0].text).fence;
    if j > 0 {
      EndNext(lines[1..], j - 1, next);
      assert lines[1..][..j] == lines[..j + 1][1..] && lines[1..][..j - 1] == lines[..j][1..];
    } else {
      assert lines[..1] == [lines[0]] && lines[..1][1..] == [] && lines[..0] == [];
    }
  }

  lemma FenceStep(lines: seq<SourceLine>, j: nat, mark: char, length: nat)
    requires j < |lines|
    ensures Fences(lines, j + 1) == Inside(mark, length) <==>
            || (Fences(lines, j) == Outside && Opens(lines[j].text) == Some(Inside(mark, length)))
            || (Fences(lines, j) == Inside(mark, length) && !Closes(lines[j].text, mark, length))
  {
    hide Opens, Closes, EndOf;
    EndNext(lines, j, Outside);
  }

  lemma {:induction false} FencesExactly(lines: seq<SourceLine>, j: nat, mark: char, length: nat)
    requires j <= |lines|
    ensures Fences(lines, j) == Inside(mark, length) <==> exists i :: OpenedBy(lines, i, j, mark, length)
  {
    if j == 0 {
      assert lines[..0] == [];
    } else {
      hide Opens, Closes, Fences;
      FencesExactly(lines, j - 1, mark, length);
      FenceStep(lines, j - 1, mark, length);
      if Fences(lines, j) == Inside(mark, length) {
        if Fences(lines, j - 1) == Outside {
          assert OpenedBy(lines, j - 1, j, mark, length);
        } else {
          var i :| OpenedBy(lines, i, j - 1, mark, length);
          assert OpenedBy(lines, i, j, mark, length);
        }
      }
      if i: nat :| OpenedBy(lines, i, j, mark, length) {
        if i < j - 1 { assert OpenedBy(lines, i, j - 1, mark, length); }
      }
    }
  }

  /** Line j is a heading, no fence is open before it, and it does not open one. */
  ghost predicate ListedAt(lines: seq<SourceLine>, fence: Fence, j: int, h: HeadingLine) {
    && 0 <= j < |lines| && EndOf(lines[..j], fence) == Outside && Opens(lines[j].text) == None
    && HeadingOf(lines[j].text) == Some(Head(h.level, h.title))
    && h.start == lines[j].start && h.textEnd == lines[j].textEnd
  }

  lemma ListedNext(lines: seq<SourceLine>, fence: Fence, j: int, h: HeadingLine)
    requires lines != [] && j + 1 != 0
    ensures ListedAt(lines, fence, j + 1, h) <==> ListedAt(lines[1..], Step(fence, lines[0].text).fence, j, h)
  {
    if 0 <= j < |lines| - 1 {
      assert lines[..j + 1][0] == lines[0] && lines[..j + 1][1..] == lines[1..][..j];
    }
  }

  lemma ListedFirst(lines: seq<SourceLine>, fence: Fence, h: HeadingLine)
    requires lines != []
    ensures ListedAt(lines, fence, 0, h) <==>
            h in Entry(Step(fence, lines[0].text).head, lines[0].start, lines[0].textEnd)
  {
    hide Opens, Closes, HeadingOf;
    assert lines[..0] == [];
  }

  /** The headings listed are exactly those. */
  lemma {:induction false} ListedExactly(lines: seq<SourceLine>, fence: Fence, h: HeadingLine)
    ensures h in HeadingsOf(lines, fence) <==> exists j :: ListedAt(lines, fence, j, h)
  {
    hide ListedAt, Step;
    if lines == [] {
      forall j ensures !ListedAt(lines, fence, j, h) { NoLines(fence, j, h); }
    } else {
      var turn := Step(fence, lines[0].text);
      ListedExactly(lines[1..], turn.fence, h);
      ListedFirst(lines, fence, h);
      if j :| ListedAt(lines[1..], turn.fence, j, h) {
        ListedIsLine(lines[1..], turn.fence, j, h);
        ListedNext(lines, fence, j, h);
        assert ListedAt(lines, fence, j + 1, h);
      }
      if j :| ListedAt(lines, fence, j, h) {
        if j != 0 { ListedNext(lines, fence, j - 1, h); }
      }
    }
  }

  lemma ListedIsLine(lines: seq<SourceLine>, fence: Fence, j: int, h: HeadingLine)
    requires ListedAt(lines, fence, j, h)
    ensures 0 <= j < |lines|
  {
  }

  lemma NoLines(fence: Fence, j: int, h: HeadingLine)
    ensures !ListedAt([], fence, j, h)
  {
  }

  /** The headings of a document, as both scanners find them. */
  lemma HeadingsExactly(raw: string, h: HeadingLine)
    ensures h in HeadingsAt(raw, 0, Outside) <==> exists j :: ListedAt(LinesAt(raw, 0), Outside, j, h)
  {
    LinesDecide(raw, 0, Outside);
    ListedExactly(LinesAt(raw, 0), Outside, h);
  }

  /** A line's text is the line without its newline and then without one carriage return. */
  lemma TextExactly(line: string)
    ensures Text(line) <= line
    ensures line[|Text(line)|..] ==
            var n := |line|;
            if n >= 2 && line[n - 2] == '\r' && line[n - 1] == '\n' then "\r\n"
            else if n >= 1 && line[n - 1] == '\n' then "\n"
            else if n >= 1 && line[n - 1] == '\r' then "\r"
            else ""
  {
    var n := |line|;
    assert n >= 2 && line[n - 2] == '\r' && line[n - 1] == '\n' ==> line[n - 2..] == "\r\n";
    assert n >= 1 && line[n - 1] == '\n' ==> line[n - 1..] == "\n";
    assert n >= 1 && line[n - 1] == '\r' ==> line[n - 1..] == "\r";
  }

  /** text[from..to] is the title after the hashes, and text[at..to] the name in it. */
  ghost predicate NamesAt(text: string, from: nat, to: nat, at: nat, name: string) {
    && 3 <= |text| && Trims(text, 3, from, to)
    && from + 13 <= to && text[from..from + 13] == "Requirement: "
    && Trims(text, from + 13, at, to) && name == text[at..to]
  }

  /** A line begins a requirement exactly when it is a heading of level three whose title is the
      prefix and then a name that is not blank; the name is trimmed. */
  lemma RequirementExactly(text: string, name: string)
    ensures NameOf(HeadingOf(text)) == Some(name) && name != "" <==>
            && 3 < |text| && text[..3] == "###" && (text[3] == ' ' || text[3] == '\t')
            && exists from: nat, to: nat, at: nat :: NamesAt(text, from, to, at, name)
  {
    if NameOf(HeadingOf(text)) == Some(name) && name != "" {
      var from, to, at := NameIsRead(text, name);
    }
    if 3 < |text| && text[..3] == "###" && (text[3] == ' ' || text[3] == '\t') {
      forall from: nat, to: nat, at: nat | NamesAt(text, from, to, at, name)
        ensures NameOf(HeadingOf(text)) == Some(name) && name != ""
      {
        ReadIsName(text, from, to, at, name);
      }
    }
  }

  lemma NameIsRead(text: string, name: string) returns (from: nat, to: nat, at: nat)
    requires NameOf(HeadingOf(text)) == Some(name) && name != ""
    ensures NamesAt(text, from, to, at, name)
    ensures 3 < |text| && text[..3] == "###" && (text[3] == ' ' || text[3] == '\t')
  {
    hide TrimSpace;
    var title := HeadingOf(text).value.title;
    HeadingExactly(text, 3, title);
    from, to :| Trims(text, 3, from, to) && title == text[from..to];
    at := NameWithin(text, from, to, name);
  }

  lemma ReadIsName(text: string, from: nat, to: nat, at: nat, name: string)
    requires NamesAt(text, from, to, at, name)
    requires 3 < |text| && text[..3] == "###" && (text[3] == ' ' || text[3] == '\t')
    ensures NameOf(HeadingOf(text)) == Some(name) && name != ""
  {
    hide TrimSpace;
    assert forall k :: 0 <= k < 3 ==> text[k] == text[..3][k];
    HeadingExactly(text, 3, text[from..to]);
    NameOutside(text, from, to, at);
  }

  /** The name in a trimmed title is the text after the prefix, trimmed. */
  lemma NameWithin(text: string, from: nat, to: nat, name: string) returns (at: nat)
    requires Trims(text, 3, from, to) && NameIn(3, text[from..to]) == Some(name) && name != ""
    ensures from + |PREFIX| <= to && text[from..from + |PREFIX|] == PREFIX
    ensures Trims(text, from + |PREFIX|, at, to) && name == text[at..to]
  {
    var title := text[from..to];
    assert title[..|PREFIX|] == text[from..from + |PREFIX|] && title[..|PREFIX|] == PREFIX;
    at := AfterPrefix(text, from, to, name);
  }

  lemma AfterPrefix(text: string, from: nat, to: nat, name: string) returns (at: nat)
    requires Trims(text, 3, from, to) && from + |PREFIX| <= to
    requires TrimSpace(text[from..to][|PREFIX|..]) == name != ""
    ensures Trims(text, from + |PREFIX|, at, to) && name == text[at..to]
  {
    var start := from + |PREFIX|;
    hide TrimSpace;
    assert text[from..to][|PREFIX|..] == text[start..to] && text[start..] == text[start..to] + text[to..];
    TrimSpaceIgnores(text[start..to], text[to..]);
    TrimsAfter(text, start, name);
    var a: nat, b: nat :| Trims(text, start, a, b) && name == text[a..b];
    at := a;
    TrimsHold(text, start, a, b, to - 1);
    TrimsHold(text, 3, from, to, b - 1);
  }

  lemma NameOutside(text: string, from: nat, to: nat, at: nat)
    requires Trims(text, 3, from, to) && from + |PREFIX| <= to && text[from..from + |PREFIX|] == PREFIX
    requires Trims(text, from + |PREFIX|, at, to)
    ensures NameIn(3, text[from..to]) == Some(text[at..to])
  {
    var start, title := from + |PREFIX|, text[from..to];
    assert title[..|PREFIX|] == PREFIX;
    assert title[|PREFIX|..] == text[start..to] && text[start..] == text[start..to] + text[to..];
    TrimSpaceIgnores(text[start..to], text[to..]);
    TrimsAfter(text, start, text[at..to]);
  }

  // ---------------------------------------------------------------------------------
  // What an edit keeps
  // ---------------------------------------------------------------------------------

  /** s[n..] is the layout that s ends with. */
  ghost predicate LayoutFrom(s: string, n: int) {
    && 0 <= n <= |s| && (n > 0 ==> !Layout(s[n - 1]))
    && forall k :: n <= k < |s| ==> s[k] == ' ' || s[k] == '\t' || s[k] == '\r' || s[k] == '\n'
  }

  lemma LayoutOnce(s: string, n: int)
    ensures LayoutFrom(s, n) <==> n == |TrimRight(s)|
  {
    TrimRightSplits(s);
    var body := TrimRight(s);
    assert forall k :: |body| <= k < |s| ==> s[k] == s[|body|..][k - |body|];
    assert LayoutFrom(s, |body|);
    if LayoutFrom(s, n) {
      if n > 0 { LayoutHolds(s, |body|, n - 1); }
      if body != "" { LayoutHolds(s, n, |body| - 1); }
    }
  }

  lemma LayoutHolds(s: string, n: int, k: nat)
    requires LayoutFrom(s, n) && k < |s| && !Layout(s[k])
    ensures k < n
  {
  }

  /** A replaced block is the new text up to its own trailing layout, and then exactly the trailing
      layout of the old block. */
  lemma ReplacedKeeps(raw: string, original: string, i: int, j: int)
    requires LayoutFrom(raw, i) && LayoutFrom(original, j)
    ensures Replaced(raw, original) == raw[..i] + original[j..]
  {
    LayoutOnce(raw, i);
    LayoutOnce(original, j);
    TrimRightSplits(raw);
  }

  /** A retitled block is the new heading and then every byte behind the text of the old one. */
  lemma RetitledKeeps(to: string, section: string) returns (n: nat, ending: string)
    requires section != ""
    ensures n <= |section| && Retitled(to, section) == "### Requirement: " + to + section[n..]
    ensures forall k :: 0 <= k < n ==> section[k] != '\n'
    ensures ending <= section[n..] && (ending == "\n" || ending == "\r\n" || section[n..] == ending)
    ensures ending == "" || ending == "\r" || ending == "\n" || ending == "\r\n"
  {
    var line := section[..LineLength(section)];
    n := HeadEnd(section);
    TextExactly(line);
    assert forall k :: 0 <= k < |line| ==> line[k] == section[k];
    assert section[n..] == line[n..] + section[|line|..];
    assert |line| < |section| ==> line[|line| - 1] == '\n';
    ending := line[n..];
  }
}
