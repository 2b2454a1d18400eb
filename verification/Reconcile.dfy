/** Applying one delta to one accepted specification: the byte-level rewrite, and what a rescan
    of the result finds (reconcile.go, plan/deltas.go). */
module Reconcile {
  import opened Records
  import opened Markdown
  import opened Accepted

  datatype Operation =
    | Added(name: string, raw: string)
    | Modified(name: string, raw: string)
    | Removed(name: string)
    | Renamed(from: string, to: string)

  const HEADING := "### Requirement: "

  // ---------------------------------------------------------------------------------
  // What the rewrite writes
  // ---------------------------------------------------------------------------------

  /** replaceBlock: the new body with the layout the old block ended in. */
  function Replaced(raw: string, original: string): string {
    TrimRight(raw) + original[|TrimRight(original)|..]
  }

  function Retitled(to: string, section: string): string {
    HEADING + to + section[HeadEnd(section)..]
  }

  function Edited(operation: Option<Operation>, section: string): string {
    match operation
    case Some(Modified(_, raw)) => Replaced(raw, section)
    case Some(Renamed(_, to)) => Retitled(to, section)
    case Some(Removed(_)) => ""
    case _ => section
  }

  type Actions = map<string, Operation>

  function ActionOn(rules: Rules, actions: Actions, section: string): Option<Operation> {
    if !Named(section) then None
    else
      var identity := rules.identity(NameOf(Front(section)).value);
      if identity in actions then Some(actions[identity]) else None
  }

  predicate Dropped(operation: Option<Operation>) {
    operation.Some? && operation.value.Removed?
  }

  /** The sections after the edits, removed ones gone. */
  function EditSections(rules: Rules, actions: Actions, ss: seq<string>): seq<string> {
    if ss == [] then []
    else
      var operation := ActionOn(rules, actions, ss[0]);
      (if Dropped(operation) then [] else [Edited(operation, ss[0])]) + EditSections(rules, actions, ss[1..])
  }

  /** Newlines missing from a blank line at the end of what is written so far. */
  function Missing(out: string): string {
    if out == "" then ""
    else if |out| >= 2 && out[|out| - 1] == '\n' && out[|out| - 2] == '\n' then ""
    else if out[|out| - 1] == '\n' then "\n"
    else "\n\n"
  }

  function Spaced(out: string): string {
    out + Missing(out)
  }

  function Appended(out: string, blocks: seq<string>): string
    decreases |blocks|
  {
    if blocks == [] then out else Appended(Spaced(out) + TrimRight(blocks[0]) + "\n", blocks[1..])
  }

  function Inserted(front: string, tail: string, blocks: seq<string>): string {
    if blocks == [] then front + tail
    else if TrimSpace(tail) == "" then Appended(front, blocks)
    else Spaced(Appended(front, blocks)) + tail
  }

  /** How many sections lie before the insertion point: up to the last requirement, or all. */
  function LastNamed(ss: seq<string>): (n: nat)
    ensures n <= |ss|
  {
    if ss == [] then 0
    else
      var rest := LastNamed(ss[1..]);
      if rest > 0 then 1 + rest else if Named(ss[0]) then 1 else 0
  }

  function InsertionPoint(ss: seq<string>): (n: nat)
    ensures LastNamed(ss) <= n <= |ss|
  {
    if LastNamed(ss) == 0 then |ss| else LastNamed(ss)
  }

  /** The rebuilt document, by sections. */
  function Rebuilt(rules: Rules, actions: Actions, added: seq<string>, raw: string): string {
    var ps := Pieces(raw, Outside);
    var ss := ps[1..];
    var k := InsertionPoint(ss);
    Inserted(ps[0] + Join(EditSections(rules, actions, ss[..k])), Join(ss[k..]), added)
  }

  // ---------------------------------------------------------------------------------
  // The byte buffer
  // ---------------------------------------------------------------------------------

  /** blankLine */
  method BlankLine(out: string) returns (next: string)
    ensures next == Spaced(out)
  {
    next := out;
    if out == "" { return; }
    var suffix := 0;
    while suffix < |out| && out[|out| - 1 - suffix] == '\n'
      invariant 0 <= suffix <= |out|
      invariant forall k :: |out| - suffix <= k < |out| ==> out[k] == '\n'
    {
      suffix := suffix + 1;
    }
    ghost var start := suffix;
    while suffix < 2
      invariant start <= suffix
      invariant start == 0 ==>
                  suffix <= 2 && next == out + (if suffix == 0 then "" else if suffix == 1 then "\n" else "\n\n")
      invariant start == 1 ==> suffix <= 2 && next == out + (if suffix == 1 then "" else "\n")
      invariant start >= 2 ==> suffix == start && next == out
    {
      next := next + "\n";
      suffix := suffix + 1;
    }
  }

  /** insertBlocks */
  method InsertBlocks(document: string, at: nat, blocks: seq<string>) returns (result: string)
    requires at <= |document|
    ensures result == Inserted(document[..at], document[at..], blocks)
  {
    if |blocks| == 0 {
      assert document[..at] + document[at..] == document;
      return document;
    }
    var out := document[..at];
    var tail := document[at..];
    for k := 0 to |blocks|
      invariant Appended(document[..at], blocks) == Appended(out, blocks[k..])
    {
      assert blocks[k..][0] == blocks[k] && blocks[k..][1..] == blocks[k + 1..];
      out := BlankLine(out);
      out := out + TrimRight(blocks[k]);
      out := out + "\n";
    }
    assert blocks[|blocks|..] == [];
    if TrimSpace(tail) != "" {
      out := BlankLine(out);
      out := out + tail;
    }
    return out;
  }

  /** What the edit loop writes for the blocks from `cursor` on, the tail excluded. */
  function Spliced(rules: Rules, actions: Actions, raw: string, blocks: seq<Block>, cursor: nat): string {
    if blocks == [] then ""
    else
      var b := blocks[0];
      if cursor <= b.start <= b.headEnd <= b.end <= |raw| then
        raw[cursor..b.start] + EditedBlock(rules, actions, raw, b) + Spliced(rules, actions, raw, blocks[1..], b.end)
      else ""
  }

  function EditedBlock(rules: Rules, actions: Actions, raw: string, b: Block): string
    requires b.start <= b.headEnd <= b.end <= |raw|
  {
    var identity := rules.identity(b.name);
    if identity !in actions then raw[b.start..b.end]
    else
      match actions[identity]
      case Removed(_) => ""
      case Modified(_, text) => Replaced(text, raw[b.start..b.end])
      case Renamed(_, to) => HEADING + to + raw[b.headEnd..b.end]
      case Added(_, _) => raw[b.start..b.end]
  }

  /** Blocks lie in order inside the document. */
  predicate Ordered(raw: string, blocks: seq<Block>, cursor: nat) {
    blocks != [] ==>
      cursor <= blocks[0].start <= blocks[0].headEnd <= blocks[0].end <= |raw|
      && Ordered(raw, blocks[1..], blocks[0].end)
  }

  function LastEnd(blocks: seq<Block>): nat
    requires blocks != []
  {
    blocks[|blocks| - 1].end
  }

  /** One accepted block: kept, dropped, replaced or retitled. */
  method EditBlock(rules: Rules, actions: Actions, raw: string, item: Block) returns (text: string)
    requires item.start <= item.headEnd <= item.end <= |raw|
    ensures text == EditedBlock(rules, actions, raw, item)
  {
    text := "";
    var identity := rules.identity(item.name);
    if identity !in actions { return raw[item.start..item.end]; }
    match actions[identity] {
      case Removed(_) =>
      case Modified(_, body) => text := Replaced(body, raw[item.start..item.end]);
      case Renamed(_, to) =>
        text := HEADING + to;
        text := text + raw[item.headEnd..item.end];
      case Added(_, _) => text := raw[item.start..item.end];
    }
  }

  lemma SplicedNext(rules: Rules, actions: Actions, raw: string, blocks: seq<Block>, k: nat, cursor: nat, out: string)
    requires k < |blocks| && Ordered(raw, blocks[k..], cursor)
    ensures var item := blocks[k];
            && cursor <= item.start <= item.headEnd <= item.end <= |raw| && Ordered(raw, blocks[k + 1..], item.end)
            && out + Spliced(rules, actions, raw, blocks[k..], cursor) ==
               out + raw[cursor..item.start] + EditedBlock(rules, actions, raw, item)
               + Spliced(rules, actions, raw, blocks[k + 1..], item.end)
  {
    hide EditedBlock;
    assert blocks[k..][0] == blocks[k] && blocks[k..][1..] == blocks[k + 1..];
    var item := blocks[k];
    var gap, written := raw[cursor..item.start], EditedBlock(rules, actions, raw, item);
    var rest := Spliced(rules, actions, raw, blocks[k + 1..], item.end);
    assert out + (gap + written + rest) == out + gap + written + rest;
  }

  /** The edit loop of rebuild, with its moving cursor. */
  method EditBlocks(rules: Rules, actions: Actions, raw: string, blocks: seq<Block>) returns (out: string, cursor: nat)
    requires Ordered(raw, blocks, 0)
    ensures out == Spliced(rules, actions, raw, blocks, 0)
    ensures cursor <= |raw| && cursor == if blocks == [] then 0 else LastEnd(blocks)
  {
    hide EditedBlock, Spliced, Ordered;
    out, cursor := "", 0;
    assert blocks[0..] == blocks;
    assert "" + Spliced(rules, actions, raw, blocks, 0) == Spliced(rules, actions, raw, blocks, 0);
    for k := 0 to |blocks|
      invariant Ordered(raw, blocks[k..], cursor) && cursor <= |raw|
      invariant cursor == if k == 0 then 0 else blocks[k - 1].end
      invariant Spliced(rules, actions, raw, blocks, 0) == out + Spliced(rules, actions, raw, blocks[k..], cursor)
    {
      SplicedNext(rules, actions, raw, blocks, k, cursor, out);
      out := out + raw[cursor..blocks[k].start];
      var text := EditBlock(rules, actions, raw, blocks[k]);
      out := out + text;
      cursor := blocks[k].end;
    }
    NothingSpliced(rules, actions, raw, blocks[|blocks|..], cursor);
  }

  lemma NothingSpliced(rules: Rules, actions: Actions, raw: string, blocks: seq<Block>, cursor: nat)
    requires blocks == []
    ensures Spliced(rules, actions, raw, blocks, cursor) == ""
  {
  }

  // ---------------------------------------------------------------------------------
  // The cursor loop edits sections
  // ---------------------------------------------------------------------------------

  function EditedText(rules: Rules, actions: Actions, s: string): string {
    var operation := ActionOn(rules, actions, s);
    if Dropped(operation) then "" else Edited(operation, s)
  }

  lemma BlockIsSection(rules: Rules, actions: Actions, raw: string, s: string, offset: nat)
    requires Named(s) && offset + |s| <= |raw| && raw[offset..offset + |s|] == s
    ensures var b := BlockOf(s, offset)[0];
            && BlockOf(s, offset) == [b] && offset == b.start <= b.headEnd <= b.end == offset + |s|
            && EditedBlock(rules, actions, raw, b) == EditedText(rules, actions, s)
  {
    hide Front, HeadEnd, Replaced;
    assert raw[offset + HeadEnd(s)..offset + |s|] == s[HeadEnd(s)..];
  }

  lemma EditedFirst(rules: Rules, actions: Actions, s: string, ss: seq<string>)
    ensures Join(EditSections(rules, actions, [s] + ss)) ==
              EditedText(rules, actions, s) + Join(EditSections(rules, actions, ss))
  {
    hide Named, Edited;
    assert ([s] + ss)[1..] == ss;
    var rest := EditSections(rules, actions, ss);
    if !Dropped(ActionOn(rules, actions, s)) {
      assert ([Edited(ActionOn(rules, actions, s), s)] + rest)[1..] == rest;
    } else {
      assert [] + rest == rest;
    }
  }

  lemma NothingNamed(ss: seq<string>, offset: nat)
    ensures BlocksOf(ss, offset) == [] <==> LastNamed(ss) == 0
  {
    hide Named, NameOf, Front;
    if ss != [] {
      NothingNamed(ss[1..], offset + |ss[0]|);
    }
  }

  /** A document's rest, cut at its first section. */
  lemma CutSection(raw: string, ss: seq<string>, offset: nat)
    requires offset <= |raw| && ss != [] && raw[offset..] == Join(ss)
    ensures offset + |ss[0]| <= |raw| && raw[offset..offset + |ss[0]|] == ss[0]
    ensures raw[offset + |ss[0]|..] == Join(ss[1..])
  {
    assert raw[offset..][..|ss[0]|] == ss[0];
    assert raw[offset..][|ss[0]|..] == Join(ss[1..]);
  }

  lemma {:induction false} SplicedIsEdited(rules: Rules, actions: Actions, raw: string, ss: seq<string>, offset: nat,
                                           cursor: nat)
    requires cursor <= offset <= |raw| && raw[offset..] == Join(ss)
    ensures var bs, k := BlocksOf(ss, offset), LastNamed(ss);
            && Ordered(raw, bs, cursor) && (bs == [] <==> k == 0)
            && (bs != [] ==>
                  && LastEnd(bs) <= |raw| && raw[LastEnd(bs)..] == Join(ss[k..])
                  && Spliced(rules, actions, raw, bs, cursor) ==
                       raw[cursor..offset] + Join(EditSections(rules, actions, ss[..k])))
    decreases |ss|
  {
    hide Named, NameOf, Front, EditedBlock, EditedText, EditSections, Join;
    NothingNamed(ss, offset);
    if ss != [] {
      var s, rest := ss[0], ss[1..];
      var next := offset + |s|;
      CutSection(raw, ss, offset);
      if Named(s) {
        SplicedIsEdited(rules, actions, raw, rest, next, next);
        NamedFirst(rules, actions, raw, ss, offset, cursor);
      } else {
        SplicedIsEdited(rules, actions, raw, rest, next, cursor);
        UnnamedFirst(rules, actions, raw, ss, offset, cursor);
      }
    }
  }

  lemma NamedFirst(rules: Rules, actions: Actions, raw: string, ss: seq<string>, offset: nat, cursor: nat)
    requires cursor <= offset <= |raw| && ss != [] && Named(ss[0]) && offset + |ss[0]| <= |raw|
    requires raw[offset..offset + |ss[0]|] == ss[0] && raw[offset + |ss[0]|..] == Join(ss[1..])
    requires var rest, next := ss[1..], offset + |ss[0]|;
             var bs, k := BlocksOf(rest, next), LastNamed(rest);
            && Ordered(raw, bs, next) && (bs == [] <==> k == 0)
            && (bs != [] ==>
                  && LastEnd(bs) <= |raw| && raw[LastEnd(bs)..] == Join(rest[k..])
                  && Spliced(rules, actions, raw, bs, next) ==
                       raw[next..next] + Join(EditSections(rules, actions, rest[..k])))
    ensures var bs, k := BlocksOf(ss, offset), LastNamed(ss);
            && Ordered(raw, bs, cursor) && bs != [] && k > 0
            && LastEnd(bs) <= |raw| && raw[LastEnd(bs)..] == Join(ss[k..])
            && Spliced(rules, actions, raw, bs, cursor) ==
                 raw[cursor..offset] + Join(EditSections(rules, actions, ss[..k]))
  {
    hide *;
    var s, rest, next := ss[0], ss[1..], offset + |ss[0]|;
    BlockIsSection(rules, actions, raw, s, offset);
    var b, bs, k := BlockOf(s, offset)[0], BlocksOf(rest, next), LastNamed(rest);
    OneMoreNamed(ss, offset);
    assert BlocksOf(ss, offset) == [b] + bs && LastNamed(ss) == k + 1;
    EditedFirst(rules, actions, s, rest[..k]);
    assert ss[..k + 1] == [s] + rest[..k] && ss[k + 1..] == rest[k..];
    LastOf(b, bs);
    var edits := Join(EditSections(rules, actions, rest[..k]));
    if bs == [] {
      assert rest[..k] == [] && rest[k..] == rest;
      NothingEdited(rules, actions);
      NothingSpliced(rules, actions, raw, bs, next);
    } else {
      assert raw[next..next] + edits == edits;
    }
    SplicedHead(rules, actions, raw, b, bs, cursor);
    OrderedHead(raw, b, bs, cursor);
  }

  lemma OneMoreNamed(ss: seq<string>, offset: nat)
    requires ss != []
    ensures var rest := LastNamed(ss[1..]);
            && BlocksOf(ss, offset) == BlockOf(ss[0], offset) + BlocksOf(ss[1..], offset + |ss[0]|)
            && LastNamed(ss) == (if rest > 0 then 1 + rest else if Named(ss[0]) then 1 else 0)
  {
    hide Named, NameOf, Front, BlockOf;
  }

  lemma LastOf(b: Block, bs: seq<Block>)
    ensures LastEnd([b] + bs) == if bs == [] then b.end else LastEnd(bs)
  {
  }

  lemma OrderedHead(raw: string, b: Block, bs: seq<Block>, cursor: nat)
    ensures Ordered(raw, [b] + bs, cursor) <==>
              cursor <= b.start <= b.headEnd <= b.end <= |raw| && Ordered(raw, bs, b.end)
  {
    assert ([b] + bs)[1..] == bs;
  }

  lemma SplicedHead(rules: Rules, actions: Actions, raw: string, b: Block, bs: seq<Block>, cursor: nat)
    requires cursor <= b.start <= b.headEnd <= b.end <= |raw|
    ensures Spliced(rules, actions, raw, [b] + bs, cursor) ==
            raw[cursor..b.start] + (EditedBlock(rules, actions, raw, b) + Spliced(rules, actions, raw, bs, b.end))
  {
    hide EditedBlock;
    assert ([b] + bs)[1..] == bs;
    var gap, written, rest :=
      raw[cursor..b.start], EditedBlock(rules, actions, raw, b), Spliced(rules, actions, raw, bs, b.end);
    assert gap + written + rest == gap + (written + rest);
  }

  lemma NothingEdited(rules: Rules, actions: Actions)
    ensures Join(EditSections(rules, actions, [])) == ""
  {
  }

  lemma UnnamedFirst(rules: Rules, actions: Actions, raw: string, ss: seq<string>, offset: nat, cursor: nat)
    requires cursor <= offset <= |raw| && ss != [] && !Named(ss[0]) && offset + |ss[0]| <= |raw|
    requires raw[offset..offset + |ss[0]|] == ss[0]
    requires var rest, next := ss[1..], offset + |ss[0]|;
             var bs, k := BlocksOf(rest, next), LastNamed(rest);
            && Ordered(raw, bs, cursor) && (bs == [] <==> k == 0)
            && (bs != [] ==>
                  && LastEnd(bs) <= |raw| && raw[LastEnd(bs)..] == Join(rest[k..])
                  && Spliced(rules, actions, raw, bs, cursor) ==
                       raw[cursor..next] + Join(EditSections(rules, actions, rest[..k])))
    ensures var bs, k := BlocksOf(ss, offset), LastNamed(ss);
            && Ordered(raw, bs, cursor)
            && (bs != [] ==>
                  && k > 0 && LastEnd(bs) <= |raw| && raw[LastEnd(bs)..] == Join(ss[k..])
                  && Spliced(rules, actions, raw, bs, cursor) ==
                       raw[cursor..offset] + Join(EditSections(rules, actions, ss[..k])))
  {
    hide *;
    var s, rest, next := ss[0], ss[1..], offset + |ss[0]|;
    var bs, k := BlocksOf(rest, next), LastNamed(rest);
    OneMoreNamed(ss, offset);
    NoBlock(s, offset);
    assert BlocksOf(ss, offset) == bs;
    if bs != [] {
      EditedFirst(rules, actions, s, rest[..k]);
      KeptText(rules, actions, s);
      assert ss[..k + 1] == [s] + rest[..k] && ss[k + 1..] == rest[k..];
      Regroup(raw, cursor, offset, s, Join(EditSections(rules, actions, rest[..k])));
    }
  }

  lemma NoBlock(s: string, offset: nat)
    requires !Named(s)
    ensures BlockOf(s, offset) == []
  {
  }

  lemma Regroup(raw: string, cursor: nat, offset: nat, s: string, more: string)
    requires cursor <= offset && offset + |s| <= |raw| && raw[offset..offset + |s|] == s
    ensures raw[cursor..offset + |s|] + more == raw[cursor..offset] + (s + more)
  {
    assert raw[cursor..offset + |s|] == raw[cursor..offset] + s;
    assert raw[cursor..offset] + s + more == raw[cursor..offset] + (s + more);
  }

  lemma KeptText(rules: Rules, actions: Actions, s: string)
    requires !Named(s)
    ensures EditedText(rules, actions, s) == s
  {
  }
}
