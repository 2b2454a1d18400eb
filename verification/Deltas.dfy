/** One capability of a sync, end to end: the planner reads the accepted identities and the delta
    with its own scanner, the rewriter with another, and what the planner passes the rewriter
    applies (plan/deltas.go, reconcile.go). */
module Deltas {
  import opened Records
  import opened Markdown
  import opened Accepted
  import opened Reconcile
  import opened Rescan
  import opened SpecSync
  import opened OpenFences
  import Scanners

  // ---------------------------------------------------------------------------------
  // What the rewriter's diagnostics mean
  // ---------------------------------------------------------------------------------

  lemma {:induction false} FaultsAreTops(rules: Rules, trace: seq<Scanned>, offset: nat)
    ensures NoFault(rules, TracedHeadings(trace, offset)) <==> NoFaultyTop(rules, Tops(trace))
  {
    hide NoFault, NoFaultyTop, Entry, Top;
    if trace != [] {
      var top, rest := trace[0], trace[1..];
      FaultsAreTops(rules, rest, offset + |top.line|);
      EntryFaults(rules, top, offset, TracedHeadings(rest, offset + |top.line|), Tops(rest));
    } else {
      NothingFaulty(rules);
    }
  }

  lemma NothingFaulty(rules: Rules)
    ensures NoFault(rules, []) && NoFaultyTop(rules, [])
  {
  }

  ghost predicate NoFault(rules: Rules, hs: seq<HeadingLine>) {
    forall h :: h in hs ==> !Faulty(rules, h)
  }

  ghost predicate NoFaultyTop(rules: Rules, tops: seq<Scanned>) {
    forall top :: top in tops ==> !FaultyTop(rules, top)
  }

  predicate FaultyTop(rules: Rules, top: Scanned) {
    top.head.Some? && Faulty(rules, HeadingLine(0, 0, top.head.value.level, top.head.value.title))
  }

  lemma EntryFaults(rules: Rules, top: Scanned, offset: nat, hs: seq<HeadingLine>, tops: seq<Scanned>)
    requires NoFault(rules, hs) <==> NoFaultyTop(rules, tops)
    ensures var entry := Entry(top.head, offset, offset + top.textEnd);
            var own := if Top(top.head) then [top] else [];
            NoFault(rules, entry + hs) <==> NoFaultyTop(rules, own + tops)
  {
    var entry := Entry(top.head, offset, offset + top.textEnd);
    var own := if Top(top.head) then [top] else [];
    assert forall h :: h in entry + hs <==> h in entry || h in hs;
    assert forall t :: t in own + tops <==> t in own || t in tops;
    match top.head
    case None =>
    case Some(head) =>
      assert entry == [HeadingLine(offset, offset + top.textEnd, head.level, head.title)];
      assert entry[0] in entry;
      if Top(top.head) { assert own[0] in own; }
      assert Faulty(rules, entry[0]) <==> FaultyTop(rules, top);
      assert Faulty(rules, entry[0]) ==> Top(top.head);
  }

  lemma LawfulTop(rules: Rules, s: string, top: Scanned)
    requires Front(s) == top.head
    ensures Lawful(rules, s) <==> !FaultyTop(rules, top)
  {
    hide Front;
  }

  lemma FaultsAreSections(rules: Rules, raw: string)
    ensures (forall h :: h in HeadingsAt(raw, 0, Outside) ==> !Faulty(rules, h)) <==>
              AllLawful(rules, Pieces(raw, Outside)[1..])
  {
    hide Faulty, Front, NameIn, HeadingsAt, Pieces, TraceAt, Tops, TracedHeadings, TracedPieces, Lawful;
    hide FaultyTop, Coherent;
    var trace := TraceAt(raw, 0, Outside);
    TraceIsScan(raw, 0, Outside);
    TraceIsPieces(raw, 0, Outside);
    TraceIsCoherent(raw, 0, Outside);
    FaultsAreTops(rules, trace, 0);
    assert raw[0..] == raw;
    var ss, tops := Pieces(raw, Outside)[1..], Tops(trace);
    forall k | 0 <= k < |ss| ensures Lawful(rules, ss[k]) <==> !FaultyTop(rules, tops[k]) {
      FrontsOfSections(trace, k);
      LawfulTop(rules, ss[k], tops[k]);
    }
    assert forall k :: 0 <= k < |tops| ==> tops[k] in tops;
    if AllLawful(rules, ss) {
      forall top | top in tops ensures !FaultyTop(rules, top) {
        var k :| 0 <= k < |tops| && tops[k] == top;
        assert Lawful(rules, ss[k]);
      }
    }
  }

  lemma {:induction false} BlockNames(ss: seq<string>, offset: nat)
    ensures var blocks, rs := BlocksOf(ss, offset), Requirements(ss);
            |blocks| == |rs| && forall k :: 0 <= k < |rs| ==> blocks[k].name == rs[k].name
  {
    hide Named, NameOf, Front, TrimRight, BlockOf, RequirementOf;
    if ss != [] {
      BlockNames(ss[1..], offset + |ss[0]|);
      OneName(ss[0], offset);
      assert ss == [ss[0]] + ss[1..];
      RequirementsCons(ss[0], ss[1..]);
    }
  }

  lemma OneName(s: string, offset: nat)
    ensures |BlockOf(s, offset)| == |RequirementOf(s)| <= 1
    ensures |RequirementOf(s)| == 1 ==> BlockOf(s, offset)[0].name == RequirementOf(s)[0].name
  {
    hide NameOf, Front, TrimRight, HeadEnd;
  }

  /** A document the rewriter has no diagnostic about is well titled, and the other way round. */
  lemma DiagnosticsDecideTitled(rules: Rules, raw: string)
    ensures var blocks := BlocksFrom(HeadingsAt(raw, 0, Outside), |raw|);
            && (Titled(rules, raw) <==>
                  && (forall h :: h in HeadingsAt(raw, 0, Outside) ==> !Faulty(rules, h))
                  && DistinctNames(rules, blocks))
            && forall id :: id in IdentitiesOf(rules, blocks) <==> Known(rules, Pieces(raw, Outside)[1..], id)
  {
    hide Faulty, HeadingsAt, Pieces, End, Requirements, BlocksFrom, BlocksOf, Lawful;
    FaultsAreSections(rules, raw);
    BlocksAreSections(raw);
    var ss := Pieces(raw, Outside)[1..];
    BlockNames(ss, |Pieces(raw, Outside)[0]|);
    var blocks, ids := BlocksFrom(HeadingsAt(raw, 0, Outside), |raw|), Identities(rules, Requirements(ss));
    assert |blocks| == |ids| && forall k :: 0 <= k < |ids| ==> ids[k] == rules.identity(blocks[k].name);
    if Titled(rules, raw) { TitledParts(rules, raw); }
    if AllLawful(rules, ss) && Distinct(ids) { TitledWhole(rules, raw); }
  }

  // ---------------------------------------------------------------------------------
  // The planner's reading
  // ---------------------------------------------------------------------------------

  /** acceptedRequirementIdentities, with the planner's scanner: the identities the rewriter will
      find, because the two scanners agree on every document. */
  method AcceptedIdentities(rules: Rules, raw: string) returns (known: set<string>)
    ensures known == IdentitiesOf(rules, BlocksFrom(HeadingsAt(raw, 0, Outside), |raw|))
  {
    var headings, closed := Scanners.PlannerHeadings(raw);
    hide BlocksFrom, NextTop, HeadingsAt, TrimSpace, IdentitiesOf;
    known := {};
    assert headings[0..] == headings;
    for k := 0 to |headings|
      invariant known + IdentitiesOf(rules, BlocksFrom(headings[k..], |raw|)) ==
                  IdentitiesOf(rules, BlocksFrom(headings, |raw|))
    {
      var item := headings[k];
      BlocksNext(headings, k, |raw|, []);
      assert [] + BlocksFrom(headings[k..], |raw|) == BlocksFrom(headings[k..], |raw|);
      IdentitiesNext(rules, [] + BlockAt(item, NextTop(headings[k + 1..], |raw|)),
                     BlocksFrom(headings[k + 1..], |raw|));
      OneIdentity(rules, item, NextTop(headings[k + 1..], |raw|));
      if item.level != 3 || !(PREFIX <= item.title) { continue; }
      var name := TrimSpace(item.title[|PREFIX|..]);
      if name != "" { known := known + {rules.identity(name)}; }
    }
    BlocksEnd(headings[|headings|..], |raw|);
    NoIdentities(rules);
  }

  lemma IdentitiesNext(rules: Rules, a: seq<Block>, b: seq<Block>)
    ensures IdentitiesOf(rules, a + b) == IdentitiesOf(rules, a) + IdentitiesOf(rules, b)
  {
    var all := a + b;
    forall id ensures id in IdentitiesOf(rules, all) <==> id in IdentitiesOf(rules, a) || id in IdentitiesOf(rules, b) {
      if k :| 0 <= k < |a| && rules.identity(a[k].name) == id { assert all[k] == a[k]; }
      if k :| 0 <= k < |b| && rules.identity(b[k].name) == id { assert all[|a| + k] == b[k]; }
    }
  }

  lemma OneIdentity(rules: Rules, item: HeadingLine, end: nat)
    ensures IdentitiesOf(rules, [] + BlockAt(item, end)) ==
            match NameIn(item.level, item.title)
            case Some(name) => if name == "" then {} else {rules.identity(name)}
            case None => {}
  {
    hide TrimSpace;
    assert [] + BlockAt(item, end) == BlockAt(item, end);
    match NameIn(item.level, item.title)
    case Some(name) =>
      if name != "" {
        var b := Block(item.start, item.textEnd, end, name);
        assert BlockAt(item, end) == [b] && [b][0] == b;
      }
    case None =>
  }

  lemma NoIdentities(rules: Rules)
    ensures IdentitiesOf(rules, []) == {}
  {
  }

  // ---------------------------------------------------------------------------------
  // The delta's own blocks
  // ---------------------------------------------------------------------------------

  /** Where a section of the delta ends: at its last byte or at a heading of level three or less. */
  predicate SectionEnd(headings: seq<HeadingLine>, end: nat, length: nat) {
    end == length || exists k :: 0 <= k < |headings| && headings[k].start == end && headings[k].level <= 3
  }

  predicate Increasing(headings: seq<HeadingLine>, from: nat, length: nat) {
    headings != [] ==> from <= headings[0].start < length && Increasing(headings[1..], headings[0].start + 1, length)
  }

  lemma {:induction false} HeadingsIncrease(raw: string, start: nat, fence: Fence)
    requires start <= |raw|
    ensures Increasing(HeadingsAt(raw, start, fence), start, |raw|)
    decreases |raw| - start
  {
    hide Step, TextAt;
    if start < |raw| {
      var next, turn := NextStart(raw, start), Step(fence, TextAt(raw, start));
      HeadingsIncrease(raw, next, turn.fence);
      var rest := HeadingsAt(raw, next, turn.fence);
      match turn.head
      case None => IncreasingFrom(rest, start, next, |raw|);
        assert [] + rest == rest;
      case Some(h) =>
        IncreasingFrom(rest, start + 1, next, |raw|);
        var entry := HeadingLine(start, start + |TextAt(raw, start)|, h.level, h.title);
        assert ([entry] + rest)[1..] == rest;
    }
  }

  lemma IncreasingFrom(headings: seq<HeadingLine>, low: nat, from: nat, length: nat)
    requires low <= from && Increasing(headings, from, length)
    ensures Increasing(headings, low, length)
  {
  }

  lemma {:induction false} IncreasingAt(headings: seq<HeadingLine>, from: nat, length: nat, i: nat, j: nat)
    requires Increasing(headings, from, length) && i < j < |headings|
    ensures from <= headings[i].start < headings[j].start < length
  {
    if i == 0 {
      FirstBelow(headings[1..], headings[0].start + 1, length, j - 1);
    } else {
      IncreasingAt(headings[1..], headings[0].start + 1, length, i - 1, j - 1);
    }
  }

  lemma {:induction false} FirstBelow(headings: seq<HeadingLine>, from: nat, length: nat, j: nat)
    requires Increasing(headings, from, length) && j < |headings|
    ensures from <= headings[j].start < length
  {
    if j > 0 { FirstBelow(headings[1..], headings[0].start + 1, length, j - 1); }
  }

  /** The block extraction of parseRequirementOperations: where the requirement at `index` ends
      among the headings of its section. */
  method BlockEnd(headings: seq<HeadingLine>, index: nat, end: nat, length: nat) returns (blockEnd: nat)
    requires index < |headings| && headings[index].start < end <= length
    requires Increasing(headings, 0, length) && SectionEnd(headings, end, length)
    ensures blockEnd == NextTop(headings[index + 1..], length)
  {
    blockEnd := end;
    for j := index + 1 to |headings|
      invariant blockEnd == end
      invariant NextTop(headings[index + 1..], length) == NextTop(headings[j..], length)
      invariant forall k :: index < k < j ==> headings[k].start < end && headings[k].level > 3
    {
      assert headings[j..][0] == headings[j] && headings[j..][1..] == headings[j + 1..];
      if headings[j].start >= end {
        BeyondEnd(headings, index, j, end, length);
        return end;
      }
      if headings[j].level <= 3 { return headings[j].start; }
    }
    NoneBeyond(headings, index, end, length);
  }

  /** The first heading past the section is the one its end stands on. */
  lemma BeyondEnd(headings: seq<HeadingLine>, index: nat, j: nat, end: nat, length: nat)
    requires index < j < |headings| && headings[index].start < end <= headings[j].start
    requires Increasing(headings, 0, length) && SectionEnd(headings, end, length)
    requires forall k :: index < k < j ==> headings[k].start < end
    ensures NextTop(headings[j..], length) == end
  {
    FirstBelow(headings, 0, length, j);
    var k :| 0 <= k < |headings| && headings[k].start == end && headings[k].level <= 3;
    if k < index { IncreasingAt(headings, 0, length, k, index); }
    if j < k { IncreasingAt(headings, 0, length, j, k); }
    assert headings[j..][0] == headings[j];
  }

  lemma NoneBeyond(headings: seq<HeadingLine>, index: nat, end: nat, length: nat)
    requires index < |headings| && headings[index].start < end
    requires Increasing(headings, 0, length) && SectionEnd(headings, end, length)
    requires forall k :: index < k < |headings| ==> headings[k].start < end
    ensures end == length
  {
    if end != length {
      var k :| 0 <= k < |headings| && headings[k].start == end && headings[k].level <= 3;
      if k < index { IncreasingAt(headings, 0, length, k, index); }
    }
  }

  lemma {:induction false} BlockIsNamedSection(ss: seq<string>, offset: nat, k: nat) returns (j: nat)
    requires k < |BlocksOf(ss, offset)|
    ensures j < |ss| && Named(ss[j])
    ensures var b := BlocksOf(ss, offset)[k];
            && b.name == NameOf(Front(ss[j])).value
            && b.start == offset + |Join(ss[..j])| && b.end == b.start + |ss[j]|
  {
    hide Named, NameOf, Front, HeadEnd;
    var own, rest := BlockOf(ss[0], offset), BlocksOf(ss[1..], offset + |ss[0]|);
    if k < |own| {
      j := 0;
      assert ss[..0] == [];
    } else {
      j := BlockIsNamedSection(ss[1..], offset + |ss[0]|, k - |own|);
      j := j + 1;
      assert ss[..j] == [ss[0]] + ss[1..][..j - 1];
      JoinCons(ss[0], ss[1..][..j - 1]);
    }
  }

  lemma JoinCons(s: string, ss: seq<string>)
    ensures Join([s] + ss) == s + Join(ss)
  {
    assert ([s] + ss)[1..] == ss;
  }

  lemma {:induction false} JoinSlice(ss: seq<string>, j: nat)
    requires j < |ss|
    ensures |Join(ss[..j])| + |ss[j]| <= |Join(ss)|
    ensures Join(ss)[|Join(ss[..j])|..|Join(ss[..j])| + |ss[j]|] == ss[j]
  {
    if j == 0 {
      assert ss[..0] == [];
    } else {
      JoinSlice(ss[1..], j - 1);
      assert ss[..j] == [ss[0]] + ss[1..][..j - 1];
      JoinCons(ss[0], ss[1..][..j - 1]);
      var rest, at := Join(ss[1..]), |Join(ss[1..][..j - 1])|;
      assert Join(ss) == ss[0] + rest;
      assert (ss[0] + rest)[|ss[0]| + at..|ss[0]| + at + |ss[j]|] == rest[at..at + |ss[j]|];
    }
  }

  /** The bytes of every requirement block of a fence-closed document are one section, named as
      the block is: what ADDED and MODIFIED blocks of a delta are made of. */
  lemma BlocksAreSolo(raw: string, k: nat)
    requires End(raw, Outside) == Outside && k < |BlocksFrom(HeadingsAt(raw, 0, Outside), |raw|)|
    ensures var b := BlocksFrom(HeadingsAt(raw, 0, Outside), |raw|)[k];
            && b.start <= b.end <= |raw|
            && Solo(raw[b.start..b.end]) && NameOf(Front(raw[b.start..b.end])) == Some(b.name) && b.name != ""
  {
    hide *;
    var ps := Pieces(raw, Outside);
    var ss := ps[1..];
    BlocksAreSections(raw);
    var j := BlockIsNamedSection(ss, |ps[0]|, k);
    PiecesJoin(raw, Outside);
    LeadAndRest(ps);
    JoinSlice(ss, j);
    var b, at := BlocksFrom(HeadingsAt(raw, 0, Outside), |raw|)[k], |Join(ss[..j])|;
    assert raw == ps[0] + Join(ss);
    assert raw[b.start..b.end] == Join(ss)[at..at + |ss[j]|];
    LeadReads(raw);
    ChainAt(ss, j);
    NamedParts(ss[j]);
  }

  /** So every ADDED or MODIFIED operation cut from a fence-closed delta is one the planner's
      checks and the rewriter can rely on. */
  lemma BlocksAreEditable(raw: string, k: nat)
    requires End(raw, Outside) == Outside && k < |BlocksFrom(HeadingsAt(raw, 0, Outside), |raw|)|
    ensures var b := BlocksFrom(HeadingsAt(raw, 0, Outside), |raw|)[k];
            && b.start <= b.end <= |raw|
            && Editable(Added(b.name, raw[b.start..b.end])) && Editable(Modified(b.name, raw[b.start..b.end]))
  {
    hide End, HeadingsAt, BlocksFrom, Section, Front, NameIn;
    BlocksAreSolo(raw, k);
    var b := BlocksFrom(HeadingsAt(raw, 0, Outside), |raw|)[k];
    NamesAreTrimmed(Front(raw[b.start..b.end]));
  }

  lemma NamesAreTrimmed(head: Option<Head>)
    ensures NameOf(head).Some? ==> TrimSpace(NameOf(head).value) == NameOf(head).value
  {
    hide TrimSpace;
    if NameOf(head).Some? { TrimmedTwice(head.value.title[|PREFIX|..]); }
  }

  lemma {:induction false} TrimmedTwice(s: string)
    ensures TrimSpace(TrimSpace(s)) == TrimSpace(s)
    decreases |s|
  {
    if s != "" && White(s[|s| - 1]) {
      TrimmedTwice(s[..|s| - 1]);
    } else {
      DropTwice(s);
    }
  }

  lemma {:induction false} DropTwice(s: string)
    requires s == "" || !White(s[|s| - 1])
    ensures var d := DropWhite(s);
            (d != "" ==> !White(d[0]) && !White(d[|d| - 1])) && TrimSpace(d) == d
  {
    if s != "" && White(s[0]) {
      DropTwice(s[1..]);
    }
  }

  lemma NamedParts(s: string)
    requires Named(s)
    ensures NameOf(Front(s)).Some? && NameOf(Front(s)).value != ""
  {
  }

  lemma {:induction false} ChainAt(ss: seq<string>, j: nat)
    requires Chain(ss, Outside) && j < |ss|
    ensures Solo(ss[j])
  {
    hide Section, Terminated;
    if |ss| == 1 { LastSection(ss, Outside); } else { FirstTerminated(ss, Outside); }
    if j > 0 { ChainAt(ss[1..], j - 1); }
  }

  // ---------------------------------------------------------------------------------
  // One capability, end to end
  // ---------------------------------------------------------------------------------

  /** Folding a name never erases it. */
  ghost predicate Folding(rules: Rules) {
    forall name: string :: TrimSpace(name) != "" ==> rules.identity(name) != ""
  }

  lemma KeyIsNamed(rules: Rules, operation: Operation)
    requires Folding(rules) && Editable(operation)
    ensures Key(rules, operation) != ""
  {
    hide Solo, Front, NameOf, TrimSpace;
  }

  /** Passing the planner's checks and the rewriter's own is being free of diagnostics. */
  lemma ChecksMeanFree(rules: Rules, ss: seq<string>, known: set<string>, ops: seq<Operation>)
    requires Folding(rules) && AllEditable(ops)
    requires forall id :: id in known <==> Known(rules, ss, id)
    ensures DiagnosticFree(rules, ss, ops) <==>
              && KeysApart(rules, ops)
              && (forall k :: 0 <= k < |ops| ==> Agrees(rules, known, ops[k]))
              && (forall operation :: operation in ops ==> !Collides(rules, known, operation))
  {
    hide Editable, KeysApart, Known, Folding;
    forall k | 0 <= k < |ops|
      ensures Agrees(rules, known, ops[k]) <==> (Known(rules, ss, Key(rules, ops[k])) <==> !ops[k].Added?)
    {
      assert Editable(ops[k]);
      KeyIsNamed(rules, ops[k]);
    }
    assert forall k :: 0 <= k < |ops| ==> ops[k] in ops;
    if forall k :: 0 <= k < |ops| ==> ops[k].Renamed? ==> !Known(rules, ss, rules.identity(ops[k].to)) {
      forall operation | operation in ops ensures !Collides(rules, known, operation) {
        var k :| 0 <= k < |ops| && ops[k] == operation;
      }
    }
  }

  /** Planning and rebuilding one existing capability. What is accepted is applied in full
      exactly when no rename is to nothing and nothing is added behind an open fence; then it
      leaves a specification the next sync will accept as well. */
  method SyncCapability(rules: Rules, ops: seq<Operation>, raw: string) returns (result: Result<string, seq<string>>)
    ensures Folding(rules) && AllEditable(ops) && result.Ok? ==>
              var ss, actions := Pieces(raw, Outside)[1..], ActionsOf(rules, ops);
              && Titled(rules, raw) && DiagnosticFree(rules, ss, ops)
              && (Requirements(Pieces(result.value, Outside)[1..]) ==
                    RewrittenAll(rules, actions, ss) + AddedRequirements(ops)
                  <==> GivesNames(ops) && (AddedBlocks(ops) == [] || FrontEnd(rules, actions, raw) == Outside))
              && (GivesNames(ops) && (AddedBlocks(ops) == [] || FrontEnd(rules, actions, raw) == Outside) ==>
                    Titled(rules, result.value) && (Sound(rules, raw) ==> Sound(rules, result.value)))
    ensures Folding(rules) && AllEditable(ops) && Titled(rules, raw)
            && DiagnosticFree(rules, Pieces(raw, Outside)[1..], ops) ==>
              (result.Ok? <==>
                |BlocksFrom(HeadingsAt(raw, 0, Outside), |raw|)| + |AddedBlocks(ops)| !=
                |Removals(ActionsOf(rules, ops))|)
  {
    var known := AcceptedIdentities(rules, raw);
    var unknown := ValidateAccepted(rules, known, ops);
    var conflicts := ValidateOperations(rules, ops);
    var blocks, faults := ReadAccepted(rules, raw);
    var rebuilt := Rebuild(rules, ops, raw, blocks);
    ghost var ss := Pieces(raw, Outside)[1..];
    hide *;
    DiagnosticsDecideTitled(rules, raw);
    assert (forall k :: 0 <= k < |HeadingsAt(raw, 0, Outside)| ==> !Faulty(rules, HeadingsAt(raw, 0, Outside)[k])) <==>
           (forall h :: h in HeadingsAt(raw, 0, Outside) ==> !Faulty(rules, h));
    if Folding(rules) && AllEditable(ops) {
      ChecksMeanFree(rules, ss, known, ops);
      if Titled(rules, raw) && DiagnosticFree(rules, ss, ops) {
        SyncExactly(rules, raw, ops);
        if GivesNames(ops) && (AddedBlocks(ops) == [] || FrontEnd(rules, ActionsOf(rules, ops), raw) == Outside) {
          SyncKeepsSound(rules, raw, ops);
        }
      }
    }
    if faults != [] { return Err(faults); }
    if unknown + conflicts != [] { return Err(unknown + conflicts); }
    return rebuilt;
  }

  // ---------------------------------------------------------------------------------
  // Where the guarantee stops
  // ---------------------------------------------------------------------------------

  /** A rename keeps its requirement exactly when it gives it a name. */
  lemma RenameKeepsRequirement(to: string, s: string, after: Fence)
    requires Section(s, after) && TrimSpace(to) == to && '\n' !in to
    ensures Named(Retitled(to, s)) <==> to != ""
  {
    hide Section, Front, Retitled, TrimSpace, NewHeading;
    RetitledIsSection(to, s, after);
    NewHeadingReads(to);
  }

  /** No line of the text closes the fence. */
  predicate StaysInside(t: string, fence: Fence) {
    t == "" || (Step(fence, Text(t[..LineLength(t)])).fence == fence && StaysInside(t[LineLength(t)..], fence))
  }

  lemma {:induction false} InsideIsPlain(t: string, fence: Fence)
    requires fence.Inside? && StaysInside(t, fence)
    ensures Pieces(t, fence) == [t] && End(t, fence) == fence
    decreases |t|
  {
    hide Text;
    if t != "" {
      var line, tail, turn := UnfoldPieces(t, fence);
      InsideIsPlain(tail, fence);
      assert turn.head == None;
      assert Attach(false, line, [tail]) == [line + tail];
    }
  }

  /** What one requirement line is. */
  lemma OneRequirement(name: string)
    requires name != "" && TrimSpace(name) == name && '\n' !in name
    ensures var s := HEADING + name + "\n";
            && Solo(s) && Pieces(s, Outside) == ["", s] && s != ""
            && Front(s) == Some(Head(3, PREFIX + name)) && NameOf(Front(s)) == Some(name) && Named(s)
  {
    hide *;
    var s := HEADING + name + "\n";
    HeadingReads(name);
    OneLine(s, Outside);
    FrontOfOne(s);
    RenamedReads(name);
    HeadIsTop(name);
    assert [""] + [s] == ["", s];
    NamedBy(s, name);
    SoloOf(s);
  }

  lemma NamedBy(s: string, name: string)
    requires NameOf(Front(s)) == Some(name) && name != ""
    ensures Named(s)
  {
  }

  lemma SoloOf(s: string)
    requires Pieces(s, Outside) == ["", s] && End(s, Outside) == Outside
    ensures Solo(s)
  {
  }

  const Open := HEADING + "A" + "\n" + "```\n"

  /** A document with one requirement that leaves a fence open. */
  lemma OpenDocument(rules: Rules)
    ensures Pieces(Open, Outside) == ["", Open] && End(Open, Outside) == Inside('`', 3)
    ensures NameOf(Front(Open)) == Some("A") && Named(Open) && Titled(rules, Open)
    ensures Requirements([Open]) == [Requirement("A", TrimRight(Open))]
  {
    hide *;
    var first, open := HEADING + "A" + "\n", "```\n";
    LettersAreTrimmed();
    OneRequirement("A");
    HeadingReads("A");
    FenceReads();
    OneLine(first, Outside);
    OneLine(open, Outside);
    assert Terminated(first) && Open == first + open by { NewlineLast(HEADING + "A"); OpenIs(); }
    ConcatScan(first, open, Outside);
    NoHeadNoTop();
    assert [] + [open] == [open];
    assert Glue(["", first], [open]) == ["", first + open] by { GlueTwo(first, open); }
    FrontStays(first, open);
    NamedBy(Open, "A");
    OneSection(Open);
    OwnNamed(Open, "A");
    assert Pieces(Open, Outside)[1..] == [Open];
    OneTitled(rules, Open, "A");
  }

  lemma OpenIs()
    ensures Open == HEADING + "A" + "\n" + "```\n"
  {
  }

  lemma NewlineLast(s: string)
    ensures Terminated(s + "\n") && AllLayout("\n")
  {
  }

  lemma OwnNamed(s: string, name: string)
    requires NameOf(Front(s)) == Some(name) && name != ""
    ensures RequirementOf(s) == [Requirement(name, TrimRight(s))]
  {
  }

  lemma OneTitled(rules: Rules, raw: string, name: string)
    requires Pieces(raw, Outside)[1..] == [raw] && NameOf(Front(raw)) == Some(name) && name != ""
    ensures Titled(rules, raw)
  {
    hide *;
    OwnNamed(raw, name);
    OneSection(raw);
    NamedIsLawful(rules, raw, name);
    AllOne(rules, raw);
    TitledWhole(rules, raw);
  }

  lemma AllOne(rules: Rules, raw: string)
    requires Lawful(rules, raw) && |Requirements([raw])| == 1
    ensures AllLawful(rules, [raw]) && Distinct(Identities(rules, Requirements([raw])))
  {
    hide Lawful, Requirements;
  }

  /** One operation against one requirement. */
  lemma OneOperation(rules: Rules, s: string, name: string, operation: Operation)
    requires Requirements([s]) == [Requirement(name, TrimRight(s))] && Editable(operation)
    requires operation.Added? ==> rules.identity(operation.name) != rules.identity(name)
    requires operation.Renamed? ==> operation.from == name && rules.identity(operation.to) != rules.identity(name)
    requires operation.Added? || operation.Renamed?
    ensures DiagnosticFree(rules, [s], [operation])
    ensures ActionsOf(rules, [operation]) == if operation.Added? then map[] else map[rules.identity(name) := operation]
    ensures AddedBlocks([operation]) == if operation.Added? then [operation.raw] else []
  {
    hide Editable, Requirements, TrimRight;
    var ids := Identities(rules, Requirements([s]));
    assert ids == [rules.identity(name)];
    assert [operation][..0] == [];
    assert forall id :: Known(rules, [s], id) <==> id == rules.identity(name);
  }

  /** What the delta adds: normative text, and a scenario with its steps. */
  const Body := ["It MUST hold.\n", "#### Scenario: S\n", "- WHEN it runs\n", "- THEN it holds\n"]
  const Addition := HEADING + "B" + "\n" + Join(Body)

  /** A line that neither begins a section nor touches a fence. */
  predicate Quiet(line: string) {
    && line != "" && line[|line| - 1] == '\n' && LineLength(line) == |line|
    && Step(Outside, Text(line)).fence == Outside && !Top(Step(Outside, Text(line)).head)
    && Step(Inside('`', 3), Text(line)).fence == Inside('`', 3)
  }

  lemma QuietLine(text: string)
    requires text != "" && '\n' !in text && '\r' !in text && !Indent(text[0]) && text[0] != '`' && text[0] != '~'
    requires text[0] == '#' ==> Marker(text, '#') == 4
    ensures Quiet(text + "\n")
  {
    assert TrimIndent(text) == text && Text(text) == text;
    assert Marker(text, '`') == 0;
    hide Text, TrimIndent;
    assert AllLayout("\n") && Outside.Valid() && Inside('`', 3).Valid();
    SameTurn(Outside, text, "\n");
    SameTurn(Inside('`', 3), text, "\n");
    OneLineOnly(text + "\n");
  }

  /** Quiet lines are plain text outside a fence, and stay inside one. */
  lemma {:induction false} QuietText(lines: seq<string>)
    requires forall k :: 0 <= k < |lines| ==> Quiet(lines[k])
    ensures Pieces(Join(lines), Outside) == [Join(lines)] && End(Join(lines), Outside) == Outside
    ensures StaysInside(Join(lines), Inside('`', 3))
  {
    hide Text, Step, Pieces, End;
    if lines == [] {
      NoPieces();
      EmptyEnd();
    } else {
      var line, rest := lines[0], Join(lines[1..]);
      QuietText(lines[1..]);
      LineThenRest(line, rest);
      FirstThenRest(line, rest, Outside);
      assert (line + rest)[..|line|] == line && (line + rest)[|line|..] == rest;
      assert [] + [line + rest] == [line + rest];
    }
  }

  lemma EmptyEnd()
    ensures End("", Outside) == Outside
  {
  }

  lemma BodyIsQuiet()
    ensures forall k :: 0 <= k < |Body| ==> Quiet(Body[k])
  {
    hide Quiet;
    FourMarks("#### Scenario: S");
    QuietLine("It MUST hold.");
    QuietLine("#### Scenario: S");
    QuietLine("- WHEN it runs");
    QuietLine("- THEN it holds");
    assert Body[0] == "It MUST hold." + "\n" && Body[1] == "#### Scenario: S" + "\n";
    assert Body[2] == "- WHEN it runs" + "\n" && Body[3] == "- THEN it holds" + "\n";
  }

  lemma FourMarks(line: string)
    requires |line| > 4 && line[0] == '#' && line[1] == '#' && line[2] == '#' && line[3] == '#' && line[4] != '#'
    ensures Marker(line, '#') == 4
  {
    ThreeMarks(line[1..]);
  }

  /** The addition is one section, a requirement of its own, and would stay inside a fence. */
  lemma AdditionReads()
    ensures Solo(Addition) && NameOf(Front(Addition)) == Some("B")
    ensures StaysInside(Addition, Inside('`', 3))
  {
    hide *;
    var first, rest := HEADING + "B" + "\n", Join(Body);
    LettersAreTrimmed();
    HeadingReads("B");
    RenamedReads("B");
    BodyIsQuiet();
    QuietText(Body);
    AdditionIs();
    NewlineLast(HEADING + "B");
    LineThenRest(first, rest);
    FirstThenRest(first, rest, Outside);
    FrontOfLine(first, rest);
    HeadIsTop("B");
    assert [""] + [Addition] == ["", Addition];
    SoloOf(Addition);
    StaysLonger(first, rest);
  }

  lemma AdditionIs()
    ensures Addition == HEADING + "B" + "\n" + Join(Body)
  {
  }

  lemma StaysLonger(line: string, rest: string)
    requires line != "" && LineLength(line + rest) == |line| && Step(Inside('`', 3), Text(line)).fence == Inside('`', 3)
    requires StaysInside(rest, Inside('`', 3))
    ensures StaysInside(line + rest, Inside('`', 3))
  {
    hide Step, Text;
    assert (line + rest)[..|line|] == line && (line + rest)[|line|..] == rest;
  }

  /** A sync that loses what it adds, although nothing is reported: the accepted document leaves
      a fence open behind its one requirement, and the rebuilt one lists that requirement only,
      the added text in its body. */
  lemma HiddenRequirement(rules: Rules)
    requires rules.identity("A") != rules.identity("B")
    ensures var ops := [Added("B", Addition)];
            var doc := Rebuilt(rules, ActionsOf(rules, ops), AddedBlocks(ops), Open);
            && Titled(rules, Open) && Pieces(Open, Outside)[1..] == [Open] && DiagnosticFree(rules, [Open], ops)
            && GivesNames(ops)
            && doc == Open + "\n" + Addition
            && Pieces(doc, Outside) == ["", doc] && Requirements([doc]) == [Requirement("A", TrimRight(doc))]
  {
    hide *;
    var operation := Added("B", Addition);
    var more := "\n" + Addition;
    var doc := Open + more;
    LettersAreTrimmed();
    OpenDocument(rules);
    AdditionReads();
    EditableAddition("B", Addition);
    OneOperation(rules, Open, "A", operation);
    NamesOfAddition(operation);
    OpenFront(rules);
    BehindOpenFence(rules, map[], [Addition], Open);
    AppendedToOpen();
    assert doc == Open + "\n" + Addition;
    OpenEnds();
    NewlineLast(HEADING + "A" + "\n" + "```");
    BlankStays(Addition);
    ConcatScan(Open, more, Outside);
    InsideIsPlain(more, Inside('`', 3));
    assert Glue(["", Open], [more]) == ["", doc] by { GlueTwo(Open, more); }
    FrontStays(Open, more);
    OwnNamed(doc, "A");
    OneSection(doc);
  }

  lemma OpenEnds()
    ensures Open == HEADING + "A" + "\n" + "```" + "\n"
  {
  }

  lemma EditableAddition(name: string, raw: string)
    requires Solo(raw) && NameOf(Front(raw)) == Some(name) && TrimSpace(name) != ""
    ensures Editable(Added(name, raw))
  {
  }

  lemma NamesOfAddition(operation: Operation)
    requires operation.Added?
    ensures GivesNames([operation])
  {
  }

  /** What stands before the insertion point of the open document. */
  lemma OpenFront(rules: Rules)
    ensures FrontText(rules, map[], Open) == Open && FrontEnd(rules, map[], Open) == Inside('`', 3)
  {
    hide Pieces, End, Front, NameOf, Join;
    OpenDocument(rules);
    assert Pieces(Open, Outside)[1..] == [Open];
    assert [Open][1..] == [] && [Open][..1] == [Open];
    assert ActionOn(rules, map[], Open) == None;
    assert EditSections(rules, map[], [Open][1..]) == [];
    assert EditSections(rules, map[], [Open]) == [Open];
    JoinOne([Open]);
    assert "" + Open == Open;
  }

  lemma AppendedToOpen()
    ensures Appended(Open, [Addition]) == Open + "\n" + Addition
  {
    OpenEnds();
    assert [Addition][1..] == [];
    TrimmedAddition();
    assert Open[|Open| - 1] == '\n' && Open[|Open| - 2] == '`';
    hide TrimRight, Missing, Join;
    assert Missing(Open) == "\n" by { MissingOne(Open); }
    assert Open + "\n" + TrimRight(Addition) + "\n" == Open + "\n" + (TrimRight(Addition) + "\n");
  }

  lemma MissingOne(out: string)
    requires |out| >= 2 && out[|out| - 1] == '\n' && out[|out| - 2] != '\n'
    ensures Missing(out) == "\n"
  {
  }

  lemma TrimmedAddition()
    ensures TrimRight(Addition) + "\n" == Addition
  {
    var last := "- THEN it holds";
    var front := HEADING + "B" + "\n" + (Body[0] + Body[1] + Body[2]);
    assert Join(Body[3..]) == Body[3] && Join(Body[2..]) == Body[2] + Body[3];
    assert Join(Body[1..]) == Body[1] + (Body[2] + Body[3]);
    assert Join(Body) == Body[0] + Body[1] + Body[2] + Body[3];
    assert Body[3] == last + "\n";
    hide *;
    assert Addition == front + last + "\n" by { AdditionIs(); }
    assert (front + last)[|front + last| - 1] == last[|last| - 1];
    TrimmedLine(front + last);
  }

  lemma TrimmedLine(line: string)
    requires line != "" && !Layout(line[|line| - 1])
    ensures TrimRight(line + "\n") == line
  {
    TrimRightIgnores(line, "\n");
  }

  lemma BlankStays(added: string)
    requires StaysInside(added, Inside('`', 3))
    ensures StaysInside("\n" + added, Inside('`', 3))
  {
    var more := "\n" + added;
    assert more[..1] == "\n" && more[1..] == added && LineLength(more) == 1;
    assert AllLayout("\n");
    BlankLineTurn("\n", Inside('`', 3));
  }

  /** A sync that drops a requirement, although nothing is reported: the one requirement is
      renamed to nothing, and the rebuilt document lists none. */
  lemma LostRename(rules: Rules)
    requires rules.identity("A") != rules.identity("")
    ensures var raw, ops := HEADING + "A" + "\n", [Renamed("A", "")];
            var doc := Rebuilt(rules, ActionsOf(rules, ops), AddedBlocks(ops), raw);
            && Sound(rules, raw) && Pieces(raw, Outside)[1..] == [raw] && DiagnosticFree(rules, [raw], ops)
            && Requirements([raw]) == [Requirement("A", TrimRight(raw))]
            && Requirements(Pieces(doc, Outside)[1..]) == []
  {
    hide *;
    var raw, operation := HEADING + "A" + "\n", Renamed("A", "");
    LettersAreTrimmed();
    OneRequirement("A");
    OneSection(raw);
    OwnNamed(raw, "A");
    assert Pieces(raw, Outside)[1..] == [raw];
    OneTitled(rules, raw, "A");
    EndOfSolo(raw);
    SoundParts(rules, raw);
    EmptyRename();
    OneOperation(rules, raw, "A", operation);
    var actions := map[rules.identity("A") := operation];
    OneEditable(rules.identity("A"), operation);
    NoBlocks();
    RequirementsOfRebuilt(rules, actions, [], raw);
    NoneSurvives(rules, raw);
    NoRequirements();
    assert SurvivingAll(rules, actions, [raw]) + Requirements([]) == [];
  }

  lemma EndOfSolo(s: string)
    requires Solo(s)
    ensures End(s, Outside) == Outside
  {
  }

  lemma EmptyRename()
    ensures Editable(Renamed("A", ""))
  {
  }

  lemma OneEditable(id: string, operation: Operation)
    requires Editable(operation) && !operation.Added?
    ensures EditableActions(map[id := operation])
  {
    hide Editable;
  }

  lemma NoBlocks()
    ensures AllSolo([])
  {
  }

  lemma NoneSurvives(rules: Rules, raw: string)
    requires NameOf(Front(raw)) == Some("A") && Named(raw)
    ensures SurvivingAll(rules, map[rules.identity("A") := Renamed("A", "")], [raw]) == []
  {
    hide Front, NameOf;
    assert [raw][1..] == [];
  }

  lemma LettersAreTrimmed()
    ensures TrimSpace("A") == "A" && TrimSpace("B") == "B"
  {
  }

  lemma HeadIsTop(name: string)
    ensures Top(Some(Head(3, PREFIX + name)))
  {
  }

  lemma NoHeadNoTop()
    ensures !Top(None)
  {
  }

  lemma GlueTwo(a: string, b: string)
    ensures Glue(["", a], [b]) == ["", a + b]
  {
  }

  lemma FrontOfOne(line: string)
    requires line != "" && LineLength(line) == |line|
    ensures Front(line) == Step(Outside, Text(line)).head
  {
    assert line[..|line|] == line;
  }

  lemma HeadingReads(name: string)
    requires name != "" && TrimSpace(name) == name && '\n' !in name
    ensures Step(Outside, Text(HEADING + name + "\n")) == Turn(Outside, Some(Head(3, PREFIX + name)))
    ensures Step(Inside('`', 3), Text(HEADING + name + "\n")).fence == Inside('`', 3)
    ensures LineLength(HEADING + name + "\n") == |HEADING + name + "\n"|
  {
    HeadingLineReads(name);
    SameTurn(Outside, HEADING + name, "\n");
    SameTurn(Inside('`', 3), HEADING + name, "\n");
    NoClosing(name);
    RetitledLine(name, "\n");
  }

  lemma NoClosing(name: string)
    ensures !Closes(HEADING + name, '`', 3)
  {
    var text := HEADING + name;
    assert text[0] == '#';
    assert TrimIndent(text) == text && Marker(text, '`') == 0;
  }

  lemma FenceReads()
    ensures Step(Outside, Text("```\n")) == Turn(Inside('`', 3), None) && LineLength("```\n") == 4
  {
    var text := "```";
    assert "```\n"[..3] == text;
    assert TrimIndent(text) == text;
    assert text[1..] == "``" && "``"[1..] == "`" && "`"[1..] == "";
    assert Marker("", '`') == 0 && Marker("`", '`') == 1 && Marker("``", '`') == 2 && Marker(text, '`') == 3;
    OneLineOnly("```\n");
  }
}
