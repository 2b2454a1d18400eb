/** Blocks added behind an open fence: exactly then a rescan does not find them, and nothing
    reports it (reconcile.go). */
module OpenFences {
  import opened Records
  import opened Markdown
  import opened Accepted
  import opened Reconcile
  import opened Rescan
  import opened SpecSync

  // ---------------------------------------------------------------------------------
  // Ink: the characters that are not layout
  // ---------------------------------------------------------------------------------

  function Ink(s: string): nat {
    if s == "" then 0 else Ink(s[..|s| - 1]) + (if Layout(s[|s| - 1]) then 0 else 1)
  }

  function InkOf(ss: seq<string>): nat {
    if ss == [] then 0 else Ink(ss[0]) + InkOf(ss[1..])
  }

  lemma {:induction false} InkConcat(a: string, b: string)
    ensures Ink(a + b) == Ink(a) + Ink(b)
  {
    if b == "" {
      assert a + b == a;
    } else {
      var last := |b| - 1;
      assert (a + b)[..|a + b| - 1] == a + b[..last];
      InkConcat(a, b[..last]);
    }
  }

  lemma {:induction false} LayoutHasNoInk(w: string)
    requires AllLayout(w)
    ensures Ink(w) == 0
  {
    if w != "" { LayoutHasNoInk(w[..|w| - 1]); }
  }

  lemma TrimmedInk(s: string)
    ensures Ink(TrimRight(s)) == Ink(s)
  {
    hide TrimRight;
    TrimRightSplits(s);
    var body := TrimRight(s);
    assert body + s[|body|..] == s;
    InkConcat(body, s[|body|..]);
    LayoutHasNoInk(s[|body|..]);
  }

  lemma FirstInk(s: string)
    requires s != "" && !Layout(s[0])
    ensures Ink(s) > 0
  {
    assert s == [s[0]] + s[1..];
    InkConcat([s[0]], s[1..]);
    assert [s[0]][..0] == "";
  }

  lemma {:induction false} InkOfConcat(a: seq<string>, b: seq<string>)
    ensures InkOf(a + b) == InkOf(a) + InkOf(b)
  {
    if a == [] {
      assert a + b == b;
    } else {
      assert (a + b)[1..] == a[1..] + b;
      InkOfConcat(a[1..], b);
    }
  }

  lemma {:induction false} InkOfJoin(ss: seq<string>)
    ensures InkOf(ss) == Ink(Join(ss))
  {
    if ss != [] {
      InkOfJoin(ss[1..]);
      InkConcat(ss[0], Join(ss[1..]));
    }
  }

  lemma {:induction false} InkOfBodies(ss: seq<string>)
    ensures InkOf(Bodies(ss)) == InkOf(ss)
  {
    hide TrimRight;
    if ss != [] {
      assert Bodies(ss)[1..] == Bodies(ss[1..]) && Bodies(ss)[0] == TrimRight(ss[0]);
      InkOfBodies(ss[1..]);
      TrimmedInk(ss[0]);
    }
  }

  // ---------------------------------------------------------------------------------
  // What is written behind the front
  // ---------------------------------------------------------------------------------

  lemma {:induction false} AppendedGrows(out: string, blocks: seq<string>)
    ensures out <= Appended(out, blocks) && Ink(Appended(out, blocks)) == Ink(out) + InkOf(blocks)
    decreases |blocks|
  {
    hide TrimRight, Missing;
    if blocks != [] {
      var body := TrimRight(blocks[0]);
      var next := Spaced(out) + body + "\n";
      AppendedGrows(next, blocks[1..]);
      SpacedIsLayout(out);
      LayoutHasNoInk(Missing(out));
      InkConcat(out, Missing(out));
      InkConcat(Spaced(out), body);
      InkConcat(Spaced(out) + body, "\n");
      assert Ink("\n") == 0 by { LayoutHasNoInk("\n"); }
      TrimmedInk(blocks[0]);
      assert next == out + (Missing(out) + body + "\n");
    }
  }

  /** Behind the front and its blank line comes the first added block, and in all as much ink as
      there is in the added blocks. */
  lemma AppendedSplits(front: string, added: seq<string>) returns (more: string)
    requires added != [] && Solo(added[0])
    ensures Appended(front, added) == Spaced(front) + more
    ensures more != "" && more[0] == '#' && Ink(more) == InkOf(added)
  {
    hide *;
    var body := TrimRight(added[0]);
    var next := Spaced(front) + body + "\n";
    AppendedGrows(front, added);
    AppendedGrows(next, added[1..]);
    AppendedFirst(front, added);
    UnfoldSpaced(front);
    more := Appended(front, added)[|Spaced(front)|..];
    TrimmedSolo(added[0]);
    SoloIsSection(body);
    BeginsWithMark(body, Outside);
    assert next == Spaced(front) + (body + "\n");
    assert next <= Appended(front, added);
    assert Appended(front, added)[..|next|] == next;
    assert Appended(front, added)[|Spaced(front)|] == next[|Spaced(front)|] == body[0];
    SpacedIsLayout(front);
    LayoutHasNoInk(Missing(front));
    InkConcat(front, Missing(front));
    InkConcat(Spaced(front), more);
  }

  lemma AppendedFirst(front: string, added: seq<string>)
    requires added != []
    ensures Appended(front, added) == Appended(Spaced(front) + TrimRight(added[0]) + "\n", added[1..])
  {
  }

  lemma SoloIsSection(s: string)
    requires Solo(s)
    ensures Section(s, Outside)
  {
  }

  /** Scanned behind an open fence, the text's first line begins no piece. */
  lemma SwallowedLine(more: string, fence: Fence)
    requires more != "" && more[0] == '#' && fence.Inside?
    ensures Pieces(more, fence)[0] != "" && Ink(Pieces(more, fence)[0]) > 0
  {
    hide Text, Ink;
    var line, tail, turn := UnfoldPieces(more, fence);
    var piece := Pieces(more, fence)[0];
    assert turn.head == None;
    assert piece[0] == '#';
    FirstInk(piece);
  }

  /** The pieces of a document whose blocks were appended behind an open fence: those of the
      front, the last one running on, and then fewer than were added. */
  lemma Swallowed(front: string, added: seq<string>) returns (w: string, qs: seq<string>)
    requires added != [] && Solo(added[0]) && End(front, Outside).Inside?
    ensures AllLayout(w) && qs != [] && Ink(qs[0]) > 0 && InkOf(qs) == InkOf(added)
    ensures Pieces(Appended(front, added), Outside) == Glue(Padded(Pieces(front, Outside), w), qs)
    ensures var ps := Pieces(front, Outside); Terminated(ps[|ps| - 1] + w)
  {
    hide *;
    var more := AppendedSplits(front, added);
    w := Missing(front);
    SpacedIsLayout(front);
    assert Spaced(front) == front + w by { UnfoldSpaced(front); }
    assert Outside.Valid() by { OutsideIsValid(); }
    TrailingLayout(front, w, Outside);
    ConcatScan(Spaced(front), more, Outside);
    qs := Pieces(more, End(front, Outside));
    SwallowedLine(more, End(front, Outside));
    PiecesJoin(more, End(front, Outside));
    InkOfJoin(qs);
    PiecesJoin(Spaced(front), Outside);
    PaddedLast(Pieces(front, Outside), w);
    LastOfJoin(Padded(Pieces(front, Outside), w));
  }

  lemma PaddedLast(ps: seq<string>, w: string)
    requires ps != []
    ensures |Padded(ps, w)| == |ps| && Padded(ps, w)[|ps| - 1] == ps[|ps| - 1] + w
  {
  }

  /** A text that ends in a newline has a last piece that does. */
  lemma {:induction false} LastOfJoin(ps: seq<string>)
    requires ps != [] && Terminated(Join(ps))
    ensures Terminated(ps[|ps| - 1])
  {
    if |ps| == 1 {
      assert ps[1..] == [] && Join(ps) == ps[0];
    } else {
      assert Join(ps) == ps[0] + Join(ps[1..]);
      LastOfJoin(ps[1..]);
    }
  }

  lemma UnfoldSpaced(out: string)
    ensures Spaced(out) == out + Missing(out)
  {
  }

  lemma OutsideIsValid()
    ensures Outside.Valid()
  {
  }

  // ---------------------------------------------------------------------------------
  // Exactly when additions are found
  // ---------------------------------------------------------------------------------

  /** The added blocks are pieces of their own, from piece `n` on. */
  predicate FoundAt(doc: string, n: nat, added: seq<string>) {
    var ps := Pieces(doc, Outside);
    n + |added| <= |ps| && Bodies(ps[n..n + |added|]) == Bodies(added)
  }

  /** Where a rescan should find them. */
  function PlaceOf(rules: Rules, actions: Actions, raw: string): nat {
    var ss := Pieces(raw, Outside)[1..];
    1 + |EditSections(rules, actions, ss[..InsertionPoint(ss)])|
  }

  /** Added blocks are found at their place in the rebuilt document exactly when the text before
      them leaves no fence open. */
  lemma AddedIsFound(rules: Rules, actions: Actions, added: seq<string>, raw: string)
    requires EditableActions(actions) && AllSolo(added) && added != []
    ensures FoundAt(Rebuilt(rules, actions, added, raw), PlaceOf(rules, actions, raw), added)
            <==> FrontEnd(rules, actions, raw) == Outside
    ensures End(FrontText(rules, actions, raw), Outside) == FrontEnd(rules, actions, raw)
  {
    hide *;
    FrontReads(rules, actions, raw);
    FrontFence(rules, actions, raw);
    if FrontEnd(rules, actions, raw) == Outside {
      RescanFinds(rules, actions, added, raw);
      var ss := Pieces(raw, Outside)[1..];
      FoundInOrder(rules, actions, added, raw, if InsertionPoint(ss) < |ss| then End(raw, Outside) else Outside);
    } else {
      BehindOpenFence(rules, actions, added, raw);
      FirstIsSolo(added);
      var w, qs := Swallowed(FrontText(rules, actions, raw), added);
      NotFound(Pieces(FrontText(rules, actions, raw), Outside), w, qs, added, Rebuilt(rules, actions, added, raw),
               PlaceOf(rules, actions, raw));
    }
  }

  lemma FirstIsSolo(added: seq<string>)
    requires AllSolo(added) && added != []
    ensures Solo(added[0])
  {
    hide Solo;
  }

  lemma FrontFence(rules: Rules, actions: Actions, raw: string)
    requires EditableActions(actions)
    ensures var ps := Pieces(FrontText(rules, actions, raw), Outside);
            && End(FrontText(rules, actions, raw), Outside) == FrontEnd(rules, actions, raw)
            && |ps| == PlaceOf(rules, actions, raw)
  {
    hide End, Pieces, EditSections, InsertionPoint, FrontEnd, FrontText, EditableActions, TrimRight;
    FrontReads(rules, actions, raw);
    var ps := Pieces(FrontText(rules, actions, raw), Outside);
    assert |Bodies(ps)| == |ps|;
  }

  lemma FoundInOrder(rules: Rules, actions: Actions, added: seq<string>, raw: string, after: Fence)
    requires Reads(Rebuilt(rules, actions, added, raw), Expected(rules, actions, added, raw), after)
    ensures FoundAt(Rebuilt(rules, actions, added, raw), PlaceOf(rules, actions, raw), added)
  {
    hide Pieces, End, EditSections, InsertionPoint, Rebuilt, TrimRight;
    var ss := Pieces(raw, Outside)[1..];
    var k, n := InsertionPoint(ss), PlaceOf(rules, actions, raw);
    var ps := Pieces(Rebuilt(rules, actions, added, raw), Outside);
    var before := Bodies([Pieces(raw, Outside)[0]]) + Bodies(EditSections(rules, actions, ss[..k]));
    assert Bodies(ps) == before + Bodies(added) + Bodies(ss[k..]);
    assert |before| == n && |Bodies(ps)| == |ps|;
    assert Bodies(ps)[n..n + |added|] == Bodies(added);
    assert Bodies(ps[n..n + |added|]) == Bodies(ps)[n..n + |added|];
  }

  /** An open fence before the insertion point means that nothing follows it. */
  lemma BehindOpenFence(rules: Rules, actions: Actions, added: seq<string>, raw: string)
    requires FrontEnd(rules, actions, raw) != Outside && added != []
    ensures Rebuilt(rules, actions, added, raw) == Appended(FrontText(rules, actions, raw), added)
    ensures FrontEnd(rules, actions, raw).Inside?
    ensures InsertionPoint(Pieces(raw, Outside)[1..]) == |Pieces(raw, Outside)[1..]|
  {
    hide *;
    var ss := Pieces(raw, Outside)[1..];
    var k := InsertionPoint(ss);
    UnfoldRebuilt(rules, actions, added, raw);
    OutsideStays(rules, actions, ss[..k]);
    PointIsInside(ss);
    assert ss[|ss|..] == [];
    NothingInserted(FrontText(rules, actions, raw), added);
    InsideOrOutside(FrontEnd(rules, actions, raw));
  }

  lemma NothingInserted(front: string, added: seq<string>)
    requires added != []
    ensures Inserted(front, Join([]), added) == Appended(front, added)
  {
    hide Appended;
    assert TrimSpace("") == "" by { TrimSpaceOfWhite(""); }
  }

  lemma InsideOrOutside(fence: Fence)
    ensures fence != Outside ==> fence.Inside?
  {
  }

  lemma NotFound(ps: seq<string>, w: string, qs: seq<string>, added: seq<string>, doc: string, n: nat)
    requires ps != [] && qs != [] && |ps| == n && Ink(qs[0]) > 0 && InkOf(qs) == InkOf(added)
    requires Pieces(doc, Outside) == Glue(Padded(ps, w), qs)
    ensures !FoundAt(doc, n, added)
  {
    hide Pieces, Ink, TrimRight, InkOf;
    var all := Pieces(doc, Outside);
    assert all[n..] == qs[1..];
    if FoundAt(doc, n, added) {
      var found := all[n..n + |added|];
      assert found == qs[1..][..|added|];
      assert qs[1..] == found + qs[1..][|added|..];
      InkOfConcat(found, qs[1..][|added|..]);
      InkOfBodies(found);
      InkOfBodies(added);
      FirstOf(qs);
      assert false;
    }
  }

  lemma FirstOf(qs: seq<string>)
    requires qs != []
    ensures InkOf(qs) == Ink(qs[0]) + InkOf(qs[1..])
  {
  }

  // ---------------------------------------------------------------------------------
  // Exactly when a sync does what it should
  // ---------------------------------------------------------------------------------

  function InkIn(rs: seq<Requirement>): nat {
    if rs == [] then 0 else Ink(rs[0].body) + InkIn(rs[1..])
  }

  lemma {:induction false} InkOfRequirements(ss: seq<string>)
    ensures InkIn(Requirements(ss)) <= InkOf(ss)
    ensures (forall k :: 0 <= k < |ss| ==> Named(ss[k])) ==> InkIn(Requirements(ss)) == InkOf(ss)
  {
    hide Named, TrimRight, Front, NameOf, Ink, RequirementOf, Requirements;
    if ss == [] { NoRequirements(); } else {
      var own, rest := RequirementOf(ss[0]), Requirements(ss[1..]);
      InkOfRequirements(ss[1..]);
      TrimmedInk(ss[0]);
      OwnRequirement(ss[0], ss[0]);
      assert own == [] ==> own + rest == rest;
      assert own != [] ==> (own + rest)[1..] == rest;
      assert Requirements(ss) == own + rest by { RequirementsCons(ss[0], ss[1..]); assert [ss[0]] + ss[1..] == ss; }
    }
  }

  /** Text behind a terminated one does not change what it begins with. */
  lemma FrontStays(t: string, u: string)
    requires t != "" && Terminated(t)
    ensures Front(t + u) == Front(t)
  {
    hide Text, Step;
    CutLine(t, u);
  }

  /** The requirements of the swallowed pieces are never those that were added. */
  lemma TooLittleInk(qs: seq<string>, added: seq<string>)
    requires qs != [] && Ink(qs[0]) > 0 && InkOf(qs) == InkOf(added) && forall k :: 0 <= k < |added| ==> Named(added[k])
    ensures Requirements(qs[1..]) != Requirements(added)
  {
    hide Requirements, Ink, Named;
    FirstOf(qs);
    InkOfRequirements(qs[1..]);
    InkOfRequirements(added);
  }

  /** A section that runs on is no longer the requirement it was. */
  lemma RunningOn(last: string, w: string, q: string)
    requires last != "" && AllLayout(w) && Terminated(last + w) && Ink(q) > 0
    ensures var running := last + w + q;
            && Front(running) == Front(last) && TrimRight(running) != TrimRight(last)
  {
    hide Front, TrimRight, Ink;
    FrontIgnores(last, w);
    FrontStays(last + w, q);
    InkConcat(last + w, q);
    InkConcat(last, w);
    TrimmedInk(last + w + q);
    TrimmedInk(last);
  }

  /** Sections whose last one runs on into swallowed text list other requirements. */
  lemma OtherRequirements(before: seq<string>, last: string, w: string, qs: seq<string>, added: seq<string>)
    requires last != "" && AllLayout(w) && Terminated(last + w)
    requires qs != [] && Ink(qs[0]) > 0 && InkOf(qs) == InkOf(added) && forall k :: 0 <= k < |added| ==> Named(added[k])
    ensures Requirements(before + [last + w + qs[0]] + qs[1..]) != Requirements(before + [last]) + Requirements(added)
  {
    hide *;
    var running := last + w + qs[0];
    RunningOn(last, w, qs[0]);
    TooLittleInk(qs, added);
    RequirementsConcat(before + [running], qs[1..]);
    RequirementsConcat(before, [running]);
    RequirementsConcat(before, [last]);
    OneSection(running);
    OneSection(last);
    OwnRequirement(last, running);
    ListsDiffer(Requirements(before), RequirementOf(running), Requirements(qs[1..]), RequirementOf(last),
                Requirements(added));
  }

  lemma ListsDiffer<T>(r: seq<T>, a: seq<T>, c: seq<T>, b: seq<T>, d: seq<T>)
    requires if a == [] then b == [] && c != d else |a| == |b| == 1 && a[0] != b[0]
    ensures r + a + c != r + b + d
  {
    assert (r + a + c)[|r|..] == a + c && (r + b + d)[|r|..] == b + d;
    assert a == [] ==> a + c == c && b + d == d;
    assert a != [] ==> (a + c)[0] == a[0] && (b + d)[0] == b[0];
  }

  lemma OneSection(s: string)
    ensures Requirements([s]) == RequirementOf(s)
  {
    hide RequirementOf;
    RequirementsCons(s, []);
    assert [s] + [] == [s] && Requirements([]) == [] && RequirementOf(s) + [] == RequirementOf(s);
  }

  lemma OwnRequirement(last: string, running: string)
    requires Front(running) == Front(last)
    ensures Named(last) <==> Named(running)
    ensures if Named(last)
            then |RequirementOf(last)| == |RequirementOf(running)| == 1
                 && RequirementOf(last)[0].body == TrimRight(last)
                 && RequirementOf(running)[0].body == TrimRight(running)
            else RequirementOf(last) == [] && RequirementOf(running) == []
  {
    hide Front, TrimRight, NameOf;
  }

  /** Behind an open fence the promised requirement list is never what a rescan finds. */
  lemma SwallowedRequirements(rules: Rules, actions: Actions, added: seq<string>, raw: string)
    requires EditableActions(actions) && AllSolo(added) && added != [] && forall k :: 0 <= k < |added| ==>
               Named(added[k])
    requires FrontEnd(rules, actions, raw) != Outside
    ensures Requirements(Pieces(Rebuilt(rules, actions, added, raw), Outside)[1..]) !=
            SurvivingAll(rules, actions, Pieces(raw, Outside)[1..]) + Requirements(added)
  {
    hide *;
    var ss := Pieces(raw, Outside)[1..];
    var front := FrontText(rules, actions, raw);
    var edits := EditSections(rules, actions, ss[..InsertionPoint(ss)]);
    FrontReads(rules, actions, raw);
    BehindOpenFence(rules, actions, added, raw);
    FrontPieces(front, Bodies([Pieces(raw, Outside)[0]]), edits, FrontEnd(rules, actions, raw));
    FrontRequirements(rules, actions, raw);
    FirstIsSolo(added);
    var w, qs := Swallowed(front, added);
    var ps := Pieces(front, Outside);
    if |ps| == 1 {
      TooLittleInk(qs, added);
      assert Glue(Padded(ps, w), qs)[1..] == qs[1..] by { GlueOne(ps, w, qs); }
      NoRequirements();
      assert ps[1..] == [];
      assert [] + Requirements(added) == Requirements(added);
    } else {
      var before, last := ps[1..|ps| - 1], ps[|ps| - 1];
      GlueMany(ps, w, qs);
      assert ps[1..] == before + [last];
      LastPiece(front);
      OtherRequirements(before, last, w, qs, added);
    }
  }

  lemma NoRequirements()
    ensures Requirements([]) == []
  {
  }

  lemma GlueOne(ps: seq<string>, w: string, qs: seq<string>)
    requires |ps| == 1 && qs != []
    ensures Glue(Padded(ps, w), qs)[1..] == qs[1..]
  {
  }

  lemma GlueMany(ps: seq<string>, w: string, qs: seq<string>)
    requires |ps| > 1 && qs != []
    ensures Glue(Padded(ps, w), qs)[1..] == ps[1..|ps| - 1] + [ps[|ps| - 1] + w + qs[0]] + qs[1..]
  {
  }

  lemma FrontPieces(front: string, lead: seq<string>, edits: seq<string>, after: Fence)
    requires |lead| == 1 && Reads(front, lead + Bodies(edits), after)
    ensures End(front, Outside) == after
    ensures Requirements(Pieces(front, Outside)[1..]) == Requirements(edits)
  {
    hide End, Pieces, TrimRight, Requirements;
    var ps := Pieces(front, Outside);
    assert Bodies(ps[1..]) == Bodies(ps)[1..] == Bodies(edits);
    RequirementsByBodies(ps[1..], edits);
  }

  lemma LastPiece(t: string)
    requires |Pieces(t, Outside)| > 1
    ensures var ps := Pieces(t, Outside); ps[|ps| - 1] != ""
  {
    hide *;
    var ps := Pieces(t, Outside);
    var fence := End(t, Outside);
    LeadReads(t);
    LastIsSection(ps[1..], fence);
  }

  lemma {:induction false} LastIsSection(ss: seq<string>, after: Fence)
    requires ss != [] && Chain(ss, after)
    ensures ss[|ss| - 1] != ""
  {
    hide Section;
    if |ss| == 1 {
      NotEmpty(ss[0], after);
    } else {
      LastIsSection(ss[1..], after);
    }
  }

  // ---------------------------------------------------------------------------------
  // A delta without diagnostics
  // ---------------------------------------------------------------------------------

  /** A sync leaves the requirement list it should exactly when its renames give names and what
      it adds is not put behind an open fence. Nothing reports the other cases. */
  lemma SyncExactly(rules: Rules, raw: string, ops: seq<Operation>)
    requires Titled(rules, raw) && DiagnosticFree(rules, Pieces(raw, Outside)[1..], ops)
    ensures var actions := ActionsOf(rules, ops);
            Requirements(Pieces(Rebuilt(rules, actions, AddedBlocks(ops), raw), Outside)[1..]) ==
            RewrittenAll(rules, actions, Pieces(raw, Outside)[1..]) + AddedRequirements(ops)
            <==> GivesNames(ops) && (AddedBlocks(ops) == [] || FrontEnd(rules, actions, raw) == Outside)
  {
    hide *;
    var ss, actions := Pieces(raw, Outside)[1..], ActionsOf(rules, ops);
    var added := AddedBlocks(ops);
    var found := Requirements(Pieces(Rebuilt(rules, actions, added, raw), Outside)[1..]);
    FreeIsEditable(rules, ss, ops);
    AddedOnes(ops);
    ActionsAreSafe(rules, ss, ops);
    TitledParts(rules, raw);
    if !(AddedBlocks(ops) == [] || FrontEnd(rules, actions, raw) == Outside) && GivesNames(ops) {
      AddedAreNamed(ops);
      SwallowedRequirements(rules, actions, added, raw);
      AllSurvive(rules, actions, ss);
    } else if GivesNames(ops) {
      SyncKeepsSound(rules, raw, ops);
    } else {
      NamelessPromise(rules, ss, ops, found, Pieces(Rebuilt(rules, actions, added, raw), Outside)[1..]);
    }
  }

  lemma {:induction false} AddedAreNamed(ops: seq<Operation>)
    requires AllEditable(ops)
    ensures forall k :: 0 <= k < |AddedBlocks(ops)| ==> Named(AddedBlocks(ops)[k])
  {
    hide Solo, Front, NameOf;
    if ops != [] {
      var before, last := ops[..|ops| - 1], ops[|ops| - 1];
      AddedAreNamed(before);
      if last.Added? { NamedRaw(last.raw, last.name); }
    }
  }

  lemma NamedRaw(raw: string, name: string)
    requires NameOf(Front(raw)) == Some(name) && TrimSpace(name) != ""
    ensures Named(raw)
  {
    NotBlank(name);
  }

  lemma {:induction false} RequirementsAreNamed(ss: seq<string>, r: Requirement)
    requires r in Requirements(ss)
    ensures r.name != ""
  {
    hide Front, NameOf, TrimRight;
    if r in Requirements(ss[1..]) { RequirementsAreNamed(ss[1..], r); }
  }

  /** The requirement an operation of the planner renames to nothing is promised without a name,
      and no document lists such a one. */
  lemma NamelessPromise(rules: Rules, ss: seq<string>, ops: seq<Operation>, found: seq<Requirement>, after: seq<string>)
    requires DiagnosticFree(rules, ss, ops) && Distinct(Identities(rules, Requirements(ss))) && !GivesNames(ops)
    requires found == Requirements(after)
    ensures found != RewrittenAll(rules, ActionsOf(rules, ops), ss) + AddedRequirements(ops)
  {
    var p :| 0 <= p < |ops| && ops[p].Renamed? && ops[p].to == "";
    hide *;
    var actions := ActionsOf(rules, ops);
    var k := EveryOperationHits(rules, ss, ops, p);
    var r := NamelessRewrite(rules, actions, ss, k);
    if r in found { RequirementsAreNamed(after, r); }
    assert r in RewrittenAll(rules, actions, ss) + AddedRequirements(ops);
  }

  lemma {:induction false} NamelessRewrite(rules: Rules, actions: Actions, ss: seq<string>, k: nat)
    returns (r: Requirement)
    requires k < |Requirements(ss)|
    requires var id := rules.identity(Requirements(ss)[k].name);
             id in actions && actions[id].Renamed? && actions[id].to == ""
    ensures r in RewrittenAll(rules, actions, ss) && r.name == ""
  {
    hide Front, NameOf, TrimRight, Retitled;
    var own := RequirementOf(ss[0]);
    assert ss == [ss[0]] + ss[1..];
    RequirementsCons(ss[0], ss[1..]);
    if k < |own| {
      r := Rewritten(ActionOn(rules, actions, ss[0]), ss[0])[0];
    } else {
      r := NamelessRewrite(rules, actions, ss[1..], k - |own|);
    }
  }
}
