/** A sync of one accepted specification: the planner's checks, the rewriter, and the proof that
    what the planner accepts the rewriter applies, leaving a valid specification again
    (plan/deltas.go, reconcile.go). */
module SpecSync {
  import opened Records
  import opened Markdown
  import opened Accepted
  import opened Reconcile
  import opened Rescan
  import Scanners

  // ---------------------------------------------------------------------------------
  // Requirements after the edits
  // ---------------------------------------------------------------------------------

  /** What becomes of one section's requirement. */
  function Rewritten(operation: Option<Operation>, s: string): seq<Requirement> {
    if !Named(s) then []
    else
      match operation
      case None => [Requirement(NameOf(Front(s)).value, TrimRight(s))]
      case Some(Removed(_)) => []
      case Some(Modified(name, raw)) => [Requirement(name, TrimRight(raw))]
      case Some(Renamed(_, to)) => [Requirement(to, TrimRight(Retitled(to, s)))]
      case Some(Added(_, _)) => [Requirement(NameOf(Front(s)).value, TrimRight(s))]
  }

  function RewrittenAll(rules: Rules, actions: Actions, ss: seq<string>): seq<Requirement> {
    if ss == [] then [] else Rewritten(ActionOn(rules, actions, ss[0]), ss[0]) + RewrittenAll(rules, actions, ss[1..])
  }

  /** What is left of it: a requirement renamed to nothing is not there to be found. */
  function Surviving(operation: Option<Operation>, s: string): seq<Requirement> {
    if operation.Some? && operation.value.Renamed? && operation.value.to == "" then [] else Rewritten(operation, s)
  }

  function SurvivingAll(rules: Rules, actions: Actions, ss: seq<string>): seq<Requirement> {
    if ss == [] then [] else Surviving(ActionOn(rules, actions, ss[0]), ss[0]) + SurvivingAll(rules, actions, ss[1..])
  }

  predicate NamesGiven(actions: Actions) {
    forall id :: id in actions ==> actions[id].Renamed? ==> actions[id].to != ""
  }

  lemma {:induction false} AllSurvive(rules: Rules, actions: Actions, ss: seq<string>)
    requires NamesGiven(actions)
    ensures SurvivingAll(rules, actions, ss) == RewrittenAll(rules, actions, ss)
  {
    hide Rewritten, Named, Front;
    if ss != [] { AllSurvive(rules, actions, ss[1..]); }
  }

  function RequirementOf(s: string): seq<Requirement> {
    if Named(s) then [Requirement(NameOf(Front(s)).value, TrimRight(s))] else []
  }

  lemma RequirementsCons(s: string, ss: seq<string>)
    ensures Requirements([s] + ss) == RequirementOf(s) + Requirements(ss)
  {
    hide Front, NameOf, TrimRight;
    assert ([s] + ss)[1..] == ss;
  }

  lemma {:induction false} RequirementsConcat(a: seq<string>, b: seq<string>)
    ensures Requirements(a + b) == Requirements(a) + Requirements(b)
  {
    hide Named, Front, NameOf, TrimRight;
    if a == [] {
      assert a + b == b;
    } else {
      assert a + b == [a[0]] + (a[1..] + b) && a == [a[0]] + a[1..];
      RequirementsCons(a[0], a[1..] + b);
      RequirementsCons(a[0], a[1..]);
      RequirementsConcat(a[1..], b);
    }
  }

  lemma FrontOfBody(s: string)
    ensures Front(TrimRight(s)) == Front(s)
  {
    hide TrimRight;
    TrimRightSplits(s);
    var body := TrimRight(s);
    if body == "" {
      BlankFront(s);
    } else {
      FrontIgnores(body, s[|body|..]);
      assert body + s[|body|..] == s;
    }
  }

  lemma BlankFront(s: string)
    requires AllLayout(s)
    ensures Front(s) == None
  {
    if s != "" { BlankLineTurn(s[..LineLength(s)], Outside); }
  }

  lemma {:induction false} RequirementsByBodies(ss: seq<string>, ts: seq<string>)
    requires Bodies(ss) == Bodies(ts)
    ensures Requirements(ss) == Requirements(ts)
  {
    hide Front, TrimRight, Named, NameOf, RequirementOf;
    assert |ss| == |Bodies(ss)| == |ts|;
    if ss != [] {
      assert Bodies(ss)[0] == Bodies(ts)[0];
      FrontOfBody(ss[0]);
      FrontOfBody(ts[0]);
      assert Bodies(ss[1..]) == Bodies(ss)[1..] == Bodies(ts[1..]);
      RequirementsByBodies(ss[1..], ts[1..]);
      SameRequirement(ss[0], ts[0]);
      assert ss == [ss[0]] + ss[1..] && ts == [ts[0]] + ts[1..];
      RequirementsCons(ss[0], ss[1..]);
      RequirementsCons(ts[0], ts[1..]);
    }
  }

  lemma SameRequirement(s: string, t: string)
    requires TrimRight(s) == TrimRight(t) && Front(s) == Front(t)
    ensures RequirementOf(s) == RequirementOf(t)
  {
    hide Front, TrimRight, NameOf;
  }

  /** An edited section carries the requirement it was edited into. */
  lemma EditedRequirement(operation: Option<Operation>, s: string, after: Fence)
    requires Section(s, after) && (operation.Some? ==> Named(s) && Editable(operation.value) && !operation.value.Added?)
    ensures (if Dropped(operation) then [] else RequirementOf(Edited(operation, s))) == Surviving(operation, s)
  {
    hide Section, Solo, Front, TrimRight, Retitled, Replaced, NameOf;
    if !Dropped(operation) {
      EditedIsSection(operation, s, after);
      match operation
      case None =>
      case Some(Modified(name, raw)) =>
        NotEmpty(s, after);
        ReplacedIsSolo(raw, s);
        NotBlank(name);
      case Some(Renamed(_, to)) =>
    }
  }

  lemma NotBlank(name: string)
    requires TrimSpace(name) != ""
    ensures name != ""
  {
  }

  lemma {:induction false} EditedRequirements(rules: Rules, actions: Actions, ss: seq<string>, after: Fence)
    requires Chain(ss, after) && EditableActions(actions)
    ensures Requirements(EditSections(rules, actions, ss)) == SurvivingAll(rules, actions, ss)
  {
    hide Section, Solo, Terminated, Edited, Editable, Front, Surviving, RequirementOf, TrimRight, Named;
    if ss != [] {
      var s, rest := ss[0], ss[1..];
      var operation := ActionOn(rules, actions, s);
      var edits := EditSections(rules, actions, rest);
      if rest == [] { LastSection(ss, after); } else { FirstTerminated(ss, after); }
      EditedRequirements(rules, actions, rest, after);
      ActionIsEditable(rules, actions, s);
      EditedRequirement(operation, s, if rest == [] then after else Outside);
      if Dropped(operation) {
        assert EditSections(rules, actions, ss) == [] + edits == edits;
      } else {
        assert EditSections(rules, actions, ss) == [Edited(operation, s)] + edits;
        RequirementsCons(Edited(operation, s), edits);
      }
    }
  }

  lemma {:induction false} SurvivingConcat(rules: Rules, actions: Actions, a: seq<string>, b: seq<string>)
    ensures SurvivingAll(rules, actions, a + b) == SurvivingAll(rules, actions, a) + SurvivingAll(rules, actions, b)
  {
    hide Surviving, ActionOn;
    if a == [] {
      assert a + b == b;
    } else {
      assert (a + b)[1..] == a[1..] + b;
      SurvivingConcat(rules, actions, a[1..], b);
    }
  }

  lemma {:induction false} UnnamedTail(rules: Rules, actions: Actions, ss: seq<string>, k: nat)
    requires LastNamed(ss) <= k <= |ss|
    ensures SurvivingAll(rules, actions, ss[k..]) == [] && Requirements(ss[k..]) == []
    decreases |ss|
  {
    hide Named, SurvivingAll, Requirements;
    if k == |ss| {
      assert ss[k..] == [];
      NoneNamed(rules, actions, ss[k..]);
    } else if k == 0 {
      NoneNamed(rules, actions, ss);
      assert ss[0..] == ss;
    } else {
      UnnamedTail(rules, actions, ss[1..], k - 1);
      assert ss[1..][k - 1..] == ss[k..];
    }
  }

  lemma {:induction false} NoneNamed(rules: Rules, actions: Actions, ss: seq<string>)
    requires LastNamed(ss) == 0
    ensures SurvivingAll(rules, actions, ss) == [] && Requirements(ss) == []
  {
    hide Front, NameOf, ActionOn, TrimRight;
    if ss != [] {
      NoneNamed(rules, actions, ss[1..]);
    }
  }

  /** The requirement list of the rebuilt document: the old one with removed requirements
      dropped, modified and renamed ones replaced, untouched ones identical, and the added ones
      at its end, provided nothing is added behind an open fence. */
  lemma RequirementsOfRebuilt(rules: Rules, actions: Actions, added: seq<string>, raw: string)
    requires EditableActions(actions) && AllSolo(added)
    requires added == [] || FrontEnd(rules, actions, raw) == Outside
    ensures var ss := Pieces(raw, Outside)[1..];
            var after := Pieces(Rebuilt(rules, actions, added, raw), Outside)[1..];
            && Requirements(after) == SurvivingAll(rules, actions, ss) + Requirements(added)
            && (NamesGiven(actions) ==> Requirements(after) == RewrittenAll(rules, actions, ss) + Requirements(added))
  {
    hide *;
    var ss := Pieces(raw, Outside)[1..];
    var k := InsertionPoint(ss);
    var edits, tail := EditSections(rules, actions, ss[..k]), ss[k..];
    SectionsOfRebuilt(rules, actions, added, raw);
    RequirementsByBodies(Pieces(Rebuilt(rules, actions, added, raw), Outside)[1..], edits + added + tail);
    RequirementsConcat(edits + added, tail);
    RequirementsConcat(edits, added);
    FrontRequirements(rules, actions, raw);
    if NamesGiven(actions) { AllSurvive(rules, actions, ss); }
  }

  /** The requirements before and behind the insertion point. */
  lemma FrontRequirements(rules: Rules, actions: Actions, raw: string)
    requires EditableActions(actions)
    ensures var ss := Pieces(raw, Outside)[1..];
            var k := InsertionPoint(ss);
            && Requirements(EditSections(rules, actions, ss[..k])) == SurvivingAll(rules, actions, ss)
            && Requirements(ss[k..]) == []
  {
    hide *;
    var ss := Pieces(raw, Outside)[1..];
    var k := InsertionPoint(ss);
    LeadReads(raw);
    SplitChain(ss, k, End(raw, Outside));
    EditedRequirements(rules, actions, ss[..k], if k < |ss| then Outside else End(raw, Outside));
    UnnamedTail(rules, actions, ss, k);
    SurvivingConcat(rules, actions, ss[..k], ss[k..]);
    assert ss[..k] + ss[k..] == ss;
  }

  /** The sections of the rebuilt document, up to trailing layout. */
  lemma SectionsOfRebuilt(rules: Rules, actions: Actions, added: seq<string>, raw: string)
    requires EditableActions(actions) && AllSolo(added)
    requires added == [] || FrontEnd(rules, actions, raw) == Outside
    ensures var ss := Pieces(raw, Outside)[1..];
            var k := InsertionPoint(ss);
            var doc := Rebuilt(rules, actions, added, raw);
            && End(doc, Outside) == (if k < |ss| then End(raw, Outside) else FrontEnd(rules, actions, raw))
            && Bodies(Pieces(doc, Outside)[1..]) == Bodies(EditSections(rules, actions, ss[..k]) + added + ss[k..])
  {
    hide *;
    var ss := Pieces(raw, Outside)[1..];
    RescanFinds(rules, actions, added, raw);
    SplitLead(rules, actions, added, raw, Rebuilt(rules, actions, added, raw),
              if InsertionPoint(ss) < |ss| then End(raw, Outside) else FrontEnd(rules, actions, raw));
  }

  lemma SplitLead(rules: Rules, actions: Actions, added: seq<string>, raw: string, doc: string, after: Fence)
    requires Reads(doc, Expected(rules, actions, added, raw), after)
    ensures var ss := Pieces(raw, Outside)[1..];
            var k := InsertionPoint(ss);
            && End(doc, Outside) == after
            && Bodies(Pieces(doc, Outside)[1..]) == Bodies(EditSections(rules, actions, ss[..k]) + added + ss[k..])
  {
    hide End, Pieces, EditSections, InsertionPoint, TrimRight;
    var lead := Pieces(raw, Outside)[0];
    var ss := Pieces(raw, Outside)[1..];
    var k := InsertionPoint(ss);
    var edits := EditSections(rules, actions, ss[..k]);
    BodiesConcat(edits, added);
    BodiesConcat(edits + added, ss[k..]);
    var all := Bodies(edits) + Bodies(added) + Bodies(ss[k..]);
    assert Bodies([lead]) + Bodies(edits) + Bodies(added) + Bodies(ss[k..]) == Bodies([lead]) + all;
    var ps := Pieces(doc, Outside);
    assert Bodies(ps[1..]) == Bodies(ps)[1..];
  }

  // ---------------------------------------------------------------------------------
  // The planner's checks
  // ---------------------------------------------------------------------------------

  /** The identities an operation claims. */
  function KeysOf(rules: Rules, operation: Operation): seq<string> {
    match operation
    case Added(name, _) => [rules.identity(name)]
    case Modified(name, _) => [rules.identity(name)]
    case Removed(name) => [rules.identity(name)]
    case Renamed(from, to) => [rules.identity(from), rules.identity(to)]
  }

  function Key(rules: Rules, operation: Operation): string {
    KeysOf(rules, operation)[0]
  }

  /** No identity takes part twice, in one operation or in two. */
  ghost predicate KeysApart(rules: Rules, ops: seq<Operation>) {
    && (forall p :: 0 <= p < |ops| ==> Distinct(KeysOf(rules, ops[p])))
    && (forall p, q, a, b ::
          0 <= p < q < |ops| && 0 <= a < |KeysOf(rules, ops[p])| && 0 <= b < |KeysOf(rules, ops[q])| ==>
          KeysOf(rules, ops[p])[a] != KeysOf(rules, ops[q])[b])
  }

  /** The operation agrees with accepted truth; an empty identity is passed over. */
  predicate Agrees(rules: Rules, known: set<string>, operation: Operation) {
    Key(rules, operation) != "" ==> (Key(rules, operation) in known <==> !operation.Added?)
  }

  /** validateAcceptedIdentities */
  method ValidateAccepted(rules: Rules, known: set<string>, ops: seq<Operation>) returns (faults: seq<string>)
    ensures faults == [] <==> forall k :: 0 <= k < |ops| ==> Agrees(rules, known, ops[k])
  {
    faults := [];
    for k := 0 to |ops|
      invariant faults == [] <==> forall j :: 0 <= j < k ==> Agrees(rules, known, ops[j])
    {
      var identity := Key(rules, ops[k]);
      if identity == "" { continue; }
      if ops[k].Added? && identity in known {
        faults := faults + ["requirement_exists"];
      } else if !ops[k].Added? && identity !in known {
        faults := faults + ["requirement_unknown"];
      }
    }
  }

  ghost predicate SeenKeys(rules: Rules, ops: seq<Operation>, k: nat, partial: seq<string>, seen: set<string>)
    requires k <= |ops|
  {
    forall key :: key in seen <==> key in partial || exists p :: 0 <= p < k && key in KeysOf(rules, ops[p])
  }

  /** validateOperationIdentities */
  method ValidateOperations(rules: Rules, ops: seq<Operation>) returns (faults: seq<string>)
    ensures faults == [] <==> KeysApart(rules, ops)
  {
    assert KeysApart(rules, ops[..0]);
    hide KeysOf, KeysApart;
    faults := [];
    var seen: set<string> := {};
    for k := 0 to |ops|
      invariant SeenKeys(rules, ops, k, [], seen)
      invariant faults == [] <==> KeysApart(rules, ops[..k])
    {
      var more;
      seen, more := SeeKeys(rules, ops, k, seen);
      faults := faults + more;
      ApartNext(rules, ops, k);
    }
    assert ops[..|ops|] == ops;
  }

  /** One operation's keys against those already seen. */
  method SeeKeys(rules: Rules, ops: seq<Operation>, k: nat, before: set<string>)
    returns (seen: set<string>, faults: seq<string>)
    requires k < |ops| && SeenKeys(rules, ops, k, [], before)
    ensures SeenKeys(rules, ops, k + 1, [], seen)
    ensures faults == [] <==>
              && Distinct(KeysOf(rules, ops[k]))
              && forall b, p :: 0 <= b < |KeysOf(rules, ops[k])| && 0 <= p < k ==>
                   KeysOf(rules, ops[k])[b] !in KeysOf(rules, ops[p])
  {
    hide KeysOf;
    var keys := KeysOf(rules, ops[k]);
    seen, faults := before, [];
    for a := 0 to |keys|
      invariant SeenKeys(rules, ops, k, keys[..a], seen)
      invariant faults == [] <==> Distinct(keys[..a]) && forall b, p :: 0 <= b < a && 0 <= p < k ==>
                  keys[b] !in KeysOf(rules, ops[p])
    {
      assert keys[..a + 1] == keys[..a] + [keys[a]];
      if keys[a] in seen {
        faults := faults + ["requirement_conflict"];
      } else {
        seen := seen + {keys[a]};
      }
    }
    assert keys[..|keys|] == keys;
  }

  lemma ApartNext(rules: Rules, ops: seq<Operation>, k: nat)
    requires k < |ops|
    ensures KeysApart(rules, ops[..k + 1]) <==>
              && KeysApart(rules, ops[..k]) && Distinct(KeysOf(rules, ops[k]))
              && forall b, p :: 0 <= b < |KeysOf(rules, ops[k])| && 0 <= p < k ==>
                   KeysOf(rules, ops[k])[b] !in KeysOf(rules, ops[p])
  {
    hide KeysOf;
    var all, before := ops[..k + 1], ops[..k];
    assert forall p :: 0 <= p < k ==> all[p] == before[p] == ops[p];
    assert all[k] == ops[k];
    if KeysApart(rules, all) {
      forall b, p | 0 <= b < |KeysOf(rules, ops[k])| && 0 <= p < k
        ensures KeysOf(rules, ops[k])[b] !in KeysOf(rules, ops[p])
      {
        assert forall a :: 0 <= a < |KeysOf(rules, all[p])| ==> KeysOf(rules, all[p])[a] != KeysOf(rules, all[k])[b];
      }
      forall p, q, a, b | 0 <= p < q < k && 0 <= a < |KeysOf(rules, before[p])| && 0 <= b < |KeysOf(rules, before[q])|
        ensures KeysOf(rules, before[p])[a] != KeysOf(rules, before[q])[b]
      {
        assert KeysOf(rules, all[p])[a] != KeysOf(rules, all[q])[b];
      }
      forall p | 0 <= p < k ensures Distinct(KeysOf(rules, before[p])) {
        assert Distinct(KeysOf(rules, all[p]));
      }
    }
  }

  // ---------------------------------------------------------------------------------
  // rebuild
  // ---------------------------------------------------------------------------------

  /** The edit each identity gets; a later operation on the same identity would win. */
  function ActionsOf(rules: Rules, ops: seq<Operation>): Actions {
    if ops == [] then map[]
    else
      var before, last := ActionsOf(rules, ops[..|ops| - 1]), ops[|ops| - 1];
      if last.Added? then before else before[Key(rules, last) := last]
  }

  function AddedBlocks(ops: seq<Operation>): seq<string> {
    if ops == [] then []
    else AddedBlocks(ops[..|ops| - 1]) + (if ops[|ops| - 1].Added? then [ops[|ops| - 1].raw] else [])
  }

  /** A rename onto an accepted identity. */
  predicate Collides(rules: Rules, existing: set<string>, operation: Operation) {
    operation.Renamed? && rules.identity(operation.to) in existing
  }

  function Removals(actions: Actions): set<string> {
    set id | id in actions && actions[id].Removed?
  }

  function IdentitiesOf(rules: Rules, blocks: seq<Block>): set<string> {
    set k | 0 <= k < |blocks| :: rules.identity(blocks[k].name)
  }

  /** rebuild, for an accepted document that exists: refused exactly for a rename onto an
      accepted identity or when nothing would remain. */
  method Rebuild(rules: Rules, ops: seq<Operation>, raw: string, blocks: seq<Block>)
    returns (result: Result<string, seq<string>>)
    requires blocks == BlocksFrom(HeadingsAt(raw, 0, Outside), |raw|)
    ensures result.Err? <==>
              || (exists operation :: operation in ops && Collides(rules, IdentitiesOf(rules, blocks), operation))
              || |blocks| + |AddedBlocks(ops)| == |Removals(ActionsOf(rules, ops))|
    ensures result.Ok? ==> result.value == Rebuilt(rules, ActionsOf(rules, ops), AddedBlocks(ops), raw)
  {
    var existing := IdentitiesOf(rules, blocks);
    var diagnostics, actions, added := CollectActions(rules, ops, existing);
    CollisionFree(rules, existing, ops);
    if |blocks| + |added| == |Removals(actions)| { diagnostics := diagnostics + ["capability_empty"]; }
    if diagnostics != [] { return Err(diagnostics); }
    var rebuilt := Splice(rules, actions, added, raw, blocks);
    return Ok(rebuilt);
  }

  /** The second half of rebuild: the edit loop, the tail, and the added blocks. */
  method Splice(rules: Rules, actions: Actions, added: seq<string>, raw: string, blocks: seq<Block>)
    returns (rebuilt: string)
    requires blocks == BlocksFrom(HeadingsAt(raw, 0, Outside), |raw|)
    ensures rebuilt == Rebuilt(rules, actions, added, raw)
  {
    hide *;
    BlocksOfDocument(rules, actions, raw, blocks);
    UnfoldRebuilt(rules, actions, added, raw);
    var out, cursor := EditBlocks(rules, actions, raw, blocks);
    var tail := raw[cursor..];
    var insertAt := if blocks == [] then |out| + |tail| else |out|;
    var document := out + tail;
    SplitAgain(out, tail);
    if blocks == [] { assert tail == raw; }
    rebuilt := InsertBlocks(document, insertAt, added);
  }

  lemma SplitAgain(out: string, tail: string)
    ensures var document := out + tail;
            && document[..|out|] == out && document[|out|..] == tail
            && document[..|document|] == document && document[|document|..] == ""
  {
  }

  predicate NoCollisions(rules: Rules, existing: set<string>, ops: seq<Operation>) {
    ops == [] || (NoCollisions(rules, existing, ops[..|ops| - 1]) && !Collides(rules, existing, ops[|ops| - 1]))
  }

  lemma {:induction false} CollisionFree(rules: Rules, existing: set<string>, ops: seq<Operation>)
    ensures NoCollisions(rules, existing, ops) <==> forall operation :: operation in ops ==>
              !Collides(rules, existing, operation)
  {
    hide Collides;
    if ops != [] {
      CollisionFree(rules, existing, ops[..|ops| - 1]);
      assert ops == ops[..|ops| - 1] + [ops[|ops| - 1]];
    }
  }

  /** The loop over the delta's operations: the actions by identity, the added blocks, and the
      renames onto accepted identities. */
  method CollectActions(rules: Rules, ops: seq<Operation>, existing: set<string>)
    returns (diagnostics: seq<string>, actions: Actions, added: seq<string>)
    ensures added == AddedBlocks(ops)
    ensures diagnostics == [] <==> NoCollisions(rules, existing, ops)
    ensures diagnostics == [] ==> actions == ActionsOf(rules, ops)
    ensures |Removals(actions)| == |Removals(ActionsOf(rules, ops))| || diagnostics != []
  {
    diagnostics, actions, added := [], map[], [];
    for k := 0 to |ops|
      invariant added == AddedBlocks(ops[..k])
      invariant diagnostics == [] <==> NoCollisions(rules, existing, ops[..k])
      invariant diagnostics == [] ==> actions == ActionsOf(rules, ops[..k])
    {
      var operation := ops[k];
      assert ops[..k + 1][..k] == ops[..k];
      match operation {
        case Added(_, text) => added := added + [text];
        case Renamed(from, to) =>
          if rules.identity(to) in existing {
            diagnostics := diagnostics + ["rename_destination_exists"];
            continue;
          }
          actions := actions[rules.identity(from) := operation];
        case _ => actions := actions[Key(rules, operation) := operation];
      }
    }
    assert ops[..|ops|] == ops;
  }

  /** What the edit loop leaves before and after the insertion point. */
  lemma BlocksOfDocument(rules: Rules, actions: Actions, raw: string, blocks: seq<Block>)
    requires blocks == BlocksFrom(HeadingsAt(raw, 0, Outside), |raw|)
    ensures var ps := Pieces(raw, Outside);
            var ss := ps[1..];
            var k := InsertionPoint(ss);
            var front := ps[0] + Join(EditSections(rules, actions, ss[..k]));
            && Ordered(raw, blocks, 0)
            && (if blocks == [] then
                  front == raw && Join(ss[k..]) == "" && Spliced(rules, actions, raw, blocks, 0) + raw == raw
                else
                  && LastEnd(blocks) <= |raw| && Spliced(rules, actions, raw, blocks, 0) == front
                  && raw[LastEnd(blocks)..] == Join(ss[k..]))
  {
    hide *;
    var ps := Pieces(raw, Outside);
    var ss := ps[1..];
    var k := InsertionPoint(ss);
    BlocksAreSections(raw);
    PiecesJoin(raw, Outside);
    LeadAndRest(ps);
    assert raw == ps[0] + Join(ss);
    assert raw[|ps[0]|..] == Join(ss) && raw[0..|ps[0]|] == ps[0];
    SplicedIsEdited(rules, actions, raw, ss, |ps[0]|, 0);
    PointIs(ss);
    if blocks == [] {
      assert ss[..k] == ss && ss[k..] == [];
      NothingToEdit(rules, actions, ss);
      NothingSpliced(rules, actions, raw, blocks, 0);
      assert "" + raw == raw;
      JoinNothing(ss[k..]);
    }
  }

  lemma LeadAndRest(ps: seq<string>)
    requires ps != []
    ensures Join(ps) == ps[0] + Join(ps[1..])
  {
  }

  lemma JoinNothing(ss: seq<string>)
    requires ss == []
    ensures Join(ss) == ""
  {
  }

  lemma PointIs(ss: seq<string>)
    ensures InsertionPoint(ss) == if LastNamed(ss) == 0 then |ss| else LastNamed(ss)
  {
  }

  lemma {:induction false} NothingToEdit(rules: Rules, actions: Actions, ss: seq<string>)
    requires LastNamed(ss) == 0
    ensures EditSections(rules, actions, ss) == ss
  {
    hide Front, NameOf;
    if ss != [] {
      NothingToEdit(rules, actions, ss[1..]);
      assert ss == [ss[0]] + ss[1..];
    }
  }

  // ---------------------------------------------------------------------------------
  // Closure: a synced specification is a valid accepted specification
  // ---------------------------------------------------------------------------------

  ghost predicate Known(rules: Rules, ss: seq<string>, id: string) {
    id in Identities(rules, Requirements(ss))
  }

  /** A delta the planner and the rewriter report nothing about, against accepted sections:
      blocks that are one section each, identities that agree with accepted truth and take part
      once, and no rename onto an accepted identity. */
  ghost predicate DiagnosticFree(rules: Rules, ss: seq<string>, ops: seq<Operation>) {
    && KeysApart(rules, ops)
    && forall k :: 0 <= k < |ops| ==>
         && Editable(ops[k])
         && (Known(rules, ss, Key(rules, ops[k])) <==> !ops[k].Added?)
         && (ops[k].Renamed? ==> !Known(rules, ss, rules.identity(ops[k].to)))
  }

  /** No rename to nothing; neither of them checks this. */
  ghost predicate GivesNames(ops: seq<Operation>) {
    forall k :: 0 <= k < |ops| ==> ops[k].Renamed? ==> ops[k].to != ""
  }

  lemma {:induction false} ActionsFrom(rules: Rules, ops: seq<Operation>, id: string) returns (p: nat)
    requires id in ActionsOf(rules, ops)
    ensures p < |ops| && !ops[p].Added? && Key(rules, ops[p]) == id && ActionsOf(rules, ops)[id] == ops[p]
    ensures forall q :: p < q < |ops| ==> ops[q].Added? || Key(rules, ops[q]) != id
  {
    hide Key;
    p := |ops| - 1;
    if ops[p].Added? || Key(rules, ops[p]) != id {
      p := ActionsFrom(rules, ops[..p], id);
    }
  }

  lemma {:induction false} ActionsHave(rules: Rules, ops: seq<Operation>, p: nat)
    requires p < |ops| && !ops[p].Added?
    ensures Key(rules, ops[p]) in ActionsOf(rules, ops)
  {
    hide Key;
    if p < |ops| - 1 {
      ActionsHave(rules, ops[..|ops| - 1], p);
    }
  }

  lemma KeysDiffer(rules: Rules, ops: seq<Operation>, p: nat, q: nat, a: nat, b: nat)
    requires KeysApart(rules, ops) && p < |ops| && q < |ops|
    requires a < |KeysOf(rules, ops[p])| && b < |KeysOf(rules, ops[q])|
    ensures p != q ==> KeysOf(rules, ops[p])[a] != KeysOf(rules, ops[q])[b]
  {
    hide KeysOf;
    if p < q {
      assert KeysOf(rules, ops[p])[a] != KeysOf(rules, ops[q])[b];
    } else if q < p {
      assert KeysOf(rules, ops[q])[b] != KeysOf(rules, ops[p])[a];
    }
  }

  /** None of the planner's operations is silently dropped: each edit finds exactly one
      requirement, and is the one applied to it. */
  lemma EveryOperationHits(rules: Rules, ss: seq<string>, ops: seq<Operation>, p: nat) returns (k: nat)
    requires DiagnosticFree(rules, ss, ops) && Distinct(Identities(rules, Requirements(ss)))
    requires p < |ops| && !ops[p].Added?
    ensures var ids, key := Identities(rules, Requirements(ss)), Key(rules, ops[p]);
            && k < |ids| && ids[k] == key && (forall j :: 0 <= j < |ids| && ids[j] == key ==> j == k)
            && key in ActionsOf(rules, ops) && ActionsOf(rules, ops)[key] == ops[p]
  {
    hide Requirements, ActionsOf;
    var ids, key := Identities(rules, Requirements(ss)), Key(rules, ops[p]);
    assert Known(rules, ss, key);
    k :| 0 <= k < |ids| && ids[k] == key;
    ActionsHave(rules, ops, p);
    var q := ActionsFrom(rules, ops, key);
    KeysDiffer(rules, ops, p, q, 0, 0);
  }

  /** The accepted requirement that an edit is about. */
  predicate About(rules: Rules, operation: Operation, name: string) {
    match operation
    case Added(_, _) => false
    case Modified(old', _) => rules.identity(old') == rules.identity(name)
    case Removed(old') => rules.identity(old') == rules.identity(name)
    case Renamed(old', _) => rules.identity(old') == rules.identity(name)
  }

  /** What an accepted requirement becomes, operation by operation: a modified one takes name and
      text of the operation, a removed one goes, a renamed one takes the name, keeping what is behind
      its heading, and one that no operation is about stays as it is. */
  lemma BecomesExactly(rules: Rules, ops: seq<Operation>, s: string, name: string)
    requires KeysApart(rules, ops) && NameOf(Front(s)) == Some(name) && name != ""
    ensures var becomes := Rewritten(ActionOn(rules, ActionsOf(rules, ops), s), s);
            && (forall p :: 0 <= p < |ops| && About(rules, ops[p], name) ==>
                  && (ops[p].Modified? ==> becomes == [Requirement(ops[p].name, TrimRight(ops[p].raw))])
                  && (ops[p].Removed? ==> becomes == [])
                  && (ops[p].Renamed? ==>
                        becomes == [Requirement(ops[p].to,
                                                TrimRight("### Requirement: " + ops[p].to + s[HeadEnd(s)..]))]))
            && ((forall p :: 0 <= p < |ops| ==> !About(rules, ops[p], name)) ==>
                  becomes == [Requirement(name, TrimRight(s))])
  {
    hide Front, TrimRight, HeadEnd, NameOf, ActionsOf;
    var actions, id := ActionsOf(rules, ops), rules.identity(name);
    if id in actions {
      var q := ActionsFrom(rules, ops, id);
      assert About(rules, ops[q], name);
    }
    forall p | 0 <= p < |ops| && About(rules, ops[p], name) ensures id in actions && actions[id] == ops[p] {
      ActionsHave(rules, ops, p);
      var q := ActionsFrom(rules, ops, id);
      KeysDiffer(rules, ops, p, q, 0, 0);
    }
  }

  /** Where an identity of the edited list comes from: the requirement it was. */
  predicate Origin(rules: Rules, actions: Actions, was: string, id: string) {
    if was in actions && actions[was].Renamed? then id == rules.identity(actions[was].to) else id == was
  }

  /** What the identities of the operations guarantee about the actions. */
  ghost predicate Safe(rules: Rules, ids: seq<string>, actions: Actions) {
    && (forall id {:trigger actions[id]} :: id in actions && actions[id].Modified? ==>
          rules.identity(actions[id].name) == id)
    && (forall id {:trigger actions[id]} :: id in actions && actions[id].Renamed? ==>
          rules.identity(actions[id].to) !in ids)
    && (forall id, other {:trigger actions[id], actions[other]} ::
          id in actions && other in actions && id != other && actions[id].Renamed? && actions[other].Renamed? ==>
          rules.identity(actions[id].to) != rules.identity(actions[other].to))
  }

  lemma ActionsAreSafe(rules: Rules, ss: seq<string>, ops: seq<Operation>)
    requires DiagnosticFree(rules, ss, ops)
    ensures Safe(rules, Identities(rules, Requirements(ss)), ActionsOf(rules, ops))
    ensures EditableActions(ActionsOf(rules, ops))
    ensures GivesNames(ops) ==> NamesGiven(ActionsOf(rules, ops))
  {
    hide ActionsOf, Requirements, Editable;
    var actions := ActionsOf(rules, ops);
    forall id | id in actions
      ensures Editable(actions[id]) && !actions[id].Added?
      ensures GivesNames(ops) && actions[id].Renamed? ==> actions[id].to != ""
      ensures actions[id].Modified? ==> rules.identity(actions[id].name) == id
      ensures actions[id].Renamed? ==> rules.identity(actions[id].to) !in Identities(rules, Requirements(ss))
    {
      var p := ActionsFrom(rules, ops, id);
    }
    forall id, other | id in actions && other in actions && id != other && actions[id].Renamed?
    && actions[other].Renamed?
      ensures rules.identity(actions[id].to) != rules.identity(actions[other].to)
    {
      var p := ActionsFrom(rules, ops, id);
      var q := ActionsFrom(rules, ops, other);
      KeysDiffer(rules, ops, p, q, 1, 1);
    }
  }

  lemma {:induction false} RewrittenOrigin(rules: Rules, actions: Actions, ss: seq<string>, ids: seq<string>,
                                           r: Requirement)
    returns (was: string)
    requires Safe(rules, ids, actions) && r in RewrittenAll(rules, actions, ss)
    ensures was in Identities(rules, Requirements(ss)) && Origin(rules, actions, was, rules.identity(r.name))
  {
    hide Front, NameOf, TrimRight, Safe;
    var s, rest := ss[0], ss[1..];
    assert ss == [s] + rest;
    RequirementsCons(s, rest);
    IdentitiesConcat(rules, RequirementOf(s), Requirements(rest));
    if r in RewrittenAll(rules, actions, rest) {
      was := RewrittenOrigin(rules, actions, rest, ids, r);
    } else {
      assert r in Rewritten(ActionOn(rules, actions, s), s);
      was := OneOrigin(rules, actions, s, ids, r);
    }
  }

  lemma OneOrigin(rules: Rules, actions: Actions, s: string, ids: seq<string>, r: Requirement) returns (was: string)
    requires Safe(rules, ids, actions) && r in Rewritten(ActionOn(rules, actions, s), s)
    ensures Named(s) && was == rules.identity(NameOf(Front(s)).value)
    ensures was in Identities(rules, RequirementOf(s)) && Origin(rules, actions, was, rules.identity(r.name))
  {
    hide Front, TrimRight, Retitled;
    was := rules.identity(NameOf(Front(s)).value);
    assert Identities(rules, RequirementOf(s))[0] == was;
  }

  lemma IdentitiesConcat(rules: Rules, a: seq<Requirement>, b: seq<Requirement>)
    ensures Identities(rules, a + b) == Identities(rules, a) + Identities(rules, b)
  {
  }

  lemma OriginsDiffer(rules: Rules, ids: seq<string>, actions: Actions, was: string, other: string, a: string,
                      b: string)
    requires Safe(rules, ids, actions) && was in ids && other in ids && was != other
    requires Origin(rules, actions, was, a) && Origin(rules, actions, other, b)
    ensures a != b
  {
  }

  lemma DistinctConcat(a: seq<string>, b: seq<string>)
    requires Distinct(a) && Distinct(b) && forall x, y :: x in a && y in b ==> x != y
    ensures Distinct(a + b)
  {
    var all := a + b;
    forall i, j | 0 <= i < j < |all| ensures all[i] != all[j] {
      if i < |a| <= j {
        assert all[i] in a && all[j] in b;
      }
    }
  }

  lemma {:induction false} RewrittenDistinct(rules: Rules, actions: Actions, ss: seq<string>, ids: seq<string>)
    requires Safe(rules, ids, actions) && Distinct(Identities(rules, Requirements(ss)))
    requires forall id :: id in Identities(rules, Requirements(ss)) ==> id in ids
    ensures Distinct(Identities(rules, RewrittenAll(rules, actions, ss)))
  {
    hide Front, NameOf, TrimRight, Safe, Origin, ActionOn, Named, Rewritten, RequirementOf;
    if ss != [] {
      var s, rest := ss[0], ss[1..];
      var own, more := Rewritten(ActionOn(rules, actions, s), s), RewrittenAll(rules, actions, rest);
      assert ss == [s] + rest;
      RequirementsCons(s, rest);
      IdentitiesConcat(rules, RequirementOf(s), Requirements(rest));
      IdentitiesConcat(rules, own, more);
      AtMostOne(ActionOn(rules, actions, s), s);
      SplitDistinct(Identities(rules, RequirementOf(s)), Identities(rules, Requirements(rest)));
      RewrittenDistinct(rules, actions, rest, ids);
      forall x, y | x in Identities(rules, own) && y in Identities(rules, more) ensures x != y {
        var i :| 0 <= i < |own| && rules.identity(own[i].name) == x;
        var j :| 0 <= j < |more| && rules.identity(more[j].name) == y;
        var was := OneOrigin(rules, actions, s, ids, own[i]);
        var other := RewrittenOrigin(rules, actions, rest, ids, more[j]);
        OriginsDiffer(rules, ids, actions, was, other, x, y);
      }
      DistinctConcat(Identities(rules, own), Identities(rules, more));
    }
  }

  lemma AtMostOne(operation: Option<Operation>, s: string)
    ensures |Rewritten(operation, s)| <= 1
  {
  }

  lemma SplitDistinct(a: seq<string>, b: seq<string>)
    requires Distinct(a + b)
    ensures Distinct(a) && Distinct(b) && forall x, y :: x in a && y in b ==> x != y
  {
    var all := a + b;
    forall i, j | 0 <= i < j < |a| ensures a[i] != a[j] { assert all[i] != all[j]; }
    forall i, j | 0 <= i < j < |b| ensures b[i] != b[j] { assert all[|a| + i] != all[|a| + j]; }
    forall x, y | x in a && y in b ensures x != y {
      var i :| 0 <= i < |a| && a[i] == x;
      var j :| 0 <= j < |b| && b[j] == y;
      assert all[i] != all[|a| + j];
    }
  }

  lemma AddedRequirement(operation: Operation)
    requires operation.Added? && Editable(operation)
    ensures RequirementOf(operation.raw) == [Requirement(operation.name, TrimRight(operation.raw))]
    ensures Solo(operation.raw)
  {
    hide Solo, Front, TrimRight;
    NotBlank(operation.name);
  }

  /** The requirements the added blocks bring. */
  function AddedRequirements(ops: seq<Operation>): seq<Requirement> {
    if ops == [] then []
    else
      var last := ops[|ops| - 1];
      AddedRequirements(ops[..|ops| - 1]) + (if last.Added? then [Requirement(last.name, TrimRight(last.raw))] else [])
  }

  /** The additions keep their order: each comes after those before it in the delta. */
  lemma {:induction false} AddedInOrder(ops: seq<Operation>, p: nat)
    requires p < |ops| && ops[p].Added?
    ensures var before, blocks, found := |AddedBlocks(ops[..p])|, AddedBlocks(ops), AddedRequirements(ops);
            && before < |blocks| == |found| && blocks[before] == ops[p].raw
            && found[before] == Requirement(ops[p].name, TrimRight(ops[p].raw))
  {
    hide TrimRight;
    AddedTogether(ops[..|ops| - 1]);
    if p < |ops| - 1 {
      AddedInOrder(ops[..|ops| - 1], p);
      assert ops[..|ops| - 1][..p] == ops[..p];
    }
  }

  lemma {:induction false} AddedTogether(ops: seq<Operation>)
    ensures |AddedBlocks(ops)| == |AddedRequirements(ops)|
  {
    if ops != [] { AddedTogether(ops[..|ops| - 1]); }
  }

  ghost predicate AllEditable(ops: seq<Operation>) {
    forall k :: 0 <= k < |ops| ==> Editable(ops[k])
  }

  lemma {:induction false} AddedOnes(ops: seq<Operation>)
    requires AllEditable(ops)
    ensures AllSolo(AddedBlocks(ops)) && Requirements(AddedBlocks(ops)) == AddedRequirements(ops)
  {
    hide Editable, Solo, Front, TrimRight, Named, RequirementOf;
    if ops != [] {
      var before, last := ops[..|ops| - 1], ops[|ops| - 1];
      AddedOnes(before);
      if last.Added? {
        AddedRequirement(last);
        RequirementsConcat(AddedBlocks(before), [last.raw]);
        RequirementsCons(last.raw, []);
        assert [last.raw] + [] == [last.raw] && Requirements([]) == [];
        assert RequirementOf(last.raw) + [] == RequirementOf(last.raw);
      } else {
        assert AddedBlocks(before) + [] == AddedBlocks(before);
      }
    }
  }

  lemma {:induction false} AddedComeFrom(ops: seq<Operation>, r: Requirement) returns (p: nat)
    requires r in AddedRequirements(ops)
    ensures p < |ops| && ops[p].Added? && ops[p].name == r.name
  {
    p := |ops| - 1;
    if r in AddedRequirements(ops[..p]) {
      p := AddedComeFrom(ops[..p], r);
    }
  }

  lemma {:induction false} AddedDistinct(rules: Rules, ops: seq<Operation>)
    requires KeysApart(rules, ops)
    ensures Distinct(Identities(rules, AddedRequirements(ops)))
  {
    hide TrimRight;
    if ops != [] {
      var before, last := ops[..|ops| - 1], ops[|ops| - 1];
      ApartNext(rules, ops, |ops| - 1);
      assert ops[..|ops| - 1 + 1] == ops;
      AddedDistinct(rules, before);
      if last.Added? {
        var own := [Requirement(last.name, TrimRight(last.raw))];
        IdentitiesConcat(rules, AddedRequirements(before), own);
        forall x, y | x in Identities(rules, AddedRequirements(before)) && y in Identities(rules, own) ensures x != y {
          var i :| 0 <= i < |AddedRequirements(before)| && rules.identity(AddedRequirements(before)[i].name) == x;
          var p := AddedComeFrom(before, AddedRequirements(before)[i]);
          KeysDiffer(rules, ops, p, |ops| - 1, 0, 0);
        }
        DistinctConcat(Identities(rules, AddedRequirements(before)), Identities(rules, own));
      }
    }
  }

  /** Added identities meet neither an accepted one nor a rename's target. */
  lemma AddedApart(rules: Rules, ss: seq<string>, ops: seq<Operation>)
    requires DiagnosticFree(rules, ss, ops)
    ensures forall x, y ::
              && x in Identities(rules, RewrittenAll(rules, ActionsOf(rules, ops), ss))
              && y in Identities(rules, AddedRequirements(ops)) ==>
              x != y
  {
    hide ActionsOf, Requirements, RewrittenAll, Safe, Editable;
    var actions := ActionsOf(rules, ops);
    var ids := Identities(rules, Requirements(ss));
    var edited, added := RewrittenAll(rules, actions, ss), AddedRequirements(ops);
    ActionsAreSafe(rules, ss, ops);
    forall x, y | x in Identities(rules, edited) && y in Identities(rules, added) ensures x != y {
      var i :| 0 <= i < |edited| && rules.identity(edited[i].name) == x;
      var j :| 0 <= j < |added| && rules.identity(added[j].name) == y;
      var was := RewrittenOrigin(rules, actions, ss, ids, edited[i]);
      var p := AddedComeFrom(ops, added[j]);
      assert !Known(rules, ss, y);
      if was in actions && actions[was].Renamed? {
        var q := ActionsFrom(rules, ops, was);
        KeysDiffer(rules, ops, q, p, 1, 0);
      }
    }
  }

  /** The names of the result stay distinct. */
  lemma ResultDistinct(rules: Rules, ss: seq<string>, ops: seq<Operation>)
    requires DiagnosticFree(rules, ss, ops) && Distinct(Identities(rules, Requirements(ss)))
    ensures Distinct(Identities(rules, RewrittenAll(rules, ActionsOf(rules, ops), ss) + AddedRequirements(ops)))
  {
    hide ActionsOf, Requirements, RewrittenAll, Safe, Editable, Distinct, AddedRequirements;
    var actions := ActionsOf(rules, ops);
    ActionsAreSafe(rules, ss, ops);
    RewrittenDistinct(rules, actions, ss, Identities(rules, Requirements(ss)));
    AddedDistinct(rules, ops);
    AddedApart(rules, ss, ops);
    IdentitiesConcat(rules, RewrittenAll(rules, actions, ss), AddedRequirements(ops));
    DistinctConcat(Identities(rules, RewrittenAll(rules, actions, ss)), Identities(rules, AddedRequirements(ops)));
  }

  ghost predicate AllLawful(rules: Rules, ss: seq<string>) {
    forall k :: 0 <= k < |ss| ==> Lawful(rules, ss[k])
  }

  lemma NamedIsLawful(rules: Rules, s: string, name: string)
    requires NameOf(Front(s)) == Some(name) && name != ""
    ensures Lawful(rules, s)
  {
  }

  lemma {:induction false} EditedLawful(rules: Rules, actions: Actions, ss: seq<string>, after: Fence)
    requires Chain(ss, after) && EditableActions(actions) && NamesGiven(actions) && AllLawful(rules, ss)
    ensures AllLawful(rules, EditSections(rules, actions, ss))
  {
    hide Section, Solo, Terminated, Edited, Front, NameOf, Lawful, TrimSpace;
    if ss != [] {
      var s, rest := ss[0], ss[1..];
      var operation := ActionOn(rules, actions, s);
      var edits := EditSections(rules, actions, rest);
      if rest == [] { LastSection(ss, after); } else { FirstTerminated(ss, after); }
      assert AllLawful(rules, rest);
      EditedLawful(rules, actions, rest, after);
      ActionIsEditable(rules, actions, s);
      assert Lawful(rules, ss[0]);
      if !Dropped(operation) {
        EditedIsSection(operation, s, if rest == [] then after else Outside);
        if operation.Some? {
          if operation.value.Modified? { NotBlank(operation.value.name); }
          NamedIsLawful(rules, Edited(operation, s), NewName(operation, s).value);
        }
      }
    }
  }

  lemma {:induction false} AddedLawful(rules: Rules, ops: seq<Operation>)
    requires AllEditable(ops)
    ensures AllLawful(rules, AddedBlocks(ops))
  {
    hide Solo, Front, NameOf, Lawful, TrimSpace;
    if ops != [] {
      AddedLawful(rules, ops[..|ops| - 1]);
      var last := ops[|ops| - 1];
      if last.Added? {
        NotBlank(last.name);
        NamedIsLawful(rules, last.raw, last.name);
      }
    }
  }

  lemma LawfulByBodies(rules: Rules, ss: seq<string>, ts: seq<string>)
    requires Bodies(ss) == Bodies(ts) && AllLawful(rules, ts)
    ensures AllLawful(rules, ss)
  {
    hide Front, TrimRight, NameOf;
    assert |ss| == |Bodies(ss)| == |ts|;
    forall k | 0 <= k < |ss| ensures Lawful(rules, ss[k]) {
      assert Bodies(ss)[k] == Bodies(ts)[k];
      FrontOfBody(ss[k]);
      FrontOfBody(ts[k]);
      assert Lawful(rules, ts[k]);
    }
  }

  /** Closure: applying a diagnostic-free delta that gives names, and adds nothing behind an open
      fence, leaves exactly the edited requirement list with the added ones after it, and again a
      well-titled specification; one that closed its fences still does. So validity survives any
      sequence of syncs. */
  lemma SyncKeepsSound(rules: Rules, raw: string, ops: seq<Operation>)
    requires Titled(rules, raw) && DiagnosticFree(rules, Pieces(raw, Outside)[1..], ops) && GivesNames(ops)
    requires AddedBlocks(ops) == [] || FrontEnd(rules, ActionsOf(rules, ops), raw) == Outside
    ensures var actions := ActionsOf(rules, ops);
            var doc := Rebuilt(rules, actions, AddedBlocks(ops), raw);
            && Titled(rules, doc) && (Sound(rules, raw) ==> Sound(rules, doc))
            && Requirements(Pieces(doc, Outside)[1..]) ==
               RewrittenAll(rules, actions, Pieces(raw, Outside)[1..]) + AddedRequirements(ops)
  {
    hide *;
    var ss := Pieces(raw, Outside)[1..];
    var actions, added := ActionsOf(rules, ops), AddedBlocks(ops);
    var doc := Rebuilt(rules, actions, added, raw);
    TitledParts(rules, raw);
    FreeIsEditable(rules, ss, ops);
    ActionsAreSafe(rules, ss, ops);
    AddedOnes(ops);
    RequirementsOfRebuilt(rules, actions, added, raw);
    ResultDistinct(rules, ss, ops);
    SectionsOfRebuilt(rules, actions, added, raw);
    var k := InsertionPoint(ss);
    LeadReads(raw);
    SplitChain(ss, k, End(raw, Outside));
    SplitLawful(rules, ss, k);
    EditedLawful(rules, actions, ss[..k], if k < |ss| then Outside else End(raw, Outside));
    AddedLawful(rules, ops);
    LawfulConcat(rules, EditSections(rules, actions, ss[..k]), added);
    LawfulConcat(rules, EditSections(rules, actions, ss[..k]) + added, ss[k..]);
    LawfulByBodies(rules, Pieces(doc, Outside)[1..], EditSections(rules, actions, ss[..k]) + added + ss[k..]);
    TitledWhole(rules, doc);
    if End(raw, Outside) == Outside { ClosedFront(rules, actions, raw); }
    SoundParts(rules, raw);
    SoundParts(rules, doc);
  }

  /** A fence-closed document closes its fences before the insertion point. */
  lemma ClosedFront(rules: Rules, actions: Actions, raw: string)
    requires End(raw, Outside) == Outside
    ensures FrontEnd(rules, actions, raw) == Outside
  {
    hide *;
    var ss := Pieces(raw, Outside)[1..];
    UnfoldRebuilt(rules, actions, [], raw);
    OutsideStays(rules, actions, ss[..InsertionPoint(ss)]);
  }

  lemma TitledParts(rules: Rules, raw: string)
    requires Titled(rules, raw)
    ensures var ss := Pieces(raw, Outside)[1..];
            AllLawful(rules, ss) && Distinct(Identities(rules, Requirements(ss)))
  {
    hide Pieces, Requirements, Lawful;
  }

  lemma TitledWhole(rules: Rules, raw: string)
    requires var ss := Pieces(raw, Outside)[1..];
             AllLawful(rules, ss) && Distinct(Identities(rules, Requirements(ss)))
    ensures Titled(rules, raw)
  {
    hide Pieces, Requirements, Lawful;
  }

  lemma SoundParts(rules: Rules, raw: string)
    ensures Sound(rules, raw) <==> End(raw, Outside) == Outside && Titled(rules, raw)
  {
  }

  lemma FreeIsEditable(rules: Rules, ss: seq<string>, ops: seq<Operation>)
    requires DiagnosticFree(rules, ss, ops)
    ensures AllEditable(ops)
  {
    hide Editable, Known;
  }

  lemma SplitLawful(rules: Rules, ss: seq<string>, k: nat)
    requires AllLawful(rules, ss) && k <= |ss|
    ensures AllLawful(rules, ss[..k]) && AllLawful(rules, ss[k..])
  {
    hide Lawful;
  }

  lemma LawfulConcat(rules: Rules, a: seq<string>, b: seq<string>)
    requires AllLawful(rules, a) && AllLawful(rules, b)
    ensures AllLawful(rules, a + b)
  {
    hide Lawful;
  }

  // ---------------------------------------------------------------------------------
  // readAccepted
  // ---------------------------------------------------------------------------------

  predicate Faulty(rules: Rules, h: HeadingLine) {
    (h.level == 2 && rules.deltaTitle(h.title)) || NameIn(h.level, h.title) == Some("")
  }

  /** readAccepted: the requirement blocks, and a diagnostic for every delta heading, unnamed
      requirement and repeated identity. */
  method ReadAccepted(rules: Rules, raw: string) returns (blocks: seq<Block>, diagnostics: seq<string>)
    ensures blocks == BlocksFrom(HeadingsAt(raw, 0, Outside), |raw|)
    ensures diagnostics == [] <==>
              && (forall k :: 0 <= k < |HeadingsAt(raw, 0, Outside)| ==> !Faulty(rules, HeadingsAt(raw, 0, Outside)[k]))
              && DistinctNames(rules, blocks)
  {
    var found := Scanners.RewriterHeadings(raw);
    hide BlocksFrom, NextTop, HeadingsAt, TrimSpace, DistinctNames;
    blocks, diagnostics := [], [];
    assert found[0..] == found;
    for index := 0 to |found|
      invariant BlocksFrom(found, |raw|) == blocks + BlocksFrom(found[index..], |raw|)
      invariant diagnostics == [] <==> forall k :: 0 <= k < index ==> !Faulty(rules, found[k])
    {
      var item := found[index];
      BlocksNext(found, index, |raw|, blocks);
      if item.level == 2 && rules.deltaTitle(item.title) {
        diagnostics := diagnostics + ["accepted_delta_heading"];
        continue;
      }
      if item.level != 3 || !(PREFIX <= item.title) { continue; }
      var name := TrimSpace(item.title[|PREFIX|..]);
      if name == "" {
        diagnostics := diagnostics + ["accepted_requirement_name"];
        continue;
      }
      var end := NextSection(found, index + 1, |raw|);
      blocks := blocks + [Block(item.start, item.textEnd, end, name)];
    }
    BlocksEnd(found[|found|..], |raw|);
    var repeated := Repeated(rules, blocks);
    diagnostics := diagnostics + repeated;
  }

  lemma BlocksNext(found: seq<HeadingLine>, index: nat, length: nat, before: seq<Block>)
    requires index < |found|
    ensures before + BlocksFrom(found[index..], length) ==
            before + BlockAt(found[index], NextTop(found[index + 1..], length)) + BlocksFrom(found[index + 1..], length)
  {
    hide BlockAt, NextTop;
    assert found[index..][0] == found[index] && found[index..][1..] == found[index + 1..];
  }

  lemma BlocksEnd(found: seq<HeadingLine>, length: nat)
    requires found == []
    ensures BlocksFrom(found, length) == []
  {
  }

  method NextSection(found: seq<HeadingLine>, from: nat, length: nat) returns (end: nat)
    requires from <= |found|
    ensures end == NextTop(found[from..], length)
  {
    for k := from to |found|
      invariant NextTop(found[from..], length) == NextTop(found[k..], length)
    {
      assert found[k..][0] == found[k] && found[k..][1..] == found[k + 1..];
      if found[k].level <= 3 { return found[k].start; }
    }
    return length;
  }

  ghost predicate DistinctNames(rules: Rules, blocks: seq<Block>) {
    forall i, j :: 0 <= i < j < |blocks| ==> rules.identity(blocks[i].name) != rules.identity(blocks[j].name)
  }

  method Repeated(rules: Rules, blocks: seq<Block>) returns (diagnostics: seq<string>)
    ensures diagnostics == [] <==> DistinctNames(rules, blocks)
  {
    diagnostics := [];
    var seen: set<string> := {};
    for k := 0 to |blocks|
      invariant forall id :: id in seen <==> exists j :: 0 <= j < k && rules.identity(blocks[j].name) == id
      invariant diagnostics == [] <==> DistinctNames(rules, blocks[..k])
    {
      var identity := rules.identity(blocks[k].name);
      assert blocks[..k + 1] == blocks[..k] + [blocks[k]];
      if identity in seen { diagnostics := diagnostics + ["accepted_duplicate"]; }
      seen := seen + {identity};
    }
    assert blocks[..|blocks|] == blocks;
  }
}
