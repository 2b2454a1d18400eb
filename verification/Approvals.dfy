/** When a recorded approval still authorizes work: the loops over history that decide it, and
    what their answer means (approval_status.go). */
module Approvals {
  import opened Records
  import opened Lifecycle
  import Ledger

  // ---------------------------------------------------------------------------------
  // The latest record of a kind
  // ---------------------------------------------------------------------------------

  /** A record of the change and kind; with `at`, one that moves the change on from that revision. */
  predicate Sought(r: Record, c: ChangeId, kind: Kind, at: Option<nat>) {
    && r.change == c && r.kind == kind
    && (at.Some? ==> r.expected == at && r.resulting == Some(at.value + 1))
  }

  function FindLast(rs: seq<Record>, c: ChangeId, kind: Kind, at: Option<nat>): Option<Record> {
    if rs == [] then None
    else if Sought(rs[|rs| - 1], c, kind, at) then Some(rs[|rs| - 1])
    else FindLast(rs[..|rs| - 1], c, kind, at)
  }

  /** The backward scan shared by latestApproval, latestSyncRecord and the recoverable* functions. */
  method Latest(records: seq<Record>, c: ChangeId, kind: Kind, at: Option<nat>) returns (found: Option<Record>)
    ensures found == FindLast(records, c, kind, at)
  {
    var index := |records|;
    assert records[..index] == records;
    while index > 0
      invariant 0 <= index <= |records|
      invariant FindLast(records, c, kind, at) == FindLast(records[..index], c, kind, at)
    {
      index := index - 1;
      assert records[..index + 1][..index] == records[..index];
      if Sought(records[index], c, kind, at) { return Some(records[index]); }
    }
    return None;
  }

  lemma {:induction false} FindLastIsLatest(rs: seq<Record>, c: ChangeId, kind: Kind, at: Option<nat>) returns (i: nat)
    ensures match FindLast(rs, c, kind, at)
            case None => forall k :: 0 <= k < |rs| ==> !Sought(rs[k], c, kind, at)
            case Some(r) => i < |rs| && rs[i] == r && Sought(r, c, kind, at)
                            && forall k :: i < k < |rs| ==> !Sought(rs[k], c, kind, at)
  {
    i := |rs|;
    if rs != [] {
      if Sought(rs[|rs| - 1], c, kind, at) {
        i := |rs| - 1;
      } else {
        i := FindLastIsLatest(rs[..|rs| - 1], c, kind, at);
      }
    }
  }

  // ---------------------------------------------------------------------------------
  // approvalActivityTailCurrent
  // ---------------------------------------------------------------------------------

  /** The records after the first one with the given identity. */
  function AfterId(rs: seq<Record>, id: Id): Option<seq<Record>> {
    if rs == [] then None
    else if rs[0].id == id then Some(rs[1..])
    else AfterId(rs[1..], id)
  }

  predicate Settled(revision: nat, last: Id, current: ChangeState) {
    current.revision == revision && current.last == last
  }

  /** The walk over the records after an approval. */
  function TailWalk(rs: seq<Record>, c: ChangeId, revision: nat, last: Id, current: ChangeState): bool {
    if rs == [] then Settled(revision, last, current)
    else
      var r := rs[0];
      if r.change != c || r.kind == FrictionKind then TailWalk(rs[1..], c, revision, last, current)
      else if !Working(r.kind) then false
      else if r.expected == Some(current.revision) && current.last == last then Settled(revision, last, current)
      else if r.expected != Some(revision) || r.resulting != Some(revision + 1) then false
      else TailWalk(rs[1..], c, revision + 1, r.id, current)
  }

  function TailOf(rs: seq<Record>, c: ChangeId, approved: Record, approval: Approval, current: ChangeState): bool {
    match AfterId(rs, approved.id)
    case None => false
    case Some(tail) => TailWalk(tail, c, approval.after, approved.id, current)
  }

  method TailCurrent(records: seq<Record>, c: ChangeId, approved: Record, approval: Approval, current: ChangeState)
    returns (ok: bool)
    ensures ok == TailOf(records, c, approved, approval, current)
  {
    var index := 0;
    while index < |records| && records[index].id != approved.id
      invariant 0 <= index <= |records|
      invariant AfterId(records, approved.id) == AfterId(records[index..], approved.id)
    {
      assert records[index..][1..] == records[index + 1..];
      index := index + 1;
    }
    if index == |records| { return false; }
    assert records[index..][1..] == records[index + 1..];
    var revision, last := approval.after, approved.id;
    var position := index + 1;
    while position < |records|
      invariant index < position <= |records|
      invariant TailOf(records, c, approved, approval, current) ==
                  TailWalk(records[position..], c, revision, last, current)
    {
      var item := records[position];
      assert records[position..][1..] == records[position + 1..];
      position := position + 1;
      if item.change != c { continue; }
      match item.kind {
        case TransitionKind =>
        case AttemptKind =>
        case CompletionKind =>
        case FrictionKind => continue;
        case _ => return false;
      }
      if item.expected.Some? && item.expected.value == current.revision && current.last == last {
        return Settled(revision, last, current);
      }
      if item.expected.None? || item.resulting.None? || item.expected.value != revision
         || item.resulting.value != revision + 1 {
        return false;
      }
      revision, last := revision + 1, item.id;
    }
    return Settled(revision, last, current);
  }

  // ---------------------------------------------------------------------------------
  // What a current tail means
  // ---------------------------------------------------------------------------------

  lemma {:induction false} TransitionsConcat(a: seq<Record>, b: seq<Record>, c: ChangeId)
    ensures Ledger.Transitions(a + b, c) == Ledger.Transitions(a, c) + Ledger.Transitions(b, c)
    decreases |b|
  {
    if b == [] {
      assert a + b == a;
    } else {
      assert (a + b)[..|a + b| - 1] == a + b[..|b| - 1];
      TransitionsConcat(a, b[..|b| - 1], c);
    }
  }

  /** Only observations move no revision. */
  ghost predicate OnlyObservationsIdle(rs: seq<Record>) {
    forall r :: r in rs ==> (r.kind == FrictionKind <==> !r.Transition())
  }

  lemma SplitFirst(rs: seq<Record>, c: ChangeId)
    requires OnlyObservationsIdle(rs) && rs != []
    ensures OnlyObservationsIdle(rs[1..])
    ensures Ledger.Transitions(rs, c) ==
            (if rs[0].change == c && rs[0].kind != FrictionKind then [rs[0]] else []) + Ledger.Transitions(rs[1..], c)
  {
    var r := rs[0];
    assert rs == [r] + rs[1..] && r in rs;
    TransitionsConcat([r], rs[1..], c);
    assert [r][..0] == [];
    assert Ledger.Transitions([], c) == [];
  }

  /** The walk sees nothing but the transitions of its change. */
  lemma {:induction false} WalkSeesTransitions(rs: seq<Record>, c: ChangeId, revision: nat, last: Id,
                                               current: ChangeState)
    requires OnlyObservationsIdle(rs)
    ensures TailWalk(rs, c, revision, last, current) == TailWalk(Ledger.Transitions(rs, c), c, revision, last, current)
    decreases |rs|
  {
    if rs != [] {
      var r, rest := rs[0], rs[1..];
      SplitFirst(rs, c);
      if r.change == c && r.kind != FrictionKind {
        assert Ledger.Transitions(rs, c)[1..] == Ledger.Transitions(rest, c);
        WalkSeesTransitions(rest, c, revision + 1, r.id, current);
      } else {
        assert Ledger.Transitions(rs, c) == Ledger.Transitions(rest, c);
        WalkSeesTransitions(rest, c, revision, last, current);
      }
    }
  }

  /** What a current tail proves about any history: between the approval and the state's revision
      lie only task records of the change, one revision after another, ending at the state's last
      transition; one more may be waiting. */
  ghost predicate Authorized(work: seq<Record>, n: nat, revision: nat, last: Id, current: ChangeState) {
    && n <= |work|
    && (forall k :: 0 <= k < n ==>
          Working(work[k].kind) && work[k].expected == Some(revision + k)
          && work[k].resulting == Some(revision + k + 1))
    && current.revision == revision + n
    && current.last == (if n == 0 then last else work[n - 1].id)
    && (n < |work| ==> Working(work[n].kind) && work[n].expected == Some(current.revision))
  }

  lemma AuthorizedStep(r: Record, work: seq<Record>, n: nat, revision: nat, last: Id, current: ChangeState)
    requires Authorized(work, n, revision + 1, r.id, current)
    requires Working(r.kind) && r.expected == Some(revision) && r.resulting == Some(revision + 1)
    ensures Authorized([r] + work, n + 1, revision, last, current)
  {
    var more := [r] + work;
    forall k | 0 <= k < n + 1
      ensures Working(more[k].kind) && more[k].expected == Some(revision + k)
      ensures more[k].resulting == Some(revision + k + 1)
    {
      if k > 0 { assert more[k] == work[k - 1]; }
    }
  }

  lemma {:induction false} CurrentMeansAuthorized(rs: seq<Record>, c: ChangeId, revision: nat, last: Id,
                                                  current: ChangeState)
    returns (n: nat)
    requires OnlyObservationsIdle(rs) && TailWalk(rs, c, revision, last, current)
    ensures Authorized(Ledger.Transitions(rs, c), n, revision, last, current)
    decreases |rs|
  {
    n := 0;
    if rs != [] {
      var r, rest := rs[0], rs[1..];
      SplitFirst(rs, c);
      if r.change != c || r.kind == FrictionKind {
        assert Ledger.Transitions(rs, c) == Ledger.Transitions(rest, c);
        n := CurrentMeansAuthorized(rest, c, revision, last, current);
      } else if r.expected != Some(current.revision) || current.last != last {
        n := CurrentMeansAuthorized(rest, c, revision + 1, r.id, current);
        AuthorizedStep(r, Ledger.Transitions(rest, c), n, revision, last, current);
        n := n + 1;
      }
    }
  }

  /** Transitions numbered by their position. */
  ghost predicate Sequenced(ts: seq<Record>, c: ChangeId) {
    forall m :: 0 <= m < |ts| ==>
      ts[m].change == c && ts[m].kind != FrictionKind && ts[m].expected == Some(m) && ts[m].resulting == Some(m + 1)
  }

  /** The state has persisted all transitions, or all but the last. */
  ghost predicate Persisted(ts: seq<Record>, current: ChangeState) {
    && 0 < current.revision <= |ts| <= current.revision + 1
    && current.last == ts[current.revision - 1].id
  }

  /** On a sequenced history the walk accepts exactly when every transition after the approval,
      the waiting one included, is task work. */
  lemma {:induction false} WalkDecides(ts: seq<Record>, c: ChangeId, j: nat, current: ChangeState)
    requires Sequenced(ts, c) && Persisted(ts, current) && 0 < j <= current.revision
    ensures TailWalk(ts[j..], c, j, ts[j - 1].id, current) <==> forall m :: j <= m < |ts| ==> Working(ts[m].kind)
    decreases |ts| - j
  {
    if j < |ts| && j < current.revision {
      assert ts[j..][1..] == ts[j + 1..];
      WalkDecides(ts, c, j + 1, current);
    }
  }

  // ---------------------------------------------------------------------------------
  // projectApprovalStatusForPlanLocked
  // ---------------------------------------------------------------------------------

  /** What one invocation finds outside the harness's own files. */
  datatype World = World(authored: Plan, registry: string, policy: string, head: Option<string>)

  datatype ApprovalStatus = ApprovalStatus(approval: Option<Approval>, current: bool, reason: string)

  /** validateApprovalEnvelope */
  predicate EnvelopeValid(r: Record) {
    && r.payload.ApprovedPayload?
    && r.expected == Some(r.payload.approval.before) && r.resulting == Some(r.payload.approval.after)
    && r.actor == r.payload.approval.approver
  }

  function StatusOf(records: seq<Record>, c: ChangeId, current: ChangeState,
                    world: World): Result<ApprovalStatus, string> {
    match FindLast(records, c, ApprovedKind, None)
    case None => Ok(ApprovalStatus(None, false, "approval_missing"))
    case Some(r) =>
      if !EnvelopeValid(r) then Err("approval_history")
      else
        var a := r.payload.approval;
        if current.stage != Approved then Ok(ApprovalStatus(Some(a), false, "approval_not_applicable"))
        else if !TailOf(records, c, r, a, current) then Ok(ApprovalStatus(Some(a), false, "state_revision_changed"))
        else if world.registry != a.registry then Ok(ApprovalStatus(Some(a), false, "registry_version_changed"))
        else if world.policy != a.policy then Ok(ApprovalStatus(Some(a), false, "policy_digest_changed"))
        else if world.authored != a.artifacts then Ok(ApprovalStatus(Some(a), false, "artifact_changed"))
        else Ok(ApprovalStatus(Some(a), true, ""))
  }

  method ProjectApproval(records: seq<Record>, c: ChangeId, current: ChangeState, world: World)
    returns (status: Result<ApprovalStatus, string>)
    ensures status == StatusOf(records, c, current, world)
  {
    var found := Latest(records, c, ApprovedKind, None);
    if found.None? { return Ok(ApprovalStatus(None, false, "approval_missing")); }
    if !EnvelopeValid(found.value) { return Err("approval_history"); }
    var approval := found.value.payload.approval;
    if current.stage != Approved { return Ok(ApprovalStatus(Some(approval), false, "approval_not_applicable")); }
    var tail := TailCurrent(records, c, found.value, approval, current);
    if !tail { return Ok(ApprovalStatus(Some(approval), false, "state_revision_changed")); }
    if world.registry != approval.registry {
      return Ok(ApprovalStatus(Some(approval), false, "registry_version_changed"));
    }
    if world.policy != approval.policy { return Ok(ApprovalStatus(Some(approval), false, "policy_digest_changed")); }
    if world.authored != approval.artifacts { return Ok(ApprovalStatus(Some(approval), false, "artifact_changed")); }
    return Ok(ApprovalStatus(Some(approval), true, ""));
  }
}
