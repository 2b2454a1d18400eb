/** What the loops over history answer in a reachable root: which record is waiting, when an
    approval is current, and why a sync or an archive never meets a waiting record. */
module Authority {
  import opened Records
  import opened Ledger
  import opened Lifecycle
  import opened Approvals
  import opened Roots

  /** The appended record the state file has not caught up with. */
  function Waiting(root: Root, c: ChangeId): Option<Record>
    requires c in root.states
  {
    var ts, k := Transitions(root.history, c), root.states[c].revision;
    if k < |ts| then Some(ts[k]) else None
  }

  // ---------------------------------------------------------------------------------
  // History positions and transition positions
  // ---------------------------------------------------------------------------------

  lemma TransitionAt(rs: seq<Record>, c: ChangeId, p: nat)
    requires p < |rs| && rs[p].change == c && rs[p].Transition()
    ensures var i := |Transitions(rs[..p], c)|;
            var ts := Transitions(rs, c);
            i < |ts| && ts[i] == rs[p] && Transitions(rs[p + 1..], c) == ts[i + 1..]
  {
    assert rs == rs[..p] + [rs[p]] + rs[p + 1..];
    TransitionsConcat(rs[..p] + [rs[p]], rs[p + 1..], c);
    TransitionsAppend(rs[..p], rs[p], c);
  }

  lemma {:induction false} TransitionComesFrom(rs: seq<Record>, c: ChangeId, i: nat) returns (p: nat)
    requires i < |Transitions(rs, c)|
    ensures p < |rs| && rs[p] == Transitions(rs, c)[i] && |Transitions(rs[..p], c)| == i
    ensures rs[p].change == c && rs[p].Transition()
  {
    var before := rs[..|rs| - 1];
    if i < |Transitions(before, c)| {
      p := TransitionComesFrom(before, c, i);
      assert before[..p] == rs[..p];
    } else {
      p := |rs| - 1;
    }
  }

  lemma {:induction false} AfterIdAt(rs: seq<Record>, p: nat)
    requires p < |rs| && forall k :: 0 <= k < p ==> rs[k].id != rs[p].id
    ensures AfterId(rs, rs[p].id) == Some(rs[p + 1..])
    decreases p
  {
    if p > 0 {
      AfterIdAt(rs[1..], p - 1);
      assert rs[1..][p - 1 + 1..] == rs[p + 1..];
    }
  }

  /** In a reachable root the recorded transitions of a change are numbered by position. */
  lemma RunIsSequenced(root: Root, c: ChangeId)
    requires Inv(root) && c in root.states && !Journaled(root, c)
    ensures var ts := Transitions(root.history, c);
            LegalRun(ts) && Sequenced(ts, c) && Persisted(ts, root.states[c])
    ensures OnlyObservationsIdle(root.history)
  {
    var ts := Transitions(root.history, c);
    TimelineOther(root, c);
    assert Tracked(root, c);
    StatesAreConsistent(root, c);
    LastRevisionIsLastTransition(root.history, c);
    forall r | r in root.history ensures r.kind == FrictionKind <==> !r.Transition() {
      assert r.ShapeValid();
    }
    forall m | 0 <= m < |ts|
      ensures ts[m].change == c && ts[m].kind != FrictionKind && ts[m].expected == Some(m)
      ensures ts[m].resulting == Some(m + 1)
    {
      Numbered(ts, m);
      assert ts[m] in root.history;
    }
  }

  /** The backward scans for a pending record of a kind find exactly the waiting record. */
  lemma ScanFindsWaiting(root: Root, c: ChangeId, kind: Kind)
    requires Inv(root) && c in root.states && !Journaled(root, c) && kind != FrictionKind
    ensures FindLast(root.history, c, kind, Some(root.states[c].revision)) ==
            match Waiting(root, c)
            case Some(r) => if r.kind == kind then Some(r) else None
            case None => None
  {
    var at, ts := Some(root.states[c].revision), Transitions(root.history, c);
    RunIsSequenced(root, c);
    var i := FindLastIsLatest(root.history, c, kind, at);
    match FindLast(root.history, c, kind, at)
    case Some(r) =>
      TransitionAt(root.history, c, i);
    case None =>
      if Waiting(root, c).Some? {
        var p := TransitionComesFrom(root.history, c, root.states[c].revision);
        assert Sought(root.history[p], c, kind, at) <==> ts[root.states[c].revision].kind == kind;
      }
  }

  /** The latest record of a kind among the transitions. */
  lemma LatestOfKind(root: Root, c: ChangeId, kind: Kind, i: nat) returns (p: nat)
    requires Inv(root) && c in root.states && !Journaled(root, c) && kind != FrictionKind
    requires var ts := Transitions(root.history, c);
             i < |ts| && ts[i].kind == kind && forall m :: i < m < |ts| ==> ts[m].kind != kind
    ensures var ts := Transitions(root.history, c);
            && p < |root.history| && root.history[p] == ts[i]
            && FindLast(root.history, c, kind, None) == Some(ts[i])
            && Transitions(root.history[p + 1..], c) == ts[i + 1..]
  {
    RunIsSequenced(root, c);
    p := LatestAmong(root.history, c, kind, i);
  }

  lemma LatestAmong(rs: seq<Record>, c: ChangeId, kind: Kind, i: nat) returns (p: nat)
    requires OnlyObservationsIdle(rs) && kind != FrictionKind
    requires var ts := Transitions(rs, c);
             i < |ts| && ts[i].kind == kind && forall m :: i < m < |ts| ==> ts[m].kind != kind
    ensures var ts := Transitions(rs, c);
            && p < |rs| && rs[p] == ts[i] && FindLast(rs, c, kind, None) == Some(ts[i])
            && Transitions(rs[p + 1..], c) == ts[i + 1..]
  {
    hide Transitions, FindLast;
    p := FindLastIsLatest(rs, c, kind, None);
    var q := TransitionComesFrom(rs, c, i);
    assert Sought(rs[q], c, kind, None);
    TransitionAt(rs, c, p);
    TransitionAt(rs, c, q);
    if q < p { PrefixCount(rs, c, q, p); }
  }

  lemma PrefixCount(rs: seq<Record>, c: ChangeId, q: nat, p: nat)
    requires q < p <= |rs| && rs[q].change == c && rs[q].Transition()
    ensures |Transitions(rs[..q], c)| < |Transitions(rs[..p], c)|
  {
    assert rs[..p] == rs[..q] + rs[q..p];
    assert rs[q..p] == [rs[q]] + rs[q + 1..p];
    TransitionsConcat(rs[..q], rs[q..p], c);
    TransitionsConcat([rs[q]], rs[q + 1..p], c);
    assert [rs[q]][..0] == [];
  }

  // ---------------------------------------------------------------------------------
  // Approval authority
  // ---------------------------------------------------------------------------------

  predicate SameInputs(a: Approval, world: World) {
    a.registry == world.registry && a.policy == world.policy && a.artifacts == world.authored
  }

  /** The approval a state rests on still authorizes work: nothing revokes it, not even a reopen
      that is appended and not yet persisted, and its inputs are unchanged. */
  predicate Authorizes(root: Root, c: ChangeId, world: World)
    requires c in root.states
  {
    var s := root.states[c];
    && s.stage == Approved && s.approvals != []
    && (Waiting(root, c).Some? ==> Working(Waiting(root, c).value.kind))
    && SameInputs(s.approvals[|s.approvals| - 1], world)
  }

  /** The recorded transitions split at the state's revision; what waits is append-first. */
  lemma WaitingIsLegal(root: Root, c: ChangeId)
    requires Inv(root) && c in root.states && !Journaled(root, c)
    ensures Waiting(root, c).Some? ==>
              var r := Waiting(root, c).value;
              Legal(root.states[c], r) && AppendFirst(r.kind) && r.change == c && r in root.history
              && Transitions(root.history, c) == Transitions(root.history, c)[..root.states[c].revision] + [r]
    ensures Waiting(root, c).None? ==> |Transitions(root.history, c)| == root.states[c].revision
  {
    var ts, k := Transitions(root.history, c), root.states[c].revision;
    TimelineOther(root, c);
    assert Tracked(root, c);
    LastRevisionIsLastTransition(root.history, c);
    if k < |ts| {
      LegalPrefix(ts, k);
      assert ts[k] in root.history;
    }
  }

  lemma LegalApprovals(s: ChangeState, r: Record)
    requires Legal(s, r)
    ensures s.stage == Approved ==> r.kind != ApprovedKind
    ensures r.kind == ApprovedKind ==> EnvelopeValid(r) && r.payload.approval.after == s.revision + 1
  {
  }

  lemma ApprovedAtIsValid(ts: seq<Record>, i: nat)
    requires LegalRun(ts) && i < |ts| && ts[i].kind == ApprovedKind
    ensures EnvelopeValid(ts[i]) && ts[i].payload.approval.after == i + 1
  {
    Numbered(ts, i);
    FirstIsCreated(ts);
    LegalApprovals(Fold(ts[..i]), ts[i]);
  }

  lemma {:induction false} FirstIsCreated(ts: seq<Record>)
    requires LegalRun(ts)
    ensures ts[0].kind == CreatedKind
  {
    if |ts| > 1 { FirstIsCreated(ts[..|ts| - 1]); }
  }

  /** ts[i] is the approval an approved state rests on. */
  ghost predicate RestsOn(ts: seq<Record>, s: ChangeState, i: nat) {
    && i < s.revision <= |ts| && ts[i].kind == ApprovedKind && EnvelopeValid(ts[i])
    && s.approvals != [] && ts[i].payload.approval == s.approvals[|s.approvals| - 1]
    && ts[i].payload.approval.after == i + 1
    && (forall m :: i < m < s.revision ==> Working(ts[m].kind))
    && (forall m :: i < m < |ts| ==> ts[m].kind != ApprovedKind)
  }

  lemma RestsOnSome(ts: seq<Record>, s: ChangeState) returns (i: nat)
    requires LegalRun(ts) && 0 < s.revision <= |ts| <= s.revision + 1 && s == Fold(ts[..s.revision])
    requires s.stage == Approved
    ensures RestsOn(ts, s, i)
  {
    var k := s.revision;
    LegalPrefix(ts, k);
    i := ApprovedSince(ts[..k]);
    if k < |ts| { LegalApprovals(s, ts[k]); }
    LiftApproved(ts, k, i);
    ApprovedAtIsValid(ts, i);
  }

  lemma LiftApproved(ts: seq<Record>, k: nat, i: nat)
    requires k <= |ts| <= k + 1 && ApprovedAt(ts[..k], i)
    requires k < |ts| ==> ts[k].kind != ApprovedKind
    ensures i < k && ts[i] == ts[..k][i] && ts[i].kind == ApprovedKind
    ensures forall m :: i < m < k ==> Working(ts[m].kind)
    ensures forall m :: i < m < |ts| ==> ts[m].kind != ApprovedKind
  {
    forall m | i < m < k ensures Working(ts[m].kind) {
      assert ts[m] == ts[..k][m];
    }
  }

  /** Where the approval of an approved state sits in history. */
  lemma ApprovalPosition(root: Root, c: ChangeId) returns (i: nat, p: nat)
    requires Inv(root) && c in root.states && !Journaled(root, c) && root.states[c].stage == Approved
    ensures var s, ts := root.states[c], Transitions(root.history, c);
            && RestsOn(ts, s, i)
            && p < |root.history| && root.history[p] == ts[i]
            && FindLast(root.history, c, ApprovedKind, None) == Some(ts[i])
            && Transitions(root.history[p + 1..], c) == ts[i + 1..]
  {
    TimelineOther(root, c);
    assert Tracked(root, c);
    i := RestsOnSome(Transitions(root.history, c), root.states[c]);
    p := LatestOfKind(root, c, ApprovedKind, i);
  }

  lemma TailDecided(rs: seq<Record>, c: ChangeId, s: ChangeState, i: nat, p: nat)
    requires OnlyObservationsIdle(rs) && p < |rs| && forall k :: 0 <= k < p ==> rs[k].id != rs[p].id
    requires var ts := Transitions(rs, c);
            && Sequenced(ts, c) && Persisted(ts, s) && RestsOn(ts, s, i)
            && rs[p] == ts[i] && Transitions(rs[p + 1..], c) == ts[i + 1..]
    ensures var ts := Transitions(rs, c);
            TailOf(rs, c, ts[i], ts[i].payload.approval, s) <==> (s.revision < |ts| ==> Working(ts[s.revision].kind))
  {
    var ts := Transitions(rs, c);
    AfterIdAt(rs, p);
    var tail := rs[p + 1..];
    assert OnlyObservationsIdle(tail);
    WalkSeesTransitions(tail, c, i + 1, ts[i].id, s);
    WalkDecides(ts, c, i + 1, s);
  }

  /** Approval authority, exactly: on a reachable root the projection never errs, and reports an
      approval current if and only if the state rests on it and nothing revokes it. */
  lemma CurrentExactly(root: Root, c: ChangeId, world: World)
    requires Inv(root) && c in root.states && !Journaled(root, c)
    ensures var status := StatusOf(root.history, c, root.states[c], world);
            && status.Ok?
            && (status.value.current <==> Authorizes(root, c, world))
            && (status.value.current ==>
                  status.value.approval == Some(root.states[c].approvals[|root.states[c].approvals| - 1]))
  {
    if root.states[c].stage == Approved {
      TailExactly(root, c);
    } else {
      LatestApprovalIsValid(root, c);
    }
  }

  lemma LatestApprovalIsValid(root: Root, c: ChangeId)
    requires Inv(root) && c in root.states && !Journaled(root, c)
    ensures var found := FindLast(root.history, c, ApprovedKind, None);
            found.Some? ==> EnvelopeValid(found.value)
  {
    var p := FindLastIsLatest(root.history, c, ApprovedKind, None);
    if FindLast(root.history, c, ApprovedKind, None).Some? {
      RunIsSequenced(root, c);
      TransitionAt(root.history, c, p);
      ApprovedAtIsValid(Transitions(root.history, c), |Transitions(root.history[..p], c)|);
    }
  }

  /** An approved state's tail also decides a reopen: exactly a waiting reopen stops it. */
  lemma TailExactly(root: Root, c: ChangeId)
    requires Inv(root) && c in root.states && !Journaled(root, c) && root.states[c].stage == Approved
    ensures var found := FindLast(root.history, c, ApprovedKind, None);
            var s := root.states[c];
            && found.Some? && EnvelopeValid(found.value)
            && s.approvals != [] && found.value.payload.approval == s.approvals[|s.approvals| - 1]
            && (TailOf(root.history, c, found.value, found.value.payload.approval, s) <==>
                (Waiting(root, c).Some? ==> Working(Waiting(root, c).value.kind)))
  {
    var i, p := ApprovalPosition(root, c);
    RunIsSequenced(root, c);
    TailDecided(root.history, c, root.states[c], i, p);
  }

  // ---------------------------------------------------------------------------------
  // Why write-ahead operations never meet a waiting record
  // ---------------------------------------------------------------------------------

  /** When sync may commit, or archive, nothing is waiting: a waiting attempt or completion means
      an incomplete task, a waiting approval another stage, a waiting reopen a revoked approval. */
  lemma NothingWaits(root: Root, c: ChangeId, world: World)
    requires Inv(root) && c in root.states && !Journaled(root, c)
    requires root.states[c].stage == Reconciling || (Authorizes(root, c, world) && Finished(root.states[c]))
    ensures Waiting(root, c).None?
  {
    WaitingIsLegal(root, c);
    StatesAreConsistent(root, c);
    if Waiting(root, c).Some? {
      NoWorkWhenFinished(root.states[c], Waiting(root, c).value);
    }
  }

  lemma NoWorkWhenFinished(s: ChangeState, r: Record)
    requires Consistent(s) && s.approvals != [] && Finished(s)
    requires s.stage == Approved || s.stage == Reconciling
    ensures !LegalAttempt(s, r) && !LegalCompletion(s, r)
    ensures Legal(s, r) && s.stage == Reconciling ==> !AppendFirst(r.kind)
    ensures Legal(s, r) ==> !Working(r.kind)
  {
    forall t ensures t !in s.attempts {
      if t in s.tasks {
        assert t in Dependencies(s.Approved());
      }
    }
  }

  /** A bound completion names evidence that is still in the ledger. */
  lemma {:induction false} BindingsComeFromRecords(ts: seq<Record>, t: TaskId) returns (k: nat)
    requires LegalRun(ts) && t in Fold(ts).completions
    ensures k < |ts| && ts[k].kind == CompletionKind && ts[k].payload.CompletionPayload?
    ensures ts[k].payload.task == t
    ensures Fold(ts).completions[t] == Binding(ts[k].payload.attemptOf, ts[k].payload.evidence, ts[k].id)
  {
    k := |ts| - 1;
    if |ts| == 1 { FirstIsPlanning(ts); }
    if !(ts[k].kind == CompletionKind && ts[k].payload.task == t) {
      assert t in Fold(ts[..k]).completions;
      k := BindingsComeFromRecords(ts[..k], t);
    }
  }

  predicate Known(evidence: seq<Record>, id: Id) {
    exists e :: e in evidence && e.id == id
  }

  lemma BoundEvidenceIsKnown(root: Root, c: ChangeId)
    requires Inv(root) && c in root.states && !Journaled(root, c)
    ensures forall t :: t in root.states[c].completions ==> Known(root.evidence, root.states[c].completions[t].evidence)
  {
    var s, ts := root.states[c], Transitions(root.history, c);
    RunIsSequenced(root, c);
    TimelineOther(root, c);
    assert Tracked(root, c);
    LegalPrefix(ts, s.revision);
    LastRevisionIsLastTransition(root.history, c);
    forall t | t in s.completions ensures Known(root.evidence, s.completions[t].evidence) {
      var k := BindingsComeFromRecords(ts[..s.revision], t);
      assert ts[k] in root.history;
      assert Proven(ts[k], root.evidence);
      var e :| e in root.evidence && ProvenBy(ts[k], e);
      assert e.id == s.completions[t].evidence;
    }
  }

  /** The attempt in progress is the change's last persisted transition. */
  lemma AttemptIsLast(ts: seq<Record>, t: TaskId)
    requires LegalRun(ts) && t in Fold(ts).attempts
    ensures ts[|ts| - 1].kind == AttemptKind && ts[|ts| - 1].payload.AttemptPayload?
    ensures ts[|ts| - 1].payload.attempt == Fold(ts).attempts[t]
  {
    hide Consistent, Legal;
    var n := |ts| - 1;
    if n == 0 {
      FirstIsPlanning(ts);
    } else {
      RunsAreConsistent(ts[..n]);
      if ts[n].kind != AttemptKind {
        OthersLeaveNone(Fold(ts[..n]), ts[n]);
      } else {
        AttemptIsAlone(Fold(ts[..n]), ts[n], t);
      }
    }
  }

  lemma AttemptIsAlone(s: ChangeState, r: Record, t: TaskId)
    requires Legal(s, r) && r.kind == AttemptKind && t in Apply(s, r).attempts
    ensures r.payload.AttemptPayload? && r.payload.attempt == Apply(s, r).attempts[t]
  {
  }

  lemma OthersLeaveNone(s: ChangeState, r: Record)
    requires Consistent(s) && Legal(s, r) && r.kind != AttemptKind
    ensures Apply(s, r).attempts == map[]
  {
    hide Lifecycle.Sound, ClosedCompletions;
    LegalKeepsConsistent(s, r);
    if r.kind == SyncedKind { NoWorkWhenFinished(s, r); }
    forall u ensures u !in Apply(s, r).attempts {}
  }

  /** A reconciling change ends with its sync record, which fixed the approved plan and the
      evidence set its archive inherits. */
  lemma ReconcilingEndsWithSync(ts: seq<Record>)
    requires LegalRun(ts) && Fold(ts).stage == Reconciling
    ensures var r := ts[|ts| - 1];
            && r.kind == SyncedKind && r.payload.SyncedPayload?
            && Fold(ts).approvals != []
            && r.payload.approvalHash == Fold(ts).Approved() && r.payload.evidenceSet == Fold(ts).EvidenceSet()
  {
    if |ts| == 1 {
      FirstIsPlanning(ts);
    } else {
      assert Legal(Fold(ts[..|ts| - 1]), ts[|ts| - 1]);
    }
  }
}
