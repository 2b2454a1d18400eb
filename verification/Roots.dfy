/** The files all changes share, and the invariant that ties every state file to the history:
    the state is the fold of a prefix of it, at most one record apart in either direction. */
module Roots {
  import opened Records
  import opened Ledger
  import opened Lifecycle
  import opened Approvals

  /** A committed sync or archive manifest: its bound record, and the state bytes it replaces
      and installs. The other outputs and the folder move are the transaction's own matter. */
  datatype Journal = Journal(record: Record, before: ChangeState, after: ChangeState)

  datatype Root = Root(
    history: seq<Record>, evidence: seq<Record>, states: map<ChangeId, ChangeState>, journal: Option<Journal>)

  /** The transitions of a change, the pending journal's bound record counted as the last one. */
  function Timeline(root: Root, c: ChangeId): seq<Record> {
    Transitions(root.history, c) +
    (match root.journal
     case Some(j) => if j.record.change == c && !HasId(root.history, j.record.id) then [j.record] else []
     case None => [])
  }

  predicate AppendFirst(kind: Kind) {
    kind == ApprovedKind || kind == AttemptKind || kind == CompletionKind || kind == ReopenedKind
  }

  predicate WriteAhead(kind: Kind) {
    kind == SyncedKind || kind == ArchivedKind
  }

  predicate Journaled(root: Root, c: ChangeId) {
    root.journal.Some? && root.journal.value.record.change == c
  }

  /** Event sourcing for one change: its state file is the fold of its timeline up to the state's
      revision, and at most one record is waiting. */
  ghost predicate Tracked(root: Root, c: ChangeId)
    requires c in root.states
  {
    var ts, s := Timeline(root, c), root.states[c];
    && LegalRun(ts)
    && 0 < s.revision <= |ts| <= s.revision + 1
    && s == Fold(ts[..s.revision])
    && (s.revision < |ts| ==> if Journaled(root, c) then ts[s.revision] == root.journal.value.record
                              else AppendFirst(ts[s.revision].kind))
  }

  /** A pending journal binds the last record of its change's timeline; the state is installed
      before the record is appended. */
  ghost predicate JournalSound(root: Root) {
    root.journal.Some? ==>
      var j := root.journal.value;
      var c := j.record.change;
      var ts := Timeline(root, c);
      && c in root.states && j.record.Valid() && j.record.family == History && WriteAhead(j.record.kind)
      && |ts| > 1 && ts[|ts| - 1] == j.record
      && j.before == Fold(ts[..|ts| - 1]) && j.after == Fold(ts)
      && (root.states[c] == j.before || root.states[c] == j.after)
      && (HasId(root.history, j.record.id) ==> root.states[c] == j.after)
  }

  /** The evidence a completion names is a recorded, passing run of its task and attempt. */
  predicate ProvenBy(completion: Record, evidence: Record) {
    && evidence.kind == ObservedKind && evidence.payload.ObservedPayload?
    && completion.payload.CompletionPayload?
    && evidence.id == completion.payload.evidence && evidence.payload.run.passed
    && evidence.payload.run.subject.change == completion.change
    && evidence.payload.run.subject.task == completion.payload.task
    && evidence.payload.run.subject.attempt == completion.payload.attemptOf
  }

  /** The run was made for what the attempt fixed: its HEAD, its contract and the command in it,
      its approved plan, at the revision the completion starts from. */
  predicate RanFor(completion: Record, evidence: Record) {
    && evidence.payload.ObservedPayload? && completion.payload.CompletionPayload?
    && var run, attempt := evidence.payload.run.subject, completion.payload.attemptOf;
       && run.head == attempt.head && run.taskHash == attempt.contract && run.command == attempt.contract.contract
       && run.approvalHash == attempt.approved && run.revision == completion.payload.before
  }

  ghost predicate Proven(completion: Record, evidence: seq<Record>) {
    exists e :: e in evidence && ProvenBy(completion, e) && RanFor(completion, e)
  }

  /** Every completion is proven, and no evidence is consumed twice. */
  ghost predicate EvidenceSound(history: seq<Record>, evidence: seq<Record>) {
    && (forall r {:trigger Proven(r, evidence)} :: r in history && r.kind == CompletionKind ==> Proven(r, evidence))
    && (forall i, j ::
          0 <= i < j < |history| && history[i].kind == CompletionKind && history[j].kind == CompletionKind ==>
          Consumes(history[i]) != Consumes(history[j]))
  }

  function Consumes(r: Record): Option<Id> {
    if r.payload.CompletionPayload? then Some(r.payload.evidence) else None
  }

  ghost predicate Inv(root: Root) {
    && WellFormed(root.history, History) && WellFormed(root.evidence, Evidence)
    && (forall c {:trigger Tracked(root, c)} :: c in root.states ==> Tracked(root, c))
    && JournalSound(root)
    && EvidenceSound(root.history, root.evidence)
  }

  // ---------------------------------------------------------------------------------
  // Frames
  // ---------------------------------------------------------------------------------

  lemma TimelineWithoutJournal(root: Root, c: ChangeId)
    requires root.journal.None?
    ensures Timeline(root, c) == Transitions(root.history, c)
  {
  }

  lemma TimelineOther(root: Root, c: ChangeId)
    requires !Journaled(root, c)
    ensures Timeline(root, c) == Transitions(root.history, c)
  {
  }

  /** A record of one change leaves every other change's timeline alone. */
  lemma AppendElsewhere(root: Root, r: Record, c: ChangeId)
    requires r.change != c || !r.Transition()
    requires !Journaled(root, c) || r.id != root.journal.value.record.id
    ensures Timeline(root.(history := root.history + [r]), c) == Timeline(root, c)
  {
    TransitionsAppend(root.history, r, c);
    HasIdAppend(root.history, r);
  }

  lemma SameTracked(root: Root, next: Root, c: ChangeId)
    requires c in root.states && Tracked(root, c)
    requires c in next.states && next.states[c] == root.states[c] && Timeline(next, c) == Timeline(root, c)
    requires Journaled(root, c) == Journaled(next, c)
    requires Journaled(root, c) ==> next.journal == root.journal
    ensures Tracked(next, c)
  {
  }

  /** The last revision in the ledger is the number of the change's recorded transitions. */
  lemma Tail(root: Root, c: ChangeId)
    requires Inv(root) && c in root.states && !Journaled(root, c)
    ensures var ts := Transitions(root.history, c);
            ts == Timeline(root, c) && LastRevision(root.history, c) == Some(|ts|)
  {
    TimelineOther(root, c);
    assert Tracked(root, c);
    LastRevisionIsLastTransition(root.history, c);
    Numbered(Timeline(root, c), |Timeline(root, c)| - 1);
  }

  lemma EvidenceAppend(history: seq<Record>, evidence: seq<Record>, r: Record)
    requires EvidenceSound(history, evidence)
    requires r.kind == CompletionKind ==>
               Proven(r, evidence) && forall k :: 0 <= k < |history| && history[k].kind == CompletionKind ==>
                 Consumes(history[k]) != Consumes(r)
    ensures EvidenceSound(history + [r], evidence)
  {
    var more := history + [r];
    forall i, j | 0 <= i < j < |more| && more[i].kind == CompletionKind && more[j].kind == CompletionKind
      ensures Consumes(more[i]) != Consumes(more[j])
    {
      assert more[i] == history[i];
      if j < |history| { assert more[j] == history[j]; }
    }
    forall q | q in more && q.kind == CompletionKind ensures Proven(q, evidence) {
      if q in history { assert Proven(q, evidence); }
    }
  }

  // ---------------------------------------------------------------------------------
  // Steps
  // ---------------------------------------------------------------------------------

  /** Whether the next record of a change may be appended to what is there. */
  ghost predicate Next(root: Root, r: Record) {
    && r.change in root.states && r.Valid() && r.family == History
    && Legal(root.states[r.change], r)
    && (r.kind == CompletionKind ==>
          Proven(r, root.evidence)
          && forall k :: 0 <= k < |root.history| && root.history[k].kind == CompletionKind ==>
               Consumes(root.history[k]) != Consumes(r))
  }

  /** A record for the state's own revision fits only when nothing is waiting. */
  lemma FitsOnlyWhenSettled(root: Root, r: Record)
    requires Inv(root) && root.journal.None? && r.change in root.states
    requires r.expected == Some(root.states[r.change].revision) && Fits(root.history, r)
    ensures |Timeline(root, r.change)| == root.states[r.change].revision
  {
    Tail(root, r.change);
    assert Tracked(root, r.change);
  }

  lemma {:induction false} ExtendRun(ts: seq<Record>, r: Record)
    requires LegalRun(ts) && Legal(Fold(ts), r)
    ensures LegalRun(ts + [r]) && Fold(ts + [r]) == Apply(Fold(ts), r)
  {
    assert (ts + [r])[..|ts|] == ts;
  }

  /** Where every run starts: no change at all. */
  lemma EmptyIsSound()
    ensures Inv(Root([], [], map[], None))
  {
  }

  /** A change comes into being with its first record and its first state. */
  lemma CreateKeeps(root: Root, r: Record)
    requires Inv(root) && root.journal.None? && r.change !in root.states && r.Valid()
    requires r.family == History && r.kind == CreatedKind && Fits(root.history, r)
    requires Transitions(root.history, r.change) == []
    ensures var next := root.(history := root.history + [r], states := root.states[r.change := Fold([r])]);
            Inv(next) && Timeline(next, r.change) == [r]
  {
    hide WellFormed, EvidenceSound, LegalRun, Fold, Transitions, Tracked, Fits, Record.Valid;
    var next := root.(history := root.history + [r], states := root.states[r.change := Fold([r])]);
    WellFormedExtends(root.history, r, History);
    EvidenceAppend(root.history, root.evidence, r);
    CreatedTracked(root, r);
    forall c | c in next.states ensures Tracked(next, c) {
      if c != r.change {
        AppendElsewhere(root, r, c);
        assert Tracked(root, c);
        SameTracked(root, next, c);
      }
    }
  }

  lemma CreatedTracked(root: Root, r: Record)
    requires root.journal.None? && r.Valid() && r.family == History && r.kind == CreatedKind
    requires Transitions(root.history, r.change) == []
    ensures var next := root.(history := root.history + [r], states := root.states[r.change := Fold([r])]);
            Tracked(next, r.change) && Timeline(next, r.change) == [r]
  {
    TransitionsAppend(root.history, r, r.change);
    assert [r][..1] == [r] && [r][..0] == [];
  }

  /** Appending first: the ledger gets ahead of the state by one waiting record. */
  lemma AppendKeeps(root: Root, r: Record)
    requires Inv(root) && root.journal.None? && Next(root, r) && Fits(root.history, r) && AppendFirst(r.kind)
    ensures var next := root.(history := root.history + [r]);
            Inv(next) && Timeline(next, r.change) == Timeline(root, r.change) + [r]
  {
    var next := root.(history := root.history + [r]);
    var s, ts := root.states[r.change], Timeline(root, r.change);
    FitsOnlyWhenSettled(root, r);
    WellFormedExtends(root.history, r, History);
    EvidenceAppend(root.history, root.evidence, r);
    TransitionsAppend(root.history, r, r.change);
    assert Tracked(root, r.change);
    assert ts[..s.revision] == ts;
    ExtendRun(ts, r);
    assert (ts + [r])[..s.revision] == ts;
    assert Timeline(next, r.change) == ts + [r];
    forall c | c in next.states ensures Tracked(next, c) {
      if c != r.change {
        AppendElsewhere(root, r, c);
        assert Tracked(root, c);
        SameTracked(root, next, c);
      }
    }
  }

  /** Persisting: the state file catches up with the waiting record. */
  lemma PersistKeeps(root: Root, c: ChangeId)
    requires Inv(root) && root.journal.None? && c in root.states
    requires root.states[c].revision < |Timeline(root, c)|
    ensures var s, ts := root.states[c], Timeline(root, c);
            var next := root.(states := root.states[c := Apply(s, ts[s.revision])]);
            Inv(next) && next.states[c] == Fold(Timeline(next, c))
  {
    var s, ts := root.states[c], Timeline(root, c);
    var next := root.(states := root.states[c := Apply(s, ts[s.revision])]);
    assert Tracked(root, c);
    FoldNext(ts, s.revision);
    assert ts[..|ts|] == ts;
    RunsAreConsistent(ts);
    forall d | d in next.states ensures Tracked(next, d) {
      if d != c {
        assert Tracked(root, d);
        SameTracked(root, next, d);
      }
    }
  }

  /** An observation moves nothing. */
  lemma ObservationKeeps(root: Root, r: Record)
    requires Inv(root) && root.journal.None? && r.Valid() && r.family == History && r.kind == FrictionKind
    requires Fits(root.history, r)
    ensures var next := root.(history := root.history + [r]);
            Inv(next) && forall c :: Timeline(next, c) == Timeline(root, c)
  {
    var next := root.(history := root.history + [r]);
    WellFormedExtends(root.history, r, History);
    EvidenceAppend(root.history, root.evidence, r);
    forall c ensures Timeline(next, c) == Timeline(root, c) {
      AppendElsewhere(root, r, c);
    }
    forall c | c in next.states ensures Tracked(next, c) {
      assert Tracked(root, c);
      SameTracked(root, next, c);
    }
  }

  lemma EvidenceGrows(history: seq<Record>, evidence: seq<Record>, e: Record)
    requires EvidenceSound(history, evidence)
    ensures EvidenceSound(history, evidence + [e])
  {
    forall r | r in history && r.kind == CompletionKind ensures Proven(r, evidence + [e]) {
      assert Proven(r, evidence);
      var proof :| proof in evidence && ProvenBy(r, proof) && RanFor(r, proof);
      assert proof in evidence + [e];
    }
  }

  lemma EvidenceKeeps(root: Root, e: Record)
    requires Inv(root) && e.Valid() && e.family == Evidence && Fits(root.evidence, e)
    ensures Inv(root.(evidence := root.evidence + [e]))
  {
    hide LegalRun, Fold, WellFormed, EvidenceSound;
    var next := root.(evidence := root.evidence + [e]);
    WellFormedExtends(root.evidence, e, Evidence);
    EvidenceGrows(root.history, root.evidence, e);
    forall c | c in next.states ensures Tracked(next, c) {
      assert Tracked(root, c);
      SameTracked(root, next, c);
    }
  }

  /** Writing ahead: the manifest binds the one record the change still lacks. */
  lemma JournalKeeps(root: Root, r: Record)
    requires Inv(root) && root.journal.None? && Next(root, r) && WriteAhead(r.kind) && !HasId(root.history, r.id)
    requires |Timeline(root, r.change)| == root.states[r.change].revision
    ensures var s := root.states[r.change];
            var next := root.(journal := Some(Journal(r, s, Apply(s, r))));
            Inv(next) && Timeline(next, r.change) == Timeline(root, r.change) + [r]
  {
    var s, ts := root.states[r.change], Timeline(root, r.change);
    var next := root.(journal := Some(Journal(r, s, Apply(s, r))));
    assert Tracked(root, r.change);
    assert ts[..s.revision] == ts && (ts + [r])[..s.revision] == ts;
    ExtendRun(ts, r);
    forall c | c in next.states ensures Tracked(next, c) {
      if c != r.change {
        assert Tracked(root, c);
        SameTracked(root, next, c);
      }
    }
  }

  lemma InstalledIsTracked(root: Root, next: Root)
    requires Inv(root) && root.journal.Some?
    requires var j := root.journal.value;
             next == root.(states := root.states[j.record.change := j.after])
    ensures Tracked(next, root.journal.value.record.change)
  {
    var c := root.journal.value.record.change;
    var ts := Timeline(root, c);
    assert Tracked(root, c) && Timeline(next, c) == ts;
    RunsAreConsistent(ts);
    assert ts[..|ts|] == ts;
  }

  /** Replay, first step: install the state. */
  lemma InstallKeeps(root: Root)
    requires Inv(root) && root.journal.Some?
    ensures var j := root.journal.value;
            Inv(root.(states := root.states[j.record.change := j.after]))
  {
    var j := root.journal.value;
    var c := j.record.change;
    var next := root.(states := root.states[c := j.after]);
    assert Tracked(next, c) by { InstalledIsTracked(root, next); }
    forall d | d in next.states ensures Tracked(next, d) {
      if d != c {
        assert Tracked(root, d);
        SameTracked(root, next, d);
      }
    }
  }

  /** Roll-forward is never blocked at its record: the bound record always fits. */
  lemma BoundRecordFits(root: Root)
    requires Inv(root) && root.journal.Some? && !HasId(root.history, root.journal.value.record.id)
    ensures Fits(root.history, root.journal.value.record)
  {
    var r := root.journal.value.record;
    var ts := Transitions(root.history, r.change);
    assert Tracked(root, r.change);
    assert Timeline(root, r.change) == ts + [r];
    Numbered(ts + [r], |ts|);
    LastRevisionIsLastTransition(root.history, r.change);
    Numbered(ts + [r], |ts| - 1);
  }

  /** Replay, second step: append the bound record. */
  lemma BindKeeps(root: Root)
    requires Inv(root) && root.journal.Some?
    requires root.states[root.journal.value.record.change] == root.journal.value.after
    requires !HasId(root.history, root.journal.value.record.id)
    ensures Inv(root.(history := root.history + [root.journal.value.record]))
  {
    var j := root.journal.value;
    var r := j.record;
    var next := root.(history := root.history + [r]);
    BoundRecordFits(root);
    WellFormedExtends(root.history, r, History);
    EvidenceAppend(root.history, root.evidence, r);
    TransitionsAppend(root.history, r, r.change);
    HasIdAppend(root.history, r);
    assert Timeline(next, r.change) == Timeline(root, r.change);
    forall c | c in next.states ensures Tracked(next, c) {
      assert Tracked(root, c);
      if c != r.change { AppendElsewhere(root, r, c); }
      SameTracked(root, next, c);
    }
  }

  /** Replay, last step: the manifest goes. */
  lemma ClearKeeps(root: Root)
    requires Inv(root) && root.journal.Some? && HasId(root.history, root.journal.value.record.id)
    ensures Inv(root.(journal := None))
    ensures |Timeline(root.(journal := None), root.journal.value.record.change)|
            == root.states[root.journal.value.record.change].revision
  {
    var j := root.journal.value;
    var next := root.(journal := None);
    var ts := Timeline(root, j.record.change);
    assert Tracked(root, j.record.change);
    RunsAreConsistent(ts);
    forall c | c in next.states ensures Tracked(next, c) {
      assert Tracked(root, c);
      if c != j.record.change { SameTracked(root, next, c); }
    }
  }

  // ---------------------------------------------------------------------------------
  // What the invariant says
  // ---------------------------------------------------------------------------------

  /** Event sourcing and the two-protocol gap: in every reachable state, crashes included, the
      state file is the fold of the timeline's first `revision` records. The ledger's tail is at
      the state's revision, or one ahead with a single waiting append-first record, or one behind
      with a journal binding exactly the missing record; the reports answer agreement,
      history ahead of state, and refusal in exactly these cases. */
  lemma EventSourced(root: Root, c: ChangeId)
    requires Inv(root) && c in root.states
    ensures var s, ts, recorded := root.states[c], Timeline(root, c), Transitions(root.history, c);
            var verdict := Inconsistency(EventsOf(recorded), s.revision);
            && s.revision <= |ts| && s == Fold(ts[..s.revision])
            && (verdict == Agrees <==> |recorded| == s.revision)
            && (verdict == HistoryAhead <==> |recorded| == s.revision + 1)
            && (verdict == Disagrees <==> |recorded| + 1 == s.revision)
            && (verdict == HistoryAhead ==> AppendFirst(recorded[s.revision].kind) && !Journaled(root, c))
            && (verdict == Disagrees ==> Journaled(root, c) && ts == recorded + [root.journal.value.record])
  {
    var s, ts, recorded := root.states[c], Timeline(root, c), Transitions(root.history, c);
    assert Tracked(root, c);
    Numbered(ts, |recorded| - 1);
    assert recorded[|recorded| - 1] == ts[|recorded| - 1];
    if Journaled(root, c) { JournalGap(root, c); }
    hide LegalRun, Fold, WellFormed, JournalSound, EvidenceSound, Transitions, Inconsistency;
    VerdictIs(recorded, s.revision);
  }

  lemma VerdictIs(recorded: seq<Record>, revision: nat)
    requires recorded != [] && recorded[|recorded| - 1].expected == Some(|recorded| - 1)
    requires recorded[|recorded| - 1].resulting == Some(|recorded|)
    ensures Inconsistency(EventsOf(recorded), revision) ==
            if |recorded| == revision then Agrees else if |recorded| == revision + 1 then HistoryAhead else Disagrees
  {
  }

  lemma JournalGap(root: Root, c: ChangeId)
    requires Inv(root) && c in root.states && Journaled(root, c)
    ensures var s, ts, recorded := root.states[c], Timeline(root, c), Transitions(root.history, c);
            && |recorded| > 0
            && (|recorded| == s.revision || |recorded| + 1 == s.revision)
            && (|recorded| + 1 == s.revision ==> ts == recorded + [root.journal.value.record])
  {
    var j, ts := root.journal.value, Timeline(root, c);
    assert Tracked(root, c);
    RunsAreConsistent(ts);
    LegalPrefix(ts, |ts| - 1);
    RunsAreConsistent(ts[..|ts| - 1]);
  }

  /** In every reachable state: at most one attempt, exactly the attempted tasks in progress,
      exactly the bound tasks completed, closed under the approved plan's dependencies. */
  lemma StatesAreConsistent(root: Root, c: ChangeId)
    requires Inv(root) && c in root.states
    ensures Consistent(root.states[c])
    ensures 0 < root.states[c].revision <= |Timeline(root, c)|
    ensures root.states[c].last == Timeline(root, c)[root.states[c].revision - 1].id
  {
    var ts, k := Timeline(root, c), root.states[c].revision;
    assert Tracked(root, c);
    LegalPrefix(ts, k);
    RunsAreConsistent(ts[..k]);
  }
}
