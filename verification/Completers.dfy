/** Completers of many changes at once, interleaved step by step with verifiers and the other
    writers, each of them able to stop anywhere: one lock covers both ledgers, and it is what
    keeps a run from being consumed twice or past a newer one (complete.go, append.go). */
module Completers {
  import opened Records
  import opened Ledger
  import opened Proofs

  type Pid = nat

  /** Where a completer is inside its ledger transaction. */
  datatype Phase =
    | Idle
    | Reading(seen: seq<Record>)
    | Proving(seen: seq<Record>, subject: Subject, proof: Record)
    | Appended

  /** One consumption, as it happened: the completion, its subject, and how much evidence there
      was at that moment. */
  datatype Use = Use(completion: Record, subject: Subject, proof: Record, known: nat)

  datatype System = System(
    history: seq<Record>, evidence: seq<Record>, holder: Option<Pid>, phases: map<Pid, Phase>, uses: seq<Use>)
  {
    function PhaseOf(p: Pid): Phase {
      if p in phases then phases[p] else Idle
    }

    function With(p: Pid, phase: Phase): System {
      this.(phases := phases[p := phase])
    }
  }

  datatype Step =
    | Acquire(p: Pid)
    | Prove(p: Pid, subject: Subject)
    | AppendCompletion(p: Pid, id: Id, actor: string)
    | Release(p: Pid)
    | Crash(p: Pid)
    | Observe(run: Record)
    | Write(other: Record)

  function Completion(subject: Subject, id: Id, actor: string, proof: Id): Record {
    Record(id, History, CompletionKind, subject.change, Some(subject.revision), Some(subject.revision + 1), actor,
           CompletionPayload(subject.task, subject.attempt, proof, subject.revision, subject.revision + 1))
  }

  predicate Taken(history: seq<Record>, evidence: Id) {
    exists r :: r in history && ConsumedBy(r, evidence)
  }

  /** What a step does; a step that is not enabled does nothing. Waiting for the lock is simply
      not taking the step. */
  function Do(s: System, step: Step): System {
    match step
    case Acquire(p) =>
      if s.holder.None? && s.PhaseOf(p).Idle? then s.(holder := Some(p)).With(p, Reading(s.history)) else s
    case Prove(p, subject) =>
      var phase := s.PhaseOf(p);
      if phase.Reading? && Usable(s.evidence, subject).Some? && !Taken(phase.seen, Usable(s.evidence, subject).value.id)
      then s.With(p, Proving(phase.seen, subject, Usable(s.evidence, subject).value)) else s
    case AppendCompletion(p, id, actor) =>
      var phase := s.PhaseOf(p);
      if !phase.Proving? then s
      else
        var r := Completion(phase.subject, id, actor, phase.proof.id);
        if r.Valid() && Fits(s.history, r)
        then s.(history := s.history + [r],
                uses := s.uses + [Use(r, phase.subject, phase.proof, |s.evidence|)]).With(p, Appended)
        else s
    case Release(p) => if s.holder == Some(p) then s.(holder := None).With(p, Idle) else s
    case Crash(p) => if s.holder == Some(p) then s.(holder := None).With(p, Idle) else s.With(p, Idle)
    case Observe(run) =>
      if s.holder.None? && run.Valid() && run.family == Evidence && Fits(s.evidence, run)
      then s.(evidence := s.evidence + [run]) else s
    case Write(other) =>
      if s.holder.None? && other.Valid() && other.family == History && other.kind != CompletionKind
         && Fits(s.history, other)
      then s.(history := s.history + [other]) else s
  }

  function Run(s: System, steps: seq<Step>): System {
    if steps == [] then s else Do(Run(s, steps[..|steps| - 1]), steps[|steps| - 1])
  }

  /** The completions of a history, in order. */
  function Completions(history: seq<Record>): seq<Record> {
    if history == [] then []
    else
      Completions(history[..|history| - 1]) +
      (if history[|history| - 1].kind == CompletionKind then [history[|history| - 1]] else [])
  }

  // ---------------------------------------------------------------------------------
  // The invariant
  // ---------------------------------------------------------------------------------

  /** A recorded consumption: the run was the newest of its subject, and it had passed. */
  predicate Justified(evidence: seq<Record>, u: Use) {
    && u.known <= |evidence| && Usable(evidence[..u.known], u.subject) == Some(u.proof)
    && u.completion.kind == CompletionKind && u.completion.payload.CompletionPayload?
    && u.completion.payload.evidence == u.proof.id && u.completion.change == u.subject.change
    && u.completion.payload.task == u.subject.task && u.completion.payload.attemptOf == u.subject.attempt
  }

  ghost predicate UsedOnce(uses: seq<Use>) {
    forall i, j :: 0 <= i < j < |uses| ==> uses[i].proof.id != uses[j].proof.id
  }

  /** The lock holder's view is still the truth. */
  predicate Current(s: System, p: Pid) {
    match s.PhaseOf(p)
    case Reading(seen) => seen == s.history
    case Proving(seen, subject, proof) =>
      seen == s.history && Usable(s.evidence, subject) == Some(proof) && !Taken(seen, proof.id)
    case _ => true
  }

  ghost predicate Good(s: System) {
    && WellFormed(s.history, History) && WellFormed(s.evidence, Evidence)
    && (forall p :: p in s.phases && s.holder != Some(p) ==> s.phases[p] == Idle)
    && (s.holder.Some? ==> Current(s, s.holder.value))
    && Completions(s.history) == Recorded(s.uses)
    && (forall k :: 0 <= k < |s.uses| ==> Justified(s.evidence, s.uses[k]))
    && UsedOnce(s.uses)
  }

  function Recorded(uses: seq<Use>): (rs: seq<Record>)
    ensures |rs| == |uses|
  {
    seq(|uses|, k requires 0 <= k < |uses| => uses[k].completion)
  }

  /** A system where nobody works and nothing is completed yet. */
  lemma IdleIsGood(history: seq<Record>, evidence: seq<Record>)
    requires WellFormed(history, History) && WellFormed(evidence, Evidence) && Completions(history) == []
    ensures Good(System(history, evidence, None, map[], []))
  {
  }

  lemma {:induction false} CompletionsHave(history: seq<Record>, r: Record)
    ensures r in Completions(history) <==> r in history && r.kind == CompletionKind
  {
    if history != [] {
      CompletionsHave(history[..|history| - 1], r);
      assert history == history[..|history| - 1] + [history[|history| - 1]];
    }
  }

  lemma CompletionsAppend(history: seq<Record>, r: Record)
    ensures Completions(history + [r]) == Completions(history) + (if r.kind == CompletionKind then [r] else [])
  {
    assert (history + [r])[..|history|] == history;
  }

  /** Evidence only grows, so what was justified stays justified. */
  lemma JustifiedGrows(evidence: seq<Record>, run: Record, u: Use)
    requires Justified(evidence, u)
    ensures Justified(evidence + [run], u)
  {
    assert (evidence + [run])[..u.known] == evidence[..u.known];
  }

  lemma AppendKeepsGood(s: System, p: Pid, id: Id, actor: string)
    requires Good(s)
    ensures Good(Do(s, AppendCompletion(p, id, actor)))
  {
    hide WellFormed, Completions, Usable, Taken;
    var phase := s.PhaseOf(p);
    if phase.Proving? && s.holder == Some(p) {
      var r := Completion(phase.subject, id, actor, phase.proof.id);
      if r.Valid() && Fits(s.history, r) {
        var u := Use(r, phase.subject, phase.proof, |s.evidence|);
        WellFormedExtends(s.history, r, History);
        CompletionsAppend(s.history, r);
        assert Recorded(s.uses + [u]) == Recorded(s.uses) + [r];
        assert s.evidence[..|s.evidence|] == s.evidence;
        forall k | 0 <= k < |s.uses| ensures s.uses[k].proof.id != u.proof.id {
          NotTaken(s, k, phase.proof.id);
        }
      }
    }
  }

  /** A completion that enters the ledger consumes the newest run of its subject among all the
      evidence there is, a passing one that nothing has consumed: the lock covers both ledgers. */
  lemma ConsumptionIsCurrent(s: System, p: Pid, id: Id, actor: string)
    requires Good(s) && Do(s, AppendCompletion(p, id, actor)).history != s.history
    ensures s.holder == Some(p) && s.PhaseOf(p).Proving?
    ensures var phase := s.PhaseOf(p);
            && Do(s, AppendCompletion(p, id, actor)).history ==
                 s.history + [Completion(phase.subject, id, actor, phase.proof.id)]
            && Usable(s.evidence, phase.subject) == Some(phase.proof)
            && !Taken(s.history, phase.proof.id)
  {
  }

  lemma NotTaken(s: System, k: nat, evidence: Id)
    requires Good(s) && k < |s.uses| && !Taken(s.history, evidence)
    ensures s.uses[k].proof.id != evidence
  {
    var r := s.uses[k].completion;
    assert Recorded(s.uses)[k] == r && r in Completions(s.history);
    CompletionsHave(s.history, r);
    assert Justified(s.evidence, s.uses[k]);
  }

  lemma ObserveKeepsGood(s: System, run: Record)
    requires Good(s)
    ensures Good(Do(s, Observe(run)))
  {
    if s.holder.None? && run.Valid() && run.family == Evidence && Fits(s.evidence, run) {
      WellFormedExtends(s.evidence, run, Evidence);
      forall k | 0 <= k < |s.uses| ensures Justified(s.evidence + [run], s.uses[k]) {
        JustifiedGrows(s.evidence, run, s.uses[k]);
      }
    }
  }

  lemma WriteKeepsGood(s: System, other: Record)
    requires Good(s)
    ensures Good(Do(s, Write(other)))
  {
    if s.holder.None? && other.Valid() && other.family == History && other.kind != CompletionKind
       && Fits(s.history, other) {
      WellFormedExtends(s.history, other, History);
      CompletionsAppend(s.history, other);
    }
  }

  lemma StepKeepsGood(s: System, step: Step)
    requires Good(s)
    ensures Good(Do(s, step))
  {
    hide WellFormed, Completions, Usable, Taken;
    match step
    case Acquire(p) =>
    case Prove(p, subject) =>
    case AppendCompletion(p, id, actor) => AppendKeepsGood(s, p, id, actor);
    case Release(p) =>
    case Crash(p) =>
    case Observe(run) => ObserveKeepsGood(s, run);
    case Write(other) => WriteKeepsGood(s, other);
  }

  lemma {:induction false} RunKeepsGood(s: System, steps: seq<Step>)
    requires Good(s)
    ensures Good(Run(s, steps))
  {
    if steps != [] {
      RunKeepsGood(s, steps[..|steps| - 1]);
      StepKeepsGood(Run(s, steps[..|steps| - 1]), steps[|steps| - 1]);
    }
  }

  /** Over every interleaving of completers, verifiers and other writers, crashes and retries
      included: no two completions in the ledger name the same evidence. */
  lemma ConsumedOnce(s: System, steps: seq<Step>)
    requires Good(s)
    ensures var done := Completions(Run(s, steps).history);
            forall i, j :: 0 <= i < j < |done| ==>
              && done[i].payload.CompletionPayload? && done[j].payload.CompletionPayload?
              && done[i].payload.evidence != done[j].payload.evidence
  {
    RunKeepsGood(s, steps);
    var uses := Run(s, steps).uses;
    forall i, j | 0 <= i < j < |Recorded(uses)|
      ensures Recorded(uses)[i].payload.CompletionPayload? && Recorded(uses)[j].payload.CompletionPayload?
      ensures Recorded(uses)[i].payload.evidence != Recorded(uses)[j].payload.evidence
    {
      assert Recorded(uses)[i] == uses[i].completion && Recorded(uses)[j] == uses[j].completion;
      assert Justified(Run(s, steps).evidence, uses[i]) && Justified(Run(s, steps).evidence, uses[j]);
    }
  }

  /** And every single one of them consumed a passing run that was the newest of its subject at
      the moment it was consumed. */
  lemma ConsumedNewest(s: System, steps: seq<Step>, j: nat) returns (u: Use, latest: nat)
    requires Good(s) && j < |Completions(Run(s, steps).history)|
    ensures var after := Run(s, steps);
            var completion := Completions(after.history)[j];
            && u in after.uses && u.completion == completion
            && latest < u.known <= |after.evidence|
            && completion.payload.CompletionPayload? && completion.payload.evidence == u.proof.id
            && after.evidence[latest] == u.proof
            && u.proof.payload.ObservedPayload? && u.proof.payload.run.passed
            && u.proof.payload.run.subject == u.subject
            && (forall k :: latest < k < u.known ==> !Proofs.Run(after.evidence[k], u.subject))
  {
    RunKeepsGood(s, steps);
    var after := Run(s, steps);
    u := after.uses[j];
    assert Recorded(after.uses)[j] == u.completion;
    assert Justified(after.evidence, u);
    latest := NewestRunIsLast(after.evidence[..u.known], u.subject);
    forall k | latest < k < u.known ensures !Proofs.Run(after.evidence[k], u.subject) {
      assert after.evidence[..u.known][k] == after.evidence[k];
    }
  }
}
