/** Which recorded test run a completion may consume (complete.go). */
module Proofs {
  import opened Records

  predicate Run(e: Record, subject: Subject) {
    e.payload.ObservedPayload? && e.payload.run.subject == subject
  }

  /** A run filed under another change than the one it names, or a class nobody can read. A
      readable class that is not a run is passed over. */
  predicate Misfiled(e: Record) {
    match e.payload
    case ClassPayload(readable) => !readable
    case ObservedPayload(run) => run.subject.change != e.change
    case _ => true
  }

  /** The newest run of a subject, whatever its result. */
  function NewestRun(items: seq<Record>, subject: Subject): Option<Record> {
    if items == [] then None
    else if Run(items[|items| - 1], subject) then Some(items[|items| - 1])
    else NewestRun(items[..|items| - 1], subject)
  }

  /** The newest run, when it passed: an older pass does not count past a newer failure. */
  function Usable(items: seq<Record>, subject: Subject): Option<Record> {
    match NewestRun(items, subject)
    case None => None
    case Some(e) => if e.payload.ObservedPayload? && e.payload.run.passed then Some(e) else None
  }

  lemma {:induction false} NewestRunIsLast(items: seq<Record>, subject: Subject) returns (i: nat)
    ensures match NewestRun(items, subject)
            case None => forall k :: 0 <= k < |items| ==> !Run(items[k], subject)
            case Some(e) => i < |items| && items[i] == e && Run(e, subject)
                            && forall k :: i < k < |items| ==> !Run(items[k], subject)
  {
    i := |items|;
    if items != [] {
      if Run(items[|items| - 1], subject) {
        i := |items| - 1;
      } else {
        i := NewestRunIsLast(items[..|items| - 1], subject);
      }
    }
  }

  /** latestCompletionEvidence: one pass over the evidence, refusing a misfiled record anywhere. */
  method LatestCompletionEvidence(items: seq<Record>, subject: Subject) returns (result: Result<Option<Record>, string>)
    ensures result.Err? <==> exists e :: e in items && Misfiled(e)
    ensures result.Ok? ==> result.value == Usable(items, subject)
  {
    var latest: Option<Record> := None;
    for index := 0 to |items|
      invariant latest == NewestRun(items[..index], subject)
      invariant forall e :: e in items[..index] ==> !Misfiled(e)
    {
      var item := items[index];
      assert items[..index + 1][..index] == items[..index];
      if Misfiled(item) {
        assert item in items;
        return Err("complete_evidence");
      }
      if Run(item, subject) { latest := Some(item); }
    }
    assert items[..|items|] == items;
    if latest.None? || !latest.value.payload.ObservedPayload? || !latest.value.payload.run.passed { return Ok(None); }
    return Ok(latest);
  }

  predicate ConsumedBy(r: Record, evidence: Id) {
    r.kind == CompletionKind && r.payload.CompletionPayload? && r.payload.evidence == evidence
  }

  /** evidenceAlreadyConsumed: does some completion, of any change, name this evidence? */
  method AlreadyConsumed(history: seq<Record>, evidence: Id) returns (consumed: bool)
    ensures consumed <==> exists r :: r in history && ConsumedBy(r, evidence)
  {
    for index := 0 to |history|
      invariant forall r :: r in history[..index] ==> !ConsumedBy(r, evidence)
    {
      if ConsumedBy(history[index], evidence) {
        assert history[index] in history;
        return true;
      }
    }
    assert history[..|history|] == history;
    return false;
  }
}
