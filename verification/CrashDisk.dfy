/** Commit, replay and recovery as they run: one file-system call at a time, on a machine
    that may stop before any of them (transaction.go). */
module CrashDisk {
  import opened Records
  import opened Transactions
  import Ledger

  datatype Outcome = Done | Refused(code: Code) | Crashed

  class Disk {
    var image: Image

    /** The file-system calls left before the machine stops. */
    var power: nat

    constructor (image: Image)
      requires Clean(image) && Tree(image)
      ensures this.image == image && Inv(image)
    {
      this.image, power := image, 0;
    }

    /** One atomic file-system call, if there is power left for it. */
    method Call(next: Image) returns (ok: bool)
      modifies this
      ensures ok == (old(power) > 0)
      ensures image == if ok then next else old(image)
      ensures power == if ok then old(power) - 1 else 0
    {
      ok := power > 0;
      if ok {
        image, power := next, power - 1;
      }
    }

    /** The ledger write is the one call that can be cut short: it then leaves a torn tail. */
    method AppendLine(r: Record) returns (ok: bool)
      modifies this
      ensures ok ==> image == old(image).(history := old(image).history + [r]) && power == old(power) - 2
      ensures !ok ==> power == 0 && old(power) < 2 && (image == old(image) || image == old(image).(torn := true))
    {
      if power < 2 {
        image, power := if power == 1 then image.(torn := true) else image, 0;
        return false;
      }
      image, power := image.(history := image.history + [r]), power - 2;
      return true;
    }

    /** RemoveAll of the one staging directory: its slots one by one, then the directory. */
    method RemoveStage(m: Manifest) returns (ok: bool)
      requires image.stages.Keys == {m}
      modifies this
      ensures image == old(image).(stages := image.stages)
      ensures if ok then image.stages == map[]
              else image.stages.Keys == {m} && image.stages[m].Keys <= old(image).stages[m].Keys
      ensures !ok ==> power == 0
      ensures old(power) <= power + |old(image).stages[m]| + (if ok then 1 else 0)
    {
      ghost var before := image;
      var slots := image.stages[m];
      assert before.stages == map[m := slots];
      while slots != map[]
        invariant image == before.(stages := map[m := slots]) && slots.Keys <= before.stages[m].Keys
        invariant power + |before.stages[m]| == old(power) + |slots|
        decreases |slots|
      {
        var i :| i in slots;
        var fewer := slots - {i};
        assert fewer.Keys == slots.Keys - {i} && |fewer.Keys| == |slots.Keys| - 1;
        ok := Call(image.(stages := map[m := fewer]));
        if !ok { return; }
        slots := fewer;
      }
      ok := Call(image.(stages := map[]));
    }

    /** One turn of apply's output loop: install output `index` if it still holds its old
        bytes. A wedged transaction may be refused here, one in flight never is. */
    method InstallOutput(m: Manifest, index: nat) returns (o: Outcome)
      requires ValidManifest(m) && index < |m.outputs|
      modifies this
      ensures Keeps(m, old(image), image)
      ensures old(InFlight(m, image)) ==> !o.Refused? && (o.Done? ==> Installed(m, image, index))
      ensures old(Wedged(m, image)) && o.Done? ==> Stuck(m, image) || Installed(m, image, index)
      ensures o.Crashed? ==> power == 0
      ensures old(power) <= power + 2
    {
      var output := m.outputs[index];
      var target := Locate(m, image, output.path);
      var current := Read(image, target);
      OutputFacts(m, image, index);
      if current.Err? { return Refused(current.error); }
      if current.value == Sha(output.after) { return Done; }
      if current.value != output.before { return Refused(Ambiguous); }
      if m !in image.stages || index !in image.stages[m] || image.stages[m][index] != output.after {
        return Refused(Ambiguous);
      }
      InstallKeeps(m, image, index);
      var ok := Call(MkdirAll(image, Parent(target)));
      if !ok { return Crashed; }
      ok := Call(Replace(m, image, index, target));
      return if ok then Done else Crashed;
    }

    /** apply, outputs: install every output that still holds its old bytes. */
    method ApplyOutputs(m: Manifest) returns (o: Outcome)
      requires ValidManifest(m)
      modifies this
      ensures Keeps(m, old(image), image)
      ensures old(InFlight(m, image)) ==>
                !o.Refused? && (o.Done? ==> forall i :: 0 <= i < |m.outputs| ==> Installed(m, image, i))
      ensures old(Wedged(m, image)) && o.Done? ==> Stuck(m, image)
      ensures o.Crashed? ==> power == 0
      ensures old(power) <= power + 2 * |m.outputs|
    {
      hide InFlight, Stuck, Clash, Installed, ValidManifest, Inv, Settled;
      for index := 0 to |m.outputs|
        invariant Keeps(m, old(image), image)
        invariant old(power) <= power + 2 * index
        invariant old(InFlight(m, image)) ==> forall i :: 0 <= i < index ==> Installed(m, image, i)
        invariant old(Wedged(m, image)) ==> Stuck(m, image) || forall i :: 0 <= i < index ==> Installed(m, image, i)
      {
        ghost var before := image;
        o := InstallOutput(m, index);
        KeepsTransitive(m, old(image), before, image);
        if !o.Done? { return; }
      }
      ClashIsOpen(m, image);
      return Done;
    }

    /** applyMove: rename the folder unless that has already happened. */
    method ApplyMove(m: Manifest) returns (o: Outcome)
      requires ValidManifest(m) && m.move.Some?
      requires InFlight(m, image) ==> forall i :: 0 <= i < |m.outputs| ==> Installed(m, image, i)
      modifies this
      ensures Keeps(m, old(image), image)
      ensures old(InFlight(m, image)) ==> !o.Refused? && (o.Done? ==> Moved(m, image))
      ensures old(Stuck(m, image)) ==> o.Refused?
      ensures o.Crashed? ==> power == 0
      ensures old(power) <= power + 2
    {
      var mv := m.move.value;
      var source, dest := Stat(image, mv.from), Stat(image, mv.to);
      MoveFacts(m, image);
      if InFlight(m, image) && !Moved(m, image) { SourceIsDir(m, image); }
      if source.Missing? && (dest.File? || dest.Dir?) { return Done; }
      if source.Missing? || source.Broken? { return Refused(Ambiguous); }
      if dest.File? || dest.Dir? { return Refused(Ambiguous); }
      if dest.Broken? { return Refused(IO); }
      if !source.Dir? { return Refused(Invalid); }
      MoveKeeps(m, image);
      var ok := Call(MkdirAll(image, Parent(mv.to)));
      if !ok { return Crashed; }
      ok := Call(Rename(image, mv));
      return if ok then Done else Crashed;
    }

    /** apply up to the record: outputs, then the move. */
    method ApplyTree(m: Manifest) returns (o: Outcome)
      requires InFlight(m, image) || Wedged(m, image)
      modifies this
      ensures Keeps(m, old(image), image)
      ensures old(InFlight(m, image)) ==> !o.Refused?
      ensures old(InFlight(m, image)) && o.Done? ==> forall i :: 0 <= i < |m.outputs| ==> Installed(m, image, i)
      ensures old(InFlight(m, image)) && o.Done? && m.move.Some? ==> Moved(m, image)
      ensures old(Wedged(m, image)) ==> !o.Done?
      ensures o.Crashed? ==> power == 0
      ensures old(power) <= power + 2 * |m.outputs| + 2
    {
      InFlightNotWedged(m, image);
      o := ApplyOutputs(m);
      if !o.Done? || m.move.None? { return; }
      InFlightNotWedged(m, image);
      ghost var before := image;
      o := ApplyMove(m);
      KeepsTransitive(m, old(image), before, image);
    }

    /** appendBoundRecord: a record already in the ledger counts as appended. */
    method AppendBoundRecord(m: Manifest) returns (o: Outcome)
      requires InFlight(m, image)
      modifies this
      ensures InFlight(m, image) && Final(m, image) == old(Final(m, image))
      ensures HistoryReady(m, image) == old(HistoryReady(m, image))
      ensures Moved(m, image) == old(Moved(m, image))
      ensures forall i :: 0 <= i < |m.outputs| && old(Installed(m, image, i)) ==> Installed(m, image, i)
      ensures o.Done? ==> image.torn == old(image.torn)
      ensures o.Done? ==> m.record.Some? ==> Ledger.HasId(image.history, m.record.value.id)
      ensures o.Done? ==> old(HistoryReady(m, image) && !AppendBlocked(m, image))
      ensures o.Refused? ==> old(!HistoryReady(m, image) || AppendBlocked(m, image))
      ensures o.Crashed? ==> power == 0
      ensures old(power) <= power + 2
    {
      if m.record.None? { return Done; }
      var r := m.record.value;
      if image.torn { return Refused(TornTail); }
      if Ledger.HasId(image.history, r.id) { return Done; }
      if !Ledger.Fits(image.history, r) { return Refused(BrokenChain); }
      AppendKeepsFinal(m, image);
      TearKeepsFinal(m, image);
      SameTree(m, image, image.(torn := true));
      var ok := AppendLine(r);
      return if ok then Done else Crashed;
    }

    /** apply: replay a committed manifest. It completes exactly when the transaction is not
        doomed and its append not blocked, unless the machine stops first. */
    method Apply(m: Manifest) returns (o: Outcome)
      requires InFlight(m, image) || Wedged(m, image)
      modifies this
      ensures Inv(image) && image.journals <= {m}
      ensures old(InFlight(m, image)) ==> Settled(image) == old(Final(m, image))
      ensures m in image.journals ==> Doomed(m, image) == old(Doomed(m, image))
      ensures m in image.journals ==> Wedged(m, image) == old(Wedged(m, image))
      ensures image.journals == {} ==> !old(Doomed(m, image))
      ensures o.Done? ==>
                && !old(Doomed(m, image) || AppendBlocked(m, image))
                && Clean(image) && Mended(image) == old(Final(m, image)) && image.torn == old(image.torn)
      ensures o.Refused? ==> old(Doomed(m, image) || AppendBlocked(m, image))
      ensures o.Crashed? ==> power == 0
      ensures Unfinished(image) <= {m} && (o.Refused? ==> m in image.journals)
      ensures old(power) <= power + Work(m)
    {
      InFlightNotWedged(m, image);
      o := ApplyTree(m);
      InFlightNotWedged(m, image);
      if !o.Done? { return; }
      o := AppendBoundRecord(m);
      InFlightNotWedged(m, image);
      if !o.Done? { return; }
      OnlyCleanupLeft(m, image);
      o := Cleanup(m);
    }

    /** The end of apply: the manifest goes before the stage, so that a stage without a
        manifest is always an uncommitted remnant. */
    method Cleanup(m: Manifest) returns (o: Outcome)
      requires InFlight(m, image)
      requires Final(m, image) == image.(journals := {}, stages := map[], torn := false)
      modifies this
      ensures !o.Refused? && (o.Crashed? ==> power == 0)
      ensures old(power) <= power + |m.outputs| + 2
      ensures Inv(image) && Unfinished(image) <= {m}
      ensures image.journals == {m} ==> image == old(image)
      ensures Settled(image) == old(Final(m, image))
      ensures o.Done? ==> Clean(image) && Mended(image) == old(Final(m, image)) && image.torn == old(image.torn)
    {
      var ok := Call(image.(journals := image.journals - {m}));
      if !ok { return Crashed; }
      assert Tree(image) && StageShape(image);
      SlotCount(m, image);
      ok := RemoveStage(m);
      return if ok then Done else Crashed;
    }

    /** recoverLocked: roll every remnant back and every journal forward. */
    method Recover() returns (o: Outcome)
      requires Inv(image)
      modifies this
      ensures Inv(image)
      ensures !old(WedgedDisk(image)) ==> !WedgedDisk(image) && Settled(image) == old(Settled(image))
      ensures DoomedDisk(image) <==> old(DoomedDisk(image))
      ensures o.Done? ==>
                && !old(DoomedDisk(image) || BlockedDisk(image))
                && Clean(image) && Mended(image) == old(Settled(image)) && image.torn == old(image.torn)
      ensures o.Refused? ==> old(DoomedDisk(image) || BlockedDisk(image))
      ensures o.Crashed? ==> power == 0
      ensures Unfinished(image) <= old(Unfinished(image))
      ensures old(power) <= power + old(PendingWork(image))
      ensures o.Crashed? ==> old(Unfinished(image)) != {}
    {
      if m :| m in image.journals {
        JournalIsOnly(image, m);
        o := Apply(m);
        JournalFacts(image, m);
        return;
      }
      if m :| m in image.stages {
        assert image.stages.Keys == {m};
        SlotCount(m, image);
        var ok := RemoveStage(m);
        return if ok then Done else Crashed;
      }
      return Done;
    }

    /** The drift check: every output holds its planned old or new bytes, under its own path. */
    method CheckSources(m: Manifest) returns (o: Outcome, noop: bool)
      requires ValidManifest(m)
      ensures o.Done? <==> Acceptable(m, image)
      ensures !o.Crashed?
      ensures o.Done? ==> (noop <==> forall i :: 0 <= i < |m.outputs| ==> HoldsNew(m, image, i))
    {
      noop := true;
      for index := 0 to |m.outputs|
        invariant forall i :: 0 <= i < index ==> HoldsNew(m, image, i) || HoldsOld(m, image, i)
        invariant noop <==> forall i :: 0 <= i < index ==> HoldsNew(m, image, i)
      {
        var current := Read(image, m.outputs[index].path);
        assert HoldsNew(m, image, index) <==> current == Ok(Sha(m.outputs[index].after));
        assert HoldsOld(m, image, index) <==> current == Ok(m.outputs[index].before);
        if current.Err? { return Refused(current.error), noop; }
        if current.value == Sha(m.outputs[index].after) {
        } else if current.value == m.outputs[index].before {
          noop := false;
        } else {
          return Refused(Drift), noop;
        }
      }
      return Done, noop;
    }

    /** Staging: a fresh directory holding every output's new bytes. */
    method Stage(m: Manifest) returns (ok: bool)
      requires Clean(image)
      modifies this
      ensures image == old(image).(stages := image.stages) && StageShape(image) && image.stages.Keys <= {m}
      ensures ok ==> image.stages == map[m := Slots(m, |m.outputs|)]
      ensures !ok ==> power == 0
      ensures old(power) <= power + |m.outputs| + 1
    {
      ghost var before := image;
      ok := Call(image.(stages := map[m := map[]]));
      if !ok { return; }
      assert image.stages == map[m := Slots(m, 0)];
      for index := 0 to |m.outputs|
        invariant image == before.(stages := map[m := Slots(m, index)]) && StageShape(image)
        invariant old(power) == power + index + 1
      {
        assert Slots(m, index)[index := m.outputs[index].after] == Slots(m, index + 1);
        ok := Call(image.(stages := map[m := image.stages[m][index := m.outputs[index].after]]));
        if !ok { return; }
      }
      ok := true;
    }

    /** CommitUnderRootLock: recover, check the sources, stage, write the manifest, apply.
        Whatever happens, the disk stays committed to what it was or to the whole effect of
        `m`; an undisturbed commit succeeds exactly when nothing old is in the way, the
        sources have not drifted, the move can be done and the ledger takes the record. */
    method Commit(m: Manifest) returns (o: Outcome)
      requires Inv(image) && ValidManifest(m)
      modifies this
      ensures Inv(image)
      ensures !old(WedgedDisk(image)) ==>
                || WedgedDisk(image)
                || Settled(image) == old(Settled(image))
                || Settled(image) == Final(m, old(Settled(image)))
      ensures WedgedDisk(image) ==> old(WedgedDisk(image)) || !Movable(m, old(Settled(image)))
      ensures DoomedDisk(image) ==>
                || old(DoomedDisk(image))
                || !Movable(m, old(Settled(image))) || !HistoryReady(m, old(Settled(image)))
      ensures o.Done? ==>
                && !old(WedgedDisk(image)) && Doable(m, old(Settled(image)))
                && Clean(image) && Mended(image) == Final(m, old(Settled(image)))
      ensures o.Refused? ==>
                || old(DoomedDisk(image)) || old(image.torn)
                || !Doable(m, old(Settled(image)))
      ensures o.Crashed? ==> power == 0
      ensures Unfinished(image) <= old(Unfinished(image)) + {m}
      ensures old(power) <= power + old(PendingWork(image)) + |m.outputs| + 2 + Work(m)
    {
      o := Recover();
      if !o.Done? { return; }
      assert !old(WedgedDisk(image));
      assert Settled(image) == Mended(image) == old(Settled(image));
      MendedSame(m, image);
      var noop: bool;
      o, noop := CheckSources(m);
      if !o.Done? { return; }
      if noop && m.move.None? && m.record.None? {
        NothingToDo(m, image);
        return;
      }
      o := CommitChecked(m);
    }

    /** commitLocked past its checks: stage, write the manifest, apply. */
    method CommitChecked(m: Manifest) returns (o: Outcome)
      requires Tree(image) && Clean(image) && ValidManifest(m) && Acceptable(m, image)
      modifies this
      ensures Inv(image) && Unfinished(image) <= {m}
      ensures WedgedDisk(image) || Settled(image) == old(Settled(image)) || Settled(image) == old(Final(m, image))
      ensures WedgedDisk(image) ==> old(!Movable(m, image))
      ensures DoomedDisk(image) ==> !old(Doable(m, image))
      ensures o.Done? ==> old(Doable(m, image)) && Clean(image) && Mended(image) == old(Final(m, image))
      ensures o.Refused? ==> old(image.torn) || !old(Doable(m, image))
      ensures o.Crashed? ==> power == 0
      ensures old(power) <= power + |m.outputs| + 2 + Work(m)
    {
      ghost var base := image;
      var ok := Stage(m);
      if !ok { return Crashed; }
      CommitPoint(m, base);
      ok := Call(image.(journals := {m}));
      if !ok { return Crashed; }
      JournalIsOnly(image, m);
      InFlightNotWedged(m, image);
      o := Apply(m);
      JournalFacts(image, m);
    }

    /** One mutating command: recover, let the caller look at the folder it wants to move and
        at its destination, as archive does under the same lock, and commit. Nothing here looks
        at the record's place in its chain: only a record out of it can doom the disk. */
    method Serve(request: Request) returns (ghost applied: bool)
      requires Inv(image) && !WedgedDisk(image) && ValidManifest(request.manifest)
      modifies this
      ensures Inv(image) && !WedgedDisk(image)
      ensures Settled(image) ==
              if applied then Final(request.manifest, old(Settled(image))) else old(Settled(image))
      ensures DoomedDisk(image) ==> old(DoomedDisk(image)) || !HistoryReady(request.manifest, old(Settled(image)))
      ensures Unfinished(image) <= old(Unfinished(image)) + {request.manifest}
    {
      if request.repair { image := image.(torn := false); RepairKeeps(old(image)); }
      power := request.power;
      var o := Recover();
      if !o.Done? { return false; }
      MendedSame(request.manifest, image);
      var move := request.manifest.move;
      if move.Some? && !(Stat(image, move.value.from).Dir? && Stat(image, move.value.to).Missing?) { return false; }
      ghost var before := Settled(image);
      o := Commit(request.manifest);
      return Settled(image) != before;
    }

    /** Any run of commands on one disk, each stopped after any number of file-system calls:
        the disk is always committed to the effects of some of the requested transactions,
        whole and in order, and to nothing else. */
    method Run(requests: seq<Request>) returns (ghost applied: seq<bool>)
      requires Inv(image) && !WedgedDisk(image)
      requires forall r :: r in requests ==> ValidManifest(r.manifest)
      modifies this
      ensures Inv(image) && !WedgedDisk(image)
      ensures |applied| == |requests| && Settled(image) == Effects(old(Settled(image)), requests, applied)
      ensures AllInChain(old(Settled(image)), requests, applied) && !old(DoomedDisk(image)) ==> !DoomedDisk(image)
      ensures Unfinished(image) <= old(Unfinished(image)) + Manifests(requests)
    {
      hide Inv, Final, Effects, Settled, DoomedDisk, WedgedDisk, HistoryReady, AllInChain, ValidManifest;
      applied := [];
      NoEffects(old(Settled(image)), requests[..0]);
      for k := 0 to |requests|
        invariant Inv(image) && !WedgedDisk(image)
        invariant Unfinished(image) <= old(Unfinished(image)) + Manifests(requests)
        invariant |applied| == k && Settled(image) == Effects(old(Settled(image)), requests[..k], applied)
        invariant AllInChain(old(Settled(image)), requests[..k], applied) && !old(DoomedDisk(image)) ==>
                    !DoomedDisk(image)
      {
        ghost var did := Serve(requests[k]);
        assert requests[..k + 1][..k] == requests[..k] && (applied + [did])[..k] == applied;
        EffectsNext(old(Settled(image)), requests[..k + 1], applied + [did]);
        if AllInChain(old(Settled(image)), requests[..k + 1], applied + [did]) {
          InChainPrefix(old(Settled(image)), requests[..k + 1], applied + [did]);
        }
        applied := applied + [did];
      }
      assert requests[..|requests|] == requests;
    }

    /** The headline: whatever was run and however it was interrupted, one recovery given
        enough calls on a repaired ledger ends with no journal and no stage, every
        transaction all old or all new; only a record that was out of its chain when it was
        committed stops it. */
    method RunThenRecover(requests: seq<Request>, enough: nat) returns (o: Outcome, ghost applied: seq<bool>)
      requires Inv(image) && !WedgedDisk(image)
      requires forall r :: r in requests ==> ValidManifest(r.manifest)
      modifies this
      ensures o.Done? ==>
                && Clean(image) && |applied| == |requests|
                && image == Effects(old(Settled(image)), requests, applied)
      ensures o.Refused? ==> DoomedDisk(image)
      ensures |applied| == |requests|
      ensures AllInChain(old(Settled(image)), requests, applied) && !old(DoomedDisk(image)) ==> !o.Refused?
      ensures o.Crashed? ==> exists m :: m in old(Unfinished(image)) + Manifests(requests) && enough <= Work(m)
    {
      hide Final, Effects, HistoryReady, AllInChain, ValidManifest, Tree;
      applied := Run(requests);
      ghost var ran := image;
      ghost var left := PendingWork(ran);
      image, power := image.(torn := false), enough;
      RepairKeeps(ran);
      assert Unfinished(image) == Unfinished(ran);
      o := Recover();
      if o.Crashed? {
        assert enough <= left && exists m :: m in Unfinished(ran) && Work(m) == left;
      }
    }
  }

  /** One command: its transaction, the calls it makes before the machine stops, and whether
      a torn history file was repaired before it. */
  datatype Request = Request(manifest: Manifest, power: nat, repair: bool)

  ghost function Manifests(requests: seq<Request>): set<Manifest> {
    set r | r in requests :: r.manifest
  }

  ghost function Effects(d: Image, requests: seq<Request>, applied: seq<bool>): Image
    requires |applied| == |requests|
  {
    if requests == [] then d
    else
      var k := |requests| - 1;
      var before := Effects(d, requests[..k], applied[..k]);
      if applied[k] then Final(requests[k].manifest, before) else before
  }

  lemma NoEffects(d: Image, requests: seq<Request>)
    requires requests == []
    ensures Effects(d, requests, []) == d && AllInChain(d, requests, [])
  {
  }

  lemma EffectsNext(d: Image, requests: seq<Request>, applied: seq<bool>)
    requires |applied| == |requests| > 0
    ensures var k := |requests| - 1;
            var before := Effects(d, requests[..k], applied[..k]);
            Effects(d, requests, applied) == if applied[k] then Final(requests[k].manifest, before) else before
  {
    hide Final;
  }

  /** Every request's record is next in its chain, or already there, when its turn comes. */
  ghost predicate AllInChain(d: Image, requests: seq<Request>, applied: seq<bool>)
    requires |applied| == |requests|
  {
    forall k :: 0 <= k < |requests| ==> HistoryReady(requests[k].manifest, Effects(d, requests[..k], applied[..k]))
  }

  lemma InChainPrefix(d: Image, requests: seq<Request>, applied: seq<bool>)
    requires |applied| == |requests| > 0 && AllInChain(d, requests, applied)
    ensures var k := |requests| - 1;
            && AllInChain(d, requests[..k], applied[..k])
            && HistoryReady(requests[k].manifest, Effects(d, requests[..k], applied[..k]))
  {
    hide HistoryReady, Effects;
    var k := |requests| - 1;
    forall j | 0 <= j < k
      ensures HistoryReady(requests[..k][j].manifest, Effects(d, requests[..k][..j], applied[..k][..j]))
    {
      assert requests[..k][..j] == requests[..j] && applied[..k][..j] == applied[..j];
    }
  }

  /** Cutting a torn tail off the history file commits or undoes nothing. */
  lemma RepairKeeps(d: Image)
    requires Inv(d) && !WedgedDisk(d)
    ensures Inv(Mended(d)) && !WedgedDisk(Mended(d)) && Settled(Mended(d)) == Settled(d)
    ensures DoomedDisk(Mended(d)) == DoomedDisk(d) && !BlockedDisk(Mended(d))
  {
    if m :| m in d.journals {
      JournalIsOnly(d, m);
      assert Committed(m, Mended(d));
      hide InFlight, Wedged, Committed;
      SameTree(m, d, Mended(d));
      SettledInFlight(m, Mended(d));
      SameTargets(m, d, Mended(d));
      CommittedInv(m, Mended(d));
      JournalIsOnly(Mended(d), m);
    }
  }

  /** The transactions with a journal or a stage on disk. */
  function Unfinished(d: Image): set<Manifest> {
    d.journals + d.stages.Keys
  }

  /** The calls an undisturbed recovery makes at most. */
  ghost function PendingWork(d: Image): nat {
    if Unfinished(d) == {} then 0
    else
      var m :| m in Unfinished(d);
      Work(m)
  }

  predicate HoldsNew(m: Manifest, d: Image, i: nat)
    requires i < |m.outputs|
  {
    Read(d, m.outputs[i].path) == Ok(Sha(m.outputs[i].after))
  }

  predicate HoldsOld(m: Manifest, d: Image, i: nat)
    requires i < |m.outputs|
  {
    Read(d, m.outputs[i].path) == Ok(m.outputs[i].before)
  }

  predicate Acceptable(m: Manifest, d: Image) {
    forall i :: 0 <= i < |m.outputs| ==> HoldsNew(m, d, i) || HoldsOld(m, d, i)
  }

  /** The move can be done: the folder is there, or an output makes it, and nothing is at the
      destination; or the move counts as done, and what belongs to the folder is already new. */
  predicate Movable(m: Manifest, d: Image) {
    m.move.Some? ==>
      var source, dest := Stat(d, m.move.value.from), Stat(d, m.move.value.to);
      || (dest.Missing? && (source.Dir? || (source.Missing? && Makes(m))))
      || (Moved(m, d) && forall i :: 0 <= i < |m.outputs| ==> Aims(m, d, i) || Installed(m, d, i))
  }

  /** What a caller can check on the settled disk before committing. */
  predicate Doable(m: Manifest, d: Image) {
    Acceptable(m, d) && Movable(m, d) && HistoryReady(m, d)
  }

  function Slots(m: Manifest, n: nat): map<nat, string>
    requires n <= |m.outputs|
  {
    map i: nat | i < n :: m.outputs[i].after
  }

  /** Repairing a torn tail changes nothing a commit looks at. */
  lemma MendedSame(m: Manifest, d: Image)
    ensures Tree(Mended(d)) == Tree(d)
    ensures forall p :: Stat(Mended(d), p) == Stat(d, p)
    ensures Final(m, Mended(d)) == Final(m, d)
    ensures Doable(m, Mended(d)) == Doable(m, d) && Movable(m, Mended(d)) == Movable(m, d)
    ensures Acceptable(m, Mended(d)) == Acceptable(m, d) && HistoryReady(m, Mended(d)) == HistoryReady(m, d)
  {
    SameLookups(m, d, Mended(d));
    SameTargets(m, d, Mended(d));
    forall i | 0 <= i < |m.outputs|
      ensures HoldsNew(m, Mended(d), i) == HoldsNew(m, d, i) && HoldsOld(m, Mended(d), i) == HoldsOld(m, d, i)
    {
    }
  }

  /** The manifest write takes a checked, fully staged disk to a transaction in flight
      towards the whole effect, or to a wedged one if the move cannot be done. */
  lemma CommitPoint(m: Manifest, d: Image)
    requires Tree(d) && Clean(d) && ValidManifest(m) && Acceptable(m, d)
    ensures var e := d.(stages := map[m := Slots(m, |m.outputs|)], journals := {m});
            && Inv(e) && Settled(e) == Final(m, d)
            && (if Movable(m, d) then InFlight(m, e) else Wedged(m, e))
            && HistoryReady(m, e) == HistoryReady(m, d)
  {
    var e := d.(stages := map[m := Slots(m, |m.outputs|)], journals := {m});
    assert Committed(m, e);
    hide Tree, ValidManifest, Committed, Movable, Acceptable, InFlight, Stuck, Clash;
    if Movable(m, d) { CheckedIsInFlight(m, d, e); } else { CheckedIsWedged(m, d, e); }
    assert m in e.journals && Inv(e) by { CommittedInv(m, e); }
    SettledInFlight(m, e);
    SameTargets(m, d, e);
    SameMoved(m, d, e);
  }

  lemma CommittedInv(m: Manifest, d: Image)
    requires Committed(m, d) && (InFlight(m, d) || Wedged(m, d))
    ensures Inv(d)
  {
    hide InFlight, Wedged;
    assert m in d.journals;
  }

  lemma SameMoved(m: Manifest, d: Image, e: Image)
    requires d.files == e.files && d.dirs == e.dirs
    ensures Moved(m, e) == Moved(m, d)
  {
    SameStat(d, e);
  }

  lemma CheckedIsInFlight(m: Manifest, d: Image, e: Image)
    requires Tree(d) && Acceptable(m, d) && Movable(m, d) && Committed(m, e)
    requires d.files == e.files && d.dirs == e.dirs && e.stages == map[m := Slots(m, |m.outputs|)]
    ensures InFlight(m, e)
  {
    SameStat(d, e);
    CheckedIsReplayable(m, d, e);
    hide Stat, Installed, Staged, Committed;
    assert Moved(m, e) == Moved(m, d);
  }

  /** A move that cannot be done is stuck, or clashes with an output nobody has written. */
  lemma CheckedIsWedged(m: Manifest, d: Image, e: Image)
    requires Tree(d) && ValidManifest(m) && Acceptable(m, d) && !Movable(m, d)
    requires d.files == e.files && d.dirs == e.dirs && Committed(m, e)
    ensures Wedged(m, e)
  {
    SameStat(d, e);
    var mv := m.move.value;
    if Moved(m, d) {
      var i :| 0 <= i < |m.outputs| && !Aims(m, d, i) && !Installed(m, d, i);
      SameLocate(m, d, e, m.outputs[i].path);
      assert !Aims(m, e, i) && !Installed(m, e, i);
      forall j | 0 <= j < |m.outputs| && Under(m.outputs[j].path, mv.from) ensures m.outputs[j].before == Absent {
        UnderMissing(d, mv.from, m.outputs[j].path);
        assert HoldsNew(m, d, j) || HoldsOld(m, d, j);
      }
    }
  }

  lemma SameLocate(m: Manifest, d: Image, e: Image, p: Path)
    requires forall q :: Stat(e, q) == Stat(d, q)
    ensures Locate(m, e, p) == Locate(m, d, p) && Read(e, Locate(m, e, p)) == Read(d, Locate(m, d, p))
  {
    hide Stat;
  }

  /** Nothing is inside what is missing. */
  lemma UnderMissing(d: Image, from: Path, p: Path)
    requires Tree(d) && Stat(d, from).Missing? && from <= p
    ensures Stat(d, p).Missing?
  {
    NothingUnder(d, from, p);
    forall k | 0 <= k < |p| ensures p[..k] !in d.files {
      if from <= p[..k] { NothingUnder(d, from, p[..k]); } else { PrefixesOfOne(from, p[..k], p); }
      if |p[..k]| < |from| { assert p[..k] == from[..k]; }
    }
  }

  lemma SameStat(d: Image, e: Image)
    requires d.files == e.files && d.dirs == e.dirs
    ensures forall p :: Stat(e, p) == Stat(d, p)
  {
    forall p ensures Stat(e, p) == Stat(d, p) {}
  }

  lemma CheckedIsReplayable(m: Manifest, d: Image, e: Image)
    requires Tree(d) && ValidManifest(m) && Acceptable(m, d) && Movable(m, d)
    requires d.files == e.files && d.dirs == e.dirs && e.stages == map[m := Slots(m, |m.outputs|)]
    ensures forall i :: 0 <= i < |m.outputs| ==> Installed(m, e, i) || (Aims(m, e, i) && Staged(m, e, i))
  {
    SameStat(d, e);
    forall i | 0 <= i < |m.outputs| ensures Installed(m, e, i) || (Aims(m, e, i) && Staged(m, e, i)) {
      if Aims(m, d, i) {
        LocateTarget(m, e, i);
        assert HoldsNew(m, d, i) || HoldsOld(m, d, i);
      } else {
        SameLocate(m, d, e, m.outputs[i].path);
      }
    }
  }

  lemma NothingToDo(m: Manifest, d: Image)
    requires Tree(d) && Clean(d) && ValidManifest(m) && m.move.None? && m.record.None?
    requires forall i :: 0 <= i < |m.outputs| ==> HoldsNew(m, d, i)
    ensures Final(m, d) == Mended(d)
  {
    forall i | 0 <= i < |m.outputs| ensures Installed(m, d, i) {
      assert HoldsNew(m, d, i);
    }
    AllInstalled(m, d);
  }

  /** A disk whose pending transaction can never complete, or not before a repair. */
  ghost predicate DoomedDisk(d: Image) {
    exists m :: m in d.journals && Doomed(m, d)
  }

  ghost predicate WedgedDisk(d: Image) {
    exists m :: m in d.journals && Wedged(m, d)
  }

  ghost predicate BlockedDisk(d: Image) {
    exists m :: m in d.journals && AppendBlocked(m, d)
  }

  lemma JournalIsOnly(d: Image, m: Manifest)
    requires Inv(d) && m in d.journals
    ensures d.journals == {m} && (InFlight(m, d) || Wedged(m, d))
    ensures Settled(d) == Final(m, d)
    ensures DoomedDisk(d) == Doomed(m, d) && WedgedDisk(d) == Wedged(m, d) && BlockedDisk(d) == AppendBlocked(m, d)
  {
    var k :| k in d.journals && (InFlight(k, d) || Wedged(k, d));
    assert m in {k};
    SettledInFlight(m, d);
  }

  lemma JournalFacts(d: Image, m: Manifest)
    requires Inv(d) && d.journals <= {m}
    ensures if m in d.journals
            then DoomedDisk(d) == Doomed(m, d) && WedgedDisk(d) == Wedged(m, d)
            else d.journals == {} && !DoomedDisk(d) && !WedgedDisk(d)
  {
    if m in d.journals {
      JournalIsOnly(d, m);
    }
  }

  lemma KeepsTransitive(m: Manifest, d: Image, e: Image, f: Image)
    requires Keeps(m, d, e) && Keeps(m, e, f)
    ensures Keeps(m, d, f)
  {
  }

  /** What every call on behalf of a transaction preserves: being in flight towards the same
      final state, the outputs already installed, being wedged, and the history. */
  ghost predicate Keeps(m: Manifest, d: Image, e: Image) {
    && (InFlight(m, d) ==>
          && InFlight(m, e) && Final(m, e) == Final(m, d)
          && forall i :: 0 <= i < |m.outputs| && Installed(m, d, i) ==> Installed(m, e, i))
    && (Stuck(m, d) ==> Stuck(m, e))
    && (Clash(m, d) ==>
          || Stuck(m, e)
          || (Clash(m, e) && forall i :: 0 <= i < |m.outputs| && Installed(m, d, i) ==> Installed(m, e, i)))
    && e.history == d.history && e.torn == d.torn
  }

  lemma ClashIsOpen(m: Manifest, d: Image)
    ensures Clash(m, d) ==> exists i :: 0 <= i < |m.outputs| && !Installed(m, d, i)
    ensures !(Clash(m, d) && Stuck(m, d))
  {
  }

  lemma OutputFacts(m: Manifest, d: Image, i: nat)
    requires ValidManifest(m) && i < |m.outputs|
    ensures Keeps(m, d, d)
    ensures InFlight(m, d) ==> Installed(m, d, i) || Staged(m, d, i)
  {
  }

  lemma InstallKeeps(m: Manifest, d: Image, i: nat)
    requires ValidManifest(m) && i < |m.outputs|
    requires !Installed(m, d, i) && Read(d, Locate(m, d, m.outputs[i].path)) == Ok(m.outputs[i].before)
    requires m in d.stages && i in d.stages[m] && d.stages[m][i] == m.outputs[i].after
    ensures var target := Locate(m, d, m.outputs[i].path);
            var e := MkdirAll(d, Parent(target));
            var f := Replace(m, e, i, target);
            && Keeps(m, d, e) && Keeps(m, d, f)
            && (InFlight(m, d) ==> Installed(m, f, i))
            && (Wedged(m, d) ==> Stuck(m, f) || Installed(m, f, i))
  {
    InFlightNotWedged(m, d);
    ClashIsOpen(m, d);
    if InFlight(m, d) {
      InstallStep(m, d, i);
    } else if Stuck(m, d) {
      StuckInstall(m, d, i);
    } else if Clash(m, d) {
      ClashInstall(m, d, i);
    }
  }

  lemma StuckInstall(m: Manifest, d: Image, i: nat)
    requires Stuck(m, d) && i < |m.outputs| && i in d.stages[m]
    requires Read(d, Locate(m, d, m.outputs[i].path)).Ok?
    ensures var target := Locate(m, d, m.outputs[i].path);
            var e := MkdirAll(d, Parent(target));
            Stuck(m, e) && Stuck(m, Replace(m, e, i, target))
  {
    var target := Locate(m, d, m.outputs[i].path);
    var e := MkdirAll(d, Parent(target));
    TargetIsPath(m, d, i);
    StuckMkdir(m, d, i);
    MkdirForTarget(d, target);
    StuckReplace(m, e, i, target);
  }

  /** A target is never the root; of a stuck move without a source it is the output's own path. */
  lemma TargetIsPath(m: Manifest, d: Image, i: nat)
    requires Stuck(m, d) && i < |m.outputs|
    ensures var target := Locate(m, d, m.outputs[i].path);
            var e := MkdirAll(d, Parent(target));
            target != [] && (Stat(e, m.move.value.from).Missing? ==> target == m.outputs[i].path)
  {
    var target := Locate(m, d, m.outputs[i].path);
    var e := MkdirAll(d, Parent(target));
    if Stat(d, m.move.value.from).Missing? {
      LocateBeforeMove(m, d, m.outputs[i].path);
    } else {
      StatGrows(d, e, m.move.value.from);
    }
  }

  lemma ClashInstall(m: Manifest, d: Image, i: nat)
    requires Clash(m, d) && i < |m.outputs| && !Installed(m, d, i)
    requires Read(d, Locate(m, d, m.outputs[i].path)) == Ok(m.outputs[i].before)
    requires i in d.stages[m] && d.stages[m][i] == m.outputs[i].after
    ensures var target := Locate(m, d, m.outputs[i].path);
            var e := MkdirAll(d, Parent(target));
            var f := Replace(m, e, i, target);
            && Keeps(m, d, e) && Keeps(m, d, f) && (Stuck(m, f) || Installed(m, f, i))
  {
    var p := m.outputs[i].path;
    var e := MkdirAll(d, Parent(p));
    ClashIsOpen(m, d);
    InFlightNotWedged(m, d);
    ClashMkdir(m, d, i);
    MkdirForTarget(d, p);
    ClashIsOpen(m, e);
    if Under(p, m.move.value.from) {
      StuckReplace(m, e, i, p);
    } else {
      ClashReplace(m, e, i);
    }
  }

  lemma InFlightNotWedged(m: Manifest, d: Image)
    ensures !(InFlight(m, d) && Wedged(m, d))
  {
  }

  /** Both calls that install an output keep the transaction in flight. */
  lemma InstallStep(m: Manifest, d: Image, i: nat)
    requires InFlight(m, d) && i < |m.outputs| && !Installed(m, d, i)
    ensures var p := m.outputs[i].path;
            var e := MkdirAll(d, Parent(p));
            var f := Replace(m, e, i, p);
            && Locate(m, d, p) == p && m in e.stages && i in e.stages[m]
            && InFlight(m, e) && Final(m, e) == Final(m, d)
            && InFlight(m, f) && Final(m, f) == Final(m, d) && Installed(m, f, i)
            && (forall j :: 0 <= j < |m.outputs| && Installed(m, d, j) ==> Installed(m, e, j) && Installed(m, f, j))
  {
    var p := m.outputs[i].path;
    assert Staged(m, d, i) && Aims(m, d, i);
    LocateTarget(m, d, i);
    MkdirForOutput(m, d, i);
    MkdirKeepsFinal(m, d, i);
    LineageIsPrefixes(Parent(p), Parent(p));
    ReplaceOutput(m, MkdirAll(d, Parent(p)), i);
  }

  lemma MoveFacts(m: Manifest, d: Image)
    requires ValidManifest(m) && m.move.Some?
    ensures Keeps(m, d, d)
    ensures InFlight(m, d) ==>
              var source, dest := Stat(d, m.move.value.from), Stat(d, m.move.value.to);
              (source.Missing? && Present(dest) && Moved(m, d)) || (dest.Missing? && !Moved(m, d))
  {
  }

  lemma MoveKeeps(m: Manifest, d: Image)
    requires ValidManifest(m) && m.move.Some? && Stat(d, m.move.value.from).Dir? && Stat(d, m.move.value.to).Missing?
    requires InFlight(m, d) ==> forall i :: 0 <= i < |m.outputs| ==> Installed(m, d, i)
    ensures var e := MkdirAll(d, Parent(m.move.value.to));
            var f := Rename(e, m.move.value);
            && Keeps(m, d, e) && Keeps(m, d, f)
            && (InFlight(m, d) ==> Moved(m, f))
  {
    if InFlight(m, d) {
      MkdirForMove(m, d);
      MoveFolder(m, MkdirAll(d, Parent(m.move.value.to)));
      InFlightNotWedged(m, d);
    }
  }
}
