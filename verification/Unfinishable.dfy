/** Disks that show where recovery stops: a torn ledger line, a move that cannot be done, a record
    out of its chain (transaction.go, append.go). */
module Unfinishable {
  import opened Records
  import Ledger
  import opened Transactions
  import opened CrashDisk

  const Created := Record("1", History, CreatedKind, "c", Some(0), Some(1), "a", CreatedPayload)

  function Synced(before: nat): Record {
    Record("2", History, SyncedKind, "c", Some(before), Some(before + 1), "a",
           SyncedPayload("a", Plan([], ""), map[], before, before + 1))
  }

  const Spec := Output(["spec"], Absent, "new")

  const Aside := Move(["from"], ["to"])

  /** A manifest that writes one new file, appends a record, and moves a folder if asked to. */
  function Sample(before: nat, move: Option<Move>): Manifest {
    Manifest("sync", "c", 1, [Spec], move, Some(Synced(before)))
  }

  lemma SampleIsValid(before: nat, move: Option<Move>)
    requires before > 0 && (move.None? || move == Some(Aside))
    ensures ValidManifest(Sample(before, move)) && !Makes(Sample(before, move))
  {
    assert Aside.from[0] != Aside.to[0] && Spec.path[0] != Aside.to[0] && Spec.path[0] != Aside.from[0];
  }

  /** A disk with one created change, whatever is at the two ends of the move. */
  function Start(from: Entry, to: Entry): Image {
    Image(FileAt(["from"], from) + FileAt(["to"], to), {[]} + DirAt(["from"], from) + DirAt(["to"], to),
          map[], {}, [Created], false)
  }

  function FileAt(p: Path, entry: Entry): map<Path, string> {
    if entry.File? then map[p := entry.content] else map[]
  }

  function DirAt(p: Path, entry: Entry): set<Path> {
    if entry.Dir? then {p} else {}
  }

  lemma StartHolds(before: nat, move: Option<Move>, from: Entry, to: Entry)
    requires !from.Broken? && !to.Broken?
    ensures var d := Start(from, to);
            && Tree(d) && Clean(d) && Inv(d) && Acceptable(Sample(before, move), d)
            && Stat(d, ["from"]) == from && Stat(d, ["to"]) == to
  {
    var d := Start(from, to);
    assert ["from"][0] != ["to"][0] && ["spec"][0] != ["from"][0] && ["spec"][0] != ["to"][0];
    forall p | p in d.dirs ensures Parent(p) in d.dirs {
      assert p != [] ==> Parent(p) == [];
    }
    forall p | p in d.files ensures p !in d.dirs && Parent(p) in d.dirs {
      assert Parent(p) == [];
    }
    assert [] !in d.files;
    assert HoldsOld(Sample(before, move), d, 0);
  }

  /** The disk once the manifest has been committed on it. */
  function AfterCommit(m: Manifest, d: Image): Image {
    d.(stages := map[m := Slots(m, |m.outputs|)], journals := {m})
  }

  lemma Chain(before: nat, move: Option<Move>, from: Entry, to: Entry)
    ensures HistoryReady(Sample(before, move), Start(from, to)) <==> before == 1
  {
    var rs := [Created];
    assert rs[0].id == "1" && "1" != "2";
    assert Ledger.LastRevision(rs, "c") == Some(1);
  }

  /** A crash inside the append: the transaction can be finished, but only once the line has been
      repaired. */
  lemma TornLineBlocks()
    ensures var m, start := Sample(1, None), Start(Missing, Missing);
            var d := AfterCommit(m, start).(torn := true);
            && ValidManifest(m) && Doable(m, start) && Inv(d) && BlockedDisk(d) && !DoomedDisk(d)
            && !BlockedDisk(Mended(d)) && !DoomedDisk(Mended(d)) && Settled(Mended(d)) == Final(m, start)
  {
    hide *;
    var m, start := Sample(1, None), Start(Missing, Missing);
    var d := AfterCommit(m, start);
    SampleIsValid(1, None);
    StartHolds(1, None, Missing, Missing);
    Chain(1, None, Missing, Missing);
    CommitPoint(m, start);
    AfterCommitIs(m, start);
    NoMove(m, start);
    TornFacts(m, d);
  }

  lemma AfterCommitIs(m: Manifest, d: Image)
    ensures AfterCommit(m, d) == d.(stages := map[m := Slots(m, |m.outputs|)], journals := {m})
  {
  }

  lemma NoMove(m: Manifest, d: Image)
    requires Acceptable(m, d) && HistoryReady(m, d)
    ensures m.move.None? ==> Movable(m, d)
    ensures Doable(m, d) <==> Movable(m, d)
    ensures Sample(1, None).move == None && Sample(1, None).record == Some(Synced(1))
  {
  }

  lemma TornFacts(m: Manifest, d: Image)
    requires Inv(d) && d.journals == {m} && InFlight(m, d) && HistoryReady(m, d) && m.record.Some?
    ensures var e := d.(torn := true);
            && Inv(e) && BlockedDisk(e) && !DoomedDisk(e) && !BlockedDisk(Mended(e)) && !DoomedDisk(Mended(e))
            && Settled(Mended(e)) == Settled(d)
  {
    var e := d.(torn := true);
    TearKeepsFinal(m, d);
    assert m in e.journals;
    InFlightNotWedged(m, e);
    hide Tree, ValidManifest, Final, InFlight, Wedged;
    JournalIsOnly(d, m);
    CommittedInv(m, e) by { InFlightIsCommitted(m, e); }
    JournalIsOnly(e, m);
    SettledInFlight(m, d);
    RepairKeeps(e);
    SettledInFlight(m, e);
  }

  lemma InFlightIsCommitted(m: Manifest, d: Image)
    requires InFlight(m, d)
    ensures Committed(m, d)
  {
  }

  /** A move that could not be done when the manifest was written: the sources are as planned, the
      record is in its chain, and yet the transaction is committed and never to be finished. */
  lemma ImpossibleMoveDooms(from: Entry, to: Entry)
    requires !from.Broken? && !to.Broken?
    requires match from
             case Dir => !to.Missing?
             case Missing => to.Missing?
             case _ => true
    ensures var m, d := Sample(1, Some(Aside)), Start(from, to);
            && Inv(d) && ValidManifest(m) && Acceptable(m, d) && HistoryReady(m, d)
            && Stat(d, m.move.value.from) == from && Stat(d, m.move.value.to) == to
            && !Doable(m, d)
            && Inv(AfterCommit(m, d)) && WedgedDisk(AfterCommit(m, d)) && DoomedDisk(AfterCommit(m, d))
  {
    var m, d := Sample(1, Some(Aside)), Start(from, to);
    SampleIsValid(1, Some(Aside));
    StartHolds(1, Some(Aside), from, to);
    Chain(1, Some(Aside), from, to);
    assert !Movable(m, d);
    hide Start, Movable, Tree, ValidManifest, Acceptable, HistoryReady, Final, InFlight, Wedged;
    CommitPoint(m, d);
    JournalIsOnly(AfterCommit(m, d), m);
  }

  /** A record that does not continue its change's chain: the same. */
  lemma BrokenChainDooms()
    ensures var m, d := Sample(2, None), Start(Missing, Missing);
            && Inv(d) && ValidManifest(m) && Acceptable(m, d) && Movable(m, d)
            && !Doable(m, d)
            && Inv(AfterCommit(m, d)) && !WedgedDisk(AfterCommit(m, d)) && DoomedDisk(AfterCommit(m, d))
  {
    var m, d := Sample(2, None), Start(Missing, Missing);
    SampleIsValid(2, None);
    StartHolds(2, None, Missing, Missing);
    Chain(2, None, Missing, Missing);
    hide Start, Tree, ValidManifest, Acceptable, HistoryReady, Final, InFlight, Wedged;
    CommitPoint(m, d);
    InFlightNotWedged(m, AfterCommit(m, d));
    JournalIsOnly(AfterCommit(m, d), m);
  }
}
