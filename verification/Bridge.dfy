/** The lifecycle's commits on the disk: the manifests sync and archive write are ones the
    write-ahead transaction can finish, and their effect there is their effect here (sync.go,
    archive.go, transaction.go). */
module Bridge {
  import opened Records
  import Ledger
  import Roots
  import Lifecycle
  import Operations
  import opened Transactions
  import opened CrashDisk

  /** Where the state files are, and how a state is written. */
  datatype Layout = Layout(path: map<ChangeId, Path>, encode: Lifecycle.ChangeState -> string)

  /** The disk holds the root's history and the encoded state of every change. */
  ghost predicate Represents(layout: Layout, d: Image, root: Roots.Root) {
    && d.history == root.history
    && (forall c :: c in root.states ==>
          c in layout.path && layout.path[c] in d.files && d.files[layout.path[c]] == layout.encode(root.states[c]))
  }

  /** The manifest of a sync or an archive: the record, and among its outputs the state file of
      its change; no other change's state file is one of them. */
  ghost predicate Binds(layout: Layout, m: Manifest, root: Roots.Root, r: Record)
    requires r.change in root.states
  {
    && ValidManifest(m) && m.record == Some(r)
    && r.change in layout.path
    && (exists i :: 0 <= i < |m.outputs| && StateOutput(layout, m.outputs[i], root, r))
    && (forall c :: c in layout.path && c != r.change ==> layout.path[c] !in OutputPaths(m))
  }

  predicate StateOutput(layout: Layout, output: Output, root: Roots.Root, r: Record)
    requires r.change in root.states && r.change in layout.path
  {
    output == StateWrite(layout, root, r)
  }

  /** The state files once the move has taken a folder elsewhere. */
  function Relocated(layout: Layout, m: Manifest): Layout {
    layout.(path := map c | c in layout.path :: Settling(m, layout.path[c]))
  }

  /** What Writer.Commit asks of the root and the record. */
  ghost predicate MayCommit(root: Roots.Root, r: Record) {
    && Roots.Inv(root) && root.journal.None? && Roots.Next(root, r) && Roots.WriteAhead(r.kind)
    && !Ledger.HasId(root.history, r.id) && |Roots.Timeline(root, r.change)| == root.states[r.change].revision
  }

  /** The record of a lifecycle commit is next in its chain, so it never dooms the disk. */
  lemma CommitIsInChain(root: Roots.Root, r: Record, m: Manifest, d: Image)
    requires MayCommit(root, r) && d.history == root.history && m.record == Some(r)
    ensures HistoryReady(m, d) && Final(m, d).history == root.history + [r]
  {
    Roots.TimelineWithoutJournal(root, r.change);
    ExpectsRevision(root, r);
    Operations.FitsExactly(root, r);
  }

  lemma ExpectsRevision(root: Roots.Root, r: Record)
    requires Roots.Next(root, r) && Roots.WriteAhead(r.kind)
    ensures r.expected == Some(root.states[r.change].revision)
  {
  }

  /** The manifest belongs to the commit, and the disk is as archive found it: the sources have not
      drifted, the folder is there and its destination vacant. */
  ghost predicate Fitting(layout: Layout, root: Roots.Root, r: Record, m: Manifest, d: Image)
    requires r.change in root.states
  {
    && Represents(layout, d, root) && Binds(layout, m, root, r) && Acceptable(m, d)
    && (m.move.Some? ==> Stat(d, m.move.value.from).Dir? && Stat(d, m.move.value.to).Missing?)
  }

  /** What Writer.Commit does in one step, the disk does whole: the manifest is doable, and its
      final contents represent the root that Writer.Commit ends in. */
  lemma CommitRefines(layout: Layout, root: Roots.Root, r: Record, m: Manifest, d: Image)
    requires MayCommit(root, r) && Tree(d) && Fitting(layout, root, r, m, d)
    ensures Doable(m, d)
    ensures Represents(Relocated(layout, m), Final(m, d), Operations.Advanced(root, r))
  {
    hide Roots.Inv, Tree, ValidManifest, Final, Acceptable, Lifecycle.Apply, Settling, Stat, HistoryReady;
    CommitIsInChain(root, r, m, d);
    WholeEffect(m, d);
    var next, moved := Operations.Advanced(root, r), Relocated(layout, m);
    forall c | c in next.states
      ensures c in moved.path && moved.path[c] in Final(m, d).files
              && Final(m, d).files[moved.path[c]] == layout.encode(next.states[c])
    {
      if c == r.change {
        var i :| 0 <= i < |m.outputs| && StateOutput(layout, m.outputs[i], root, r);
        assert m.outputs[i].path == layout.path[c];
      } else {
        assert layout.path[c] in d.files && layout.path[c] !in OutputPaths(m);
      }
    }
  }

  /** The root once the manifest has been written. */
  function Pending(root: Roots.Root, r: Record): Roots.Root
    requires r.change in root.states
  {
    var s := root.states[r.change];
    root.(journal := Some(Roots.Journal(r, s, Lifecycle.Apply(s, r))))
  }

  /** One command on the disk, recovery and then the commit, stopped anywhere: what recovery of the
      disk will lead to represents what recovery of the root will lead to, the root being the one
      from before the manifest or the one that holds it. So the two models agree at every
      crash, not at the end alone. */
  method CommitOnDisk(disk: Disk, layout: Layout, root: Roots.Root, r: Record, m: Manifest)
    returns (o: Outcome, ghost reached: Roots.Root)
    requires MayCommit(root, r) && Inv(disk.image) && !WedgedDisk(disk.image)
    requires Fitting(layout, root, r, m, Settled(disk.image))
    modifies disk
    ensures Inv(disk.image) && !WedgedDisk(disk.image)
    ensures reached == root || reached == Pending(root, r)
    ensures Represents(if reached == root then layout else Relocated(layout, m),
                       Settled(disk.image), Operations.Recovered(reached))
    ensures o.Done? ==> reached == Pending(root, r) && Clean(disk.image)
    ensures o.Refused? ==> old(DoomedDisk(disk.image)) || old(disk.image.torn)
    ensures DoomedDisk(disk.image) ==> old(DoomedDisk(disk.image))
  {
    reached := root;
    Recovers(root, r);
    ghost var before := Settled(disk.image);
    o := disk.Recover();
    if !o.Done? { return; }
    CleanIsSettled(disk.image);
    MendedSame(m, disk.image);
    CommitRefines(layout, root, r, m, before);
    hide Final, Settled, Roots.Inv, Roots.Next, Represents, Binds, Tree, ValidManifest, Acceptable, HistoryReady;
    o := disk.Commit(m);
    if Settled(disk.image) != before || o.Done? { reached := Pending(root, r); }
    if o.Done? {
      CleanIsSettled(disk.image);
      RepresentsSettled(Relocated(layout, m), disk.image, Operations.Advanced(root, r));
    }
  }

  lemma Recovers(root: Roots.Root, r: Record)
    requires MayCommit(root, r)
    ensures Operations.Recovered(root) == root && Pending(root, r) != root
    ensures Operations.Recovered(Pending(root, r)) == Operations.Advanced(root, r)
  {
    hide Roots.Inv, Roots.Next, Lifecycle.Apply;
  }

  lemma CleanIsSettled(d: Image)
    requires Clean(d)
    ensures Settled(d) == Mended(d)
  {
  }

  lemma RepresentsSettled(layout: Layout, d: Image, root: Roots.Root)
    ensures Represents(layout, Mended(d), root) == Represents(layout, d, root)
  {
  }

  // ---------------------------------------------------------------------------------
  // The manifests themselves
  // ---------------------------------------------------------------------------------

  /** The state output a lifecycle commit adds to what it writes. */
  function StateWrite(layout: Layout, root: Roots.Root, r: Record): Output
    requires r.change in root.states && r.change in layout.path
  {
    var s := root.states[r.change];
    Output(layout.path[r.change], Sha(layout.encode(s)), layout.encode(Lifecycle.Apply(s, r)))
  }

  /** The manifest sync commits: the accepted documents and the state file. */
  function SyncManifest(layout: Layout, root: Roots.Root, r: Record, documents: seq<Output>): Manifest
    requires r.change in root.states && r.change in layout.path
  {
    Manifest("sync", r.change, root.states[r.change].revision, documents + [StateWrite(layout, root, r)], None, Some(r))
  }

  /** The manifest archive commits: the state file, and the move of the change's folder. */
  function ArchiveManifest(layout: Layout, root: Roots.Root, r: Record, folder: Move): Manifest
    requires r.change in root.states && r.change in layout.path
  {
    Manifest("archive", r.change, root.states[r.change].revision, [StateWrite(layout, root, r)], Some(folder), Some(r))
  }

  /** Both bind their change's state file and no other, if every change keeps its state in a file
      of its own and none of them is an accepted document. */
  lemma ManifestsBind(layout: Layout, root: Roots.Root, r: Record, documents: seq<Output>, folder: Move)
    requires r.change in root.states && r.change in layout.path
    requires forall c :: c in layout.path && c != r.change ==> layout.path[c] != layout.path[r.change]
    requires forall c, i :: c in layout.path && 0 <= i < |documents| ==> documents[i].path != layout.path[c]
    ensures ValidManifest(SyncManifest(layout, root, r, documents)) ==>
              Binds(layout, SyncManifest(layout, root, r, documents), root, r)
    ensures ValidManifest(ArchiveManifest(layout, root, r, folder)) ==>
              Binds(layout, ArchiveManifest(layout, root, r, folder), root, r)
  {
    hide ValidManifest, Lifecycle.Apply;
    var sync, archive := SyncManifest(layout, root, r, documents), ArchiveManifest(layout, root, r, folder);
    assert StateOutput(layout, sync.outputs[|documents|], root, r);
    assert StateOutput(layout, archive.outputs[0], root, r);
  }

  /** And the state file itself never stands in the way: a disk that represents the root holds its
      old bytes there. */
  lemma StateIsAcceptable(layout: Layout, root: Roots.Root, r: Record, d: Image)
    requires Tree(d) && r.change in root.states && r.change in layout.path && Represents(layout, d, root)
    ensures Read(d, layout.path[r.change]) == Ok(StateWrite(layout, root, r).before)
  {
  }

  /** So all a sync needs on the disk is that its documents have not drifted. */
  lemma SyncFits(layout: Layout, root: Roots.Root, r: Record, documents: seq<Output>, d: Image)
    requires Tree(d) && r.change in root.states && r.change in layout.path && Represents(layout, d, root)
    requires forall c :: c in layout.path && c != r.change ==> layout.path[c] != layout.path[r.change]
    requires forall c, i :: c in layout.path && 0 <= i < |documents| ==> documents[i].path != layout.path[c]
    requires var m := SyncManifest(layout, root, r, documents);
             ValidManifest(m) && forall i :: 0 <= i < |documents| ==> HoldsNew(m, d, i) || HoldsOld(m, d, i)
    ensures Fitting(layout, root, r, SyncManifest(layout, root, r, documents), d)
  {
    hide ValidManifest, Lifecycle.Apply, Tree, Represents;
    var m := SyncManifest(layout, root, r, documents);
    ManifestsBind(layout, root, r, documents, Move([], []));
    StateIsAcceptable(layout, root, r, d);
    assert m.outputs[|documents|] == StateWrite(layout, root, r);
    assert HoldsOld(m, d, |documents|);
  }

  /** And all an archive needs is its folder, and a vacant destination. */
  lemma ArchiveFits(layout: Layout, root: Roots.Root, r: Record, folder: Move, d: Image)
    requires Tree(d) && r.change in root.states && r.change in layout.path && Represents(layout, d, root)
    requires forall c :: c in layout.path && c != r.change ==> layout.path[c] != layout.path[r.change]
    requires ValidManifest(ArchiveManifest(layout, root, r, folder))
    requires Stat(d, folder.from).Dir? && Stat(d, folder.to).Missing?
    ensures Fitting(layout, root, r, ArchiveManifest(layout, root, r, folder), d)
  {
    hide ValidManifest, Lifecycle.Apply, Tree, Represents;
    ManifestsBind(layout, root, r, [], folder);
    StateIsAcceptable(layout, root, r, d);
    assert HoldsOld(ArchiveManifest(layout, root, r, folder), d, 0);
  }
}
