/** The write-ahead transaction (transaction.go): what a disk looks like, what a manifest
    promises, and why no step of a replay changes what the disk will settle to. */
module Transactions {
  import opened Records
  import Ledger

  /** A managed-relative path, split at its separators. */
  type Path = seq<string>

  /** What readTarget reports: no file, or the digest of its bytes. */
  datatype Digest = Absent | Sha(content: string)

  /** One committed output; `after` stands for the bytes the new digest identifies. */
  datatype Output = Output(path: Path, before: Digest, after: string)

  datatype Move = Move(from: Path, to: Path)

  /** The manifest. Its identity hashes every field, so the value is its own identity. */
  datatype Manifest = Manifest(
    operation: string, change: ChangeId, revision: nat,
    outputs: seq<Output>, move: Option<Move>, record: Option<Record>)

  /** Everything under .specd that a transaction can see. `stages` holds the staged bytes
      of each transaction by output index; `torn` says that the history file ends in an
      incomplete line. */
  datatype Image = Image(
    files: map<Path, string>, dirs: set<Path>,
    stages: map<Manifest, map<nat, string>>, journals: set<Manifest>,
    history: seq<Record>, torn: bool)

  datatype Code = Invalid | Drift | Ambiguous | IO | TornTail | BrokenChain

  datatype Entry = Missing | File(content: string) | Dir | Broken

  // ---------------------------------------------------------------------------------
  // Paths and trees
  // ---------------------------------------------------------------------------------

  predicate Under(child: Path, parent: Path) {
    parent <= child
  }

  predicate Unrelated(p: Path, q: Path) {
    !Under(p, q) && !Under(q, p)
  }

  function Parent(p: Path): Path {
    if p == [] then [] else p[..|p| - 1]
  }

  /** A path and all its ancestors: what MkdirAll creates. */
  function Lineage(p: Path): set<Path> {
    set k | 0 <= k <= |p| :: p[..k]
  }

  lemma LineageIsPrefixes(p: Path, q: Path)
    ensures q in Lineage(p) <==> q <= p
  {
    if q <= p {
      assert q == p[..|q|];
    }
  }

  /** Lstat: a path whose ancestor is a file is neither present nor simply absent. */
  function Stat(d: Image, p: Path): Entry {
    if p in d.dirs then Dir
    else if p in d.files then File(d.files[p])
    else if exists k :: 0 <= k < |p| && p[..k] in d.files then Broken
    else Missing
  }

  function Read(d: Image, p: Path): Result<Digest, Code> {
    match Stat(d, p)
    case Missing => Ok(Absent)
    case File(content) => Ok(Sha(content))
    case Dir => Err(Invalid)
    case Broken => Err(IO)
  }

  /** Files and directories form a tree: the ancestors of everything are directories. */
  ghost predicate Tree(d: Image) {
    && [] in d.dirs
    && (forall p :: p in d.files ==> p !in d.dirs && Parent(p) in d.dirs)
    && (forall p :: p in d.dirs ==> Parent(p) in d.dirs)
  }

  lemma {:induction false} AncestorsAreDirs(d: Image, p: Path, q: Path)
    requires Tree(d) && q <= p && (p in d.dirs || (p in d.files && q != p))
    ensures q in d.dirs
    decreases |p| - |q|
  {
    if q != p {
      AncestorsAreDirs(d, Parent(p), q);
    }
  }

  // ---------------------------------------------------------------------------------
  // Manifests
  // ---------------------------------------------------------------------------------

  /** What plan and validate demand, with two assumptions about the layout of .specd: no
      output lies inside another, and none inside, or around, the move destination. */
  ghost predicate ValidManifest(m: Manifest) {
    && (m.outputs != [] || m.move.Some?)
    && (forall i :: 0 <= i < |m.outputs| ==> m.outputs[i].path != [])
    && (forall i, j :: 0 <= i < j < |m.outputs| ==> Unrelated(m.outputs[i].path, m.outputs[j].path))
    && (m.move.Some? ==>
        && m.move.value.from != [] && m.move.value.to != []
        && Unrelated(m.move.value.from, m.move.value.to)
        && forall i :: 0 <= i < |m.outputs| ==> Unrelated(m.outputs[i].path, m.move.value.to))
    && (m.record.Some? ==> m.record.value.Valid() && m.record.value.change == m.change)
  }

  /** locate: an output path, followed through the move once it has been applied. */
  function Locate(m: Manifest, d: Image, p: Path): Path {
    if !Stat(d, p).Missing? || m.move.None? || !Under(p, m.move.value.from) then p
    else
      var moved := m.move.value.to + p[|m.move.value.from|..];
      if Stat(d, moved).File? || Stat(d, moved).Dir? then moved else p
  }

  predicate Installed(m: Manifest, d: Image, i: nat)
    requires i < |m.outputs|
  {
    Read(d, Locate(m, d, m.outputs[i].path)) == Ok(Sha(m.outputs[i].after))
  }

  /** An output that still holds its old bytes, with the new ones staged. */
  predicate Staged(m: Manifest, d: Image, i: nat)
    requires i < |m.outputs|
  {
    && Read(d, Locate(m, d, m.outputs[i].path)) == Ok(m.outputs[i].before)
    && m in d.stages && i in d.stages[m] && d.stages[m][i] == m.outputs[i].after
  }

  predicate Present(e: Entry) {
    e.File? || e.Dir?
  }

  /** What applyMove takes for a move already done: nothing at the source, something at the
      destination. */
  predicate Moved(m: Manifest, d: Image) {
    m.move.Some? && Stat(d, m.move.value.from).Missing? && Present(Stat(d, m.move.value.to))
  }

  /** The output is written at its own path: behind a move already done, only one that has
      nothing to do with the folder is. */
  predicate Aims(m: Manifest, d: Image, i: nat)
    requires i < |m.outputs|
  {
    Moved(m, d) ==> Unrelated(m.outputs[i].path, m.move.value.from)
  }

  // ---------------------------------------------------------------------------------
  // Single file-system calls
  // ---------------------------------------------------------------------------------

  function MkdirAll(d: Image, p: Path): Image {
    d.(dirs := d.dirs + Lineage(p))
  }

  /** Rename of staged slot `i` onto `target`. */
  function Replace(m: Manifest, d: Image, i: nat, target: Path): Image
    requires m in d.stages && i in d.stages[m]
  {
    d.(files := d.files[target := d.stages[m][i]], stages := d.stages[m := d.stages[m] - {i}])
  }

  function Rerooted(p: Path, mv: Move): Path {
    if Under(p, mv.from) then mv.to + p[|mv.from|..] else p
  }

  function Origin(p: Path, mv: Move): Path {
    if Under(p, mv.to) then mv.from + p[|mv.to|..] else p
  }

  /** Rename of a directory: every path under the source is re-rooted at the destination. */
  function MoveFiles(files: map<Path, string>, mv: Move): map<Path, string> {
    map q | q in (set p | p in files :: Rerooted(p, mv)) && Origin(q, mv) in files :: files[Origin(q, mv)]
  }

  function MoveDirs(dirs: set<Path>, mv: Move): set<Path> {
    set p | p in dirs :: Rerooted(p, mv)
  }

  function Rename(d: Image, mv: Move): Image {
    d.(files := MoveFiles(d.files, mv), dirs := MoveDirs(d.dirs, mv))
  }

  // ---------------------------------------------------------------------------------
  // What a committed transaction settles to
  // ---------------------------------------------------------------------------------

  function OutputPaths(m: Manifest): set<Path> {
    set i | 0 <= i < |m.outputs| :: m.outputs[i].path
  }

  /** The outputs still to be written at their own paths. */
  function Targets(m: Manifest, d: Image): set<Path> {
    set i | 0 <= i < |m.outputs| && Aims(m, d, i) :: m.outputs[i].path
  }

  ghost function AfterAt(m: Manifest, p: Path): string
    requires exists i :: 0 <= i < |m.outputs| && m.outputs[i].path == p
  {
    var i :| 0 <= i < |m.outputs| && m.outputs[i].path == p;
    m.outputs[i].after
  }

  ghost function Overwritten(m: Manifest, d: Image): map<Path, string> {
    map p | p in d.files.Keys + Targets(m, d) :: if p in Targets(m, d) then AfterAt(m, p) else d.files[p]
  }

  ghost function TargetDirs(m: Manifest, d: Image): set<Path> {
    set i, q | 0 <= i < |m.outputs| && Aims(m, d, i) && q in Lineage(Parent(m.outputs[i].path)) :: q
  }

  function Extended(history: seq<Record>, record: Option<Record>): seq<Record> {
    if record.None? || Ledger.HasId(history, record.value.id) then history else history + [record.value]
  }

  /** The whole effect of a manifest at once: every output new, the folder moved, the record
      in the ledger, and no trace of the transaction. */
  ghost function Final(m: Manifest, d: Image): Image {
    var history := Extended(d.history, m.record);
    var files, dirs := Overwritten(m, d), d.dirs + TargetDirs(m, d);
    if m.move.None? || Moved(m, d) then Image(files, dirs, map[], {}, history, false)
    else
      var mv := m.move.value;
      Image(MoveFiles(files, mv), MoveDirs(dirs + Lineage(Parent(mv.to)), mv), map[], {}, history, false)
  }

  /** At most one staging directory exists, and its slots are numbered by the outputs. */
  ghost predicate StageShape(d: Image) {
    && (forall m, k :: m in d.stages && k in d.stages ==> m == k)
    && (forall m, i :: m in d.stages && i in d.stages[m] ==> i < |m.outputs|)
  }

  lemma SlotCount(m: Manifest, d: Image)
    requires StageShape(d) && m in d.stages
    ensures |d.stages[m]| <= |m.outputs|
  {
    BoundedSize(d.stages[m].Keys, |m.outputs|);
  }

  lemma {:induction false} BoundedSize(s: set<nat>, n: nat)
    requires forall i :: i in s ==> i < n
    ensures |s| <= n
  {
    if n == 0 {
      if i :| i in s { assert false; }
    } else {
      BoundedSize(s - {n - 1}, n - 1);
    }
  }

  /** The calls an undisturbed replay of `m` makes at most. */
  function Work(m: Manifest): nat {
    3 * |m.outputs| + 6
  }

  /** Some output lies inside the folder, so writing it creates the folder. */
  predicate Makes(m: Manifest) {
    m.move.Some? && exists i :: 0 <= i < |m.outputs| && m.move.value.from < m.outputs[i].path
  }

  /** What every disk with a committed transaction looks like. */
  ghost predicate Committed(m: Manifest, d: Image) {
    && ValidManifest(m) && Tree(d)
    && d.journals == {m} && d.stages.Keys == {m} && StageShape(d)
  }

  /** A committed transaction that replay can carry through its files and its move: the folder
      is there, or will be, and nothing is at its destination; or the move counts as done, and
      what belongs to the folder is already new at the destination. */
  ghost predicate InFlight(m: Manifest, d: Image) {
    && Committed(m, d)
    && (forall i :: 0 <= i < |m.outputs| ==> Installed(m, d, i) || Staged(m, d, i))
    && (m.move.Some? ==>
          if Moved(m, d) then forall i :: 0 <= i < |m.outputs| ==> Installed(m, d, i) || Aims(m, d, i)
          else
            && Stat(d, m.move.value.to).Missing?
            && (Stat(d, m.move.value.from).Dir? || (Stat(d, m.move.value.from).Missing? && Makes(m))))
  }

  /** No replay can get past the move: the destination is occupied while the source is a
      directory, the source is no directory, or there is neither and no output makes one. */
  ghost predicate Stuck(m: Manifest, d: Image) {
    && Committed(m, d) && m.move.Some?
    && var source, dest := Stat(d, m.move.value.from), Stat(d, m.move.value.to);
       match source
       case Dir => !dest.Missing?
       case Missing => !Present(dest) && (dest.Missing? ==> !Makes(m))
       case _ => true
  }

  /** The move counts as done although it never was, and an output that belongs to the folder is
      not new at the destination. No replay gets past that output. */
  ghost predicate Clash(m: Manifest, d: Image) {
    && Committed(m, d) && Moved(m, d)
    && (forall i :: 0 <= i < |m.outputs| && Under(m.outputs[i].path, m.move.value.from) ==>
          m.outputs[i].before == Absent)
    && (exists i :: 0 <= i < |m.outputs| && !Aims(m, d, i) && !Installed(m, d, i))
  }

  /** A committed transaction whose move cannot be done: the commit does not look, and no replay
      can finish it. */
  ghost predicate Wedged(m: Manifest, d: Image) {
    Stuck(m, d) || Clash(m, d)
  }

  /** Whether the ledger already holds the bound record or would take it. */
  predicate HistoryReady(m: Manifest, d: Image) {
    || m.record.None?
    || Ledger.HasId(d.history, m.record.value.id)
    || Ledger.Fits(d.history, m.record.value)
  }

  /** What no amount of replaying can finish: a move that cannot be done, or a bound record
      that breaks its change's revision chain. Both were decided when the manifest was written. */
  ghost predicate Doomed(m: Manifest, d: Image) {
    Wedged(m, d) || !HistoryReady(m, d)
  }

  /** An incomplete last line blocks an append until the file is repaired. */
  predicate AppendBlocked(m: Manifest, d: Image) {
    m.record.Some? && d.torn
  }

  /** The invariant of a disk that only transactions write: at most one committed journal. */
  ghost predicate Inv(d: Image) {
    && Tree(d)
    && (if d.journals == {} then StageShape(d)
        else exists m :: m in d.journals && (InFlight(m, d) || Wedged(m, d)))
  }

  /** The state a disk is committed to: what an undisturbed recovery ends in. Before the
      manifest is written that is the disk without its staging; after, the whole effect. */
  ghost function Settled(d: Image): Image {
    if d.journals == {} then d.(stages := map[], torn := false)
    else
      var m :| m in d.journals;
      Final(m, d)
  }

  function Mended(d: Image): Image {
    d.(torn := false)
  }

  predicate Clean(d: Image) {
    d.journals == {} && d.stages == map[]
  }

  lemma SettledInFlight(m: Manifest, d: Image)
    requires d.journals == {m}
    ensures Settled(d) == Final(m, d)
  {
  }

  // ---------------------------------------------------------------------------------
  // Each replay step keeps the transaction in flight and its final state unchanged
  // ---------------------------------------------------------------------------------

  lemma OutputAt(m: Manifest, i: nat)
    requires ValidManifest(m) && i < |m.outputs|
    ensures m.outputs[i].path in OutputPaths(m) && AfterAt(m, m.outputs[i].path) == m.outputs[i].after
  {
  }

  /** The outputs still to be written are found under their own paths. */
  lemma LocateTarget(m: Manifest, d: Image, i: nat)
    requires ValidManifest(m) && Tree(d) && i < |m.outputs| && Aims(m, d, i)
    requires m.move.Some? ==> !Present(Stat(d, m.move.value.to)) || Moved(m, d)
    ensures Locate(m, d, m.outputs[i].path) == m.outputs[i].path
  {
    if !Moved(m, d) { LocateBeforeMove(m, d, m.outputs[i].path); }
  }

  /** Before the move, every output is looked up under its own path. */
  lemma LocateBeforeMove(m: Manifest, d: Image, p: Path)
    requires ValidManifest(m) && Tree(d) && (m.move.Some? ==> !Present(Stat(d, m.move.value.to)))
    ensures Locate(m, d, p) == p
  {
    if Stat(d, p).Missing? && m.move.Some? && Under(p, m.move.value.from) {
      var mv := m.move.value;
      var moved := mv.to + p[|mv.from|..];
      assert mv.to <= moved;
      if moved in d.dirs || moved in d.files {
        if moved == mv.to {} else { AncestorsAreDirs(d, moved, mv.to); }
      }
    }
  }

  lemma MkdirKeepsTree(d: Image, p: Path)
    requires Tree(d) && forall q :: q in d.files ==> !(q <= p)
    ensures Tree(MkdirAll(d, p))
  {
    forall q | q in Lineage(p) ensures Parent(q) in Lineage(p) {
      LineageIsPrefixes(p, q);
      LineageIsPrefixes(p, Parent(q));
    }
    forall q | q in d.files ensures q !in Lineage(p) {
      LineageIsPrefixes(p, q);
    }
  }

  /** A readable target can have its parent directories created. */
  lemma NoFileAbove(d: Image, p: Path, q: Path)
    requires Tree(d) && Read(d, p).Ok? && p != [] && q in d.files
    ensures !(q <= Parent(p))
  {
    if q <= Parent(p) {
      assert q == p[..|q|];
      if p in d.files {
        AncestorsAreDirs(d, p, q);
      }
    }
  }

  lemma TargetDirsContain(m: Manifest, d: Image, i: nat, q: Path)
    requires i < |m.outputs| && Aims(m, d, i)
    ensures q <= Parent(m.outputs[i].path) ==> q in TargetDirs(m, d)
  {
    LineageIsPrefixes(Parent(m.outputs[i].path), q);
  }

  lemma ParentUnder(q: Path, p: Path)
    ensures q <= Parent(p) ==> q <= p
  {
  }

  lemma MkdirStat(d: Image, p: Path, q: Path)
    requires !(q <= p) || q in d.dirs
    ensures Stat(MkdirAll(d, p), q) == Stat(d, q)
  {
    LineageIsPrefixes(p, q);
  }

  /** A lookup depends on the output's path and on where the move would take it. */
  lemma SameLookup(m: Manifest, d: Image, e: Image, q: Path)
    requires Stat(e, q) == Stat(d, q)
    requires m.move.Some? && Under(q, m.move.value.from) ==>
               Stat(e, m.move.value.to + q[|m.move.value.from|..]) ==
                 Stat(d, m.move.value.to + q[|m.move.value.from|..])
    ensures Locate(m, e, q) == Locate(m, d, q) && Read(e, Locate(m, e, q)) == Read(d, Locate(m, d, q))
  {
  }

  /** Creating the parents of output `i` changes no lookup. */
  lemma MkdirLookup(m: Manifest, d: Image, i: nat, j: nat)
    requires ValidManifest(m) && i < |m.outputs| && j < |m.outputs|
    ensures var e, q := MkdirAll(d, Parent(m.outputs[i].path)), m.outputs[j].path;
            Locate(m, e, q) == Locate(m, d, q) && Read(e, Locate(m, e, q)) == Read(d, Locate(m, d, q))
  {
    var p, q := m.outputs[i].path, m.outputs[j].path;
    ParentUnder(q, p);
    MkdirStat(d, Parent(p), q);
    if m.move.Some? && Under(q, m.move.value.from) {
      var moved := m.move.value.to + q[|m.move.value.from|..];
      ParentUnder(moved, p);
      assert m.move.value.to <= moved;
      MkdirStat(d, Parent(p), moved);
    }
    SameLookup(m, d, MkdirAll(d, Parent(p)), q);
  }

  /** Renaming staged slot `i` onto its output changes no other lookup. */
  lemma ReplaceLookup(m: Manifest, d: Image, i: nat, j: nat)
    requires ValidManifest(m) && i < |m.outputs| && j < |m.outputs| && i != j && m in d.stages && i in d.stages[m]
    ensures var e, q := Replace(m, d, i, m.outputs[i].path), m.outputs[j].path;
            Locate(m, e, q) == Locate(m, d, q) && Read(e, Locate(m, e, q)) == Read(d, Locate(m, d, q))
  {
    var p, q := m.outputs[i].path, m.outputs[j].path;
    assert Unrelated(p, q);
    StatElsewhere(m, d, i, q);
    if m.move.Some? && Under(q, m.move.value.from) {
      var moved := m.move.value.to + q[|m.move.value.from|..];
      assert m.move.value.to <= moved;
      if p <= moved { PrefixesOfOne(p, m.move.value.to, moved); }
      StatElsewhere(m, d, i, moved);
    }
    SameLookup(m, d, Replace(m, d, i, p), q);
  }

  lemma MkdirForOutput(m: Manifest, d: Image, i: nat)
    requires InFlight(m, d) && i < |m.outputs| && Aims(m, d, i) && Read(d, m.outputs[i].path).Ok?
    ensures var e := MkdirAll(d, Parent(m.outputs[i].path));
            && InFlight(m, e) && Moved(m, e) == Moved(m, d)
            && (forall j :: 0 <= j < |m.outputs| ==>
                  Installed(m, e, j) == Installed(m, d, j) && Staged(m, e, j) == Staged(m, d, j))
  {
    var p := m.outputs[i].path;
    var e := MkdirAll(d, Parent(p));
    forall q | q in d.files ensures !(q <= Parent(p)) {
      NoFileAbove(d, p, q);
    }
    MkdirKeepsTree(d, Parent(p));
    if m.move.Some? {
      var mv := m.move.value;
      ParentUnder(mv.to, p);
      ParentUnder(mv.from, p);
      MkdirStat(d, Parent(p), mv.to);
      if mv.from <= Parent(p) {
        LineageIsPrefixes(Parent(p), mv.from);
      } else {
        MkdirStat(d, Parent(p), mv.from);
      }
    }
    forall j | 0 <= j < |m.outputs|
      ensures Installed(m, e, j) == Installed(m, d, j) && Staged(m, e, j) == Staged(m, d, j)
    {
      MkdirLookup(m, d, i, j);
    }
  }

  lemma MkdirKeepsFinal(m: Manifest, d: Image, i: nat)
    requires i < |m.outputs| && Aims(m, d, i) && Moved(m, MkdirAll(d, Parent(m.outputs[i].path))) == Moved(m, d)
    ensures Final(m, MkdirAll(d, Parent(m.outputs[i].path))) == Final(m, d)
  {
    var p := m.outputs[i].path;
    var e := MkdirAll(d, Parent(p));
    SameAims(m, d, e);
    forall q | q in Lineage(Parent(p)) ensures q in TargetDirs(m, d) {
      LineageIsPrefixes(Parent(p), q);
      TargetDirsContain(m, d, i, q);
    }
    assert e.dirs + TargetDirs(m, e) == d.dirs + TargetDirs(m, d);
    assert Overwritten(m, e) == Overwritten(m, d);
  }

  /** A file put at `p` is seen there and below it, and nowhere else. */
  lemma StatElsewhere(m: Manifest, d: Image, i: nat, q: Path)
    requires i < |m.outputs| && m in d.stages && i in d.stages[m] && !(m.outputs[i].path <= q)
    ensures Stat(Replace(m, d, i, m.outputs[i].path), q) == Stat(d, q)
  {
    var e := Replace(m, d, i, m.outputs[i].path);
    forall k | 0 <= k < |q| ensures q[..k] in e.files <==> q[..k] in d.files {
      assert q[..k] <= q;
    }
  }

  lemma OutputsApart(m: Manifest, i: nat, k: nat)
    requires ValidManifest(m) && i < |m.outputs| && k < |m.outputs|
    ensures i == k || Unrelated(m.outputs[i].path, m.outputs[k].path)
  {
  }

  /** An output in flight is neither the folder to move nor above it. */
  lemma NotAboveSource(m: Manifest, d: Image, i: nat)
    requires InFlight(m, d) && m.move.Some? && i < |m.outputs| && Aims(m, d, i) && Read(d, m.outputs[i].path).Ok?
    ensures !(m.outputs[i].path <= m.move.value.from)
  {
    if Makes(m) { NotAboveMade(m, i); }
    if m.outputs[i].path <= m.move.value.from && Stat(d, m.move.value.from).Dir? {
      AncestorsAreDirs(d, m.move.value.from, m.outputs[i].path);
    }
  }

  lemma NotAboveMade(m: Manifest, i: nat)
    requires ValidManifest(m) && Makes(m) && i < |m.outputs|
    ensures !(m.outputs[i].path <= m.move.value.from)
  {
    var k :| 0 <= k < |m.outputs| && m.move.value.from < m.outputs[k].path;
    OutputsApart(m, i, k);
  }

  lemma ReplaceOutput(m: Manifest, d: Image, i: nat)
    requires InFlight(m, d) && i < |m.outputs| && Aims(m, d, i) && Staged(m, d, i)
    requires Parent(m.outputs[i].path) in d.dirs
    ensures var e := Replace(m, d, i, m.outputs[i].path);
            && InFlight(m, e) && Moved(m, e) == Moved(m, d) && Final(m, e) == Final(m, d)
            && Installed(m, e, i)
            && (forall j :: 0 <= j < |m.outputs| && j != i ==> Installed(m, e, j) == Installed(m, d, j))
  {
    var p := m.outputs[i].path;
    var e := Replace(m, d, i, p);
    LocateTarget(m, d, i);
    if m.move.Some? {
      NotAboveSource(m, d, i);
      StatElsewhere(m, d, i, m.move.value.from);
      StatElsewhere(m, d, i, m.move.value.to);
    }
    ReplaceCommitted(m, d, i);
    hide Stat, Locate, Overwritten, TargetDirs, Tree, ValidManifest, StageShape;
    forall j | 0 <= j < |m.outputs| && j != i
      ensures Installed(m, e, j) == Installed(m, d, j) && Staged(m, e, j) == Staged(m, d, j)
    {
      ReplaceLookup(m, d, i, j);
    }
    LocateTarget(m, e, i);
    OverwrittenSame(m, d, e, i);
  }

  lemma ReplaceCommitted(m: Manifest, d: Image, i: nat)
    requires Committed(m, d) && i < |m.outputs| && i in d.stages[m] && d.stages[m][i] == m.outputs[i].after
    requires var p := m.outputs[i].path; Read(d, p).Ok? && Parent(p) in d.dirs
    ensures var e := Replace(m, d, i, m.outputs[i].path);
            Committed(m, e) && Stat(e, m.outputs[i].path) == File(m.outputs[i].after)
  {
  }

  lemma OverwrittenSame(m: Manifest, d: Image, e: Image, i: nat)
    requires i < |m.outputs| && ValidManifest(m) && Aims(m, d, i) && Moved(m, e) == Moved(m, d)
    requires e.files == d.files[m.outputs[i].path := m.outputs[i].after]
    ensures Overwritten(m, e) == Overwritten(m, d) && TargetDirs(m, e) == TargetDirs(m, d)
  {
    OutputAt(m, i);
    SameAims(m, d, e);
    assert m.outputs[i].path in Targets(m, d);
    hide Targets, Aims, Moved, ValidManifest;
  }

  lemma SameAims(m: Manifest, d: Image, e: Image)
    requires Moved(m, e) == Moved(m, d)
    ensures Targets(m, e) == Targets(m, d) && TargetDirs(m, e) == TargetDirs(m, d)
  {
    hide Moved, Lineage;
    forall i | 0 <= i < |m.outputs| ensures Aims(m, e, i) == Aims(m, d, i) {}
  }

  // ---------------------------------------------------------------------------------
  // The move
  // ---------------------------------------------------------------------------------

  lemma RerootedUnder(mv: Move, p: Path)
    requires Unrelated(mv.from, mv.to)
    ensures Under(p, mv.from) ==> Under(Rerooted(p, mv), mv.to) && Origin(Rerooted(p, mv), mv) == p
    ensures !Under(p, mv.from) && !Under(p, mv.to) ==> Rerooted(p, mv) == p && Origin(p, mv) == p
    ensures !Under(Rerooted(p, mv), mv.from)
  {
    if Under(p, mv.from) {
      var q := Rerooted(p, mv);
      assert q[|mv.to|..] == p[|mv.from|..];
      assert p == mv.from + p[|mv.from|..];
      assert q[..|mv.to|] == mv.to;
      if mv.from <= q {
        PrefixesOfOne(mv.from, mv.to, q);
      }
    }
  }

  lemma PrefixesOfOne(a: Path, b: Path, q: Path)
    requires a <= q && b <= q
    ensures a <= b || b <= a
  {
    assert a == q[..|a|] && b == q[..|b|];
    if |a| <= |b| {
      assert a == b[..|a|];
    } else {
      assert b == a[..|b|];
    }
  }

  lemma NothingUnder(d: Image, to: Path, p: Path)
    requires Tree(d) && Stat(d, to).Missing? && to <= p
    ensures p !in d.dirs && p !in d.files
  {
    if p in d.dirs || p in d.files {
      if p != to {
        AncestorsAreDirs(d, p, to);
      }
    }
  }

  /** The files and directories after the rename, path by path. */
  lemma RenameAt(d: Image, mv: Move, q: Path)
    requires Tree(d) && Unrelated(mv.from, mv.to) && Stat(d, mv.to).Missing?
    ensures var e := Rename(d, mv);
            if Under(q, mv.to) then
              var p := Origin(q, mv);
              && (q in e.dirs <==> p in d.dirs) && (q in e.files <==> p in d.files)
              && (q in e.files ==> e.files[q] == d.files[p])
            else if Under(q, mv.from) then q !in e.dirs && q !in e.files
            else
              && (q in e.dirs <==> q in d.dirs) && (q in e.files <==> q in d.files)
              && (q in e.files ==> e.files[q] == d.files[q])
  {
    var e := Rename(d, mv);
    forall p | p in d.files || p in d.dirs
      ensures !Under(p, mv.to) && Origin(Rerooted(p, mv), mv) == p && !Under(Rerooted(p, mv), mv.from)
    {
      if Under(p, mv.to) { NothingUnder(d, mv.to, p); }
      RerootedUnder(mv, p);
    }
    if Under(q, mv.to) {
      var p := Origin(q, mv);
      assert Under(p, mv.from);
      assert p[|mv.from|..] == q[|mv.to|..];
      assert Rerooted(p, mv) == q by { assert q == mv.to + q[|mv.to|..]; }
    } else {
      assert !Under(q, mv.from) ==> Rerooted(q, mv) == q;
    }
  }

  lemma RenameKeepsParent(d: Image, mv: Move, q: Path)
    requires Tree(d) && Unrelated(mv.from, mv.to) && mv.from != [] && mv.to != []
    requires Stat(d, mv.to).Missing? && Parent(mv.to) in d.dirs
    requires var e := Rename(d, mv); q in e.dirs || q in e.files
    ensures Parent(q) in Rename(d, mv).dirs
  {
    hide Rename;
    RenameAt(d, mv, q);
    RenameAt(d, mv, Parent(q));
    ParentUnder(mv.from, q);
    ParentUnder(mv.to, q);
    if q == mv.to {
    } else if Under(q, mv.to) {
      assert mv.to == q[..|mv.to|] == Parent(q)[..|mv.to|];
      assert Origin(Parent(q), mv) == Parent(Origin(q, mv));
    }
  }

  lemma RenameKeepsTree(d: Image, mv: Move)
    requires Tree(d) && Unrelated(mv.from, mv.to) && mv.from != [] && mv.to != []
    requires Stat(d, mv.to).Missing? && Parent(mv.to) in d.dirs
    ensures Tree(Rename(d, mv))
  {
    var e := Rename(d, mv);
    RenameAt(d, mv, []);
    forall q | q in e.dirs ensures Parent(q) in e.dirs {
      RenameKeepsParent(d, mv, q);
    }
    forall q | q in e.files ensures Parent(q) in e.dirs && q !in e.dirs {
      RenameKeepsParent(d, mv, q);
      RenameAt(d, mv, q);
    }
  }

  /** A replayed output keeps its new bytes through the rename. */
  lemma InstalledAfterRename(m: Manifest, d: Image, i: nat)
    requires InFlight(m, d) && m.move.Some? && !Moved(m, d) && i < |m.outputs| && Installed(m, d, i)
    requires Parent(m.move.value.to) in d.dirs && Stat(d, m.move.value.from).Dir?
    ensures Installed(m, Rename(d, m.move.value), i)
  {
    var mv, p := m.move.value, m.outputs[i].path;
    var e := Rename(d, mv);
    LocateBeforeMove(m, d, p);
    assert Unrelated(p, mv.to);
    RenameAt(d, mv, p);
    if Under(p, mv.from) {
      var q := Rerooted(p, mv);
      RerootedUnder(mv, p);
      RenameAt(d, mv, q);
      RenameKeepsTree(d, mv);
      assert p in d.files && q in e.files && q !in e.dirs;
      AfterRenameMissing(d, mv, p);
    }
  }

  /** Nothing is left at or under the source of a rename, not even a broken path. */
  lemma AfterRenameMissing(d: Image, mv: Move, p: Path)
    requires Tree(d) && Unrelated(mv.from, mv.to) && Stat(d, mv.to).Missing? && Stat(d, mv.from).Dir?
    requires Under(p, mv.from)
    ensures Stat(Rename(d, mv), p).Missing?
  {
    var e := Rename(d, mv);
    RenameAt(d, mv, p);
    if Under(p, mv.to) { PrefixesOfOne(mv.from, mv.to, p); }
    forall k | 0 <= k < |p| ensures p[..k] !in e.files {
      var q := p[..k];
      RenameAt(d, mv, q);
      if Under(q, mv.from) {
        if Under(q, mv.to) { PrefixesOfOne(mv.from, mv.to, q); }
      } else {
        PrefixesOfOne(mv.from, q, p);
        AncestorsAreDirs(d, mv.from, q);
      }
      if Under(q, mv.to) { assert Under(p, mv.to); PrefixesOfOne(mv.from, mv.to, p); }
    }
  }

  /** With every output in place, the folder to move is there. */
  lemma SourceIsDir(m: Manifest, d: Image)
    requires InFlight(m, d) && m.move.Some? && !Moved(m, d)
    requires forall i :: 0 <= i < |m.outputs| ==> Installed(m, d, i)
    ensures Stat(d, m.move.value.from).Dir? && Stat(d, m.move.value.to).Missing?
  {
    if !Stat(d, m.move.value.from).Dir? {
      var k :| 0 <= k < |m.outputs| && m.move.value.from < m.outputs[k].path;
      assert Installed(m, d, k);
      LocateTarget(m, d, k);
      AncestorsAreDirs(d, m.outputs[k].path, m.move.value.from);
    }
  }

  /** The rename carries an in-flight transaction, all outputs new, to its moved state. */
  lemma MoveFolder(m: Manifest, d: Image)
    requires InFlight(m, d) && m.move.Some? && !Moved(m, d)
    requires forall i :: 0 <= i < |m.outputs| ==> Installed(m, d, i)
    requires Parent(m.move.value.to) in d.dirs
    ensures var e := Rename(d, m.move.value);
            && InFlight(m, e) && Moved(m, e) && Final(m, e) == Final(m, d)
            && (forall i :: 0 <= i < |m.outputs| ==> Installed(m, e, i))
  {
    var mv := m.move.value;
    var e := Rename(d, mv);
    SourceIsDir(m, d);
    RenameKeepsTree(d, mv);
    AfterRenameMissing(d, mv, mv.from);
    RenameAt(d, mv, mv.to);
    assert Origin(mv.to, mv) == mv.from;
    forall i | 0 <= i < |m.outputs| ensures Installed(m, e, i) {
      InstalledAfterRename(m, d, i);
    }
    AllInstalled(m, d);
    AllInstalled(m, e);
    assert d.dirs + TargetDirs(m, d) + Lineage(Parent(mv.to)) == d.dirs by {
      forall q | q in Lineage(Parent(mv.to)) ensures q in d.dirs {
        LineageIsPrefixes(Parent(mv.to), q);
        AncestorsAreDirs(d, Parent(mv.to), q);
      }
    }
  }

  /** Once every output holds its new bytes, overwriting them again changes nothing. */
  lemma AllInstalled(m: Manifest, d: Image)
    requires ValidManifest(m) && Tree(d)
    requires m.move.Some? ==> Moved(m, d) || Stat(d, m.move.value.to).Missing?
    requires forall i :: 0 <= i < |m.outputs| ==> Installed(m, d, i)
    ensures Overwritten(m, d) == d.files && d.dirs + TargetDirs(m, d) == d.dirs
  {
    forall i | 0 <= i < |m.outputs| && Aims(m, d, i)
      ensures m.outputs[i].path in d.files && d.files[m.outputs[i].path] == m.outputs[i].after
      ensures AfterAt(m, m.outputs[i].path) == m.outputs[i].after
    {
      assert Installed(m, d, i);
      LocateTarget(m, d, i);
      OutputAt(m, i);
    }
    assert Overwritten(m, d) == d.files;
    forall i, q | 0 <= i < |m.outputs| && Aims(m, d, i) && q in Lineage(Parent(m.outputs[i].path)) ensures q in d.dirs {
      var p := m.outputs[i].path;
      assert p in d.files;
      LineageIsPrefixes(Parent(p), q);
      AncestorsAreDirs(d, Parent(p), q);
    }
  }

  /** Creating the parents of the move destination. */
  lemma MkdirForMove(m: Manifest, d: Image)
    requires InFlight(m, d) && m.move.Some? && !Moved(m, d)
    requires forall i :: 0 <= i < |m.outputs| ==> Installed(m, d, i)
    ensures var e := MkdirAll(d, Parent(m.move.value.to));
            && InFlight(m, e) && !Moved(m, e) && Final(m, e) == Final(m, d)
            && (forall i :: 0 <= i < |m.outputs| ==> Installed(m, e, i))
            && Parent(m.move.value.to) in e.dirs
  {
    var mv := m.move.value;
    var up := Parent(mv.to);
    var e := MkdirAll(d, up);
    SourceIsDir(m, d);
    forall q | q in d.files ensures !(q <= up) {
      NoFileAbove(d, mv.to, q);
    }
    MkdirKeepsTree(d, up);
    assert !(mv.to <= up);
    MkdirStat(d, up, mv.to);
    MkdirStat(d, up, mv.from);
    forall i | 0 <= i < |m.outputs| ensures Installed(m, e, i) {
      var q := m.outputs[i].path;
      assert Installed(m, d, i) && Unrelated(q, mv.to);
      ParentUnder(q, mv.to);
      MkdirStat(d, up, q);
      LocateBeforeMove(m, d, q);
      LocateBeforeMove(m, e, q);
    }
    LineageIsPrefixes(up, up);
    SameAims(m, d, e);
    assert Overwritten(m, e) == Overwritten(m, d);
    assert e.dirs + TargetDirs(m, e) + Lineage(up) == d.dirs + TargetDirs(m, d) + Lineage(up);
  }

  /** With every output new, the folder moved and the record in the ledger, only the journal
      and its stage are left to remove. */
  lemma OnlyCleanupLeft(m: Manifest, d: Image)
    requires InFlight(m, d)
    requires forall i :: 0 <= i < |m.outputs| ==> Installed(m, d, i)
    requires m.move.Some? ==> Moved(m, d)
    requires m.record.Some? ==> Ledger.HasId(d.history, m.record.value.id)
    ensures Final(m, d) == d.(journals := {}, stages := map[], torn := false)
  {
    AllInstalled(m, d);
  }

  /** The history plays no part in how outputs and folders are found. */
  lemma SameTree(m: Manifest, d: Image, e: Image)
    requires d.files == e.files && d.dirs == e.dirs && d.stages == e.stages && d.journals == e.journals
    ensures InFlight(m, d) == InFlight(m, e) && Wedged(m, d) == Wedged(m, e) && Moved(m, d) == Moved(m, e)
    ensures Stuck(m, d) == Stuck(m, e) && Clash(m, d) == Clash(m, e)
    ensures forall i :: 0 <= i < |m.outputs| ==> Installed(m, e, i) == Installed(m, d, i)
  {
    hide Stat, Installed, Staged, ValidManifest, Makes;
    SameLookups(m, d, e);
    assert Committed(m, e) == Committed(m, d);
    assert forall i :: 0 <= i < |m.outputs| ==> Aims(m, e, i) == Aims(m, d, i);
    hide Committed, Aims, Moved;
  }

  lemma SameLookups(m: Manifest, d: Image, e: Image)
    requires d.files == e.files && d.dirs == e.dirs && d.stages == e.stages
    ensures forall p :: Stat(e, p) == Stat(d, p)
    ensures forall i :: 0 <= i < |m.outputs| ==>
              Installed(m, e, i) == Installed(m, d, i) && Staged(m, e, i) == Staged(m, d, i)
  {
    forall p ensures Stat(e, p) == Stat(d, p) {}
    hide Stat;
    forall i | 0 <= i < |m.outputs|
      ensures Installed(m, e, i) == Installed(m, d, i) && Staged(m, e, i) == Staged(m, d, i)
    {
      assert Locate(m, e, m.outputs[i].path) == Locate(m, d, m.outputs[i].path);
    }
  }

  /** Appending the bound record does not change what the disk settles to. */
  lemma AppendKeepsFinal(m: Manifest, d: Image)
    requires InFlight(m, d) && m.record.Some? && !Ledger.HasId(d.history, m.record.value.id)
    ensures var e := d.(history := d.history + [m.record.value]);
            && InFlight(m, e) && Final(m, e) == Final(m, d)
            && Moved(m, e) == Moved(m, d)
            && Ledger.HasId(e.history, m.record.value.id)
            && (forall i :: 0 <= i < |m.outputs| ==> Installed(m, e, i) == Installed(m, d, i))
  {
    var r := m.record.value;
    var e := d.(history := d.history + [r]);
    Ledger.HasIdAppend(d.history, r);
    SameTree(m, d, e);
    SameTargets(m, d, e);
  }

  lemma SameTargets(m: Manifest, d: Image, e: Image)
    requires d.files == e.files && d.dirs == e.dirs
    ensures Overwritten(m, e) == Overwritten(m, d) && TargetDirs(m, e) == TargetDirs(m, d)
  {
    forall p ensures Stat(e, p) == Stat(d, p) {}
    assert Targets(m, e) == Targets(m, d);
  }

  lemma TearKeepsFinal(m: Manifest, d: Image)
    requires InFlight(m, d)
    ensures InFlight(m, d.(torn := true)) && Final(m, d.(torn := true)) == Final(m, d)
  {
    SameTree(m, d, d.(torn := true));
    SameTargets(m, d, d.(torn := true));
  }

  /** A readable target's parents can be created without losing the tree. */
  lemma MkdirForTarget(d: Image, target: Path)
    requires Tree(d) && target != [] && Read(d, target).Ok?
    ensures var e := MkdirAll(d, Parent(target));
            Tree(e) && Read(e, target) == Read(d, target) && Parent(target) in e.dirs
    ensures forall q :: q in d.files ==> !(q <= Parent(target))
  {
    forall q | q in d.files ensures !(q <= Parent(target)) {
      NoFileAbove(d, target, q);
    }
    MkdirKeepsTree(d, Parent(target));
    MkdirStat(d, Parent(target), target);
    LineageIsPrefixes(Parent(target), Parent(target));
  }

  /** A step on behalf of a stuck transaction leaves it stuck: first the directories. */
  lemma StuckMkdir(m: Manifest, d: Image, i: nat)
    requires Stuck(m, d) && i < |m.outputs|
    requires var target := Locate(m, d, m.outputs[i].path); target != [] && Read(d, target).Ok?
    ensures Stuck(m, MkdirAll(d, Parent(Locate(m, d, m.outputs[i].path))))
  {
    var mv, target := m.move.value, Locate(m, d, m.outputs[i].path);
    var e := MkdirAll(d, Parent(target));
    MkdirForTarget(d, target);
    match Stat(d, mv.from)
    case Dir =>
      StatGrows(d, e, mv.from);
      StatGrows(d, e, mv.to);
    case Missing =>
      LocateBeforeMove(m, d, m.outputs[i].path);
      ParentUnder(mv.to, target);
      MkdirStat(d, Parent(target), mv.to);
      if mv.from <= Parent(target) {
        LineageIsPrefixes(Parent(target), mv.from);
      } else {
        MkdirStat(d, Parent(target), mv.from);
      }
    case File(_) => MkdirStat(d, Parent(target), mv.from);
    case Broken =>
      var k :| 0 <= k < |mv.from| && mv.from[..k] in d.files;
      assert mv.from[..k] <= mv.from;
      MkdirStat(d, Parent(target), mv.from);
  }

  /** Then the rename of the staged slot. */
  lemma StuckReplace(m: Manifest, d: Image, i: nat, target: Path)
    requires Stuck(m, d) && i < |m.outputs| && i in d.stages[m]
    requires target != [] && Read(d, target).Ok? && Parent(target) in d.dirs
    requires Stat(d, m.move.value.from).Missing? ==> target == m.outputs[i].path
    ensures Stuck(m, Replace(m, d, i, target))
  {
    var mv := m.move.value;
    var e := Replace(m, d, i, target);
    match Stat(d, mv.from)
    case Dir =>
      StatGrows(d, e, mv.from);
      StatGrows(d, e, mv.to);
    case Missing =>
      StatElsewhere(m, d, i, mv.to);
      if target <= mv.from {
        assert target == mv.from[..|target|];
      } else {
        StatElsewhere(m, d, i, mv.from);
      }
    case File(_) =>
    case Broken =>
      var k :| 0 <= k < |mv.from| && mv.from[..k] in d.files;
      assert mv.from[..k] in e.files;
  }

  /** An output whose turn comes while the move clashes: if it belongs to the folder and can be
      written at all, it is written at its own path, and the source comes into being again. */
  lemma ClashMkdir(m: Manifest, d: Image, i: nat)
    requires Clash(m, d) && i < |m.outputs| && !Installed(m, d, i)
    requires Read(d, Locate(m, d, m.outputs[i].path)) == Ok(m.outputs[i].before)
    ensures var e := MkdirAll(d, Parent(m.outputs[i].path));
            && Locate(m, d, m.outputs[i].path) == m.outputs[i].path
            && if Under(m.outputs[i].path, m.move.value.from) then Stuck(m, e) && Stat(e, m.move.value.from).Dir?
               else Clash(m, e) && forall j :: 0 <= j < |m.outputs| ==> Installed(m, e, j) == Installed(m, d, j)
  {
    var mv, p := m.move.value, m.outputs[i].path;
    var e := MkdirAll(d, Parent(p));
    if Under(p, mv.from) { assert mv.to + p[|mv.from|..] == mv.to || p != mv.from; }
    assert Locate(m, d, p) == p;
    MkdirForTarget(d, p);
    ParentUnder(mv.to, p);
    MkdirStat(d, Parent(p), mv.to);
    if Under(p, mv.from) {
      assert p != mv.from;
      assert mv.from <= Parent(p) by { assert p[..|mv.from|] == Parent(p)[..|mv.from|]; }
      LineageIsPrefixes(Parent(p), mv.from);
    } else {
      ParentUnder(mv.from, p);
      MkdirStat(d, Parent(p), mv.from);
      forall j | 0 <= j < |m.outputs| ensures Installed(m, e, j) == Installed(m, d, j) {
        MkdirLookup(m, d, i, j);
      }
    }
  }

  lemma ClashReplace(m: Manifest, d: Image, i: nat)
    requires Clash(m, d) && i < |m.outputs| && i in d.stages[m] && d.stages[m][i] == m.outputs[i].after
    requires var p := m.outputs[i].path;
             !Under(p, m.move.value.from) && Read(d, p).Ok? && Parent(p) in d.dirs
    ensures var e := Replace(m, d, i, m.outputs[i].path);
            || Stuck(m, e)
            || (Clash(m, e) && Installed(m, e, i)
                && forall j :: 0 <= j < |m.outputs| && j != i ==> Installed(m, e, j) == Installed(m, d, j))
  {
    var mv, p := m.move.value, m.outputs[i].path;
    var e := Replace(m, d, i, p);
    StatElsewhere(m, d, i, mv.to);
    if p <= mv.from {
      assert p == mv.from[..|p|];
    } else {
      StatElsewhere(m, d, i, mv.from);
      forall j | 0 <= j < |m.outputs| && j != i ensures Installed(m, e, j) == Installed(m, d, j) {
        ReplaceLookup(m, d, i, j);
      }
      assert Committed(m, e) && Installed(m, e, i);
      hide Stat, Installed, Locate, Committed;
    }
  }

  lemma StatGrows(d: Image, e: Image, p: Path)
    requires d.dirs <= e.dirs && d.files.Keys <= e.files.Keys
    ensures !Stat(d, p).Missing? ==> !Stat(e, p).Missing?
    ensures Stat(d, p).Dir? ==> Stat(e, p).Dir?
  {
  }

  // ---------------------------------------------------------------------------------
  // What the whole effect is
  // ---------------------------------------------------------------------------------

  /** Where a path of the old tree lives once the manifest is applied. */
  function Settling(m: Manifest, p: Path): Path {
    if m.move.Some? then Rerooted(p, m.move.value) else p
  }

  lemma MoveFilesAt(files: map<Path, string>, mv: Move)
    requires Unrelated(mv.from, mv.to) && forall p :: p in files ==> !Under(p, mv.to)
    ensures var moved := MoveFiles(files, mv);
            && (forall p :: p in files ==> Rerooted(p, mv) in moved && moved[Rerooted(p, mv)] == files[p])
            && (forall q :: q in moved ==> !Under(q, mv.from))
  {
    forall p | p in files
      ensures Origin(Rerooted(p, mv), mv) == p && !Under(Rerooted(p, mv), mv.from)
    {
      RerootedUnder(mv, p);
    }
  }

  /** The final image pinned down file by file: each output holds its new bytes and each other
      file its old ones, at its place after the move; the source folder is empty; no journal
      or stage is left. */
  lemma WholeEffect(m: Manifest, d: Image)
    requires ValidManifest(m) && Tree(d) && (m.move.Some? ==> Stat(d, m.move.value.to).Missing?)
    ensures var e := Final(m, d);
            && e.journals == {} && e.stages == map[]
            && (forall i :: 0 <= i < |m.outputs| ==>
                  var at := Settling(m, m.outputs[i].path);
                  at in e.files && e.files[at] == m.outputs[i].after)
            && (forall p :: p in d.files && p !in OutputPaths(m) ==>
                  Settling(m, p) in e.files && e.files[Settling(m, p)] == d.files[p])
            && (m.move.Some? ==> forall q :: q in e.files ==> !Under(q, m.move.value.from))
  {
    var files := Overwritten(m, d);
    OverwrittenAt(m, d);
    assert Targets(m, d) == OutputPaths(m);
    if m.move.Some? {
      forall p | p in files ensures !Under(p, m.move.value.to) {
        NothingAtDestination(m, d, p);
      }
      MoveFilesAt(files, m.move.value);
    }
  }

  /** Where the move counts as done already, nothing is moved: the outputs that have nothing to do
      with the folder hold their new bytes, and every other file its old ones, where it was. */
  lemma EffectWithoutMove(m: Manifest, d: Image)
    requires ValidManifest(m) && Moved(m, d)
    ensures var e := Final(m, d);
            && e.journals == {} && e.stages == map[]
            && (forall i :: 0 <= i < |m.outputs| && Aims(m, d, i) ==>
                  m.outputs[i].path in e.files && e.files[m.outputs[i].path] == m.outputs[i].after)
            && (forall p :: p in d.files && p !in Targets(m, d) ==> p in e.files && e.files[p] == d.files[p])
  {
    OverwrittenAt(m, d);
  }

  lemma OverwrittenAt(m: Manifest, d: Image)
    requires ValidManifest(m)
    ensures var after := Overwritten(m, d);
            && (forall i :: 0 <= i < |m.outputs| && Aims(m, d, i) ==>
                  m.outputs[i].path in after && after[m.outputs[i].path] == m.outputs[i].after)
            && (forall p :: p in d.files && p !in Targets(m, d) ==> p in after && after[p] == d.files[p])
  {
    forall i | 0 <= i < |m.outputs| && Aims(m, d, i)
      ensures m.outputs[i].path in Targets(m, d) && AfterAt(m, m.outputs[i].path) == m.outputs[i].after
    {
      OutputAt(m, i);
    }
  }

  lemma NothingAtDestination(m: Manifest, d: Image, p: Path)
    requires ValidManifest(m) && Tree(d) && m.move.Some? && Stat(d, m.move.value.to).Missing?
    requires p in Overwritten(m, d)
    ensures !Under(p, m.move.value.to)
  {
    if p !in Targets(m, d) && Under(p, m.move.value.to) {
      NothingUnder(d, m.move.value.to, p);
    }
  }

  /** The bound record ends up in the ledger exactly once, after everything that was there,
      and the ledger stays one that replay accepts. */
  lemma BoundRecordOnce(m: Manifest, d: Image)
    requires ValidManifest(m) && m.record.Some? && HistoryReady(m, d)
    requires m.record.value.family == History && Ledger.WellFormed(d.history, History)
    ensures var history := Final(m, d).history;
            && Ledger.WellFormed(history, History) && d.history <= history
            && (exists i :: 0 <= i < |history| && history[i].id == m.record.value.id)
            && (forall i, j :: 0 <= i < j < |history| ==> history[i].id != history[j].id)
  {
    var r := m.record.value;
    if !Ledger.HasId(d.history, r.id) {
      Ledger.WellFormedExtends(d.history, r, History);
      assert (d.history + [r])[|d.history|] == r;
    }
  }
}
