/** Phase 2 of patch application: the all-or-nothing commit. */
module Commit {
  import opened Prelude
  import opened Disk
  import Hunks

  datatype Disposition = Renamed | Restore | CreateOrModify | Deleted

  datatype Entry = Entry(
    tempPath: Path, finalPath: Path, oldPath: Path,
    backupPath: Path, hadOriginal: bool, oldBackupPath: Path,
    disposition: Disposition)

  datatype HandleState = Staged | Committed | Discarded | Failed

  /** `committed` of `total` files had been committed when the commit failed. */
  datatype ApplyError =
    | InvalidState
    | BackupFailed
    | PartialRollback(committed: nat, total: nat)
    | RenameFailed(committed: nat, total: nat)
    | CleanupFailed

  // ---------------------------------------------------------------- entries

  /** An entry as Stage leaves it: nothing is backed up yet. */
  ghost predicate Fresh(e: Entry) {
    && e.backupPath == NoPath && e.oldBackupPath == NoPath && !e.hadOriginal
    && !e.finalPath.Temp? && !e.oldPath.Temp? && !e.tempPath.Named?
    && (e.disposition == Renamed <==> e.oldPath != NoPath)
    && (e.disposition == Deleted <==> e.oldPath == NoPath && e.tempPath == NoPath)
  }

  ghost function TempsOf(es: seq<Entry>): set<Path> {
    set e | e in es && e.tempPath != NoPath :: e.tempPath
  }

  /** What Stage promises Commit: fresh entries, each with a temp file of its own. */
  ghost predicate FreshBatch(es: seq<Entry>) {
    && (forall e :: e in es ==> Fresh(e))
    && (forall i, j :: 0 <= i < j < |es| && es[i].tempPath != NoPath ==> es[i].tempPath != es[j].tempPath)
  }

  /** `d` is `e` with only the backup bookkeeping filled in. */
  ghost predicate SameStaging(d: Entry, e: Entry) {
    d.tempPath == e.tempPath && d.finalPath == e.finalPath && d.oldPath == e.oldPath
  }

  // ------------------------------------------------- one entry, as trees

  /** The tree an entry intends: its content in place, its source gone. */
  ghost function Apply(e: Entry, t: Tree): Tree {
    if e.oldPath != NoPath then
      if e.tempPath != NoPath then Move(t - {e.oldPath}, e.tempPath, e.finalPath)
      else Move(t, e.oldPath, e.finalPath)
    else if e.tempPath == NoPath then t - {e.finalPath}
    else Move(t, e.tempPath, e.finalPath)
  }

  ghost function ApplyAll(es: seq<Entry>, t: Tree): Tree {
    if es == [] then t else Apply(es[|es| - 1], ApplyAll(es[..|es| - 1], t))
  }

  /** The tree right after a committed entry, its backups still in place. */
  ghost function Done(e: Entry, t: Tree): Tree {
    var kept := if e.hadOriginal then Move(t, e.finalPath, e.backupPath) else t;
    if e.oldPath != NoPath then
      if e.tempPath != NoPath then Move(Move(kept, e.oldPath, e.oldBackupPath), e.tempPath, e.finalPath)
      else Move(kept, e.oldPath, e.finalPath)
    else if e.tempPath == NoPath then kept
    else Move(kept, e.tempPath, e.finalPath)
  }

  /** A committed entry: every rename of its commit had a source to move. */
  ghost predicate CommittedFrom(e: Entry, t: Tree) {
    && !e.finalPath.Temp? && e.finalPath != NoPath && !e.oldPath.Temp? && !e.tempPath.Named?
    && (e.hadOriginal <==> e.backupPath != NoPath)
    && (e.hadOriginal ==> e.finalPath in t && e.backupPath.Temp? && e.backupPath !in t)
    && (e.tempPath != NoPath ==> e.tempPath in t && e.tempPath != e.backupPath)
    && (e.oldPath != NoPath ==>
          && e.disposition == Renamed
          && (if e.hadOriginal then e.oldPath in t && e.oldPath != e.finalPath else e.oldPath in t)
          && (e.oldBackupPath != NoPath <==> e.tempPath != NoPath)
          && (e.tempPath != NoPath ==>
                e.oldBackupPath.Temp? && e.oldBackupPath !in t && e.oldBackupPath != e.backupPath))
    && (e.oldPath == NoPath ==>
          && e.oldBackupPath == NoPath
          && if e.tempPath == NoPath then e.disposition == Deleted && e.hadOriginal
             else e.disposition == (if e.hadOriginal then Restore else CreateOrModify))
  }

  /** What rollback does for one committed entry. */
  function Undo(e: Entry, t: Tree): Tree {
    match e.disposition
    case Renamed =>
      if e.oldBackupPath != NoPath then
        var cleared := if e.hadOriginal then Move(t, e.backupPath, e.finalPath) else t - {e.finalPath};
        Move(cleared, e.oldBackupPath, e.oldPath)
      else if e.finalPath in t && e.oldPath != NoPath then
        var back := Move(t, e.finalPath, e.oldPath);
        if e.hadOriginal then Move(back, e.backupPath, e.finalPath) else back
      else t
    case Restore => Move(t, e.backupPath, e.finalPath)
    case CreateOrModify => t - {e.finalPath}
    case Deleted => Move(t, e.backupPath, e.finalPath)
  }

  /** No call of `Undo(e, t)` meets a missing file. */
  ghost predicate Undoable(e: Entry, t: Tree) {
    match e.disposition
    case Renamed =>
      && (e.oldBackupPath != NoPath ==> e.oldBackupPath in t)
      && (e.hadOriginal ==> e.backupPath in t)
      && (e.finalPath in t || (e.oldBackupPath != NoPath && e.hadOriginal))
    case Restore => e.backupPath in t
    case CreateOrModify => e.finalPath in t
    case Deleted => e.backupPath in t
  }

  /** Rollback's walk over the committed entries, last one first. */
  ghost function Unwind(es: seq<Entry>, t: Tree): Tree {
    if es == [] then t else Unwind(es[..|es| - 1], Undo(es[|es| - 1], t))
  }

  /** An entry's rollback case inverts its commit step exactly when Stat told the truth
      about the target; the consumed temp file is what stays gone. */
  lemma UndoInvertsDone(e: Entry, t: Tree)
    requires CommittedFrom(e, t) && NoPath !in t
    ensures Undo(e, Done(e, t)) == t - {e.tempPath}
       <==> e.oldPath == e.finalPath || e.hadOriginal == (e.finalPath in t)
    ensures Undoable(e, Done(e, t))
  {
    var d := Done(e, t);
    var u := Undo(e, d);
    if e.oldPath == e.finalPath || e.hadOriginal == (e.finalPath in t) {
      forall p ensures (p in u <==> p in t - {e.tempPath}) && (p in u ==> u[p] == t[p]) {
      }
    } else {
      assert e.finalPath !in u;
      assert e.finalPath in t - {e.tempPath};
    }
  }

  /** A target that Stat did not see is overwritten without a backup, and undoing that removes it. */
  lemma UnseenTargetIsLost()
    ensures var e := Entry(Temp(0), Named("f"), NoPath, NoPath, false, NoPath, CreateOrModify);
      var t: Tree := map[Named("f") := "old", Temp(0) := "new"];
      && CommittedFrom(e, t) && Done(e, t) == map[Named("f") := "new"] && Undo(e, Done(e, t)) == map[]
  {
  }

  /** Minus its backups, the tree after an entry is the tree the entry intends. */
  lemma DoneIsApply(e: Entry, t: Tree)
    requires CommittedFrom(e, t) && NoPath !in t
    ensures Done(e, t) - {e.backupPath, e.oldBackupPath} == Apply(e, t)
  {
    var d := Done(e, t) - {e.backupPath, e.oldBackupPath};
    var a := Apply(e, t);
    forall p ensures (p in d <==> p in a) && (p in d ==> d[p] == a[p]) {
    }
  }

  // ---------------------------------------------- frames: what a step ignores

  ghost function Backups(e: Entry): set<Path> {
    {e.backupPath, e.oldBackupPath}
  }

  ghost function BackupsOf(es: seq<Entry>): set<Path> {
    set e, p | e in es && p in Backups(e) :: p
  }

  lemma MoveIgnores(t: Tree, src: Path, dst: Path, away: set<Path>)
    requires src !in away && dst !in away
    ensures Move(t - away, src, dst) == Move(t, src, dst) - away
  {
  }

  lemma UndoIgnores(e: Entry, t: Tree, away: set<Path>)
    requires away !! {e.finalPath, e.oldPath, e.backupPath, e.oldBackupPath}
    ensures Undo(e, t - away) == Undo(e, t) - away
    ensures Undoable(e, t - away) == Undoable(e, t)
  {
    assert (t - away) - {e.finalPath} == (t - {e.finalPath}) - away;
    MoveIgnores(t, e.backupPath, e.finalPath, away);
    MoveIgnores(t - {e.finalPath}, e.oldBackupPath, e.oldPath, away);
    MoveIgnores(Move(t, e.backupPath, e.finalPath), e.oldBackupPath, e.oldPath, away);
    MoveIgnores(t, e.finalPath, e.oldPath, away);
    MoveIgnores(Move(t, e.finalPath, e.oldPath), e.backupPath, e.finalPath, away);
  }

  lemma ApplyIgnores(e: Entry, t: Tree, away: set<Path>)
    requires away !! {e.finalPath, e.oldPath, e.tempPath}
    ensures Apply(e, t - away) == Apply(e, t) - away
  {
    assert (t - away) - {e.oldPath} == (t - {e.oldPath}) - away;
    assert (t - away) - {e.finalPath} == (t - {e.finalPath}) - away;
    MoveIgnores(t - {e.oldPath}, e.tempPath, e.finalPath, away);
    MoveIgnores(t, e.oldPath, e.finalPath, away);
    MoveIgnores(t, e.tempPath, e.finalPath, away);
  }

  /** Rollback's walk reaches `base` from `t`, up to the temp files in `away`. */
  ghost predicate UnwindsTo(es: seq<Entry>, t: Tree, base: Tree, away: set<Path>)
  {
    if es == [] then t - away == base - away
    else
      var last := es[|es| - 1];
      && away !! {last.finalPath, last.oldPath, last.backupPath, last.oldBackupPath}
      && Undoable(last, t)
      && UnwindsTo(es[..|es| - 1], Undo(last, t), base, away)
  }

  /** Temp files left in `t` do not matter to the walk. */
  lemma {:induction false} UnwindsToIgnores(es: seq<Entry>, t: Tree, t': Tree, base: Tree, away: set<Path>)
    requires t - away == t' - away
    ensures UnwindsTo(es, t, base, away) == UnwindsTo(es, t', base, away)
  {
    if es != [] {
      var last := es[|es| - 1];
      if away !! {last.finalPath, last.oldPath, last.backupPath, last.oldBackupPath} {
        UndoIgnores(last, t, away);
        UndoIgnores(last, t', away);
        UnwindsToIgnores(es[..|es| - 1], Undo(last, t), Undo(last, t'), base, away);
      }
    }
  }

  /** Committing one more entry keeps the walk back to `base` intact. */
  lemma UnwindsToExtends(es: seq<Entry>, e: Entry, t: Tree, base: Tree, away: set<Path>)
    requires UnwindsTo(es, t, base, away)
    requires CommittedFrom(e, t) && NoPath !in t
    requires e.oldPath == e.finalPath || e.hadOriginal == (e.finalPath in t)
    requires e.tempPath in away || e.tempPath == NoPath
    requires away !! {e.finalPath, e.oldPath, e.backupPath, e.oldBackupPath}
    ensures UnwindsTo(es + [e], Done(e, t), base, away)
  {
    UndoInvertsDone(e, t);
    assert (es + [e])[..|es|] == es;
    assert (t - {e.tempPath}) - away == t - away;
    UnwindsToIgnores(es, t, t - {e.tempPath}, base, away);
  }

  // ------------------------------------------------------------ the methods

  /** The path fields a commit can produce. */
  ghost predicate Shape(e: Entry) {
    && !e.finalPath.Temp? && !e.oldPath.Temp? && !e.backupPath.Named? && !e.oldBackupPath.Named?
    && e.finalPath != NoPath
    && (e.hadOriginal <==> e.backupPath != NoPath)
    && (e.oldBackupPath != NoPath ==> e.oldBackupPath != e.backupPath)
    && (e.disposition == Renamed ==> e.oldPath != NoPath)
  }

  method UndoEntry(fs: FileSystem, p: Entry) returns (ok: bool)
    requires fs.Valid() && Shape(p)
    modifies fs`files
    ensures fs.Valid()
    ensures fs.files == Undo(p, old(fs.files))
    ensures ok <==> Undoable(p, old(fs.files))
  {
    match p.disposition {
      case Renamed =>
        if p.oldBackupPath != NoPath {
          var cleared;
          if p.hadOriginal {
            cleared := fs.RenameBack(p.backupPath, p.finalPath);
          } else {
            cleared := fs.Remove(p.finalPath);
          }
          ok := fs.RenameBack(p.oldBackupPath, p.oldPath);
          ok := ok && cleared;
        } else {
          ok := fs.RenameBack(p.finalPath, p.oldPath);
          if ok && p.hadOriginal {
            ok := fs.RenameBack(p.backupPath, p.finalPath);
          }
        }
      case Restore =>
        ok := fs.RenameBack(p.backupPath, p.finalPath);
      case CreateOrModify =>
        ok := fs.Remove(p.finalPath);
      case Deleted =>
        ok := fs.RenameBack(p.backupPath, p.finalPath);
    }
  }

  ghost predicate Unwindable(es: seq<Entry>, t: Tree) {
    es == [] || (Undoable(es[|es| - 1], t) && Unwindable(es[..|es| - 1], Undo(es[|es| - 1], t)))
  }

  /** No call of a rollback meets a missing file. */
  ghost predicate NothingMissing(committed: seq<Entry>, pending: seq<Entry>, t: Tree) {
    Unwindable(committed, t) && TempsOf(pending) <= Unwind(committed, t).Keys
  }

  method Rollback(fs: FileSystem, committed: seq<Entry>, pending: seq<Entry>) returns (clean: bool)
    requires fs.Valid()
    requires forall e :: e in committed ==> Shape(e)
    requires forall i, j :: 0 <= i < j < |pending| && pending[i].tempPath != NoPath
                        ==> pending[i].tempPath != pending[j].tempPath
    modifies fs`files
    ensures fs.Valid()
    ensures fs.files == Unwind(committed, old(fs.files)) - TempsOf(pending)
    ensures clean <==> NothingMissing(committed, pending, old(fs.files))
  {
    clean := true;
    var i := |committed|;
    assert committed[..i] == committed;
    while i > 0
      invariant 0 <= i <= |committed| && fs.Valid()
      invariant Unwind(committed[..i], fs.files) == Unwind(committed, old(fs.files))
      invariant Unwindable(committed, old(fs.files)) <==> clean && Unwindable(committed[..i], fs.files)
    {
      i := i - 1;
      assert committed[..i + 1][..i] == committed[..i];
      var ok := UndoEntry(fs, committed[i]);
      clean := clean && ok;
    }
    ghost var unwound := fs.files;
    for k := 0 to |pending|
      invariant fs.Valid()
      invariant fs.files == unwound - TempsOf(pending[..k])
      invariant clean <==> Unwindable(committed, old(fs.files)) && TempsOf(pending[..k]) <= unwound.Keys
    {
      assert pending[..k + 1] == pending[..k] + [pending[k]];
      assert TempsOf(pending[..k + 1]) == TempsOf(pending[..k])
        + if pending[k].tempPath != NoPath then {pending[k].tempPath} else {};
      if pending[k].tempPath != NoPath {
        var ok := fs.Remove(pending[k].tempPath);
        clean := clean && ok;
      }
    }
    assert pending[..|pending|] == pending;
  }

  /** A commit of an edit of "f" and a deletion of "g" that failed on the second: rollback puts
      back the tree before the patch, but misses the temp file that the edit has used up, and is
      not clean. */
  lemma RestoredButNotClean()
    ensures var edit := Entry(Temp(0), Named("f"), NoPath, NoPath, false, NoPath, CreateOrModify);
      var delete := Entry(NoPath, Named("g"), NoPath, NoPath, false, NoPath, Deleted);
      var done := edit.(backupPath := Temp(1), hadOriginal := true, disposition := Restore);
      var base: Tree := map[Named("f") := "old", Named("g") := "too"];
      var staged := base[Temp(0) := "new"];
      var t := Done(done, staged);
      && FreshBatch([edit, delete]) && CommittedFrom(done, staged)
      && Unwind([done], t) - TempsOf([edit, delete]) == base && !NothingMissing([done], [edit, delete], t)
  {
    var edit := Entry(Temp(0), Named("f"), NoPath, NoPath, false, NoPath, CreateOrModify);
    var delete := Entry(NoPath, Named("g"), NoPath, NoPath, false, NoPath, Deleted);
    var done := edit.(backupPath := Temp(1), hadOriginal := true, disposition := Restore);
    var staged: Tree := map[Named("f") := "old", Named("g") := "too", Temp(0) := "new"];
    assert edit in [edit, delete] && TempsOf([edit, delete]) == {Temp(0)};
    assert [done][..0] == [] && Unwind([done], Done(done, staged)) == Undo(done, Done(done, staged));
    UndoInvertsDone(done, staged);
  }

  /** selfRepairFinalPath, as a tree. */
  ghost function SelfRepaired(e: Entry, t: Tree): Tree {
    if !e.hadOriginal || e.backupPath == NoPath then t else Move(t, e.backupPath, e.finalPath)
  }

  datatype StepResult = Moved | NoBackup | NoMove

  /** Moves a file aside under a fresh backup name. */
  method BackUp(fs: FileSystem, path: Path) returns (backup: Path)
    requires fs.Valid() && !path.Temp?
    modifies fs`files, fs`nextTemp, fs`faults
    ensures fs.Valid() && old(fs.nextTemp) <= fs.nextTemp && old(fs.faults) <= fs.faults
    ensures backup == NoPath ==> path !in old(fs.files) || old(fs.faults) < fs.faults
    ensures backup != NoPath ==>
              backup.Temp? && old(fs.nextTemp) <= backup.id < fs.nextTemp
              && path in old(fs.files) && fs.files == Move(old(fs.files), path, backup)
    ensures backup == NoPath ==> fs.files == old(fs.files)
  {
    backup := NoPath;
    var made := fs.CreateTemp();
    if made.Some? {
      var moved := fs.Rename(path, made.value);
      if moved {
        backup := made.value;
      } else {
        var _ := fs.Remove(made.value);
      }
    }
  }

  ghost predicate BackupsBetween(e: Entry, lo: nat, hi: nat) {
    forall p :: p in Backups(e) ==> p == NoPath || (p.Temp? && lo <= p.id < hi)
  }

  /** A finished step: `q` is `p` with its backups, made under new names. */
  ghost predicate StepDone(p: Entry, q: Entry, before: Tree, after: Tree, lo: nat, hi: nat, honest: bool) {
    && SameStaging(q, p) && BackupsBetween(q, lo, hi) && Shape(q)
    && CommittedFrom(q, before) && after == Done(q, before)
    && (honest ==> q.oldPath == q.finalPath || q.hadOriginal == (q.finalPath in before))
  }

  /** An entry finds nothing to move on this tree, or nowhere to move it. */
  ghost predicate Blocked(e: Entry, t: Tree) {
    || e.finalPath == NoPath
    || (e.oldPath != NoPath && (e.oldPath !in t || e.oldPath == e.finalPath))
    || (e.oldPath == NoPath && e.tempPath == NoPath && e.finalPath !in t)
  }

  /** What a step comes to when no call fails for want of more than the tree has. */
  ghost predicate AsBlocked(e: Entry, t: Tree, r: StepResult) {
    && (r.Moved? <==> !Blocked(e, t))
    && (r.NoBackup? <==> e.oldPath != NoPath && e.tempPath != NoPath && (e.oldPath !in t || e.oldPath == e.finalPath))
  }

  /** A failed step: selfRepairFinalPath alone puts the tree back. */
  ghost predicate StepFailed(q: Entry, before: Tree, after: Tree) {
    && !q.finalPath.Temp?
    && SelfRepaired(q, after) == before
  }

  /** The edited copy takes the target's place once the source is moved aside. */
  method ReplaceSource(fs: FileSystem, p: Entry) returns (oldBackup: Path, r: StepResult)
    requires fs.Valid() && Fresh(p) && p.oldPath != NoPath && p.tempPath in fs.files && p.tempPath != NoPath
    modifies fs`files, fs`nextTemp, fs`faults
    ensures fs.Valid() && old(fs.nextTemp) <= fs.nextTemp && old(fs.faults) <= fs.faults
    ensures !r.Moved? ==> fs.files == old(fs.files)
    ensures r.Moved? ==>
              && oldBackup.Temp? && old(fs.nextTemp) <= oldBackup.id < fs.nextTemp
              && p.oldPath in old(fs.files) && p.finalPath != NoPath
              && fs.files == Move(Move(old(fs.files), p.oldPath, oldBackup), p.tempPath, p.finalPath)
    ensures fs.faults == old(fs.faults) ==>
              && (r.Moved? <==> p.oldPath in old(fs.files) && p.finalPath != NoPath)
              && (r.NoBackup? <==> p.oldPath !in old(fs.files))
  {
    oldBackup := BackUp(fs, p.oldPath);
    if oldBackup == NoPath {
      return oldBackup, NoBackup;
    }
    var ok := fs.Rename(p.tempPath, p.finalPath);
    if !ok {
      var _ := fs.RenameBack(oldBackup, p.oldPath);
      assert fs.files == old(fs.files);
    }
    r := if ok then Moved else NoMove;
  }

  method CommitRename(fs: FileSystem, p: Entry) returns (q: Entry, r: StepResult)
    requires fs.Valid() && Fresh(p) && p.oldPath != NoPath
    requires p.tempPath != NoPath ==> p.tempPath in fs.files
    modifies fs
    ensures fs.Valid() && old(fs.nextTemp) <= fs.nextTemp
    ensures old(fs.misreads) <= fs.misreads && old(fs.faults) <= fs.faults
    ensures fs.misreads == old(fs.misreads) && fs.faults == old(fs.faults) ==> AsBlocked(p, old(fs.files), r)
    ensures if r.Moved? then StepDone(p, q, old(fs.files), fs.files, old(fs.nextTemp), fs.nextTemp,
                                      fs.misreads == old(fs.misreads))
            else StepFailed(q, old(fs.files), fs.files)
  {
    q := p;
    var found := fs.Stat(p.finalPath);
    if found {
      var backup := BackUp(fs, p.finalPath);
      if backup == NoPath {
        return q, NoBackup;
      }
      q := q.(backupPath := backup, hadOriginal := true);
    }
    ghost var kept := fs.files;
    assert SelfRepaired(q, kept) == old(fs.files);
    if p.tempPath != NoPath {
      var oldBackup;
      oldBackup, r := ReplaceSource(fs, p);
      if r.Moved? {
        q := q.(oldBackupPath := oldBackup);
      }
    } else {
      var ok := fs.Rename(p.oldPath, p.finalPath);
      r := if ok then Moved else NoMove;
    }
  }

  method CommitDelete(fs: FileSystem, p: Entry) returns (q: Entry, r: StepResult)
    requires fs.Valid() && Fresh(p) && p.disposition == Deleted
    modifies fs
    ensures fs.Valid() && old(fs.nextTemp) <= fs.nextTemp
    ensures old(fs.misreads) <= fs.misreads && old(fs.faults) <= fs.faults
    ensures fs.misreads == old(fs.misreads) && fs.faults == old(fs.faults) ==> AsBlocked(p, old(fs.files), r)
    ensures if r.Moved? then StepDone(p, q, old(fs.files), fs.files, old(fs.nextTemp), fs.nextTemp,
                                      fs.misreads == old(fs.misreads))
            else StepFailed(q, old(fs.files), fs.files)
  {
    q := p;
    var made := fs.CreateTemp();
    if made.None? {
      return q, NoBackup;
    }
    var ok := fs.Rename(p.finalPath, made.value);
    if ok {
      q := q.(backupPath := made.value, hadOriginal := true);
    } else {
      var _ := fs.Remove(made.value);
    }
    r := if ok then Moved else NoMove;
  }

  method CommitContent(fs: FileSystem, p: Entry) returns (q: Entry, r: StepResult)
    requires fs.Valid() && Fresh(p) && p.oldPath == NoPath && p.tempPath != NoPath
    requires p.tempPath in fs.files
    modifies fs
    ensures fs.Valid() && old(fs.nextTemp) <= fs.nextTemp
    ensures old(fs.misreads) <= fs.misreads && old(fs.faults) <= fs.faults
    ensures fs.misreads == old(fs.misreads) && fs.faults == old(fs.faults) ==> AsBlocked(p, old(fs.files), r)
    ensures if r.Moved? then StepDone(p, q, old(fs.files), fs.files, old(fs.nextTemp), fs.nextTemp,
                                      fs.misreads == old(fs.misreads))
            else StepFailed(q, old(fs.files), fs.files)
  {
    q := p;
    var found := fs.Stat(p.finalPath);
    if found {
      var backup := BackUp(fs, p.finalPath);
      if backup == NoPath {
        return q, NoBackup;
      }
      q := q.(backupPath := backup, hadOriginal := true, disposition := Restore);
    } else {
      q := q.(disposition := CreateOrModify);
    }
    var ok := fs.Rename(p.tempPath, p.finalPath);
    r := if ok then Moved else NoMove;
  }

  /** The body of Commit's loop: the switch, then the repair of a failed entry. */
  method CommitEntry(fs: FileSystem, p: Entry) returns (q: Entry, r: StepResult)
    requires fs.Valid() && Fresh(p)
    requires p.tempPath != NoPath ==> p.tempPath in fs.files
    modifies fs
    ensures fs.Valid() && old(fs.nextTemp) <= fs.nextTemp
    ensures old(fs.misreads) <= fs.misreads && old(fs.faults) <= fs.faults
    ensures fs.misreads == old(fs.misreads) && fs.faults == old(fs.faults) ==> AsBlocked(p, old(fs.files), r)
    ensures r.Moved? ==> StepDone(p, q, old(fs.files), fs.files, old(fs.nextTemp), fs.nextTemp,
                                  fs.misreads == old(fs.misreads))
    ensures !r.Moved? ==> fs.files == old(fs.files)
  {
    if p.oldPath != NoPath {
      q, r := CommitRename(fs, p);
    } else if p.tempPath == NoPath {
      q, r := CommitDelete(fs, p);
    } else {
      q, r := CommitContent(fs, p);
    }
    if !r.Moved? && q.hadOriginal && q.backupPath != NoPath {
      var _ := fs.RenameBack(q.backupPath, q.finalPath);
    }
  }

  // ------------------------------------- what the loop of Commit relies on

  lemma {:induction false} UnwindsToMeans(es: seq<Entry>, t: Tree, base: Tree, away: set<Path>)
    requires UnwindsTo(es, t, base, away)
    ensures Unwind(es, t) - away == base - away && Unwindable(es, t)
  {
    if es != [] {
      UnwindsToMeans(es[..|es| - 1], Undo(es[|es| - 1], t), base, away);
    }
  }

  /** Rollback never touches the staged temp files. */
  lemma {:induction false} UnwindKeeps(es: seq<Entry>, t: Tree, away: set<Path>)
    requires forall e :: e in es ==> away !! {e.finalPath, e.oldPath, e.backupPath, e.oldBackupPath}
    ensures forall p :: p in away ==> (p in Unwind(es, t) <==> p in t)
  {
    if es != [] {
      UnwindKeeps(es[..|es| - 1], Undo(es[|es| - 1], t), away);
    }
  }

  /** With its backups set aside, the committed prefix is the intended prefix. */
  lemma ApplyAllExtends(todo: seq<Entry>, committed: seq<Entry>, q: Entry, t: Tree, base: Tree)
    requires |committed| < |todo| && SameStaging(q, todo[|committed|])
    requires CommittedFrom(q, t) && NoPath !in t
    requires t - BackupsOf(committed) == ApplyAll(todo[..|committed|], base)
    requires BackupsOf(committed) - {NoPath} !! {q.finalPath, q.oldPath, q.tempPath}
    ensures Done(q, t) - BackupsOf(committed + [q]) == ApplyAll(todo[..|committed| + 1], base)
  {
    var i := |committed|;
    var away := BackupsOf(committed) - {NoPath};
    assert todo[..i + 1][..i] == todo[..i];
    assert t - BackupsOf(committed) == t - away;
    ApplyIgnores(q, t, away);
    DoneIsApply(q, t);
    assert BackupsOf(committed + [q]) == BackupsOf(committed) + Backups(q);
    assert NoPath !in Done(q, t);
    assert Done(q, t) - BackupsOf(committed + [q]) == (Done(q, t) - Backups(q)) - away;
  }

  /** Commit after `|committed|` of `todo` entries: the walk back leads to `base`, the tree
      without backups is the intended one, and the remaining temp files are in place. */
  ghost predicate Midway(todo: seq<Entry>, committed: seq<Entry>, t: Tree, base: Tree, lo: nat, hi: nat, honest: bool) {
    && |committed| <= |todo|
    && (forall j :: 0 <= j < |committed| ==>
          SameStaging(committed[j], todo[j]) && Shape(committed[j]) && BackupsBetween(committed[j], lo, hi))
    && (honest ==> UnwindsTo(committed, t, base, TempsOf(todo)))
    && t - BackupsOf(committed) == ApplyAll(todo[..|committed|], base)
    && (forall j :: 0 <= j < |todo| && todo[j].tempPath != NoPath ==>
          (todo[j].tempPath in t <==> |committed| <= j))
  }

  /** Staged entries whose temp names are all older than `lo`. */
  ghost predicate StagedBelow(todo: seq<Entry>, lo: nat) {
    FreshBatch(todo) && forall p :: p in TempsOf(todo) ==> p.Temp? && p.id < lo
  }

  lemma BackupsAreApart(todo: seq<Entry>, committed: seq<Entry>, q: Entry, lo: nat, mid: nat)
    requires StagedBelow(todo, lo) && |committed| < |todo| && SameStaging(q, todo[|committed|])
    requires forall j :: 0 <= j < |committed| ==> BackupsBetween(committed[j], lo, mid)
    ensures BackupsOf(committed) - {NoPath} !! {q.finalPath, q.oldPath, q.tempPath}
  {
    assert todo[|committed|] in todo && Fresh(todo[|committed|]);
    assert q.tempPath != NoPath ==> q.tempPath in TempsOf(todo);
    forall p | p in BackupsOf(committed) - {NoPath} ensures p.Temp? && lo <= p.id < mid {
    }
  }

  lemma MidwayExtends(todo: seq<Entry>, committed: seq<Entry>, q: Entry, before: Tree, after: Tree,
                      base: Tree, lo: nat, mid: nat, hi: nat, honest: bool, honest': bool)
    requires Midway(todo, committed, before, base, lo, mid, honest) && StagedBelow(todo, lo)
    requires |committed| < |todo| && lo <= mid <= hi && NoPath !in before
    requires StepDone(todo[|committed|], q, before, after, mid, hi, honest')
    ensures Midway(todo, committed + [q], after, base, lo, hi, honest && honest')
  {
    BackupsAreApart(todo, committed, q, lo, mid);
    ApplyAllExtends(todo, committed, q, before, base);
    if honest && honest' {
      UnwindsMore(todo, committed, q, before, base, lo, mid, hi);
    }
    forall j | 0 <= j < |todo| && todo[j].tempPath != NoPath
      ensures todo[j].tempPath in after <==> |committed| + 1 <= j
    {
      TempLeft(todo, |committed|, q, before, j, lo, mid, hi);
    }
  }

  lemma UnwindsMore(todo: seq<Entry>, committed: seq<Entry>, q: Entry, before: Tree, base: Tree,
                    lo: nat, mid: nat, hi: nat)
    requires Midway(todo, committed, before, base, lo, mid, true) && StagedBelow(todo, lo)
    requires |committed| < |todo| && lo <= mid <= hi && NoPath !in before
    requires StepDone(todo[|committed|], q, before, Done(q, before), mid, hi, true)
    ensures UnwindsTo(committed + [q], Done(q, before), base, TempsOf(todo))
  {
    BackupsAreApart(todo, committed, q, lo, mid);
    assert todo[|committed|] in todo && Fresh(todo[|committed|]);
    assert q.tempPath != NoPath ==> q.tempPath in TempsOf(todo);
    UnwindsToExtends(committed, q, before, base, TempsOf(todo));
  }

  lemma TempLeft(todo: seq<Entry>, i: nat, q: Entry, before: Tree, j: nat, lo: nat, mid: nat, hi: nat)
    requires StagedBelow(todo, lo) && i < |todo| && j < |todo| && todo[j].tempPath != NoPath && lo <= mid
    requires CommittedFrom(q, before) && q.tempPath == todo[i].tempPath && BackupsBetween(q, mid, hi)
    requires todo[j].tempPath in before <==> i <= j
    ensures todo[j].tempPath in Done(q, before) <==> i + 1 <= j
  {
    assert todo[j].tempPath in TempsOf(todo);
    DoneConsumes(q, before, todo[j].tempPath);
  }

  lemma BatchBelow(fs: FileSystem, todo: seq<Entry>)
    requires fs.Valid() && FreshBatch(todo) && TempsOf(todo) <= fs.files.Keys
    ensures StagedBelow(todo, fs.nextTemp)
    ensures Midway(todo, [], fs.files, fs.files, fs.nextTemp, fs.nextTemp, true)
  {
  }

  lemma DoneConsumes(e: Entry, t: Tree, p: Path)
    requires CommittedFrom(e, t) && p.Temp? && p !in Backups(e)
    ensures p in Done(e, t) <==> p in t && p != e.tempPath
  {
  }

  // ------------------------------------------- when a commit goes through

  /** Each entry finds on the tree that those before it leave what it needs. */
  ghost predicate NoneBlocked(es: seq<Entry>, base: Tree) {
    es == []
    || (NoneBlocked(es[..|es| - 1], base) && !Blocked(es[|es| - 1], ApplyAll(es[..|es| - 1], base)))
  }

  /** Entry i is the first that does not, and `err` is the error for it. */
  ghost predicate StopsAt(es: seq<Entry>, i: nat, base: Tree, err: ApplyError)
    requires i < |es|
  {
    && NoneBlocked(es[..i], base) && Blocked(es[i], ApplyAll(es[..i], base))
    && (err.BackupFailed? <==>
          var e := es[i];
          e.oldPath != NoPath && e.tempPath != NoPath
          && (e.oldPath !in ApplyAll(es[..i], base) || e.oldPath == e.finalPath))
    && (err.RenameFailed? || err.PartialRollback? ==> err.committed == i && err.total == |es|)
  }

  lemma {:induction false} NoneBlockedAt(es: seq<Entry>, i: nat, base: Tree)
    requires i < |es| && NoneBlocked(es, base)
    ensures !Blocked(es[i], ApplyAll(es[..i], base))
  {
    if i < |es| - 1 {
      NoneBlockedAt(es[..|es| - 1], i, base);
      assert es[..|es| - 1][..i] == es[..i];
    }
  }

  lemma NoneBlockedMore(todo: seq<Entry>, i: nat, base: Tree)
    requires i < |todo| && NoneBlocked(todo[..i], base) && !Blocked(todo[i], ApplyAll(todo[..i], base))
    ensures NoneBlocked(todo[..i + 1], base)
  {
    assert todo[..i + 1][..i] == todo[..i];
  }

  /** Backups made on the way do not matter. */
  lemma BlockedAlike(todo: seq<Entry>, committed: seq<Entry>, t: Tree, base: Tree, lo: nat, hi: nat, honest: bool,
                     r: StepResult)
    requires Midway(todo, committed, t, base, lo, hi, honest) && |committed| < |todo| && Fresh(todo[|committed|])
    ensures AsBlocked(todo[|committed|], t, r)
         == AsBlocked(todo[|committed|], ApplyAll(todo[..|committed|], base), r)
  {
    forall p | p in BackupsOf(committed) ensures p == NoPath || p.Temp? {
    }
    var e := todo[|committed|];
    assert e.oldPath != NoPath ==> (e.oldPath in t <==> e.oldPath in t - BackupsOf(committed));
    assert e.finalPath != NoPath ==> (e.finalPath in t <==> e.finalPath in t - BackupsOf(committed));
  }

  /** The failure exits of Commit, once the failing entry has repaired itself. */
  method Abandon(fs: FileSystem, committed: seq<Entry>, todo: seq<Entry>, r: StepResult,
                 ghost base: Tree, ghost lo: nat, ghost honest: bool) returns (err: ApplyError)
    requires fs.Valid() && !r.Moved? && StagedBelow(todo, lo) && |committed| < |todo|
    requires Midway(todo, committed, fs.files, base, lo, fs.nextTemp, honest)
    modifies fs`files
    ensures fs.Valid()
    ensures honest ==> fs.files == base - TempsOf(todo)
    ensures r.NoBackup? <==> err.BackupFailed?
    ensures r.NoMove? ==> err.RenameFailed? || err.PartialRollback?
    ensures err.RenameFailed? ==> err.committed == |committed| && TempsOf(todo[..|committed|]) == {}
    ensures err.PartialRollback? ==> err.committed == |committed|
    ensures err.RenameFailed? || err.PartialRollback? ==> err.total == |todo|
    ensures err.PartialRollback? && honest ==> TempsOf(todo[..|committed|]) != {}
  {
    ghost var before := fs.files;
    ghost var temps := TempsOf(todo);
    forall e | e in committed ensures temps !! {e.finalPath, e.oldPath, e.backupPath, e.oldBackupPath} {
      assert e.backupPath in Backups(e) && e.oldBackupPath in Backups(e);
    }
    UnwindKeeps(committed, before, temps);
    if honest {
      UnwindsToMeans(committed, before, base, temps);
    }
    forall p | p in TempsOf(todo[..|committed|]) ensures p in temps && p !in before {
    }
    forall p | p in temps && p !in before ensures p in TempsOf(todo[..|committed|]) {
      var e :| e in todo && e.tempPath != NoPath && p == e.tempPath;
      var j :| 0 <= j < |todo| && todo[j] == e;
      assert todo[..|committed|][j] == e;
    }
    var clean := Rollback(fs, committed, todo);
    if r.NoBackup? {
      err := BackupFailed;
    } else if !clean {
      err := PartialRollback(|committed|, |todo|);
    } else {
      err := RenameFailed(|committed|, |todo|);
    }
  }

  method DropBackups(fs: FileSystem, committed: seq<Entry>)
    requires fs.Valid()
    modifies fs`files
    ensures fs.Valid() && fs.files == old(fs.files) - BackupsOf(committed)
  {
    for k := 0 to |committed|
      invariant fs.Valid()
      invariant fs.files == old(fs.files) - BackupsOf(committed[..k])
    {
      assert committed[..k + 1] == committed[..k] + [committed[k]];
      assert BackupsOf(committed[..k + 1]) == BackupsOf(committed[..k]) + Backups(committed[k]);
      if committed[k].backupPath != NoPath {
        var _ := fs.Remove(committed[k].backupPath);
      }
      if committed[k].oldBackupPath != NoPath {
        var _ := fs.Remove(committed[k].oldBackupPath);
      }
    }
    assert committed[..|committed|] == committed;
  }

  /** Commit's loop over a batch of entries. */
  method CommitAll(fs: FileSystem, todo: seq<Entry>) returns (err: Option<ApplyError>)
    requires fs.Valid() && FreshBatch(todo) && TempsOf(todo) <= fs.files.Keys
    modifies fs
    ensures fs.Valid() && old(fs.misreads) <= fs.misreads && old(fs.faults) <= fs.faults
    ensures fs.misreads == old(fs.misreads) && fs.faults == old(fs.faults) ==>
              if err.None? then NoneBlocked(todo, old(fs.files))
              else exists i :: 0 <= i < |todo| && StopsAt(todo, i, old(fs.files), err.value)
    ensures err.None? ==> fs.files == ApplyAll(todo, old(fs.files))
    ensures err.None? ==> forall e :: e in todo ==> e.finalPath != NoPath
    ensures err.Some? && fs.misreads == old(fs.misreads) ==> fs.files == old(fs.files) - TempsOf(todo)
    ensures err.Some? ==> !err.value.InvalidState? && !err.value.CleanupFailed?
    ensures err.Some? && err.value.RenameFailed? ==>
              err.value.committed < |todo| && TempsOf(todo[..err.value.committed]) == {}
    ensures err.Some? && err.value.PartialRollback? && fs.misreads == old(fs.misreads) ==>
              err.value.committed < |todo| && TempsOf(todo[..err.value.committed]) != {}
  {
    ghost var base, lo, trusted, faults := fs.files, fs.nextTemp, fs.misreads, fs.faults;
    var committed: seq<Entry> := [];
    BatchBelow(fs, todo);
    for i := 0 to |todo|
      invariant fs.Valid() && |committed| == i
      invariant lo <= fs.nextTemp && trusted <= fs.misreads && faults <= fs.faults
      invariant fs.misreads == trusted && fs.faults == faults ==> NoneBlocked(todo[..i], base)
      invariant Midway(todo, committed, fs.files, base, lo, fs.nextTemp, fs.misreads == trusted)
    {
      ghost var before, mid, misreads := fs.files, fs.nextTemp, fs.misreads;
      assert todo[i] in todo;
      var q, r := CommitEntry(fs, todo[i]);
      BlockedAlike(todo, committed, before, base, lo, mid, misreads == trusted, r);
      if !r.Moved? {
        var e := Abandon(fs, committed, todo, r, base, lo, misreads == trusted);
        assert fs.misreads == trusted && fs.faults == faults ==> StopsAt(todo, i, base, e);
        return Some(e);
      }
      if fs.misreads == trusted && fs.faults == faults {
        NoneBlockedMore(todo, i, base);
      }
      MidwayExtends(todo, committed, q, before, fs.files, base, lo, mid, fs.nextTemp,
                    misreads == trusted, fs.misreads == misreads);
      committed := committed + [q];
    }
    assert todo[..|todo|] == todo;
    DropBackups(fs, committed);
    err := None;
  }

  /** Discard and Commit consume the handle; `state` says which one did. */
  class StageHandle {
    var pending: seq<Entry>
    var moves: seq<(nat, Hunks.HunkMove)>
    var state: HandleState

    constructor (pending: seq<Entry>, moves: seq<(nat, Hunks.HunkMove)>)
      ensures this.pending == pending && this.moves == moves && state == Staged
    {
      this.pending := pending;
      this.moves := moves;
      this.state := Staged;
    }

    /** The staged temp files exist, one per entry that has content. */
    ghost predicate Ready(fs: FileSystem)
      reads this, fs
    {
      fs.Valid() && (state == Staged ==> FreshBatch(pending) && TempsOf(pending) <= fs.files.Keys)
    }

    /** All or nothing: either every entry's effect in order and nothing else, or the tree
        as it was before the temp files were staged.  "Rolled back cleanly" is reported
        exactly when no entry committed so far had a temp file.  Without faults, the commit goes
        through exactly when no entry is blocked by those before it, and else stops at the first. */
    method Commit(fs: FileSystem) returns (err: Option<ApplyError>)
      requires Ready(fs)
      modifies this`pending, this`state, fs
      ensures Ready(fs) && old(fs.misreads) <= fs.misreads && old(fs.faults) <= fs.faults
      ensures old(state) == Staged && fs.misreads == old(fs.misreads) && fs.faults == old(fs.faults) ==>
                if err.None? then NoneBlocked(old(pending), old(fs.files))
                else exists i :: 0 <= i < |old(pending)| && StopsAt(old(pending), i, old(fs.files), err.value)
      ensures old(state) != Staged ==>
                err == Some(InvalidState) && state == old(state) && pending == old(pending)
                && fs.files == old(fs.files)
      ensures old(state) == Staged ==> pending == [] && state == if err.None? then Committed else Failed
      ensures old(state) == Staged && err.None? ==>
                fs.files == ApplyAll(old(pending), old(fs.files))
                && forall e :: e in old(pending) ==> e.finalPath != NoPath
      ensures old(state) == Staged && err.Some? && fs.misreads == old(fs.misreads) ==>
                fs.files == old(fs.files) - TempsOf(old(pending))
      ensures err.Some? && err.value.RenameFailed? ==>
                err.value.committed < |old(pending)| && TempsOf(old(pending)[..err.value.committed]) == {}
      ensures err.Some? && err.value.PartialRollback? && fs.misreads == old(fs.misreads) ==>
                err.value.committed < |old(pending)| && TempsOf(old(pending)[..err.value.committed]) != {}
    {
      if state != Staged {
        return Some(InvalidState);
      }
      var todo := pending;
      pending := [];
      if |todo| == 0 {
        state := Committed;
        return None;
      }
      err := CommitAll(fs, todo);
      state := if err.None? then Committed else Failed;
    }

    /** Removes the staged temp files and nothing else. */
    method Discard(fs: FileSystem) returns (err: Option<ApplyError>)
      requires Ready(fs)
      modifies this`pending, this`state, fs`files
      ensures Ready(fs)
      ensures old(state) != Staged ==>
                err == Some(InvalidState) && state == old(state) && pending == old(pending)
                && fs.files == old(fs.files)
      ensures old(state) == Staged ==>
                err.None? && state == Discarded && pending == []
                && fs.files == old(fs.files) - TempsOf(old(pending))
    {
      if state != Staged {
        return Some(InvalidState);
      }
      var clean := Rollback(fs, [], pending);
      pending := [];
      state := Discarded;
      err := if clean then None else Some(CleanupFailed);
    }
  }
}
