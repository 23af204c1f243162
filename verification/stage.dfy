/** Phase 1 of patch application, and the two phases together. */
module Stage {
  import opened Prelude
  import opened PatchTypes
  import opened Disk
  import opened Commit
  import opened PatchEffect
  import Hunks
  import TextFile

  datatype StageError =
    | Binary
    | FileExists
    | FileNotFound
    | IoError
    | Refused(why: TextFile.Refusal)

  /** Why a change may be refused: what is wrong with it, or with the file it is for. */
  ghost predicate Refuses(c: FileChange, t: Tree, why: StageError) {
    match why
    case Binary => c.isBinary
    case FileExists => c.op == Create && Source(c) in t
    case FileNotFound => c.op != Create
    case IoError => c.op != Delete
    case Refused(refusal) =>
      HasContent(c) && c.op != Create && Source(c) in t && TextFile.Modified(t[Source(c)], c.hunks) == Err(refusal)
  }

  ghost predicate SomeRefused(cs: seq<FileChange>, t: Tree, why: StageError) {
    exists c :: c in cs && Refuses(c, t, why)
  }

  /** The change can be staged: it fits its file, or creates a new one. */
  ghost predicate Stages(c: FileChange, t: Tree) {
    Stageable(c, t) && (c.op == Create ==> Source(c) !in t)
  }

  /** Why it cannot, with no call to blame. */
  ghost predicate Because(c: FileChange, t: Tree, why: StageError) {
    match why
    case Binary => c.isBinary
    case FileExists => !c.isBinary && c.op == Create && Source(c) in t
    case FileNotFound => !c.isBinary && c.op != Create && Source(c) !in t
    case IoError => false
    case Refused(refusal) =>
      !c.isBinary && HasContent(c) && c.op != Create && Source(c) in t
      && TextFile.Modified(t[Source(c)], c.hunks) == Err(refusal)
  }

  // ---------------------------------------------------- one change at a time

  method ApplyCreate(fs: FileSystem, c: FileChange) returns (r: Result<Path, StageError>)
    requires fs.Valid() && c.op == Create
    modifies fs
    ensures fs.Valid() && old(fs.nextTemp) <= fs.nextTemp
    ensures old(fs.misreads) <= fs.misreads && old(fs.faults) <= fs.faults
    ensures fs.faults == old(fs.faults) && r.Err? ==> r.error == FileExists
    ensures r.Err? ==> fs.files == old(fs.files)
    ensures r.Ok? ==> r.value.Temp? && old(fs.nextTemp) <= r.value.id
                      && fs.files == old(fs.files)[r.value := TextFile.Created(c.hunks)]
    ensures r.Ok? && fs.misreads == old(fs.misreads) ==> Source(c) !in old(fs.files)
    ensures r.Err? ==> r.error == IoError || (r.error == FileExists && Source(c) in old(fs.files))
  {
    var present := fs.Stat(PathOf(c.path));
    if present {
      return Err(FileExists);
    }
    var content := TextFile.Create(c.hunks);
    r := WriteTemp(fs, content);
  }

  method WriteTemp(fs: FileSystem, content: Content) returns (r: Result<Path, StageError>)
    requires fs.Valid()
    modifies fs`files, fs`nextTemp, fs`faults
    ensures fs.Valid() && old(fs.nextTemp) <= fs.nextTemp
    ensures old(fs.faults) <= fs.faults && (r.Err? ==> old(fs.faults) < fs.faults)
    ensures r.Err? ==> r.error == IoError && fs.files == old(fs.files)
    ensures r.Ok? ==> r.value.Temp? && old(fs.nextTemp) <= r.value.id
                      && fs.files == old(fs.files)[r.value := content]
  {
    var made := fs.CreateTemp();
    if made.None? {
      return Err(IoError);
    }
    var ok := fs.Write(made.value, content);
    if !ok {
      var _ := fs.Remove(made.value);
      return Err(IoError);
    }
    r := Ok(made.value);
  }

  method ApplyModify(fs: FileSystem, path: Path, hunks: seq<Hunk>)
    returns (r: Result<(Path, seq<Hunks.HunkMove>), StageError>)
    requires fs.Valid()
    modifies fs
    ensures fs.Valid() && old(fs.nextTemp) <= fs.nextTemp
    ensures old(fs.misreads) <= fs.misreads && old(fs.faults) <= fs.faults
    ensures fs.faults == old(fs.faults) && r.Err? ==>
              r.error.Refused? || (r.error == FileNotFound && path !in old(fs.files))
    ensures r.Err? ==> fs.files == old(fs.files)
    ensures r.Err? ==> r.error == IoError || r.error == FileNotFound || r.error.Refused?
    ensures r.Err? && r.error.Refused? ==>
              path in old(fs.files) && TextFile.Modified(old(fs.files)[path], hunks) == Err(r.error.why)
    ensures r.Ok? ==>
              && path in old(fs.files) && TextFile.Modified(old(fs.files)[path], hunks).Ok?
              && r.value.0.Temp? && old(fs.nextTemp) <= r.value.0.id
              && fs.files == old(fs.files)[r.value.0 := TextFile.Modified(old(fs.files)[path], hunks).value.text]
              && r.value.1 == TextFile.Modified(old(fs.files)[path], hunks).value.moves
  {
    var content := fs.ReadFile(path);
    if content.None? {
      return Err(FileNotFound);
    }
    var edit := TextFile.Modify(content.value, hunks);
    if edit.Err? {
      return Err(Refused(edit.error));
    }
    var temp := WriteTemp(fs, edit.value.text);
    r := if temp.Err? then Err(temp.error) else Ok((temp.value, edit.value.moves));
  }

  method ApplyDelete(fs: FileSystem, path: Path) returns (r: Result<(), StageError>)
    modifies fs`misreads
    ensures old(fs.misreads) <= fs.misreads
    ensures r.Ok? ==> path in fs.files
    ensures r.Err? ==> r.error == FileNotFound
    ensures r.Err? && fs.misreads == old(fs.misreads) ==> path !in fs.files
  {
    var found := fs.Stat(path);
    r := if found then Ok(()) else Err(FileNotFound);
  }

  /** A copy of the source of a rename, in a temp file next to the target. */
  method CopySource(fs: FileSystem, source: Path) returns (r: Result<Path, StageError>)
    requires fs.Valid() && !source.Temp?
    modifies fs
    ensures fs.Valid() && old(fs.nextTemp) <= fs.nextTemp
    ensures old(fs.misreads) <= fs.misreads && old(fs.faults) <= fs.faults
    ensures r.Err? ==> fs.files == old(fs.files) && (r.error == IoError || r.error == FileNotFound)
    ensures fs.misreads == old(fs.misreads) && fs.faults == old(fs.faults) && r.Err? ==>
              r.error == FileNotFound && source !in old(fs.files)
    ensures r.Ok? ==>
              && r.value.Temp? && old(fs.nextTemp) <= r.value.id && source in old(fs.files)
              && fs.files == old(fs.files)[r.value := old(fs.files)[source]]
  {
    var made := fs.CreateTemp();
    if made.None? {
      return Err(IoError);
    }
    var copy := made.value;
    var content := fs.ReadFile(source);
    if content.None? {
      var _ := fs.Remove(copy);
      return Err(FileNotFound);
    }
    var ok := fs.Write(copy, content.value);
    if ok {
      ok := fs.Stat(source);
    }
    if !ok {
      var _ := fs.Remove(copy);
      return Err(IoError);
    }
    r := Ok(copy);
  }

  /** A rename with hunks edits a copy of the source made next to the target. */
  method ApplyRename(fs: FileSystem, c: FileChange)
    returns (r: Result<(Path, seq<Hunks.HunkMove>), StageError>)
    requires fs.Valid() && c.op == Rename && !c.isBinary
    modifies fs
    ensures fs.Valid() && old(fs.nextTemp) <= fs.nextTemp
    ensures old(fs.misreads) <= fs.misreads && old(fs.faults) <= fs.faults
    ensures fs.misreads == old(fs.misreads) && fs.faults == old(fs.faults) && r.Err? ==>
              r.error.Refused? || (r.error == FileNotFound && Source(c) !in old(fs.files))
    ensures r.Err? ==> fs.files == old(fs.files)
    ensures r.Ok? ==>
              && Stageable(c, old(fs.files)) && r.value.1 == MovesOf(c, old(fs.files))
              && if HasContent(c) then
                   && r.value.0.Temp? && old(fs.nextTemp) <= r.value.0.id
                   && fs.files == old(fs.files)[r.value.0 := NewContent(c, old(fs.files))]
                 else r.value.0 == NoPath && fs.files == old(fs.files)
    ensures r.Err? ==> r.error == IoError || r.error == FileNotFound || r.error.Refused?
    ensures r.Err? && r.error.Refused? ==>
              Source(c) in old(fs.files) && TextFile.Modified(old(fs.files)[Source(c)], c.hunks) == Err(r.error.why)
  {
    var source := PathOf(c.oldPath);
    if |c.hunks| == 0 {
      var found := fs.Stat(source);
      return if found then Ok((NoPath, [])) else Err(FileNotFound);
    }
    var copy := CopySource(fs, source);
    if copy.Err? {
      return Err(copy.error);
    }
    r := ApplyModify(fs, copy.value, c.hunks);
    var _ := fs.Remove(copy.value);
  }

  // ----------------------------------------------------------- all changes

  /** An entry that stages `c`: its temp file holds the new content. */
  ghost predicate StagedAs(c: FileChange, e: Entry, base: Tree, t: Tree) {
    && Fresh(e) && Stageable(c, base)
    && e.finalPath == PathOf(c.path)
    && e.oldPath == (if c.op == Rename then PathOf(c.oldPath) else NoPath)
    && (if HasContent(c) then e.tempPath.Temp? && e.tempPath in t && t[e.tempPath] == NewContent(c, base)
        else e.tempPath == NoPath)
  }

  method StageOne(fs: FileSystem, c: FileChange) returns (r: Result<(Entry, seq<Hunks.HunkMove>), StageError>)
    requires fs.Valid()
    modifies fs
    ensures fs.Valid() && old(fs.nextTemp) <= fs.nextTemp
    ensures old(fs.misreads) <= fs.misreads && old(fs.faults) <= fs.faults
    ensures fs.misreads == old(fs.misreads) && fs.faults == old(fs.faults) ==>
              if r.Err? then Because(c, old(fs.files), r.error) else Stages(c, old(fs.files))
    ensures r.Err? ==> fs.files == old(fs.files)
    ensures r.Ok? ==>
              && StagedAs(c, r.value.0, old(fs.files), fs.files)
              && r.value.1 == MovesOf(c, old(fs.files))
              && (r.value.0.tempPath != NoPath ==> old(fs.nextTemp) <= r.value.0.tempPath.id)
              && fs.files - {r.value.0.tempPath} == old(fs.files)
    ensures r.Ok? && c.op == Create && fs.misreads == old(fs.misreads) ==> Source(c) !in old(fs.files)
    ensures r.Err? ==> Refuses(c, old(fs.files), r.error)
    ensures c.isBinary ==> r == Err(Binary)
  {
    if c.isBinary {
      return Err(Binary);
    }
    var path := PathOf(c.path);
    var blank := Entry(NoPath, path, NoPath, NoPath, false, NoPath, CreateOrModify);
    match c.op {
      case Create =>
        var temp := ApplyCreate(fs, c);
        r := if temp.Err? then Err(temp.error) else Ok((blank.(tempPath := temp.value), []));
      case Modify =>
        var applied := ApplyModify(fs, path, c.hunks);
        r := if applied.Err? then Err(applied.error)
             else Ok((blank.(tempPath := applied.value.0), applied.value.1));
      case Delete =>
        var found := ApplyDelete(fs, path);
        r := if found.Err? then Err(found.error) else Ok((blank.(disposition := Deleted), []));
      case Rename =>
        var applied := ApplyRename(fs, c);
        r := if applied.Err? then Err(applied.error)
             else Ok((blank.(tempPath := applied.value.0, oldPath := PathOf(c.oldPath), disposition := Renamed),
                      applied.value.1));
    }
  }

  /** `pending` stages `cs`: one temp file per content, nothing else in `t` is new. */
  ghost predicate StagedAll(cs: seq<FileChange>, pending: seq<Entry>, base: Tree, t: Tree) {
    && |pending| == |cs|
    && (forall i :: 0 <= i < |cs| ==> StagedAs(cs[i], pending[i], base, t))
    && FreshBatch(pending)
    && t - TempsOf(pending) == base
  }

  /** Temp files staged for other changes do not change what a change asks for. */
  lemma TempsDoNotMatter(c: FileChange, base: Tree, t: Tree)
    requires Shadows(base, t)
    ensures Stageable(c, t) == Stageable(c, base)
    ensures Stageable(c, t) ==> MovesOf(c, t) == MovesOf(c, base)
    ensures Stageable(c, t) && HasContent(c) ==> NewContent(c, t) == NewContent(c, base)
  {
    assert !Source(c).Temp?;
  }

  lemma RefusedAlike(c: FileChange, base: Tree, t: Tree, why: StageError)
    requires Shadows(base, t) && Refuses(c, t, why)
    ensures Refuses(c, base, why)
  {
    assert !Source(c).Temp?;
  }

  lemma StagesAlike(c: FileChange, base: Tree, t: Tree, why: StageError)
    requires Shadows(base, t)
    ensures Stages(c, t) == Stages(c, base) && Because(c, t, why) == Because(c, base, why)
  {
    assert !Source(c).Temp?;
  }

  /** A change is refused for a reason exactly when it cannot be staged. */
  lemma RefusedForAReason(c: FileChange, t: Tree)
    ensures Stages(c, t) <==> forall why :: !Because(c, t, why)
  {
    if !Stages(c, t) {
      var why :=
        if c.isBinary then Binary
        else if c.op == Create then FileExists
        else if Source(c) !in t then FileNotFound
        else Refused(TextFile.Modified(t[Source(c)], c.hunks).error);
      assert Because(c, t, why);
    }
  }

  ghost predicate AllStage(cs: seq<FileChange>, t: Tree) {
    forall c :: c in cs ==> Stages(c, t)
  }

  /** Change i is the first that cannot be staged, and this is why. */
  ghost predicate RefusedAt(cs: seq<FileChange>, i: nat, base: Tree, why: StageError)
    requires i < |cs|
  {
    AllStage(cs[..i], base) && Because(cs[i], base, why)
  }

  ghost predicate FirstRefused(cs: seq<FileChange>, base: Tree, why: StageError) {
    exists i :: 0 <= i < |cs| && RefusedAt(cs, i, base, why)
  }

  /** A tree that has only temp files more than `base`. */
  ghost predicate Shadows(base: Tree, t: Tree) {
    forall p: Path :: !p.Temp? ==> (p in t <==> p in base) && (p in base ==> t[p] == base[p])
  }

  lemma StagedShadows(cs: seq<FileChange>, pending: seq<Entry>, base: Tree, t: Tree)
    requires StagedAll(cs, pending, base, t)
    ensures Shadows(base, t) && forall p :: p in TempsOf(pending) ==> p.Temp? && p in t
  {
    forall p | p in TempsOf(pending) ensures p.Temp? && p in t {
      var e :| e in pending && e.tempPath != NoPath && p == e.tempPath;
      var i :| 0 <= i < |pending| && pending[i] == e;
      assert StagedAs(cs[i], pending[i], base, t);
    }
    forall p: Path | !p.Temp? ensures (p in t <==> p in base) && (p in base ==> t[p] == base[p]) {
      assert p in t - TempsOf(pending) <==> p in base;
    }
  }

  lemma StagedExtends(cs: seq<FileChange>, i: nat, pending: seq<Entry>, e: Entry, base: Tree, t: Tree,
                      t': Tree, mark: nat)
    requires i < |cs| && StagedAll(cs[..i], pending, base, t)
    requires StagedAs(cs[i], e, t, t') && t' - {e.tempPath} == t && NoPath !in t && NoPath !in t'
    requires forall p: Path :: p in t && p.Temp? ==> p.id < mark
    requires e.tempPath != NoPath ==> mark <= e.tempPath.id
    ensures Stageable(cs[i], base) && MovesOf(cs[i], t) == MovesOf(cs[i], base)
    ensures StagedAll(cs[..i + 1], pending + [e], base, t')
  {
    StagedShadows(cs[..i], pending, base, t);
    TempsDoNotMatter(cs[i], base, t);
    assert TempsOf(pending + [e]) == TempsOf(pending) + if e.tempPath != NoPath then {e.tempPath} else {};
    assert t' - TempsOf(pending + [e]) == (t' - {e.tempPath}) - TempsOf(pending);
    forall k | 0 <= k < i
      ensures StagedAs(cs[k], pending[k], base, t') && pending[k].tempPath in TempsOf(pending) + {NoPath}
    {
      assert StagedAs(cs[..i][k], pending[k], base, t);
      assert pending[k] in pending;
    }
    assert FreshBatch(pending + [e]);
  }

  /** No change creates a file that is there. */
  ghost predicate CreatesAnew(cs: seq<FileChange>, base: Tree) {
    forall c :: c in cs ==> c.op == Create ==> Source(c) !in base
  }

  /** The first i changes are staged. */
  ghost predicate StagedUpTo(cs: seq<FileChange>, i: nat, pending: seq<Entry>, moves: seq<(nat, Hunks.HunkMove)>,
                             base: Tree, t: Tree, honest: bool, calm: bool)
    requires i <= |cs|
  {
    && StagedAll(cs[..i], pending, base, t)
    && (forall c :: c in cs[..i] ==> Stageable(c, base))
    && moves == AllMoves(cs[..i], base)
    && (honest ==> CreatesAnew(cs[..i], base))
    && (calm ==> AllStage(cs[..i], base))
  }

  lemma MovesExtend(cs: seq<FileChange>, i: nat, base: Tree)
    requires i < |cs| && (forall c :: c in cs[..i] ==> Stageable(c, base)) && Stageable(cs[i], base)
    ensures forall c :: c in cs[..i + 1] ==> Stageable(c, base)
    ensures AllMoves(cs[..i + 1], base) == AllMoves(cs[..i], base) + Tagged(i, MovesOf(cs[i], base))
  {
    assert cs[..i + 1] == cs[..i] + [cs[i]] && cs[..i + 1][..i] == cs[..i];
  }

  lemma CreatesExtend(cs: seq<FileChange>, i: nat, base: Tree, t: Tree)
    requires i < |cs| && CreatesAnew(cs[..i], base) && Shadows(base, t)
    requires cs[i].op == Create ==> Source(cs[i]) !in t
    ensures CreatesAnew(cs[..i + 1], base)
  {
    assert !Source(cs[i]).Temp?;
    assert cs[..i + 1] == cs[..i] + [cs[i]];
  }

  lemma StageMore(cs: seq<FileChange>, i: nat, pending: seq<Entry>, moves: seq<(nat, Hunks.HunkMove)>, e: Entry,
                  base: Tree, t: Tree, t': Tree, mark: nat, honest: bool, honest': bool, calm: bool, calm': bool)
    requires i < |cs| && StagedUpTo(cs, i, pending, moves, base, t, honest, calm)
    requires calm' ==> Stages(cs[i], t)
    requires StagedAs(cs[i], e, t, t') && t' - {e.tempPath} == t && NoPath !in t && NoPath !in t'
    requires forall p: Path :: p in t && p.Temp? ==> p.id < mark
    requires e.tempPath != NoPath ==> mark <= e.tempPath.id
    requires honest' && cs[i].op == Create ==> Source(cs[i]) !in t
    ensures StagedUpTo(cs, i + 1, pending + [e], moves + Tagged(i, MovesOf(cs[i], t)), base, t', honest && honest',
                       calm && calm')
  {
    StagedExtends(cs, i, pending, e, base, t, t', mark);
    MovesExtend(cs, i, base);
    StagedShadows(cs[..i], pending, base, t);
    if honest && honest' {
      CreatesExtend(cs, i, base, t);
    }
    if calm && calm' {
      StagesExtend(cs, i, base, t);
    }
  }

  lemma StagesExtend(cs: seq<FileChange>, i: nat, base: Tree, t: Tree)
    requires i < |cs| && AllStage(cs[..i], base) && Shadows(base, t) && Stages(cs[i], t)
    ensures AllStage(cs[..i + 1], base)
  {
    StagesAlike(cs[i], base, t, IoError);
    assert cs[..i + 1] == cs[..i] + [cs[i]];
  }

  lemma StageStops(cs: seq<FileChange>, i: nat, pending: seq<Entry>, moves: seq<(nat, Hunks.HunkMove)>, base: Tree,
                   t: Tree, honest: bool, calm: bool, calm': bool, why: StageError)
    requires i < |cs| && StagedUpTo(cs, i, pending, moves, base, t, honest, calm)
    requires Refuses(cs[i], t, why) && (calm' ==> Because(cs[i], t, why))
    ensures SomeRefused(cs, base, why)
    ensures calm && calm' ==> FirstRefused(cs, base, why)
  {
    StagedShadows(cs[..i], pending, base, t);
    StagesAlike(cs[i], base, t, why);
    RefusedAlike(cs[i], base, t, why);
    assert cs[i] in cs;
    assert calm && calm' ==> RefusedAt(cs, i, base, why);
  }

  /** Staging given up: the temp files made so far are removed. */
  method Unstage(fs: FileSystem, pending: seq<Entry>)
    requires fs.Valid() && FreshBatch(pending)
    modifies fs`files
    ensures fs.Valid() && fs.files == old(fs.files) - TempsOf(pending)
  {
    var _ := Rollback(fs, [], pending);
  }

  /** The loop of Stage. */
  method StageAll(fs: FileSystem, changes: seq<FileChange>)
    returns (r: Result<seq<Entry>, StageError>, moves: seq<(nat, Hunks.HunkMove)>)
    requires fs.Valid()
    modifies fs
    ensures fs.Valid() && old(fs.misreads) <= fs.misreads && old(fs.faults) <= fs.faults
    ensures fs.misreads == old(fs.misreads) && fs.faults == old(fs.faults) ==>
              if r.Ok? then AllStage(changes, old(fs.files)) else FirstRefused(changes, old(fs.files), r.error)
    ensures r.Err? ==> fs.files == old(fs.files) && SomeRefused(changes, old(fs.files), r.error)
    ensures r.Ok? ==>
              && StagedAll(changes, r.value, old(fs.files), fs.files)
              && (forall c :: c in changes ==> Stageable(c, old(fs.files)))
              && moves == AllMoves(changes, old(fs.files))
    ensures r.Ok? && fs.misreads == old(fs.misreads) ==> CreatesAnew(changes, old(fs.files))
  {
    ghost var base, trusted, faults := fs.files, fs.misreads, fs.faults;
    var pending: seq<Entry> := [];
    moves := [];
    for i := 0 to |changes|
      invariant fs.Valid() && trusted <= fs.misreads && faults <= fs.faults
      invariant StagedUpTo(changes, i, pending, moves, base, fs.files, fs.misreads == trusted,
                           fs.misreads == trusted && fs.faults == faults)
    {
      ghost var before, mark, misreads := fs.files, fs.nextTemp, fs.misreads;
      ghost var honest, calm := fs.misreads == trusted, fs.misreads == trusted && fs.faults == faults;
      ghost var failed := fs.faults;
      var staged := StageOne(fs, changes[i]);
      ghost var calm' := fs.misreads == misreads && fs.faults == failed;
      if staged.Err? {
        StageStops(changes, i, pending, moves, base, before, honest, calm, calm', staged.error);
        Unstage(fs, pending);
        return Err(staged.error), [];
      }
      StageMore(changes, i, pending, moves, staged.value.0, base, before, fs.files, mark,
                honest, fs.misreads == misreads, calm, calm');
      pending := pending + [staged.value.0];
      moves := moves + Tagged(i, staged.value.1);
    }
    assert changes[..|changes|] == changes;
    r := Ok(pending);
  }

  /** Stage: either one staged entry per change, or an error and the tree untouched. */
  method Stage(fs: FileSystem, changes: seq<FileChange>) returns (r: Result<StageHandle, StageError>)
    requires fs.Valid()
    modifies fs
    ensures fs.Valid() && old(fs.misreads) <= fs.misreads && old(fs.faults) <= fs.faults
    ensures fs.misreads == old(fs.misreads) && fs.faults == old(fs.faults) ==>
              if r.Ok? then AllStage(changes, old(fs.files)) else FirstRefused(changes, old(fs.files), r.error)
    ensures r.Err? ==> fs.files == old(fs.files) && SomeRefused(changes, old(fs.files), r.error)
    ensures r.Ok? ==>
              && fresh(r.value) && r.value.state == Staged && r.value.Ready(fs)
              && StagedAll(changes, r.value.pending, old(fs.files), fs.files)
              && (forall c :: c in changes ==> Stageable(c, old(fs.files)))
              && r.value.moves == AllMoves(changes, old(fs.files))
    ensures r.Ok? && fs.misreads == old(fs.misreads) ==> CreatesAnew(changes, old(fs.files))
  {
    var staged, moves := StageAll(fs, changes);
    if staged.Err? {
      return Err(staged.error);
    }
    StagedShadows(changes, staged.value, old(fs.files), fs.files);
    var handle := new StageHandle(staged.value, moves);
    r := Ok(handle);
  }

  // ------------------------------------ what a successful commit amounts to

  /** Before entry k of the batch: the effect so far, plus the temp files still to come. */
  ghost predicate EffectSoFar(cs: seq<FileChange>, pending: seq<Entry>, k: nat, base: Tree, full: Tree, t: Tree)
    requires k <= |cs| && forall c :: c in cs ==> Stageable(c, base)
  {
    && |pending| == |cs|
    && t - TempsOf(pending) == Effect(cs[..k], base)
    && (forall j :: k <= j < |cs| && pending[j].tempPath != NoPath ==>
          && pending[j].tempPath in t && pending[j].tempPath in full
          && t[pending[j].tempPath] == full[pending[j].tempPath])
    && (forall j :: 0 <= j < k && pending[j].tempPath != NoPath ==> pending[j].tempPath !in t)
  }

  /** One entry has its change's effect, whatever other temp files lie around. */
  lemma ApplyIsEffectOne(c: FileChange, e: Entry, base: Tree, t: Tree, temps: set<Path>)
    requires StagedAs(c, e, base, t) && e.finalPath != NoPath && NoPath !in t && NoPath !in base
    requires forall p :: p in temps ==> p.Temp?
    requires e.tempPath != NoPath ==> e.tempPath in temps
    ensures Apply(e, t) - temps == EffectOne(c, base, t - temps)
    ensures forall p :: p in temps && p != e.tempPath ==>
              (p in Apply(e, t) <==> p in t) && (p in t ==> Apply(e, t)[p] == t[p])
    ensures e.tempPath !in Apply(e, t)
  {
    var a, b := Apply(e, t) - temps, EffectOne(c, base, t - temps);
    forall p ensures (p in a <==> p in b) && (p in b ==> a[p] == b[p]) {
    }
  }

  lemma {:induction false} ApplyAllIsEffectUpTo(cs: seq<FileChange>, pending: seq<Entry>, k: nat, base: Tree,
                                                full: Tree)
    requires k <= |cs| && forall c :: c in cs ==> Stageable(c, base)
    requires StagedAll(cs, pending, base, full) && NoPath !in full
    requires forall e :: e in pending ==> e.finalPath != NoPath
    ensures EffectSoFar(cs, pending, k, base, full, ApplyAll(pending[..k], full))
    ensures NoPath !in ApplyAll(pending[..k], full)
  {
    assert NoPath !in full - TempsOf(pending);
    if k == 0 {
      assert Effect(cs[..0], base) == base;
    } else {
      ApplyAllIsEffectUpTo(cs, pending, k - 1, base, full);
      var t := ApplyAll(pending[..k - 1], full);
      assert pending[..k][..k - 1] == pending[..k - 1] && cs[..k][..k - 1] == cs[..k - 1];
      EffectStep(cs, pending, k, base, full, t);
    }
  }

  lemma EffectStep(cs: seq<FileChange>, pending: seq<Entry>, k: nat, base: Tree, full: Tree, t: Tree)
    requires 0 < k <= |cs| && forall c :: c in cs ==> Stageable(c, base)
    requires StagedAll(cs, pending, base, full) && NoPath !in t && NoPath !in base
    requires forall e :: e in pending ==> e.finalPath != NoPath
    requires EffectSoFar(cs, pending, k - 1, base, full, t)
    ensures EffectSoFar(cs, pending, k, base, full, Apply(pending[k - 1], t))
    ensures NoPath !in Apply(pending[k - 1], t)
  {
    var e, c := pending[k - 1], cs[k - 1];
    assert cs[..k][..k - 1] == cs[..k - 1];
    assert e in pending && c in cs && StagedAs(c, e, base, full);
    forall p | p in TempsOf(pending) ensures p.Temp? {
    }
    assert e.tempPath != NoPath ==> e.tempPath in TempsOf(pending);
    ApplyIsEffectOne(c, e, base, t, TempsOf(pending));
    forall j | 0 <= j < |cs| && pending[j].tempPath != NoPath
      ensures pending[j].tempPath in TempsOf(pending) && (j != k - 1 ==> pending[j].tempPath != e.tempPath)
    {
      assert pending[j] in pending;
    }
  }

  /** The entries of a committed batch name real targets, and so do its changes. */
  lemma TargetsNamed(cs: seq<FileChange>, pending: seq<Entry>, base: Tree, full: Tree)
    requires StagedAll(cs, pending, base, full) && forall e :: e in pending ==> e.finalPath != NoPath
    ensures forall c :: c in cs ==> PathOf(c.path) != NoPath
  {
    forall c | c in cs ensures PathOf(c.path) != NoPath {
      var i :| 0 <= i < |cs| && cs[i] == c;
      assert StagedAs(cs[i], pending[i], base, full) && pending[i] in pending;
    }
  }

  lemma NoTempsLeft(pending: seq<Entry>, t: Tree)
    requires forall j :: 0 <= j < |pending| && pending[j].tempPath != NoPath ==> pending[j].tempPath !in t
    ensures t - TempsOf(pending) == t
  {
    forall p | p in TempsOf(pending) ensures p !in t {
      var e :| e in pending && e.tempPath != NoPath && p == e.tempPath;
      var j :| 0 <= j < |pending| && pending[j] == e;
    }
  }

  /** A committed batch has exactly the effect of its changes, each computed from the tree before
      any of them, and leaves no temp file. */
  lemma ApplyAllIsEffect(cs: seq<FileChange>, pending: seq<Entry>, base: Tree, full: Tree)
    requires StagedAll(cs, pending, base, full) && NoPath !in full
    requires forall c :: c in cs ==> Stageable(c, base)
    requires forall e :: e in pending ==> e.finalPath != NoPath
    ensures ApplyAll(pending, full) == Effect(cs, base)
  {
    ApplyAllIsEffectUpTo(cs, pending, |cs|, base, full);
    assert pending[..|cs|] == pending && cs[..|cs|] == cs;
    NoTempsLeft(pending, ApplyAll(pending, full));
  }

  // ------------------------------------------- when a patch goes through

  /** The patch can be applied: each change fits the tree before any, and finds what it moves or deletes
      where those before it leave it. */
  ghost predicate Goes(cs: seq<FileChange>, base: Tree) {
    AllStage(cs, base) && NoneStuck(cs, base)
  }

  lemma {:induction false} NoneStuckAt(cs: seq<FileChange>, i: nat, base: Tree)
    requires i < |cs| && (forall c :: c in cs ==> Stageable(c, base)) && NoneStuck(cs, base)
    ensures !Stuck(cs[i], Effect(cs[..i], base))
  {
    if i < |cs| - 1 {
      NoneStuckAt(cs[..|cs| - 1], i, base);
      assert cs[..|cs| - 1][..i] == cs[..i];
    }
  }

  lemma BlockedIsStuck(c: FileChange, e: Entry, base: Tree, full: Tree, t: Tree, temps: set<Path>)
    requires StagedAs(c, e, base, full) && NoPath !in base && forall p :: p in temps ==> p.Temp?
    ensures Blocked(e, t) <==> Stuck(c, t - temps)
  {
    assert c.op == Rename ==> PathOf(c.oldPath) != NoPath;
  }

  lemma {:induction false} BlockedExactly(cs: seq<FileChange>, pending: seq<Entry>, k: nat, base: Tree, full: Tree)
    requires k <= |cs| && (forall c :: c in cs ==> Stageable(c, base))
    requires StagedAll(cs, pending, base, full) && NoPath !in full && NoPath !in base
    requires forall e :: e in pending ==> e.finalPath != NoPath
    ensures NoneBlocked(pending[..k], full) <==> NoneStuck(cs[..k], base)
  {
    if k > 0 {
      BlockedExactly(cs, pending, k - 1, base, full);
      NextBlocked(pending, k - 1, full);
      NextStuck(cs, k - 1, base);
      BlockedNext(cs, pending, k - 1, base, full);
    }
  }

  lemma NextBlocked(es: seq<Entry>, k: nat, t: Tree)
    requires k < |es|
    ensures NoneBlocked(es[..k + 1], t) <==> NoneBlocked(es[..k], t) && !Blocked(es[k], ApplyAll(es[..k], t))
  {
    assert es[..k + 1][..k] == es[..k];
  }

  lemma NextStuck(cs: seq<FileChange>, k: nat, base: Tree)
    requires k < |cs| && forall c :: c in cs ==> Stageable(c, base)
    ensures NoneStuck(cs[..k + 1], base) <==> NoneStuck(cs[..k], base) && !Stuck(cs[k], Effect(cs[..k], base))
  {
    assert cs[..k + 1][..k] == cs[..k];
  }

  lemma BlockedNext(cs: seq<FileChange>, pending: seq<Entry>, k: nat, base: Tree, full: Tree)
    requires k < |cs| && (forall c :: c in cs ==> Stageable(c, base))
    requires StagedAll(cs, pending, base, full) && NoPath !in full && NoPath !in base
    requires forall e :: e in pending ==> e.finalPath != NoPath
    ensures Blocked(pending[k], ApplyAll(pending[..k], full)) <==> Stuck(cs[k], Effect(cs[..k], base))
  {
    ApplyAllIsEffectUpTo(cs, pending, k, base, full);
    StagedShadows(cs, pending, base, full);
    assert StagedAs(cs[k], pending[k], base, full);
    BlockedIsStuck(cs[k], pending[k], base, full, ApplyAll(pending[..k], full), TempsOf(pending));
  }

  /** The staged entries are blocked exactly where their changes are stuck. */
  lemma GoesThrough(cs: seq<FileChange>, pending: seq<Entry>, base: Tree, full: Tree)
    requires (forall c :: c in cs ==> Stageable(c, base)) && StagedAll(cs, pending, base, full)
    requires NoPath !in full && NoPath !in base
    ensures NoneBlocked(pending, full) <==> NoneStuck(cs, base)
  {
    if i :| 0 <= i < |pending| && pending[i].finalPath == NoPath {
      assert StagedAs(cs[i], pending[i], base, full) && Stuck(cs[i], Effect(cs[..i], base));
      if NoneBlocked(pending, full) {
        NoneBlockedAt(pending, i, full);
      }
      if NoneStuck(cs, base) {
        NoneStuckAt(cs, i, base);
      }
    } else {
      BlockedExactly(cs, pending, |cs|, base, full);
      assert pending[..|cs|] == pending && cs[..|cs|] == cs;
    }
  }

  lemma StopIsBlocked(pending: seq<Entry>, i: nat, full: Tree, err: ApplyError)
    requires i < |pending| && StopsAt(pending, i, full, err)
    ensures !NoneBlocked(pending, full)
  {
    if NoneBlocked(pending, full) {
      NoneBlockedAt(pending, i, full);
    }
  }

  lemma CannotStage(cs: seq<FileChange>, base: Tree, why: StageError)
    requires FirstRefused(cs, base, why)
    ensures !AllStage(cs, base)
  {
    var i :| 0 <= i < |cs| && RefusedAt(cs, i, base, why);
    RefusedForAReason(cs[i], base);
  }

  /** Whether a commit goes through, said of the changes. */
  lemma Outcome(cs: seq<FileChange>, pending: seq<Entry>, base: Tree, full: Tree, err: Option<ApplyError>)
    requires (forall c :: c in cs ==> Stageable(c, base)) && StagedAll(cs, pending, base, full)
    requires NoPath !in full && NoPath !in base
    ensures (if err.None? then NoneBlocked(pending, full)
             else exists i :: 0 <= i < |pending| && StopsAt(pending, i, full, err.value))
            ==> (err.None? <==> NoneStuck(cs, base))
  {
    GoesThrough(cs, pending, base, full);
    if err.Some? {
      if i :| 0 <= i < |pending| && StopsAt(pending, i, full, err.value) {
        StopIsBlocked(pending, i, full, err.value);
      }
    }
  }

  /** StageHandle.Commit, said of the changes that were staged. */
  method CommitStaged(fs: FileSystem, handle: StageHandle, ghost cs: seq<FileChange>, ghost base: Tree)
    returns (err: Option<ApplyError>)
    requires handle.Ready(fs) && handle.state == Staged && NoPath !in base
    requires StagedAll(cs, handle.pending, base, fs.files) && forall c :: c in cs ==> Stageable(c, base)
    modifies handle`pending, handle`state, fs
    ensures handle.Ready(fs) && handle.state != Staged
    ensures old(fs.misreads) <= fs.misreads && old(fs.faults) <= fs.faults
    ensures err.None? ==> fs.files == Effect(cs, base) && forall c :: c in cs ==> PathOf(c.path) != NoPath
    ensures err.Some? && fs.misreads == old(fs.misreads) ==> fs.files == base
    ensures fs.misreads == old(fs.misreads) && fs.faults == old(fs.faults) ==> (err.None? <==> NoneStuck(cs, base))
  {
    ghost var pending, full := handle.pending, fs.files;
    err := handle.Commit(fs);
    Outcome(cs, pending, base, full, err);
    if err.None? {
      ApplyAllIsEffect(cs, pending, base, full);
      TargetsNamed(cs, pending, base, full);
    }
  }

  /** ApplyToAbsPath: the changes, or nothing.  When no Stat was misread, each change was acceptable
      before any of them, so that InOrderExactly says whether they took effect one after another;
      on different paths they did. */
  method ApplyToAbsPath(fs: FileSystem, changes: seq<FileChange>) returns (ok: bool)
    requires fs.Valid()
    modifies fs
    ensures fs.Valid() && old(fs.misreads) <= fs.misreads && old(fs.faults) <= fs.faults
    ensures fs.misreads == old(fs.misreads) && fs.faults == old(fs.faults) ==> (ok <==> Goes(changes, old(fs.files)))
    ensures ok ==> (forall c :: c in changes ==> Stageable(c, old(fs.files)))
                   && fs.files == Effect(changes, old(fs.files))
    ensures ok && fs.misreads == old(fs.misreads) ==> AllAccepted(changes, old(fs.files))
    ensures ok && fs.misreads == old(fs.misreads) && Independent(changes) ==>
              OneByOne(changes, old(fs.files)) == Some(fs.files)
    ensures !ok && fs.misreads == old(fs.misreads) ==> fs.files == old(fs.files)
  {
    var staged := Stage(fs, changes);
    if staged.Err? {
      if FirstRefused(changes, old(fs.files), staged.error) {
        CannotStage(changes, old(fs.files), staged.error);
      }
      return false;
    }
    var err := CommitStaged(fs, staged.value, changes, old(fs.files));
    ok := err.None?;
    if ok && fs.misreads == old(fs.misreads) && Independent(changes) {
      IndependentInOrder(changes, old(fs.files));
    }
  }

  // ------------------------------------------------------------ the tool

  datatype Decision = Allow | Session | Deny | AskUser

  datatype ToolResult =
    | BadPath
    | StageRefused(why: StageError)
    | PolicyDenied
    | CommitRefused(error: ApplyError)
    | PatchApplied(moves: seq<(nat, Hunks.HunkMove)>)

  /** A path of the change is outside the workspace. */
  predicate Escapes(resolve: string -> Option<string>, c: FileChange) {
    resolve(c.path).None? || (c.oldPath != "" && resolve(c.oldPath).None?)
  }

  /** `d` is `c` with its paths resolved, that of a rename source too, and nothing else changed. */
  predicate ResolvesTo(resolve: string -> Option<string>, c: FileChange, d: FileChange) {
    && resolve(c.path) == Some(d.path)
    && (if c.oldPath == "" then d.oldPath == "" else resolve(c.oldPath) == Some(d.oldPath))
    && d.op == c.op && d.hunks == c.hunks && d.newMode == c.newMode && d.createMode == c.createMode
    && d.isBinary == c.isBinary && d.hasHeader == c.hasHeader
    && d.originalAPath == c.originalAPath && d.originalBPath == c.originalBPath
  }

  /** Step 2 of Invoke: the paths of every change, or None when one escapes the workspace. */
  method ResolveAll(resolve: string -> Option<string>, changes: seq<FileChange>) returns (r: Option<seq<FileChange>>)
    ensures r.None? <==> exists i :: 0 <= i < |changes| && Escapes(resolve, changes[i])
    ensures r.Some? ==> |r.value| == |changes|
    ensures r.Some? ==> forall i :: 0 <= i < |changes| ==> ResolvesTo(resolve, changes[i], r.value[i])
  {
    var resolvedChanges: seq<FileChange> := [];
    for i := 0 to |changes|
      invariant |resolvedChanges| == i
      invariant forall k :: 0 <= k < i ==> ResolvesTo(resolve, changes[k], resolvedChanges[k])
    {
      var change := changes[i];
      var target := resolve(change.path);
      if target.None? {
        return None;
      }
      var resolved := change.(path := target.value);
      if change.oldPath != "" {
        var source := resolve(change.oldPath);
        if source.None? {
          return None;
        }
        resolved := resolved.(oldPath := source.value);
      }
      resolvedChanges := resolvedChanges + [resolved];
    }
    r := Some(resolvedChanges);
  }

  /** The approver's answer: commit, or discard. */
  method Settle(fs: FileSystem, handle: StageHandle, decision: Decision, ghost cs: seq<FileChange>, ghost base: Tree)
    returns (r: ToolResult)
    requires handle.Ready(fs) && handle.state == Staged && NoPath !in base
    requires StagedAll(cs, handle.pending, base, fs.files) && forall c :: c in cs ==> Stageable(c, base)
    modifies handle`pending, handle`state, fs
    ensures handle.Ready(fs) && handle.state != Staged
    ensures old(fs.misreads) <= fs.misreads && old(fs.faults) <= fs.faults
    ensures if decision == Allow || decision == Session then r.PatchApplied? || r.CommitRefused? else r.PolicyDenied?
    ensures r.PatchApplied? ==>
              && fs.files == Effect(cs, base) && r.moves == handle.moves
              && forall c :: c in cs ==> PathOf(c.path) != NoPath
    ensures r.PolicyDenied? || (r.CommitRefused? && fs.misreads == old(fs.misreads)) ==> fs.files == base
    ensures fs.misreads == old(fs.misreads) && fs.faults == old(fs.faults) && !r.PolicyDenied? ==>
              (r.PatchApplied? <==> NoneStuck(cs, base))
  {
    if decision != Allow && decision != Session {
      var _ := handle.Discard(fs);
      return PolicyDenied;
    }
    var err := CommitStaged(fs, handle, cs, base);
    r := if err.Some? then CommitRefused(err.value) else PatchApplied(handle.moves);
  }

  /** ApplyPatch.Invoke from the parsed changes on: resolve, stage, ask, commit or discard.
      `decision` is what the approver answers if it is asked. */
  method Invoke(fs: FileSystem, changes: seq<FileChange>, resolve: string -> Option<string>, decision: Decision)
    returns (r: ToolResult, asked: bool, ghost resolved: seq<FileChange>)
    requires fs.Valid()
    modifies fs
    ensures fs.Valid()
    ensures fs.files != old(fs.files) ==> asked && (decision == Allow || decision == Session)
    ensures r.PatchApplied? || r.CommitRefused? ==> asked && (decision == Allow || decision == Session)
    ensures r.CommitRefused? && fs.misreads == old(fs.misreads) ==> fs.files == old(fs.files)
    ensures !r.BadPath? && fs.misreads == old(fs.misreads) && fs.faults == old(fs.faults) ==>
              && (asked <==> AllStage(resolved, old(fs.files)))
              && (r.StageRefused? ==> FirstRefused(resolved, old(fs.files), r.why))
              && (r.PatchApplied? <==> Goes(resolved, old(fs.files)) && (decision == Allow || decision == Session))
    ensures r.BadPath? <==> exists i :: 0 <= i < |changes| && Escapes(resolve, changes[i])
    ensures !r.BadPath? ==>
              |resolved| == |changes| && forall i :: 0 <= i < |changes| ==> ResolvesTo(resolve, changes[i], resolved[i])
    ensures r.PatchApplied? ==>
              && (forall c :: c in resolved ==> Stageable(c, old(fs.files)))
              && fs.files == Effect(resolved, old(fs.files))
              && r.moves == AllMoves(resolved, old(fs.files))
    ensures r.PatchApplied? && fs.misreads == old(fs.misreads) && Independent(resolved) ==>
              OneByOne(resolved, old(fs.files)) == Some(fs.files)
    ensures r.BadPath? || r.StageRefused? ==> !asked && fs.files == old(fs.files)
    ensures r.StageRefused? ==> SomeRefused(resolved, old(fs.files), r.why)
    ensures r.PolicyDenied? <==> asked && decision != Allow && decision != Session
    ensures r.PolicyDenied? ==> fs.files == old(fs.files)
  {
    asked, resolved := false, [];
    var paths := ResolveAll(resolve, changes);
    if paths.None? {
      return BadPath, false, [];
    }
    var rs := paths.value;
    resolved := rs;
    var staged := Stage(fs, rs);
    if staged.Err? {
      if FirstRefused(rs, old(fs.files), staged.error) {
        CannotStage(rs, old(fs.files), staged.error);
      }
      return StageRefused(staged.error), false, rs;
    }
    var handle := staged.value;
    asked := true;
    r := Settle(fs, handle, decision, rs, old(fs.files));
    if r.PatchApplied? && fs.misreads == old(fs.misreads) && Independent(rs) {
      IndependentInOrder(rs, old(fs.files));
    }
    // The deferred Discard: the handle is already spent.
    var _ := handle.Discard(fs);
  }
}
