/** What a patch asks of a file system, and when its changes take effect one after another. */
module PatchEffect {
  import opened Prelude
  import opened PatchTypes
  import opened Disk
  import Hunks
  import TextFile
  import Endings

  function PathOf(name: string): Path {
    if name == "" then NoPath else Named(name)
  }

  // ------------------------------------------------- what a change asks for

  function Source(c: FileChange): Path {
    if c.op == Rename then PathOf(c.oldPath) else PathOf(c.path)
  }

  ghost predicate HasContent(c: FileChange) {
    c.op == Create || c.op == Modify || (c.op == Rename && c.hunks != [])
  }

  /** The content a change puts in place is computed from the tree before any change. */
  ghost predicate Stageable(c: FileChange, base: Tree) {
    && !c.isBinary
    && (c.op != Create ==> Source(c) in base)
    && (HasContent(c) && c.op != Create ==> TextFile.Modified(base[Source(c)], c.hunks).Ok?)
  }

  ghost function NewContent(c: FileChange, base: Tree): Content
    requires Stageable(c, base) && HasContent(c)
  {
    if c.op == Create then TextFile.Created(c.hunks)
    else TextFile.Modified(base[Source(c)], c.hunks).value.text
  }

  ghost function MovesOf(c: FileChange, base: Tree): seq<Hunks.HunkMove>
    requires Stageable(c, base)
  {
    if c.op == Create || !HasContent(c) then [] else TextFile.Modified(base[Source(c)], c.hunks).value.moves
  }

  function Tagged(i: nat, moves: seq<Hunks.HunkMove>): seq<(nat, Hunks.HunkMove)> {
    seq(|moves|, k requires 0 <= k < |moves| => (i, moves[k]))
  }

  ghost function AllMoves(cs: seq<FileChange>, base: Tree): seq<(nat, Hunks.HunkMove)>
    requires forall c :: c in cs ==> Stageable(c, base)
  {
    if cs == [] then []
    else AllMoves(cs[..|cs| - 1], base) + Tagged(|cs| - 1, MovesOf(cs[|cs| - 1], base))
  }

  ghost function EffectOne(c: FileChange, base: Tree, t: Tree): Tree
    requires Stageable(c, base)
  {
    match c.op
    case Delete => t - {PathOf(c.path)}
    case Rename =>
      if c.hunks == [] then Move(t, PathOf(c.oldPath), PathOf(c.path))
      else (t - {PathOf(c.oldPath)})[PathOf(c.path) := NewContent(c, base)]
    case _ => t[PathOf(c.path) := NewContent(c, base)]
  }

  /** A change finds nothing to move or delete on this tree, or nowhere to put it. */
  ghost predicate Stuck(c: FileChange, t: Tree) {
    || c.path == ""
    || (c.op == Delete && PathOf(c.path) !in t)
    || (c.op == Rename && (PathOf(c.oldPath) !in t || c.oldPath == c.path))
  }

  /** The changes, in order. */
  ghost function Effect(cs: seq<FileChange>, base: Tree): Tree
    requires forall c :: c in cs ==> Stageable(c, base)
  {
    if cs == [] then base else EffectOne(cs[|cs| - 1], base, Effect(cs[..|cs| - 1], base))
  }

  /** Each change finds what it moves or deletes where those before it leave it. */
  ghost predicate NoneStuck(cs: seq<FileChange>, base: Tree)
    requires forall c :: c in cs ==> Stageable(c, base)
  {
    cs == []
    || (NoneStuck(cs[..|cs| - 1], base) && !Stuck(cs[|cs| - 1], Effect(cs[..|cs| - 1], base)))
  }

  /** What each kind of change does to a file system, alone. */
  lemma EffectAlone(c: FileChange, base: Tree)
    requires Stageable(c, base) && c.path != "" && (c.op == Rename ==> c.oldPath != "")
    ensures var p, t := Named(c.path), Effect([c], base);
      match c.op
      case Create => t == base[p := TextFile.Created(c.hunks)]
      case Modify => t == base[p := TextFile.Modified(base[p], c.hunks).value.text]
      case Delete => t == base - {p}
      case Rename =>
        var text := base[Named(c.oldPath)];
        t == (base - {Named(c.oldPath)})
               [p := if c.hunks == [] then text else TextFile.Modified(text, c.hunks).value.text]
  {
    assert [c][..0] == [] && Effect([], base) == base;
  }

  /** What can be staged: no binary change, no change of a file that is not there, and no hunks that do not
      fit the file they are for. */
  lemma StageableExactly(c: FileChange, base: Tree)
    ensures Stageable(c, base) <==>
      && !c.isBinary
      && match c.op
         case Create => true
         case Modify => PathOf(c.path) in base && TextFile.Modified(base[PathOf(c.path)], c.hunks).Ok?
         case Delete => PathOf(c.path) in base
         case Rename =>
           PathOf(c.oldPath) in base && (c.hunks == [] || TextFile.Modified(base[PathOf(c.oldPath)], c.hunks).Ok?)
    ensures PathOf("") == NoPath && (c.path != "" ==> PathOf(c.path) == Named(c.path))
  {
  }

  /** Every move is reported once, with the change it is in. */
  lemma {:induction false} MovesAreOf(cs: seq<FileChange>, base: Tree, i: nat, move: Hunks.HunkMove)
    requires forall c :: c in cs ==> Stageable(c, base)
    ensures (i, move) in AllMoves(cs, base) <==>
      && i < |cs| && Stageable(cs[i], base) && HasContent(cs[i]) && cs[i].op != Create
      && move in TextFile.Modified(base[Source(cs[i])], cs[i].hunks).value.moves
  {
    if cs != [] {
      var n := |cs| - 1;
      MovesAreOf(cs[..n], base, i, move);
      var tagged := Tagged(n, MovesOf(cs[n], base));
      assert forall k :: 0 <= k < |tagged| ==> tagged[k] == (n, MovesOf(cs[n], base)[k]);
      if i == n && move in MovesOf(cs[n], base) {
        var k :| 0 <= k < |MovesOf(cs[n], base)| && MovesOf(cs[n], base)[k] == move;
        assert tagged[k] in tagged;
      }
    }
  }

  // ------------------------------------------------------ one after another

  /** What staging `c` on this tree accepts when every Stat tells the truth, and a commit can
      then put in place. */
  ghost predicate Accepts(c: FileChange, t: Tree) {
    Stageable(c, t) && PathOf(c.path) != NoPath && (c.op == Create ==> Source(c) !in t)
  }

  ghost predicate AllAccepted(cs: seq<FileChange>, base: Tree): (r: bool)
    ensures r ==> forall c :: c in cs ==> Stageable(c, base)
  {
    forall c :: c in cs ==> Accepts(c, base)
  }

  /** The changes as patches of their own, each staged on the tree the ones before it left. */
  ghost function OneByOne(cs: seq<FileChange>, base: Tree): Option<Tree> {
    if cs == [] then Some(base)
    else
      var c := cs[|cs| - 1];
      match OneByOne(cs[..|cs| - 1], base)
      case None => None
      case Some(t) => if Accepts(c, t) then Some(EffectOne(c, t, t)) else None
  }

  /** What earlier changes have made of a path. */
  datatype Trace = Untouched | Gone | Written

  function TraceOf(cs: seq<FileChange>, p: Path): Trace {
    if cs == [] then Untouched
    else
      var c := cs[|cs| - 1];
      if p == PathOf(c.path) then if c.op == Delete then Gone else Written
      else if c.op == Rename && p == PathOf(c.oldPath) then Gone
      else TraceOf(cs[..|cs| - 1], p)
  }

  /** The hunks make of the file as it is now what they make of the file as it was. */
  ghost predicate SameEdit(c: FileChange, base: Tree, t: Tree)
    requires Stageable(c, base) && HasContent(c) && c.op != Create
  {
    && Source(c) in t
    && TextFile.Modified(t[Source(c)], c.hunks).Ok?
    && TextFile.Modified(t[Source(c)], c.hunks).value.text == NewContent(c, base)
  }

  /** The changes before `c` do not spoil it: nothing is created where they wrote, nothing moved or
      deleted that they took away, and nothing edited that they changed, unless the edit comes
      out the same. */
  ghost predicate Undisturbed(before: seq<FileChange>, c: FileChange, base: Tree)
    requires Stageable(c, base) && forall d :: d in before ==> Stageable(d, base)
  {
    var trace := TraceOf(before, Source(c));
    if c.op == Create then !trace.Written?
    else if HasContent(c) then trace.Untouched? || (trace.Written? && SameEdit(c, base, Effect(before, base)))
    else !trace.Gone?
  }

  ghost predicate AllUndisturbed(cs: seq<FileChange>, base: Tree)
    requires forall c :: c in cs ==> Stageable(c, base)
  {
    cs == [] || (AllUndisturbed(cs[..|cs| - 1], base) && Undisturbed(cs[..|cs| - 1], cs[|cs| - 1], base))
  }

  /** At every point of the patch, the changes so far have had their effect one after another. */
  ghost predicate InOrder(cs: seq<FileChange>, base: Tree)
    requires forall c :: c in cs ==> Stageable(c, base)
  {
    OneByOne(cs, base) == Some(Effect(cs, base)) && (cs == [] || InOrder(cs[..|cs| - 1], base))
  }

  /** What the trace says of a path is so in the tree. */
  ghost predicate Traced(cs: seq<FileChange>, p: Path, base: Tree, t: Tree) {
    match TraceOf(cs, p)
    case Untouched => (p in t <==> p in base) && (p in base ==> t[p] == base[p])
    case Gone => p !in t
    case Written => p in t
  }

  lemma EffectTraced(c: FileChange, from: Tree, base: Tree, t: Tree, cs: seq<FileChange>, p: Path)
    requires Stageable(c, from) && Traced(cs, p, base, t) && PathOf(c.path) != NoPath
    requires c.op == Rename ==> Source(c) in t
    ensures Traced(cs + [c], p, base, EffectOne(c, from, t))
  {
    assert (cs + [c])[..|cs|] == cs;
  }

  lemma {:induction false} InOrderTraced(cs: seq<FileChange>, base: Tree, p: Path)
    requires AllAccepted(cs, base) && InOrder(cs, base)
    ensures Traced(cs, p, base, Effect(cs, base))
  {
    if cs != [] {
      var before, c := cs[..|cs| - 1], cs[|cs| - 1];
      InOrderTraced(before, base, p);
      assert OneByOne(before, base) == Some(Effect(before, base)) && Accepts(c, Effect(before, base));
      EffectTraced(c, base, base, Effect(before, base), before, p);
      assert before + [c] == cs;
    }
  }

  /** A change has its effect on the tree it finds exactly when that tree offers it what the tree
      before the patch did. */
  lemma SameEffect(c: FileChange, base: Tree, t: Tree)
    requires Accepts(c, base)
    ensures Accepts(c, t) && EffectOne(c, t, t) == EffectOne(c, base, t)
       <==> if c.op == Create then Source(c) !in t
            else if HasContent(c) then SameEdit(c, base, t)
            else Source(c) in t
  {
    if Accepts(c, t) && HasContent(c) && EffectOne(c, t, t) == EffectOne(c, base, t) {
      assert EffectOne(c, t, t)[PathOf(c.path)] == NewContent(c, t);
      assert EffectOne(c, base, t)[PathOf(c.path)] == NewContent(c, base);
    }
  }

  lemma StepInOrder(before: seq<FileChange>, c: FileChange, base: Tree)
    requires AllAccepted(before, base) && Accepts(c, base) && InOrder(before, base)
    ensures var t := Effect(before, base);
      Accepts(c, t) && EffectOne(c, t, t) == EffectOne(c, base, t) <==> Undisturbed(before, c, base)
  {
    InOrderTraced(before, base, Source(c));
    SameEffect(c, base, Effect(before, base));
  }

  /** The changes of a patch take effect one after another exactly when each is undisturbed by
      those before it. */
  lemma {:induction false} InOrderExactly(cs: seq<FileChange>, base: Tree)
    requires AllAccepted(cs, base)
    ensures InOrder(cs, base) <==> AllUndisturbed(cs, base)
  {
    if cs != [] {
      var before, c := cs[..|cs| - 1], cs[|cs| - 1];
      InOrderExactly(before, base);
      if InOrder(before, base) {
        StepInOrder(before, c, base);
      }
    }
  }

  predicate Touches(c: FileChange, p: Path) {
    p == PathOf(c.path) || (c.op == Rename && p == PathOf(c.oldPath))
  }

  /** No change works on a path that an earlier one has touched. */
  predicate Independent(cs: seq<FileChange>) {
    forall i, j :: 0 <= i < j < |cs| ==> !Touches(cs[i], Source(cs[j]))
  }

  lemma {:induction false} NeverTouched(cs: seq<FileChange>, p: Path)
    requires forall i :: 0 <= i < |cs| ==> !Touches(cs[i], p)
    ensures TraceOf(cs, p) == Untouched
  {
    if cs != [] {
      assert !Touches(cs[|cs| - 1], p);
      NeverTouched(cs[..|cs| - 1], p);
    }
  }

  lemma {:induction false} IndependentUndisturbed(cs: seq<FileChange>, base: Tree)
    requires (forall c :: c in cs ==> Stageable(c, base)) && Independent(cs)
    ensures AllUndisturbed(cs, base)
  {
    if cs != [] {
      var n := |cs| - 1;
      IndependentUndisturbed(cs[..n], base);
      forall i | 0 <= i < n ensures !Touches(cs[..n][i], Source(cs[n])) {
        assert cs[..n][i] == cs[i];
      }
      NeverTouched(cs[..n], Source(cs[n]));
    }
  }

  /** What a caller can see from the patch alone: changes on different paths are in order. */
  lemma IndependentInOrder(cs: seq<FileChange>, base: Tree)
    requires AllAccepted(cs, base) && Independent(cs)
    ensures OneByOne(cs, base) == Some(Effect(cs, base))
  {
    IndependentUndisturbed(cs, base);
    InOrderExactly(cs, base);
  }

  // ------------------------------------------------------ at the end of a patch

  ghost predicate IsEdit(c: FileChange) {
    HasContent(c) && c.op != Create
  }

  /** The change whose edit is what a path holds in the end, wherever later renames have moved it. */
  ghost function LastEdit(cs: seq<FileChange>, p: Path): (r: Option<nat>)
    ensures r.Some? ==> r.value < |cs| && IsEdit(cs[r.value])
  {
    if cs == [] then None
    else
      var n := |cs| - 1;
      var c := cs[n];
      if p == PathOf(c.path) then
        if IsEdit(c) then Some(n)
        else if c.op == Rename then LastEdit(cs[..n], PathOf(c.oldPath))
        else None
      else if c.op == Rename && p == PathOf(c.oldPath) then None
      else LastEdit(cs[..n], p)
  }

  /** Edit i comes out the same on the tree that the changes before it, one after another, left. */
  ghost predicate SameAt(cs: seq<FileChange>, i: nat, base: Tree)
    requires i < |cs| && Stageable(cs[i], base) && IsEdit(cs[i])
  {
    OneByOne(cs[..i], base).Some? && SameEdit(cs[i], base, OneByOne(cs[..i], base).value)
  }

  ghost predicate LastSame(cs: seq<FileChange>, p: Path, base: Tree)
    requires forall c :: c in cs ==> Stageable(c, base)
  {
    LastEdit(cs, p).Some? ==> SameAt(cs, LastEdit(cs, p).value, base)
  }

  /** Every edit that something is left of in the end came out the same. */
  ghost predicate SurvivorsSame(cs: seq<FileChange>, base: Tree)
    requires forall c :: c in cs ==> Stageable(c, base)
  {
    forall p :: LastSame(cs, p, base)
  }

  /** What is at a path in the two trees: `t` of the changes one after another, `e` of the patch. */
  ghost predicate Compared(cs: seq<FileChange>, p: Path, base: Tree, t: Tree, e: Tree)
    requires forall c :: c in cs ==> Stageable(c, base)
  {
    && (p in t <==> p in e)
    && (LastEdit(cs, p).Some? ==> p in t)
    && (p in t ==> (t[p] == e[p] <==> LastSame(cs, p, base)))
  }

  lemma LastSamePrefix(before: seq<FileChange>, c: FileChange, p: Path, base: Tree)
    requires (forall d :: d in before ==> Stageable(d, base)) && Stageable(c, base)
    requires LastEdit(before + [c], p).Some? && LastEdit(before + [c], p).value < |before|
    ensures var i := LastEdit(before + [c], p).value;
      IsEdit(before[i]) && (SameAt(before + [c], i, base) <==> SameAt(before, i, base))
  {
    var i := LastEdit(before + [c], p).value;
    assert (before + [c])[..i] == before[..i];
  }

  lemma ComparedAfter(before: seq<FileChange>, c: FileChange, p: Path, base: Tree, t: Tree, e: Tree)
    requires AllAccepted(before, base) && Accepts(c, base) && Accepts(c, t) && OneByOne(before, base) == Some(t)
    requires Compared(before, p, base, t, e)
    requires c.op == Rename ==> Compared(before, PathOf(c.oldPath), base, t, e)
    ensures Compared(before + [c], p, base, EffectOne(c, t, t), EffectOne(c, base, e))
  {
    var cs := before + [c];
    assert cs[..|before|] == before;
    if p == PathOf(c.path) && IsEdit(c) {
      assert SameAt(cs, |before|, base) <==> SameEdit(c, base, t);
    } else if LastEdit(cs, p).Some? {
      LastSamePrefix(before, c, p, base);
    }
  }

  lemma {:induction false} ComparedAll(cs: seq<FileChange>, base: Tree, p: Path)
    requires AllAccepted(cs, base) && OneByOne(cs, base).Some?
    ensures Compared(cs, p, base, OneByOne(cs, base).value, Effect(cs, base))
  {
    if cs != [] {
      var before, c := cs[..|cs| - 1], cs[|cs| - 1];
      assert cs == before + [c];
      ComparedAll(before, base, p);
      ComparedAll(before, base, PathOf(c.oldPath));
      ComparedAfter(before, c, p, base, OneByOne(before, base).value, Effect(before, base));
    }
  }

  lemma {:induction false} OneByOneTraced(cs: seq<FileChange>, base: Tree, p: Path)
    requires OneByOne(cs, base).Some?
    ensures Traced(cs, p, base, OneByOne(cs, base).value)
  {
    if cs != [] {
      var before, c := cs[..|cs| - 1], cs[|cs| - 1];
      var t := OneByOne(before, base).value;
      OneByOneTraced(before, base, p);
      EffectTraced(c, t, base, t, before, p);
      assert before + [c] == cs;
    }
  }

  /** The tree that the changes before `c` leave one after another takes `c`: nothing is created where
      they wrote, what is needed is not gone, and an edit still fits. */
  ghost predicate Taken(before: seq<FileChange>, c: FileChange, base: Tree) {
    var trace := TraceOf(before, Source(c));
    if c.op == Create then !trace.Written?
    else
      && !trace.Gone?
      && (IsEdit(c) ==>
            && OneByOne(before, base).Some? && Source(c) in OneByOne(before, base).value
            && TextFile.Modified(OneByOne(before, base).value[Source(c)], c.hunks).Ok?)
  }

  ghost predicate AllTaken(cs: seq<FileChange>, base: Tree) {
    cs == [] || (AllTaken(cs[..|cs| - 1], base) && Taken(cs[..|cs| - 1], cs[|cs| - 1], base))
  }

  lemma {:induction false} TakenExactly(cs: seq<FileChange>, base: Tree)
    requires AllAccepted(cs, base)
    ensures OneByOne(cs, base).Some? <==> AllTaken(cs, base)
  {
    if cs != [] {
      var before, c := cs[..|cs| - 1], cs[|cs| - 1];
      assert c in cs;
      TakenExactly(before, base);
      if OneByOne(before, base).Some? {
        OneByOneTraced(before, base, Source(c));
      }
    }
  }

  /** In the end a patch has left the tree its changes leave one after another exactly when each of
      them is taken in turn, and each edit that something is left of comes out the same. */
  lemma InTheEndExactly(cs: seq<FileChange>, base: Tree)
    requires AllAccepted(cs, base)
    ensures OneByOne(cs, base) == Some(Effect(cs, base)) <==> AllTaken(cs, base) && SurvivorsSame(cs, base)
  {
    TakenExactly(cs, base);
    if OneByOne(cs, base).Some? {
      SameInTheEnd(cs, base);
    }
  }

  lemma SameInTheEnd(cs: seq<FileChange>, base: Tree)
    requires AllAccepted(cs, base) && OneByOne(cs, base).Some?
    ensures OneByOne(cs, base).value == Effect(cs, base) <==> SurvivorsSame(cs, base)
  {
    var t, e := OneByOne(cs, base).value, Effect(cs, base);
    if t == e {
      forall p ensures LastSame(cs, p, base) {
        ComparedAll(cs, base, p);
      }
    }
    if SurvivorsSame(cs, base) {
      forall p ensures (p in t <==> p in e) && (p in t ==> t[p] == e[p]) {
        ComparedAll(cs, base, p);
        assert LastSame(cs, p, base);
      }
    }
  }

  // ------------------------------------------------------- the edit that is lost

  function EditOf(name: string, h: Hunk): FileChange {
    FileChange(Modify, name, "", [h], 0, false, "", "", false, 0)
  }

  function FileOf(lines: seq<string>): string {
    TextFile.Rejoined(lines, "\n", true)
  }

  /** Two modifications of one file that replace different lines: committed together the first is
      lost, applied one after another neither is. */
  lemma SecondEditWins(name: string, lines: seq<string>, i: nat, j: nat, x: string, y: string)
    requires name != "" && Endings.AllPlain(lines) && i < |lines| && j < |lines| && i != j
    requires Endings.Plain(x) && Endings.Plain(y)
    ensures var f := Named(name);
      var base: Tree := map[f := FileOf(lines)];
      var cs := [EditOf(name, Endings.ReplaceHunk(i, lines[i], x)), EditOf(name, Endings.ReplaceHunk(j, lines[j], y))];
      && AllAccepted(cs, base)
      && Effect(cs, base) == map[f := FileOf(lines[j := y])]
      && OneByOne(cs, base) == Some(map[f := FileOf(lines[i := x][j := y])])
  {
    var first := lines[i := x];
    assert Endings.AllPlain(first) && first[j] == lines[j];
    Endings.ReplacesLine(lines, i, x);
    Endings.ReplacesLine(lines, j, y);
    Endings.ReplacesLine(first, j, y);
    TwoEdits(name, Endings.ReplaceHunk(i, lines[i], x), Endings.ReplaceHunk(j, lines[j], y),
             FileOf(lines), FileOf(first), FileOf(lines[j := y]), FileOf(first[j := y]));
  }

  lemma FilesDiffer(lines: seq<string>, others: seq<string>)
    requires Endings.AllPlain(lines) && Endings.AllPlain(others)
    ensures FileOf(lines) == FileOf(others) <==> lines == others
  {
    Endings.RereadsLines(lines, TextFile.LF, true);
    Endings.RereadsLines(others, TextFile.LF, true);
  }

  /** A file of the lines "a" and "b", replaced by "x" and "y" in one patch. */
  lemma FirstEditIsLost()
    ensures var f := Named("f");
      var base: Tree := map[f := FileOf(["a", "b"])];
      var cs := [EditOf("f", Endings.ReplaceHunk(0, "a", "x")), EditOf("f", Endings.ReplaceHunk(1, "b", "y"))];
      && AllAccepted(cs, base) && Effect(cs, base) == map[f := FileOf(["a", "y"])]
      && OneByOne(cs, base) == Some(map[f := FileOf(["x", "y"])])
      && OneByOne(cs, base) != Some(Effect(cs, base))
  {
    var lines := ["a", "b"];
    assert lines[1 := "y"] == ["a", "y"] && lines[0 := "x"][1 := "y"] == ["x", "y"];
    SecondEditWins("f", lines, 0, 1, "x", "y");
    FilesDiffer(["a", "y"], ["x", "y"]);
    assert map[Named("f") := FileOf(["a", "y"])][Named("f")] != map[Named("f") := FileOf(["x", "y"])][Named("f")];
  }

  function DeleteOf(name: string): FileChange {
    FileChange(Delete, name, "", [], 0, false, "", "", false, 0)
  }

  /** Deleting the file as well hides the loss: in the end all is as one after another, though
      it was not on the way. */
  lemma LossIsHidden()
    ensures var base: Tree := map[Named("f") := FileOf(["a", "b"])];
      var edits := [EditOf("f", Endings.ReplaceHunk(0, "a", "x")), EditOf("f", Endings.ReplaceHunk(1, "b", "y"))];
      var cs := edits + [DeleteOf("f")];
      AllAccepted(cs, base) && OneByOne(cs, base) == Some(Effect(cs, base)) && !InOrder(cs, base)
  {
    var base: Tree := map[Named("f") := FileOf(["a", "b"])];
    var edits := [EditOf("f", Endings.ReplaceHunk(0, "a", "x")), EditOf("f", Endings.ReplaceHunk(1, "b", "y"))];
    FirstEditIsLost();
    ThenDeleted(edits, base, "f");
  }

  lemma ThenOne(cs: seq<FileChange>, c: FileChange, base: Tree)
    requires AllAccepted(cs, base) && Accepts(c, base)
    ensures AllAccepted(cs + [c], base) && Effect(cs + [c], base) == EffectOne(c, base, Effect(cs, base))
    ensures InOrder(cs + [c], base) ==> InOrder(cs, base)
    ensures OneByOne(cs, base).Some? && Accepts(c, OneByOne(cs, base).value) ==>
      OneByOne(cs + [c], base) == Some(EffectOne(c, OneByOne(cs, base).value, OneByOne(cs, base).value))
  {
    assert (cs + [c])[..|cs|] == cs;
    assert forall d :: d in cs + [c] ==> d in cs || d == c;
  }

  lemma ThenDeleted(edits: seq<FileChange>, base: Tree, name: string)
    requires AllAccepted(edits, base) && name != "" && Named(name) in base
    requires OneByOne(edits, base).Some? && OneByOne(edits, base).value.Keys == {Named(name)}
    requires Effect(edits, base).Keys == {Named(name)} && !InOrder(edits, base)
    ensures var cs := edits + [DeleteOf(name)];
      AllAccepted(cs, base) && OneByOne(cs, base) == Some(Effect(cs, base)) && !InOrder(cs, base)
  {
    ThenOne(edits, DeleteOf(name), base);
  }

  lemma TwoEdits(name: string, g: Hunk, h: Hunk, was: string, first: string, second: string, both: string)
    requires name != "" && TextFile.Modified(was, [g]) == Ok(TextFile.Edit(first, []))
    requires TextFile.Modified(was, [h]) == Ok(TextFile.Edit(second, []))
    requires TextFile.Modified(first, [h]) == Ok(TextFile.Edit(both, []))
    ensures var f := Named(name);
      var base: Tree := map[f := was];
      var cs := [EditOf(name, g), EditOf(name, h)];
      && AllAccepted(cs, base)
      && Effect(cs, base) == map[f := second] && OneByOne(cs, base) == Some(map[f := both])
  {
    var f := Named(name);
    var base: Tree := map[f := was];
    var mid: Tree := map[f := first];
    var c, d := EditOf(name, g), EditOf(name, h);
    OneEdit(name, g, was, first, base);
    OneEdit(name, h, was, second, mid);
    OneEdit(name, h, first, both, mid);
    TwoSteps(c, d, base, mid);
  }

  lemma OneEdit(name: string, h: Hunk, was: string, now: string, t: Tree)
    requires name != "" && TextFile.Modified(was, [h]) == Ok(TextFile.Edit(now, [])) && t.Keys == {Named(name)}
    ensures var c, base: Tree := EditOf(name, h), map[Named(name) := was];
      Accepts(c, base) && EffectOne(c, base, t) == map[Named(name) := now]
  {
  }

  lemma TwoSteps(c: FileChange, d: FileChange, base: Tree, mid: Tree)
    requires Accepts(c, base) && Accepts(d, base) && EffectOne(c, base, base) == mid && Accepts(d, mid)
    ensures AllAccepted([c, d], base) && Effect([c, d], base) == EffectOne(d, base, mid)
    ensures OneByOne([c, d], base) == Some(EffectOne(d, mid, mid))
  {
    assert [c, d][..1] == [c] && [c][..0] == [];
    assert OneByOne([], base) == Some(base) && Effect([], base) == base;
    assert OneByOne([c], base) == Some(mid) && Effect([c], base) == mid;
  }
}
