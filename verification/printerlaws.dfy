/** What each kind of change looks like, printed. */
module PrinterLaws {
  import opened Prelude
  import opened Strings
  import opened PatchTypes
  import opened DiffPrinter

  /** A body line is its prefix and its text, and the marker has a space between. */
  lemma {:induction false} PrintsBody(ls: seq<HunkLine>, i: nat)
    requires i < |ls|
    ensures |BodyLines(ls)| == |ls|
    ensures BodyLines(ls)[i] == if ls[i].prefix == '\\' then "\\ " + ls[i].content else [ls[i].prefix] + ls[i].content
  {
    if i > 0 {
      PrintsBody(ls[1..], i - 1);
      assert BodyLines(ls)[i] == BodyLines(ls[1..])[i - 1];
    } else if |ls| > 1 {
      PrintsBody(ls[1..], 0);
    } else {
      assert ls[1..] == [];
    }
  }

  lemma PrintsHunk(h: Hunk, more: seq<Hunk>)
    ensures HunksLines([h] + more)
         == ["@@ -" + Decimal(h.oldStart) + "," + Decimal(h.oldLines)
             + " +" + Decimal(h.newStart) + "," + Decimal(h.newLines) + " @@"] + BodyLines(h.lines) + HunksLines(more)
    ensures HunksLines([]) == []
  {
    HeaderText(h);
    assert ([h] + more)[0] == h && ([h] + more)[1..] == more;
  }

  lemma PrintsOne(c: FileChange, top: seq<string>, markers: seq<string>, content: seq<string>)
    requires TopLines(c) == top && MarkerLines(c) == markers && ContentLines(c) == content
    ensures RenderLines([c]) == top + markers + content
  {
    assert [c][1..] == [];
    Assoc(top, markers, content);
    assert top + (markers + content) + [] == top + (markers + content);
  }

  /** A change of a file, with or without a "diff --git " line. */
  lemma PrintsModify(p: string, hs: seq<Hunk>)
    requires p != "" && hs != []
    ensures RenderLines([FileChange(Modify, p, "", hs, 0, false, "", "", true, 0)])
         == ["diff --git a/" + p + " b/" + p] + ["--- " + ("a/" + p), "+++ " + ("b/" + p)] + HunksLines(hs)
    ensures RenderLines([FileChange(Modify, p, "", hs, 0, false, "", "", false, 0)])
         == [] + ["--- " + ("a/" + p), "+++ " + ("b/" + p)] + HunksLines(hs)
  {
    var c := FileChange(Modify, p, "", hs, 0, false, "", "", true, 0);
    var markers := ["--- " + ("a/" + p), "+++ " + ("b/" + p)];
    PrintsOne(c, ["diff --git a/" + p + " b/" + p], markers, HunksLines(hs));
    PrintsOne(c.(hasHeader := false), [], markers, HunksLines(hs));
  }

  /** The names of a change that was parsed are printed as they were. */
  lemma PrintsNames(p: string, a: string, b: string, hs: seq<Hunk>)
    requires hs != [] && a != "" && a != "a/" && b != "" && b != "b/"
    ensures RenderLines([FileChange(Modify, p, "", hs, 0, false, a, b, false, 0)])
         == [] + ["--- " + a, "+++ " + b] + HunksLines(hs)
  {
    PrintsOne(FileChange(Modify, p, "", hs, 0, false, a, b, false, 0), [], ["--- " + a, "+++ " + b], HunksLines(hs));
  }

  /** A new file, and a deleted one. */
  lemma PrintsCreate(p: string, mode: string, bits: nat, hs: seq<Hunk>)
    requires bits == 493 <==> mode == "100755"
    requires bits != 493 <==> mode == "100644"
    ensures RenderLines([FileChange(Create, p, "", hs, 0, false, "", "", true, bits)])
         == ["diff --git a/" + p + " b/" + p, "new file mode " + mode]
            + ["--- " + "/dev/null", "+++ " + ("b/" + p)] + HunksLines(hs)
  {
    PrintsOne(FileChange(Create, p, "", hs, 0, false, "", "", true, bits),
              ["diff --git a/" + p + " b/" + p, "new file mode " + mode],
              ["--- " + "/dev/null", "+++ " + ("b/" + p)], HunksLines(hs));
  }

  lemma PrintsDelete(p: string, hs: seq<Hunk>)
    ensures RenderLines([FileChange(Delete, p, "", hs, 0, false, "", "", true, 0)])
         == ["diff --git a/" + p + " b/" + p, "deleted file mode " + "100644"]
            + ["--- " + ("a/" + p), "+++ " + "/dev/null"] + HunksLines(hs)
  {
    PrintsOne(FileChange(Delete, p, "", hs, 0, false, "", "", true, 0),
              ["diff --git a/" + p + " b/" + p, "deleted file mode " + "100644"],
              ["--- " + ("a/" + p), "+++ " + "/dev/null"], HunksLines(hs));
  }

  /** A rename; edited and with no names of its own, it shows the new name on both sides. */
  lemma PrintsRename(p: string, q: string, hs: seq<Hunk>)
    requires hs != []
    ensures var top := ["diff --git a/" + p + " b/" + q, "rename from " + p, "rename to " + q];
      && RenderLines([FileChange(Rename, q, p, [], 0, false, "", "", true, 0)]) == top + [] + []
      && RenderLines([FileChange(Rename, q, p, hs, 0, false, "", "", true, 0)])
           == top + ["--- " + ("a/" + q), "+++ " + ("b/" + q)] + HunksLines(hs)
  {
    var top := ["diff --git a/" + p + " b/" + q, "rename from " + p, "rename to " + q];
    var c := FileChange(Rename, q, p, [], 0, false, "", "", true, 0);
    PrintsOne(c, top, [], []);
    PrintsOne(c.(hunks := hs), top, ["--- " + ("a/" + q), "+++ " + ("b/" + q)], HunksLines(hs));
  }

  /** A change of mode, and a binary change. */
  lemma PrintsMode(p: string)
    ensures RenderLines([FileChange(Modify, p, "", [], 493, false, "", "", true, 0)])
         == ["diff --git a/" + p + " b/" + p, "old mode " + "100644", "new mode " + "100755"] + [] + []
    ensures RenderLines([FileChange(Modify, p, "", [], 420, false, "", "", true, 0)])
         == ["diff --git a/" + p + " b/" + p, "old mode " + "100755", "new mode " + "100644"] + [] + []
  {
    var line := "diff --git a/" + p + " b/" + p;
    PrintsOne(FileChange(Modify, p, "", [], 493, false, "", "", true, 0),
              [line, "old mode " + "100644", "new mode " + "100755"], [], []);
    PrintsOne(FileChange(Modify, p, "", [], 420, false, "", "", true, 0),
              [line, "old mode " + "100755", "new mode " + "100644"], [], []);
  }

  lemma PrintsBinary(p: string)
    ensures RenderLines([FileChange(Modify, p, "", [], 0, true, "", "", true, 0)])
         == ["diff --git a/" + p + " b/" + p] + [] + ["Binary files a/" + p + " and b/" + p + " differ"]
  {
    PrintsOne(FileChange(Modify, p, "", [], 0, true, "", "", true, 0), ["diff --git a/" + p + " b/" + p], [],
              ["Binary files a/" + p + " and b/" + p + " differ"]);
  }

  /** Changes are printed one after another. */
  lemma PrintsInOrder(c: FileChange, more: seq<FileChange>)
    ensures RenderLines([c] + more) == RenderLines([c]) + RenderLines(more) && RenderLines([]) == []
  {
    assert ([c] + more)[0] == c && ([c] + more)[1..] == more && [c][1..] == [];
    assert ChangeLines(c) + [] == ChangeLines(c);
  }

  // ---------------------------------------------------------------- numbers

  lemma {:induction false} NoZeroInFront(n: nat)
    requires n > 0
    ensures Digits(n)[0] != '0'
  {
    if n >= 10 {
      NoZeroInFront(n / 10);
    }
  }

  /** A number is printed with a minus sign or none, and without zeros in front. */
  lemma PrintsNumber(n: int)
    requires n >= 0
    ensures n > 0 ==> Decimal(n)[0] != '0' && Decimal(-n) == "-" + Decimal(n)
    ensures Decimal(0) == "0" && (forall i :: 0 <= i < |Decimal(n)| ==> '0' <= Decimal(n)[i] <= '9')
  {
    if n > 0 {
      NoZeroInFront(n);
    }
  }

  /** It may be read with a plus sign as well, and with zeros in front. */
  lemma ReadsNumber(digits: string)
    requires digits != "" && forall i :: 0 <= i < |digits| ==> '0' <= digits[i] <= '9'
    ensures Atoi("+" + digits) == Atoi(digits) && Atoi("0" + digits) == Atoi(digits)
  {
    assert ("+" + digits)[1..] == digits && IsDigit(digits[0]);
    assert IsDigit(("0" + digits)[0]);
    ZeroInFront(digits);
  }

  lemma {:induction false} ZeroInFront(digits: string)
    requires AllDigits(digits)
    ensures AllDigits("0" + digits) && Value("0" + digits) == Value(digits)
  {
    if digits == "" {
      assert "0"[..0] == "";
    } else {
      var n := |digits| - 1;
      assert ("0" + digits)[..n + 1] == "0" + digits[..n];
      ZeroInFront(digits[..n]);
    }
  }
}
