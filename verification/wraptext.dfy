/** Wrapping any text: tabs and other white space first, then the lines. */
module WrapText {
  import opened Prelude
  import opened Strings
  import opened SoftWrap

  // ------------------------------------------------ tabs and other white space

  /** The cells from column col to the next fourth column. */
  function ToStop(col: nat): (n: nat)
    ensures 0 < n && (col + n) % 4 == 0
  {
    4 - col % 4
  }

  /** A tab as spaces up to the next fourth column. */
  function Cells(c: char, col: nat): string {
    if c == '\t' then Spaces(ToStop(col)) else [c]
  }

  function Advance(width: char -> nat, c: char, col: nat): nat {
    if c == '\t' then ToStop(col) else width(c)
  }

  /** The text from column col on, with its tabs expanded. */
  function Expanded(width: char -> nat, s: string, col: nat): string {
    if s == "" then "" else Cells(s[0], col) + Expanded(width, s[1..], col + Advance(width, s[0], col))
  }

  /** Any white space as a plain space. */
  function Plainly(s: string): string {
    if s == "" then "" else (if IsSpace(s[0]) then " " else [s[0]]) + Plainly(s[1..])
  }

  function Prepared(width: char -> nat, s: string): string {
    Plainly(Expanded(width, s, 0))
  }

  lemma {:induction false} NothingToExpand(width: char -> nat, s: string, col: nat)
    requires '\t' !in s
    ensures Expanded(width, s, col) == s
  {
    if s != "" {
      NothingToExpand(width, s[1..], col + width(s[0]));
      assert [s[0]] + s[1..] == s;
    }
  }

  /** expandTabs */
  method ExpandTabs(width: char -> nat, s: string) returns (b: string)
    ensures b == Expanded(width, s, 0)
  {
    if '\t' !in s {
      NothingToExpand(width, s, 0);
      return s;
    }
    b := "";
    var col: nat := 0;
    for i := 0 to |s|
      invariant Expanded(width, s, 0) == b + Expanded(width, s[i..], col)
    {
      ghost var before, at := b, col;
      assert s[i..][1..] == s[i + 1..];
      if s[i] == '\t' {
        var n := ToStop(col);
        b, col := b + Spaces(n), col + n;
        Assoc(before, Spaces(n), Expanded(width, s[i + 1..], col));
      } else {
        b, col := b + [s[i]], col + width(s[i]);
        Assoc(before, [s[i]], Expanded(width, s[i + 1..], col));
      }
    }
    assert b + "" == b;
  }

  /** wrap */
  method Wrap(width: char -> nat, text: string, w: int) returns (out: seq<string>)
    requires width(' ') == 1
    ensures out == Wrapped(width, Prepared(width, text), w)
  {
    if w <= 0 || text == "" {
      return [""];
    }
    var s := ExpandTabs(width, text);
    out := WrapPlain(width, Plainly(s), w);
  }

  // ------------------------------------------------ what is kept of any text

  /** The text without its white space. */
  function Visible(s: string): string {
    if s == "" then "" else (if IsSpace(s[0]) then "" else [s[0]]) + Visible(s[1..])
  }

  function AllVisible(lines: seq<string>): string {
    if lines == [] then "" else Visible(lines[0]) + AllVisible(lines[1..])
  }

  lemma {:induction false} VisibleConcat(a: string, b: string)
    ensures Visible(a + b) == Visible(a) + Visible(b)
  {
    if a == "" {
      assert a + b == b && Visible(a) + Visible(b) == Visible(b);
    } else {
      assert (a + b)[0] == a[0] && (a + b)[1..] == a[1..] + b;
      VisibleConcat(a[1..], b);
      Assoc(if IsSpace(a[0]) then "" else [a[0]], Visible(a[1..]), Visible(b));
    }
  }

  lemma {:induction false} SpacesInvisible(n: nat)
    ensures Visible(Spaces(n)) == ""
  {
    if n > 0 {
      SpacesInvisible(n - 1);
      assert Spaces(n)[1..] == Spaces(n - 1);
    }
  }

  lemma {:induction false} PlainlyVisible(s: string)
    ensures Visible(Plainly(s)) == Visible(s)
    ensures forall i :: 0 <= i < |Plainly(s)| && IsSpace(Plainly(s)[i]) ==> Plainly(s)[i] == ' '
  {
    if s != "" {
      PlainlyVisible(s[1..]);
      assert Plainly(s)[1..] == Plainly(s[1..]);
    }
  }

  lemma {:induction false} ExpandedVisible(width: char -> nat, s: string, col: nat)
    ensures Visible(Expanded(width, s, col)) == Visible(s)
    decreases |s|
  {
    if s != "" {
      var next := col + Advance(width, s[0], col);
      ExpandedVisible(width, s[1..], next);
      CellsVisible(s[0], col);
      VisibleConcat(Cells(s[0], col), Expanded(width, s[1..], next));
    }
  }

  lemma CellsVisible(c: char, col: nat)
    ensures Visible(Cells(c, col)) == if IsSpace(c) then "" else [c]
  {
    SpacesInvisible(ToStop(col));
    assert [c][1..] == "" && IsSpace('\t');
  }

  lemma CellsWidth(width: char -> nat, c: char, col: nat)
    requires width(' ') == 1
    ensures Width(width, Cells(c, col)) == Advance(width, c, col)
  {
    WidthSpaces(width, ToStop(col));
    assert [c][1..] == "";
  }

  /** The column a text that starts at col ends at. */
  function Column(width: char -> nat, s: string, col: nat): nat {
    if s == "" then col else Column(width, s[1..], col + Advance(width, s[0], col))
  }

  lemma {:induction false} ColumnIsWidth(width: char -> nat, s: string, col: nat)
    requires width(' ') == 1
    ensures Column(width, s, col) == col + Width(width, Expanded(width, s, col))
    decreases |s|
  {
    if s != "" {
      var next := col + Advance(width, s[0], col);
      ColumnIsWidth(width, s[1..], next);
      CellsWidth(width, s[0], col);
      WidthConcat(width, Cells(s[0], col), Expanded(width, s[1..], next));
    }
  }

  lemma {:induction false} ExpandedConcat(width: char -> nat, a: string, b: string, col: nat)
    ensures Expanded(width, a + b, col) == Expanded(width, a, col) + Expanded(width, b, Column(width, a, col))
    decreases |a|
  {
    if a == "" {
      assert a + b == b && "" + Expanded(width, b, col) == Expanded(width, b, col);
    } else {
      var next := col + Advance(width, a[0], col);
      assert (a + b)[0] == a[0] && (a + b)[1..] == a[1..] + b;
      ExpandedConcat(width, a[1..], b, next);
      Assoc(Cells(a[0], col), Expanded(width, a[1..], next), Expanded(width, b, Column(width, a[1..], next)));
    }
  }

  lemma TabExpands(width: char -> nat, s: string, rest: string, col: nat)
    requires s != "" && s[0] == '\t' && s[1..] == rest && '\t' !in rest
    ensures Expanded(width, s, col) == Spaces(ToStop(col)) + rest
  {
    NothingToExpand(width, rest, col + ToStop(col));
  }

  /** A tab is one to four spaces, up to a fourth column, whatever came before; text without tabs follows as it is. */
  lemma TabsStop(width: char -> nat, before: string, n: nat, rest: string)
    requires width(' ') == 1 && '\t' !in rest
    requires 1 <= n <= 4 && (Width(width, Expanded(width, before, 0)) + n) % 4 == 0
    ensures Expanded(width, before + ("\t" + rest), 0) == Expanded(width, before, 0) + (Spaces(n) + rest)
  {
    var col := Column(width, before, 0);
    assert ToStop(col) == n by {
      ColumnIsWidth(width, before, 0);
    }
    TabExpands(width, "\t" + rest, rest, col);
    ExpandedConcat(width, before, "\t" + rest, 0);
  }

  lemma DroppedVisible(s: string)
    ensures Visible(DropSpaces(s)) == Visible(s)
  {
    LeadFacts(s);
    SpacesInvisible(LeadSpaces(s));
    VisibleConcat(Spaces(LeadSpaces(s)), DropSpaces(s));
  }

  lemma {:induction false} FlowVisible(width: char -> nat, text: string, lines: seq<string>, w: nat)
    requires Flow(width, text, lines, w)
    ensures AllVisible(lines) == Visible(text)
    decreases |lines|
  {
    var t := DropSpaces(text);
    DroppedVisible(text);
    if lines != [] {
      var line := DropSpaces(lines[0]);
      var rest := t[|line|..];
      assert line + rest == t;
      FlowVisible(width, rest, lines[1..], w);
      DroppedVisible(lines[0]);
      VisibleConcat(line, rest);
    }
  }

  /** For any text at all, the lines hold its visible characters, all of them and in order. */
  lemma NothingIsLost(width: char -> nat, text: string, w: int)
    requires width(' ') == 1 && w > 0
    ensures AllVisible(Wrapped(width, Prepared(width, text), w)) == Visible(text)
  {
    var s := Prepared(width, text);
    ExpandedVisible(width, text, 0);
    PlainlyVisible(Expanded(width, text, 0));
    if DropSpaces(s) == "" {
      DroppedVisible(s);
      BlankWrapsToNothing(width, s, w);
      assert [""][1..] == [];
    } else {
      WrapsWell(width, s, w);
      FlowVisible(width, s, Wrapped(width, s, w), w);
    }
  }
}
