/** The library string functions the diff reader is built on. */
module Strings {
  import opened Prelude

  /** unicode.IsSpace */
  predicate IsSpace(c: char) {
    || '\t' <= c <= '\r' || c == ' ' || c == '\U{0085}' || c == '\U{00A0}' || c == '\U{1680}'
    || '\U{2000}' <= c <= '\U{200A}' || c in ['\U{2028}', '\U{2029}', '\U{202F}', '\U{205F}', '\U{3000}']
  }

  /** strings.TrimSpace leaves nothing. */
  predicate Blank(text: string) {
    forall c :: c in text ==> IsSpace(c)
  }

  predicate HasAt(s: string, i: nat, p: string) {
    i + |p| <= |s| && s[i..i + |p|] == p
  }

  /** strings.HasPrefix */
  predicate HasPrefix(s: string, p: string): (r: bool)
    ensures r ==> |p| <= |s|
    decreases |s|
  {
    p == "" || (s != "" && s[0] == p[0] && HasPrefix(s[1..], p[1..]))
  }

  lemma {:induction false} HasPrefixIs(s: string, p: string)
    ensures HasPrefix(s, p) <==> p <= s
  {
    if s != "" && p != "" {
      HasPrefixIs(s[1..], p[1..]);
      assert p <= s <==> s[0] == p[0] && p[1..] <= s[1..];
    }
  }

  function IndexFrom(s: string, p: string, i: nat): (r: int)
    ensures r < 0 || r + |p| <= |s|
    decreases |s| - i
  {
    if i > |s| then -1 else if HasAt(s, i, p) then i else IndexFrom(s, p, i + 1)
  }

  /** strings.Index */
  function Index(s: string, p: string): int {
    IndexFrom(s, p, 0)
  }

  lemma {:induction false} IndexFromIsFirst(s: string, p: string, i: nat)
    ensures var r := IndexFrom(s, p, i);
      && (r < 0 || (i <= r && HasAt(s, r, p)))
      && forall j :: i <= j && (r < 0 || j < r) ==> !HasAt(s, j, p)
    decreases |s| - i
  {
    if i <= |s| && !HasAt(s, i, p) {
      IndexFromIsFirst(s, p, i + 1);
    }
  }

  /** The first place of p in s, or negative when there is none. */
  lemma IndexIsFirst(s: string, p: string)
    ensures var r := Index(s, p);
      && (r < 0 || HasAt(s, r, p))
      && forall j :: 0 <= j && (r < 0 || j < r) ==> !HasAt(s, j, p)
  {
    IndexFromIsFirst(s, p, 0);
  }

  function LastIndexUpTo(s: string, p: string, i: nat): (r: int)
    ensures r < 0 || r + |p| <= |s|
  {
    if HasAt(s, i, p) then i else if i == 0 then -1 else LastIndexUpTo(s, p, i - 1)
  }

  /** strings.LastIndex */
  function LastIndex(s: string, p: string): int {
    LastIndexUpTo(s, p, |s|)
  }

  lemma {:induction false} LastIndexIsLast(s: string, p: string, i: nat)
    ensures var r := LastIndexUpTo(s, p, i);
      && r <= i && (r < 0 || HasAt(s, r, p))
      && forall j :: 0 <= j <= i && r < j ==> !HasAt(s, j, p)
  {
    if !HasAt(s, i, p) && i > 0 {
      LastIndexIsLast(s, p, i - 1);
    }
  }

  function TrimPrefix(s: string, p: string): string {
    if p <= s then s[|p|..] else s
  }

  /** strings.Trim(s, "\"") */
  function TrimQuotes(s: string): string {
    if s != "" && s[0] == '"' then TrimQuotes(s[1..])
    else if s != "" && s[|s| - 1] == '"' then TrimQuotes(s[..|s| - 1])
    else s
  }

  function TokenEnd(s: string): (n: nat)
    ensures n <= |s|
  {
    if s == "" || IsSpace(s[0]) then 0 else 1 + TokenEnd(s[1..])
  }

  /** strings.Fields */
  function Fields(s: string): seq<string>
    decreases |s|
  {
    if s == "" then []
    else if IsSpace(s[0]) then Fields(s[1..])
    else
      var n := TokenEnd(s);
      [s[..n]] + Fields(s[n..])
  }

  lemma FieldsToken(token: string, after: string)
    requires token != "" && (forall c :: c in token ==> !IsSpace(c)) && (after == "" || IsSpace(after[0]))
    ensures Fields(token + after) == [token] + Fields(after)
  {
    var s := token + after;
    TokenEndIs(token, after);
    assert s[0] in token;
    assert s[..|token|] == token && s[|token|..] == after;
  }

  lemma {:induction false} TokenEndIs(token: string, after: string)
    requires (forall c :: c in token ==> !IsSpace(c)) && (after == "" || IsSpace(after[0]))
    ensures TokenEnd(token + after) == |token|
  {
    if token == "" {
      assert token + after == after;
    } else {
      assert token[0] in token && (token + after)[1..] == token[1..] + after;
      TokenEndIs(token[1..], after);
    }
  }

  /** strings.Split on a one-character separator. */
  function SplitOn(s: string, c: char): (parts: seq<string>)
    ensures |parts| >= 1
  {
    if s == "" then [""]
    else
      var more := SplitOn(s[1..], c);
      if s[0] == c then [""] + more else [[s[0]] + more[0]] + more[1..]
  }

  lemma {:induction false} SplitFirst(a: string, c: char, rest: string)
    requires c !in a
    ensures SplitOn(a + [c] + rest, c) == [a] + SplitOn(rest, c)
  {
    var s := a + [c] + rest;
    if a == "" {
      assert s[1..] == rest;
    } else {
      SplitFirst(a[1..], c, rest);
      assert s[1..] == a[1..] + [c] + rest;
      assert [a[0]] + a[1..] == a;
    }
  }

  lemma {:induction false} SplitNone(a: string, c: char)
    requires c !in a
    ensures SplitOn(a, c) == [a]
  {
    if a != "" {
      SplitNone(a[1..], c);
      assert [a[0]] + a[1..] == a;
    }
  }

  /** Every line with a newline after it. */
  function Unlines(lines: seq<string>): string {
    if lines == [] then "" else lines[0] + "\n" + Unlines(lines[1..])
  }

  lemma {:induction false} UnlinesConcat(a: seq<string>, b: seq<string>)
    ensures Unlines(a + b) == Unlines(a) + Unlines(b)
  {
    if a == [] {
      assert a + b == b;
    } else {
      UnlinesConcat(a[1..], b);
      assert (a + b)[1..] == a[1..] + b;
      assert a[0] + "\n" + (Unlines(a[1..]) + Unlines(b)) == a[0] + "\n" + Unlines(a[1..]) + Unlines(b);
    }
  }

  lemma UnlinesSnoc(lines: seq<string>, line: string)
    ensures Unlines(lines + [line]) == Unlines(lines) + line + "\n"
  {
    UnlinesConcat(lines, [line]);
    assert [line][1..] == [];
    assert Unlines([line]) == line + "\n" + Unlines([]) == line + "\n";
    assert Unlines(lines) + (line + "\n") == Unlines(lines) + line + "\n";
  }

  predicate OneLine(line: string) { '\n' !in line }

  ghost predicate AllOneLine(lines: seq<string>) { forall i :: 0 <= i < |lines| ==> OneLine(lines[i]) }

  lemma {:induction false} SplitText(lines: seq<string>)
    requires AllOneLine(lines)
    ensures SplitOn(Unlines(lines), '\n') == lines + [""]
  {
    if lines != [] {
      assert OneLine(lines[0]);
      assert AllOneLine(lines[1..]) by {
        assert forall i :: 0 <= i < |lines| - 1 ==> lines[1..][i] == lines[i + 1];
      }
      SplitText(lines[1..]);
      SplitFirst(lines[0], '\n', Unlines(lines[1..]));
      assert Unlines(lines) == lines[0] + ['\n'] + Unlines(lines[1..]);
      assert [lines[0]] + (lines[1..] + [""]) == lines + [""];
    }
  }

  lemma {:induction false} SplitIsLines(s: string)
    ensures AllOneLine(SplitOn(s, '\n'))
  {
    if s != "" {
      SplitIsLines(s[1..]);
      var more := SplitOn(s[1..], '\n');
      assert OneLine(more[0]);
      forall i | 0 <= i < |SplitOn(s, '\n')| ensures OneLine(SplitOn(s, '\n')[i]) {
        if s[0] == '\n' {
          assert i > 0 ==> SplitOn(s, '\n')[i] == more[i - 1];
        } else {
          assert i > 0 ==> SplitOn(s, '\n')[i] == more[i];
        }
      }
    }
  }

  // --------------------------------------------------------------- numbers

  predicate IsDigit(c: char) { '0' <= c <= '9' }

  predicate AllDigits(s: string) { forall i :: 0 <= i < |s| ==> IsDigit(s[i]) }

  function Digits(n: nat): (s: string)
    ensures s != "" && AllDigits(s)
  {
    if n < 10 then [n as char + '0'] else Digits(n / 10) + [(n % 10) as char + '0']
  }

  function Value(s: string): nat
    requires AllDigits(s)
  {
    if s == "" then 0 else 10 * Value(s[..|s| - 1]) + (s[|s| - 1] - '0') as nat
  }

  /** %d */
  function Decimal(n: int): string {
    if n < 0 then "-" + Digits(-n) else Digits(n)
  }

  predicate IsInt(n: int) { -0x8000_0000_0000_0000 <= n < 0x8000_0000_0000_0000 }

  /** strconv.Atoi */
  function Atoi(s: string): Option<int> {
    var sign := s != "" && (s[0] == '-' || s[0] == '+');
    var digits := if sign then s[1..] else s;
    if digits == "" || !AllDigits(digits) then None
    else
      var size: int := Value(digits);
      var n := if sign && s[0] == '-' then -size else size;
      if IsInt(n) then Some(n) else None
  }

  lemma {:induction false} ValueOfDigits(n: nat)
    ensures Value(Digits(n)) == n
  {
    if n < 10 {
      assert Digits(n)[..0] == "";
    } else {
      ValueOfDigits(n / 10);
      assert Digits(n)[..|Digits(n)| - 1] == Digits(n / 10);
    }
  }

  lemma AtoiNegative(n: int)
    requires n >= 0
    ensures Atoi("-" + Digits(n)) == if IsInt(-n) then Some(-n) else None
  {
    var s := "-" + Digits(n);
    ValueOfDigits(n);
    assert s[0] == '-' && s[1..] == Digits(n);
  }

  lemma AtoiNatural(n: nat)
    ensures Atoi(Digits(n)) == if IsInt(n) then Some(n) else None
  {
    ValueOfDigits(n);
    assert IsDigit(Digits(n)[0]);
  }

  /** Reading a printed number gives it back. */
  lemma AtoiDecimal(n: int)
    ensures Atoi(Decimal(n)) == if IsInt(n) then Some(n) else None
  {
    if n < 0 {
      AtoiNegative(-n);
    } else {
      AtoiNatural(n);
    }
  }
}
