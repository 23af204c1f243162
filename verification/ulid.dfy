/** The session identifier: a time and randomness in order-preserving base 32. */
module Identifier {
  import opened Prelude

  const ALPHABET := "0123456789ABCDEFGHJKMNPQRSTVWXYZ"
  const ULID_LENGTH := 26

  // ------------------------------------------------------------ the encoding

  /** x >> k */
  function ShiftRight(x: nat, k: nat): nat {
    if k == 0 then x else ShiftRight(x, k - 1) / 2
  }

  /** bitAt: bit 0 is the highest bit of the first byte; past the end all bits are zero. */
  function BitAt(data: seq<Byte>, i: nat): (r: nat)
    ensures r < 2
  {
    if i >= 8 * |data| then 0 else ShiftRight(data[i / 8], 7 - i % 8) % 2
  }

  /** The five bits from bit m on. */
  function FiveBits(data: seq<Byte>, m: nat): (v: nat)
    ensures v < 32
  {
    16 * BitAt(data, m) + 8 * BitAt(data, m + 1) + 4 * BitAt(data, m + 2) + 2 * BitAt(data, m + 3) + BitAt(data, m + 4)
  }

  /** The i-th group of five bits. */
  function Group(data: seq<Byte>, i: nat): (v: nat)
    ensures v < 32
  {
    FiveBits(data, 5 * i)
  }

  function Groups(data: seq<Byte>, n: nat): (gs: seq<nat>)
    ensures |gs| == n && forall i :: 0 <= i < n ==> gs[i] < 32
  {
    if n == 0 then [] else Groups(data, n - 1) + [Group(data, n - 1)]
  }

  function Symbols(gs: seq<nat>): (s: string)
    requires forall i :: 0 <= i < |gs| ==> gs[i] < 32
    ensures |s| == |gs|
  {
    if gs == [] then "" else Symbols(gs[..|gs| - 1]) + [ALPHABET[gs[|gs| - 1]]]
  }

  function Encoded(data: seq<Byte>): string {
    Symbols(Groups(data, ULID_LENGTH))
  }

  /** The inner loop of encodeCrockford. */
  method ReadGroup(b: array<Byte>, i: nat) returns (v: nat)
    ensures v == Group(b[..], i)
  {
    v := 0;
    for j := 0 to 5
      invariant v == Leading(b[..], i, j)
    {
      v := v * 2 + BitAt(b[..], i * 5 + j);
    }
    LeadingIsGroup(b[..], i);
  }

  lemma SymbolsSnoc(data: seq<Byte>, i: nat)
    ensures Symbols(Groups(data, i + 1)) == Symbols(Groups(data, i)) + [ALPHABET[Group(data, i)]]
  {
    assert Groups(data, i + 1)[..i] == Groups(data, i);
  }

  /** encodeCrockford */
  method EncodeCrockford(b: array<Byte>) returns (s: string)
    requires b.Length == 16
    ensures s == Encoded(b[..])
  {
    var out := new char[ULID_LENGTH];
    ghost var data := b[..];
    for i := 0 to ULID_LENGTH
      invariant b[..] == data && out[..i] == Symbols(Groups(data, i))
    {
      var v := ReadGroup(b, i);
      out[i] := ALPHABET[v];
      assert out[..i + 1] == out[..i] + [ALPHABET[v]];
      SymbolsSnoc(data, i);
    }
    s := out[..];
    assert out[..] == out[..ULID_LENGTH];
  }

  /** The first j bits of the i-th group, as the inner loop gathers them. */
  function Leading(data: seq<Byte>, i: nat, j: nat): nat {
    if j == 0 then 0 else 2 * Leading(data, i, j - 1) + BitAt(data, 5 * i + j - 1)
  }

  lemma LeadingIsGroup(data: seq<Byte>, i: nat)
    ensures Leading(data, i, 5) == Group(data, i)
  {
    assert Leading(data, i, 1) == BitAt(data, 5 * i);
    assert Leading(data, i, 2) == 2 * BitAt(data, 5 * i) + BitAt(data, 5 * i + 1);
    assert Leading(data, i, 3) == 2 * Leading(data, i, 2) + BitAt(data, 5 * i + 2);
    assert Leading(data, i, 4) == 2 * Leading(data, i, 3) + BitAt(data, 5 * i + 3);
  }

  // ------------------------------------------------------ order and numbers

  /** Strings of one length, in dictionary order. */
  ghost predicate Less(s: seq<int>, t: seq<int>) {
    exists k :: 0 <= k < |s| && k < |t| && s[..k] == t[..k] && s[k] < t[k]
  }

  predicate IsDigits(ds: seq<nat>, base: nat) {
    forall i :: 0 <= i < |ds| ==> ds[i] < base
  }

  /** The number a sequence of digits stands for. */
  function Num(ds: seq<nat>, base: nat): nat {
    if ds == [] then 0 else Num(ds[..|ds| - 1], base) * base + ds[|ds| - 1]
  }

  lemma LessSnoc(s: seq<int>, t: seq<int>)
    requires |s| == |t| > 0
    ensures var n := |s| - 1;
      Less(s, t) <==> Less(s[..n], t[..n]) || (s[..n] == t[..n] && s[n] < t[n])
  {
    var n := |s| - 1;
    if Less(s, t) {
      var k :| 0 <= k < |s| && k < |t| && s[..k] == t[..k] && s[k] < t[k];
      if k < n {
        assert s[..n][..k] == s[..k] && t[..n][..k] == t[..k];
        assert s[..n][k] < t[..n][k];
      }
    }
    if Less(s[..n], t[..n]) {
      var k :| 0 <= k < n && s[..n][..k] == t[..n][..k] && s[..n][k] < t[..n][k];
      assert s[..k] == s[..n][..k] && t[..k] == t[..n][..k];
      assert s[k] < t[k];
    }
  }

  lemma BiggerHead(x: nat, y: nat, d: nat, e: nat, base: nat)
    requires x < y && d < base
    ensures x * base + d < y * base + e
  {
    assert (x + 1) * base <= y * base;
  }

  /** Digit sequences of one length are ordered as their numbers are. */
  lemma {:induction false} LessIsSmaller(ds: seq<nat>, es: seq<nat>, base: nat)
    requires |ds| == |es| && IsDigits(ds, base) && IsDigits(es, base)
    ensures Less(ds, es) <==> Num(ds, base) < Num(es, base)
    ensures ds == es <==> Num(ds, base) == Num(es, base)
    decreases |ds|
  {
    if ds == [] {
      assert !Less(ds, es);
    } else {
      var n := |ds| - 1;
      var x, y := Num(ds[..n], base), Num(es[..n], base);
      LessIsSmaller(ds[..n], es[..n], base);
      LessSnoc(ds, es);
      assert ds == ds[..n] + [ds[n]] && es == es[..n] + [es[n]];
      HeadsDecide(x, y, ds[n], es[n], base);
    }
  }

  lemma HeadsDecide(x: nat, y: nat, d: nat, e: nat, base: nat)
    requires d < base && e < base
    ensures x * base + d < y * base + e <==> x < y || (x == y && d < e)
    ensures x * base + d == y * base + e <==> x == y && d == e
  {
    if x < y {
      BiggerHead(x, y, d, e, base);
    } else if y < x {
      BiggerHead(y, x, e, d, base);
    }
  }

  // ------------------------------------------------------------------ bits

  /** The bits from i on. */
  function Bits(data: seq<Byte>, n: nat): (bs: seq<nat>)
    ensures |bs| == n
  {
    if n == 0 then [] else Bits(data, n - 1) + [BitAt(data, n - 1)]
  }

  lemma BitStep(data: seq<Byte>, n: nat)
    ensures Num(Bits(data, n + 1), 2) == 2 * Num(Bits(data, n), 2) + BitAt(data, n)
  {
    assert Bits(data, n + 1)[..n] == Bits(data, n);
  }

  lemma FiveMoreBits(data: seq<Byte>, m: nat)
    ensures Num(Bits(data, m + 5), 2) == 32 * Num(Bits(data, m), 2) + FiveBits(data, m)
  {
    BitStep(data, m);
    BitStep(data, m + 1);
    BitStep(data, m + 2);
    BitStep(data, m + 3);
    BitStep(data, m + 4);
  }

  /** Five bits at a time, the number stays the same. */
  lemma {:induction false} GroupsKeepNumber(data: seq<Byte>, n: nat)
    ensures Num(Groups(data, n), 32) == Num(Bits(data, 5 * n), 2)
  {
    if n > 0 {
      GroupsKeepNumber(data, n - 1);
      assert Groups(data, n)[..n - 1] == Groups(data, n - 1);
      FiveMoreBits(data, 5 * (n - 1));
    }
  }

  /** The eight bits of a byte. */
  lemma ByteIsBits(x: Byte)
    ensures x == 128 * (ShiftRight(x, 7) % 2) + 64 * (ShiftRight(x, 6) % 2) + 32 * (ShiftRight(x, 5) % 2)
                 + 16 * (ShiftRight(x, 4) % 2) + 8 * (ShiftRight(x, 3) % 2) + 4 * (ShiftRight(x, 2) % 2)
                 + 2 * (ShiftRight(x, 1) % 2) + ShiftRight(x, 0) % 2
  {
    Halved(x, 0);
    Halved(x, 1);
    Halved(x, 2);
    Halved(x, 3);
    Halved(x, 4);
    Halved(x, 5);
    Halved(x, 6);
    assert ShiftRight(x, 7) < 2;
  }

  lemma Halved(x: nat, k: nat)
    ensures ShiftRight(x, k) == 2 * ShiftRight(x, k + 1) + ShiftRight(x, k) % 2
  {
  }

  lemma BitOfByte(data: seq<Byte>, k: nat, j: nat)
    requires k < |data| && j < 8
    ensures BitAt(data, 8 * k + j) == ShiftRight(data[k], 7 - j) % 2
  {
    assert (8 * k + j) / 8 == k && (8 * k + j) % 8 == j;
  }

  lemma BitsOfByte(data: seq<Byte>, k: nat)
    requires k < |data|
    ensures var m := 8 * k;
      data[k] == 128 * BitAt(data, m) + 64 * BitAt(data, m + 1) + 32 * BitAt(data, m + 2) + 16 * BitAt(data, m + 3)
                 + 8 * BitAt(data, m + 4) + 4 * BitAt(data, m + 5) + 2 * BitAt(data, m + 6) + BitAt(data, m + 7)
  {
    ByteIsBits(data[k]);
    BitOfByte(data, k, 0);
    BitOfByte(data, k, 1);
    BitOfByte(data, k, 2);
    BitOfByte(data, k, 3);
    BitOfByte(data, k, 4);
    BitOfByte(data, k, 5);
    BitOfByte(data, k, 6);
    BitOfByte(data, k, 7);
  }

  lemma EightMoreBits(data: seq<Byte>, m: nat)
    ensures Num(Bits(data, m + 8), 2) == 256 * Num(Bits(data, m), 2)
      + 128 * BitAt(data, m) + 64 * BitAt(data, m + 1) + 32 * BitAt(data, m + 2) + 16 * BitAt(data, m + 3)
      + 8 * BitAt(data, m + 4) + 4 * BitAt(data, m + 5) + 2 * BitAt(data, m + 6) + BitAt(data, m + 7)
  {
    FiveMoreBits(data, m);
    BitStep(data, m + 5);
    BitStep(data, m + 6);
    BitStep(data, m + 7);
  }

  lemma {:induction false} BytesKeepNumber(data: seq<Byte>, n: nat)
    requires n <= |data|
    ensures Num(data[..n], 256) == Num(Bits(data, 8 * n), 2)
  {
    if n > 0 {
      BytesKeepNumber(data, n - 1);
      assert data[..n][..n - 1] == data[..n - 1];
      BitsOfByte(data, n - 1);
      EightMoreBits(data, 8 * (n - 1));
    }
  }

  /** The two padding bits at the low end are zero. */
  lemma GroupsOfSixteen(data: seq<Byte>)
    requires |data| == 16
    ensures Num(Groups(data, ULID_LENGTH), 32) == 4 * Num(data, 256)
  {
    GroupsKeepNumber(data, ULID_LENGTH);
    BytesKeepNumber(data, 16);
    assert data[..16] == data;
    BitStep(data, 128);
    BitStep(data, 129);
  }

  // ---------------------------------------------------------------- symbols

  lemma AlphabetRises(i: nat, j: nat)
    requires i < j < |ALPHABET|
    ensures ALPHABET[i] < ALPHABET[j]
  {
    AlphabetStep(j - 1);
    if i < j - 1 {
      AlphabetRises(i, j - 1);
    }
  }

  lemma AlphabetStep(i: nat)
    requires i + 1 < |ALPHABET|
    ensures ALPHABET[i] < ALPHABET[i + 1]
  {
  }

  lemma {:induction false} SymbolAt(gs: seq<nat>, k: nat)
    requires k < |gs| && IsDigits(gs, 32)
    ensures Symbols(gs)[k] == ALPHABET[gs[k]]
  {
    if k < |gs| - 1 {
      SymbolAt(gs[..|gs| - 1], k);
    }
  }

  /** Strings in dictionary order, character by character. */
  ghost predicate Before(s: string, t: string) {
    Less(Codes(s), Codes(t))
  }

  function Codes(s: string): (codes: seq<int>)
    ensures |codes| == |s|
  {
    seq(|s|, i requires 0 <= i < |s| => s[i] as int)
  }

  lemma SameCodes(s: string, t: string, k: nat)
    requires k <= |s| && k <= |t|
    ensures Codes(s)[..k] == Codes(t)[..k] <==> s[..k] == t[..k]
  {
    if Codes(s)[..k] == Codes(t)[..k] {
      forall i | 0 <= i < k ensures s[i] == t[i] {
        assert Codes(s)[..k][i] == Codes(t)[..k][i];
      }
    } else if s[..k] == t[..k] {
      forall i | 0 <= i < k ensures Codes(s)[i] == Codes(t)[i] {
        assert s[..k][i] == t[..k][i];
      }
    }
  }

  lemma SymbolsKeepPrefix(gs: seq<nat>, hs: seq<nat>, k: nat)
    requires k <= |gs| && k <= |hs| && IsDigits(gs, 32) && IsDigits(hs, 32)
    ensures gs[..k] == hs[..k] <==> Symbols(gs)[..k] == Symbols(hs)[..k]
  {
    forall i | 0 <= i < k ensures gs[i] == hs[i] <==> Symbols(gs)[i] == Symbols(hs)[i] {
      SymbolAt(gs, i);
      SymbolAt(hs, i);
      SameSymbol(gs[i], hs[i]);
    }
    if Symbols(gs)[..k] == Symbols(hs)[..k] {
      forall i | 0 <= i < k ensures gs[i] == hs[i] {
        assert Symbols(gs)[..k][i] == Symbols(hs)[..k][i];
      }
    }
    if gs[..k] == hs[..k] {
      forall i | 0 <= i < k ensures Symbols(gs)[i] == Symbols(hs)[i] {
        assert gs[..k][i] == hs[..k][i];
      }
    }
  }

  lemma SameSymbol(i: nat, j: nat)
    requires i < 32 && j < 32
    ensures ALPHABET[i] == ALPHABET[j] <==> i == j
    ensures ALPHABET[i] < ALPHABET[j] <==> i < j
  {
    if i < j {
      AlphabetRises(i, j);
    } else if j < i {
      AlphabetRises(j, i);
    }
  }

  lemma SymbolsKeepOrder(gs: seq<nat>, hs: seq<nat>)
    requires |gs| == |hs| && IsDigits(gs, 32) && IsDigits(hs, 32)
    ensures Before(Symbols(gs), Symbols(hs)) <==> Less(gs, hs)
    ensures Symbols(gs) == Symbols(hs) <==> gs == hs
  {
    var s, t := Codes(Symbols(gs)), Codes(Symbols(hs));
    if k :| 0 <= k < |gs| && gs[..k] == hs[..k] && gs[k] < hs[k] {
      FirstDifference(gs, hs, k);
      assert s[..k] == t[..k] && s[k] < t[k];
    }
    if k :| 0 <= k < |gs| && s[..k] == t[..k] && s[k] < t[k] {
      FirstDifference(gs, hs, k);
      assert gs[..k] == hs[..k] && gs[k] < hs[k];
    }
    SymbolsKeepPrefix(gs, hs, |gs|);
    assert gs[..|gs|] == gs && hs[..|hs|] == hs;
    assert Symbols(gs)[..|gs|] == Symbols(gs) && Symbols(hs)[..|gs|] == Symbols(hs);
  }

  lemma FirstDifference(gs: seq<nat>, hs: seq<nat>, k: nat)
    requires k < |gs| == |hs| && IsDigits(gs, 32) && IsDigits(hs, 32)
    ensures gs[..k] == hs[..k] <==> Codes(Symbols(gs))[..k] == Codes(Symbols(hs))[..k]
    ensures gs[k] < hs[k] <==> Codes(Symbols(gs))[k] < Codes(Symbols(hs))[k]
  {
    SymbolsKeepPrefix(gs, hs, k);
    SameCodes(Symbols(gs), Symbols(hs), k);
    SymbolAt(gs, k);
    SymbolAt(hs, k);
    SameSymbol(gs[k], hs[k]);
  }

  /** For all 16-byte values the encodings compare exactly as the bytes do, and differ when the
      bytes differ. */
  lemma EncodingKeepsOrder(a: seq<Byte>, b: seq<Byte>)
    requires |a| == 16 && |b| == 16
    ensures Before(Encoded(a), Encoded(b)) <==> Less(a, b)
    ensures Encoded(a) == Encoded(b) <==> a == b
    ensures |Encoded(a)| == ULID_LENGTH
  {
    var gs, hs := Groups(a, ULID_LENGTH), Groups(b, ULID_LENGTH);
    SymbolsKeepOrder(gs, hs);
    LessIsSmaller(gs, hs, 32);
    GroupsOfSixteen(a);
    GroupsOfSixteen(b);
    LessIsSmaller(a, b, 256);
  }

  // ------------------------------------------------------------------ times

  /** The low n bytes of x, the highest first. */
  function BigEndian(x: nat, n: nat): (bs: seq<Byte>)
    ensures |bs| == n
  {
    if n == 0 then [] else BigEndian(x / 256, n - 1) + [x % 256]
  }

  function Pow256(n: nat): (r: nat)
    ensures r > 0
  {
    if n == 0 then 1 else 256 * Pow256(n - 1)
  }

  lemma DivisionIsUnique(x: nat, d: nat, k: nat, t: nat)
    requires x == d * k + t && t < d
    ensures x / d == k && x % d == t
  {
    assert x == d * (x / d) + x % d;
    MultiplesApart(d, k, x / d);
  }

  lemma MultiplesApart(d: nat, a: nat, b: nat)
    ensures a < b ==> d * b >= d * a + d
    ensures b < a ==> d * a >= d * b + d
  {
    if a < b {
      Gap(d, a, b);
    } else if b < a {
      Gap(d, b, a);
    }
  }

  lemma {:induction false} Gap(d: nat, a: nat, b: nat)
    requires a < b
    ensures d * b >= d * a + d
    decreases b
  {
    assert d * b == d * (b - 1) + d;
    if a < b - 1 {
      Gap(d, a, b - 1);
    }
  }

  lemma SplitLastByte(x: nat, m: nat)
    requires m > 0
    ensures x % (256 * m) == 256 * (x / 256 % m) + x % 256
    ensures x % (256 * m) / 256 == x / 256 % m && x % (256 * m) % 256 == x % 256
  {
    var q, r := x / 256, x % 256;
    var k, t := q / m, 256 * (q % m) + r;
    assert q == m * k + q % m;
    assert x == (256 * m) * k + t by {
      assert 256 * (m * k) == (256 * m) * k;
    }
    assert t < 256 * m by {
      assert q % m <= m - 1;
    }
    DivisionIsUnique(x, 256 * m, k, t);
  }

  /** The n low bytes stand for the number modulo 256^n. */
  lemma {:induction false} BigEndianNumber(x: nat, n: nat)
    ensures Num(BigEndian(x, n), 256) == x % Pow256(n)
  {
    if n > 0 {
      BigEndianNumber(x / 256, n - 1);
      SplitLastByte(x, Pow256(n - 1));
      assert BigEndian(x, n)[..n - 1] == BigEndian(x / 256, n - 1);
    }
  }

  lemma {:induction false} BigEndianLow(x: nat, n: nat)
    ensures BigEndian(x % Pow256(n), n) == BigEndian(x, n)
  {
    if n > 0 {
      SplitLastByte(x, Pow256(n - 1));
      BigEndianLow(x / 256, n - 1);
    }
  }

  /** newULID: 48 bits of milliseconds, then ten random bytes. */
  function ULIDBytes(ms: nat, random: seq<Byte>): seq<Byte> {
    BigEndian(ms, 6) + random
  }

  const UINT64 := 0x1_0000_0000_0000_0000
  const UINT48 := 0x1_0000_0000_0000

  lemma Powers()
    ensures Pow256(6) == UINT48 && Pow256(8) == UINT64
  {
    assert Pow256(2) == 65536 && Pow256(4) == 65536 * 65536;
    assert Pow256(6) == 256 * Pow256(5);
    assert Pow256(8) == 256 * Pow256(7);
  }

  /** Shifting in two zero bytes and keeping the first six of eight. */
  lemma TopBytes(ms: nat)
    ensures BigEndian(ms * 0x1_0000 % UINT64, 8)[..6] == BigEndian(ms, 6)
  {
    var x := ms * 0x1_0000;
    Powers();
    BigEndianLow(x, 8);
    assert BigEndian(x, 8) == BigEndian(x / 256, 7) + [x % 256];
    assert BigEndian(x / 256, 7) == BigEndian(x / 256 / 256, 6) + [x / 256 % 256];
    assert x / 256 / 256 == ms;
  }

  method NewULID(ms: nat, random: seq<Byte>) returns (id: string)
    requires |random| == 10
    ensures id == Encoded(ULIDBytes(ms, random))
  {
    var b := new Byte[16];
    var head := BigEndian(ms * 0x1_0000 % UINT64, 8);
    for i := 0 to 8
      invariant b[..i] == head[..i]
    {
      b[i] := head[i];
    }
    for i := 0 to 10
      invariant b[..6] == head[..6] && b[6..6 + i] == random[..i]
    {
      b[6 + i] := random[i];
    }
    TopBytes(ms);
    assert b[..] == b[..6] + b[6..16];
    assert random[..10] == random;
    id := EncodeCrockford(b);
  }

  lemma LessConcat(a: seq<int>, b: seq<int>, c: seq<int>, d: seq<int>)
    requires |a| == |b| && |c| == |d|
    ensures Less(a + c, b + d) <==> Less(a, b) || (a == b && Less(c, d))
    decreases |c|
  {
    if c == [] {
      assert a + c == a && b + d == b;
    } else {
      var n := |c| - 1;
      LessSnoc(a + c, b + d);
      LessSnoc(c, d);
      LessConcat(a, b, c[..n], d[..n]);
      assert (a + c)[..|a| + n] == a + c[..n] && (b + d)[..|b| + n] == b + d[..n];
      assert (a + c)[|a| + n] == c[n] && (b + d)[|b| + n] == d[n];
      ConcatEqual(a, b, c[..n], d[..n]);
    }
  }

  lemma ConcatEqual(a: seq<int>, b: seq<int>, c: seq<int>, d: seq<int>)
    requires |a| == |b| && |c| == |d|
    ensures a + c == b + d <==> a == b && c == d
  {
    assert (a + c)[..|a|] == a && (b + d)[..|b|] == b;
    assert (a + c)[|a|..] == c && (b + d)[|b|..] == d;
  }

  /** Identifiers compare by their times first. */
  lemma TimeDecides(ms1: nat, ms2: nat, r1: seq<Byte>, r2: seq<Byte>)
    requires |r1| == 10 && |r2| == 10
    ensures var t1, t2 := BigEndian(ms1, 6), BigEndian(ms2, 6);
      Before(Encoded(ULIDBytes(ms1, r1)), Encoded(ULIDBytes(ms2, r2)))
      <==> Less(t1, t2) || (t1 == t2 && Less(r1, r2))
  {
    var t1, t2 := BigEndian(ms1, 6), BigEndian(ms2, 6);
    EncodingKeepsOrder(t1 + r1, t2 + r2);
    LessConcat(t1, t2, r1, r2);
  }

  /** A smaller time gives a smaller identifier, whatever the random bytes, exactly when it is
      smaller as a 48-bit time. */
  lemma TimesAreOrdered(ms1: nat, ms2: nat)
    ensures (forall r1: seq<Byte>, r2: seq<Byte> :: |r1| == 10 && |r2| == 10 ==>
               Before(Encoded(ULIDBytes(ms1, r1)), Encoded(ULIDBytes(ms2, r2))))
            <==> ms1 % UINT48 < ms2 % UINT48
  {
    var t1, t2 := BigEndian(ms1, 6), BigEndian(ms2, 6);
    Powers();
    BigEndianNumber(ms1, 6);
    BigEndianNumber(ms2, 6);
    LessIsSmaller(t1, t2, 256);
    forall r1: seq<Byte>, r2: seq<Byte> | |r1| == 10 && |r2| == 10
      ensures Before(Encoded(ULIDBytes(ms1, r1)), Encoded(ULIDBytes(ms2, r2)))
         <==> Less(t1, t2) || (t1 == t2 && Less(r1, r2))
    {
      TimeDecides(ms1, ms2, r1, r2);
    }
    var zero: seq<Byte> := [0, 0, 0, 0, 0, 0, 0, 0, 0, 0];
    assert !Less(zero, zero);
  }

  lemma TimesBelow48BitsAreOrdered(ms1: nat, ms2: nat, r1: seq<Byte>, r2: seq<Byte>)
    requires ms1 < ms2 < UINT48 && |r1| == 10 && |r2| == 10
    ensures Before(Encoded(ULIDBytes(ms1, r1)), Encoded(ULIDBytes(ms2, r2)))
  {
    assert ms1 % UINT48 == ms1 && ms2 % UINT48 == ms2;
    TimesAreOrdered(ms1, ms2);
  }
}
