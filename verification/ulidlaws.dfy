/** An identifier read back as a number. */
module IdentifierLaws {
  import opened Prelude
  import opened Identifier

  /** The value of a symbol of Crockford's base 32: no I, L, O or U. */
  function SymbolValue(c: char): Option<nat> {
    if '0' <= c <= '9' then Some(c as int - '0' as int)
    else if 'A' <= c <= 'H' then Some(c as int - 'A' as int + 10)
    else if 'J' <= c <= 'K' then Some(c as int - 'J' as int + 18)
    else if 'M' <= c <= 'N' then Some(c as int - 'M' as int + 20)
    else if 'P' <= c <= 'T' then Some(c as int - 'P' as int + 22)
    else if 'V' <= c <= 'Z' then Some(c as int - 'V' as int + 27)
    else None
  }

  /** The number an identifier spells, if all of it are symbols. */
  function Spelled(s: string): Option<nat> {
    if s == "" then Some(0)
    else
      match (Spelled(s[..|s| - 1]), SymbolValue(s[|s| - 1]))
      case (Some(high), Some(low)) => Some(high * 32 + low)
      case _ => None
  }

  /** The number that bytes are, the first byte the highest. */
  function Number(bytes: seq<Byte>): nat {
    if bytes == [] then 0 else Number(bytes[..|bytes| - 1]) * 0x100 + bytes[|bytes| - 1]
  }

  lemma SymbolIsValue(v: nat)
    requires v < 32
    ensures SymbolValue(ALPHABET[v]) == Some(v)
  {
  }

  lemma {:induction false} SymbolsSpell(gs: seq<nat>)
    requires IsDigits(gs, 32)
    ensures Spelled(Symbols(gs)) == Some(Num(gs, 32))
  {
    if gs != [] {
      var n := |gs| - 1;
      SymbolsSpell(gs[..n]);
      SymbolIsValue(gs[n]);
      assert Symbols(gs)[..n] == Symbols(gs[..n]);
    }
  }

  lemma {:induction false} NumberIsNum(bytes: seq<Byte>)
    ensures Number(bytes) == Num(bytes, 256)
  {
    if bytes != [] {
      NumberIsNum(bytes[..|bytes| - 1]);
    }
  }

  /** The encoding spells the 128 bits, shifted by the two bits that 26 symbols have more. */
  lemma EncodingSpellsTheBytes(data: seq<Byte>)
    requires |data| == 16
    ensures |Encoded(data)| == 26 && Spelled(Encoded(data)) == Some(4 * Number(data))
  {
    SymbolsSpell(Groups(data, ULID_LENGTH));
    GroupsOfSixteen(data);
    NumberIsNum(data);
  }

  function Size(n: nat): nat {
    if n == 0 then 1 else Size(n - 1) * 0x100
  }

  lemma {:induction false} NumberConcat(a: seq<Byte>, b: seq<Byte>)
    ensures Number(a + b) == Number(a) * Size(|b|) + Number(b)
  {
    if b == [] {
      assert a + b == a;
    } else {
      var n := |b| - 1;
      assert (a + b)[..|a + b| - 1] == a + b[..n];
      NumberConcat(a, b[..n]);
      Regroup(Number(a), Size(n), Number(b[..n]), b[n]);
    }
  }

  lemma Regroup(a: nat, size: nat, b: nat, low: nat)
    ensures (a * size + b) * 0x100 + low == a * (size * 0x100) + (b * 0x100 + low)
  {
  }

  lemma TenBytes()
    ensures Size(10) == 0x1_0000_0000_0000_0000_0000
  {
    assert Size(3) == 0x100_0000;
    assert Size(6) == Size(5) * 0x100 == 0x1_0000_0000_0000;
    assert Size(8) == Size(7) * 0x100 == 0x1_0000_0000_0000_0000;
    assert Size(10) == Size(9) * 0x100;
  }

  /** An identifier spells its time in milliseconds, modulo 2^48, and its eighty random bits: nothing is
      lost and nothing added. */
  lemma IDSpellsTimeAndRandom(ms: nat, random: seq<Byte>)
    requires |random| == 10
    ensures Spelled(Encoded(ULIDBytes(ms, random)))
         == Some(4 * (ms % 0x1_0000_0000_0000 * 0x1_0000_0000_0000_0000_0000 + Number(random)))
  {
    var time := BigEndian(ms, 6);
    EncodingSpellsTheBytes(time + random);
    NumberConcat(time, random);
    TenBytes();
    TimeIsNumber(ms);
  }

  lemma TimeIsNumber(ms: nat)
    ensures Number(BigEndian(ms, 6)) == ms % 0x1_0000_0000_0000
  {
    NumberIsNum(BigEndian(ms, 6));
    BigEndianNumber(ms, 6);
    Powers();
  }
}
