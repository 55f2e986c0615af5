/**
 The register dump of the 'g' command and the register write of the 'G' command.
 */
module GdbRegisters {
  import opened Common
  import opened GdbPackets

  const REGISTERS: nat := 24
  const TWO64: nat := 0x1_0000_0000_0000_0000

  type Word = x: int | 0 <= x < TWO64

  /** The lowest k bytes of a value, low byte first, two digits each. */
  function HexBytes(v: nat, k: nat): (s: seq<Byte>)
    ensures |s| == 2 * k
  {
    if k == 0 then [] else TwoDigits(v % 256) + HexBytes(v / 256, k - 1)
  }

  function Dump(regs: seq<Word>): (s: seq<Byte>)
    ensures |s| == 16 * |regs|
  {
    if regs == [] then [] else HexBytes(regs[0], 8) + Dump(regs[1..])
  }

  /** Byte j of a value stands at its j-th pair of digits. */
  lemma {:induction false} HexBytesAt(v: nat, k: nat, j: nat)
    requires j < k
    ensures HexBytes(v, k)[2 * j..2 * j + 2] == TwoDigits(v / Pow256(j) % 256)
  {
    var first, rest := TwoDigits(v % 256), HexBytes(v / 256, k - 1);
    if j == 0 {
      assert (first + rest)[0..2] == first;
    } else {
      HexBytesAt(v / 256, k - 1, j - 1);
      DivTwice(v, Pow256(j - 1));
      assert (first + rest)[2 * j..2 * j + 2] == rest[2 * (j - 1)..2 * (j - 1) + 2];
    }
    hide TwoDigits;
  }

  lemma DivTwice(v: nat, p: nat)
    requires p > 0
    ensures v / 256 / p == v / (256 * p)
  {
    var q, r := v / 256, v % 256;
    var t, u := q / p, q % p;
    assert v == 256 * p * t + (256 * u + r) by { Spread(p, t, u, q); }
    assert 0 <= 256 * u + r < 256 * p;
    DivIs(v, 256 * p, t, 256 * u + r);
  }

  lemma Spread(p: nat, t: nat, u: nat, q: nat)
    requires q == p * t + u
    ensures 256 * q == 256 * p * t + 256 * u
  {
    assert 256 * (p * t) == 256 * p * t;
  }

  lemma DivIs(v: nat, d: nat, t: nat, r: nat)
    requires d > 0 && v == d * t + r && r < d
    ensures v / d == t
  {
    var k := v / d - t;
    assert v == d * (v / d) + v % d && d * k == d * (v / d) - d * t;
    NoTurn(d, k);
  }

  lemma NoTurn(d: int, k: int)
    requires -d < d * k < d
    ensures k == 0
  {
    assert k >= 1 ==> d * k == d + d * (k - 1);
    assert k <= -1 ==> d * k == -d + d * (k + 1);
  }

  /** Register i takes the 16 digits from 16 * i on, its low byte first. */
  lemma {:induction false} DumpAt(regs: seq<Word>, i: nat, j: nat)
    requires i < |regs| && j < 8
    ensures Dump(regs)[16 * i + 2 * j..16 * i + 2 * j + 2] == TwoDigits(regs[i] / Pow256(j) % 256)
  {
    var first, rest := HexBytes(regs[0], 8), Dump(regs[1..]);
    if i == 0 {
      HexBytesAt(regs[0], 8, j);
      assert (first + rest)[2 * j..2 * j + 2] == first[2 * j..2 * j + 2];
    } else {
      DumpAt(regs[1..], i - 1, j);
      assert (first + rest)[16 * i + 2 * j..16 * i + 2 * j + 2]
          == rest[16 * (i - 1) + 2 * j..16 * (i - 1) + 2 * j + 2];
    }
    hide TwoDigits, HexBytes;
  }

  /** `val |= b << (8 * j)` on 64 bits, where bytes below j hold `val`. A pair that is not two digits
      is negative and sets every bit above it, so nothing later changes the value: `full`. */
  function OrByte(val: Word, b: int, j: nat, full: bool): Word {
    if full then val else (val + b * Pow256(j)) % TWO64
  }

  /** C's operators agree: below `s` there is only `val`, so or is plus; and once a negative pair
      (sign-extended, all but its low four bits set) has been added, a later byte changes nothing. */
  lemma OrIsPlus(val: bv64, b: bv64, s: bv64)
    requires s in {0, 8, 16, 24, 32, 40, 48, 56} && val < (1 << s)
    ensures val | (b << s) == val + (b << s)
  {
    if s == 0 {} else if s == 8 {} else if s == 16 {} else if s == 24 {}
    else if s == 32 {} else if s == 40 {} else if s == 48 {} else {}
  }

  lemma OnesAbsorb(val: bv64, b: bv64, c: bv64, s: bv64, t: bv64)
    requires s in {0, 8, 16, 24, 32, 40, 48} && t in {8, 16, 24, 32, 40, 48, 56} && s < t
    requires b >= 0xFFFF_FFFF_FFFF_FFF0
    ensures (val | (b << s)) | (c << t) == val | (b << s)
  {
    if s == 0 {
      if t == 8 {} else if t == 16 {} else if t == 24 {} else if t == 32 {}
      else if t == 40 {} else if t == 48 {} else {}
    } else if s == 8 {
      if t == 16 {} else if t == 24 {} else if t == 32 {} else if t == 40 {} else if t == 48 {} else {}
    } else if s == 16 {
      if t == 24 {} else if t == 32 {} else if t == 40 {} else if t == 48 {} else {}
    } else if s == 24 {
      if t == 32 {} else if t == 40 {} else if t == 48 {} else {}
    } else if s == 32 {
      if t == 40 {} else if t == 48 {} else {}
    } else if s == 40 {
      if t == 48 {} else {}
    } else {}
  }

  /** One register read from the digits at `idx`: eight pairs, or as many as are left. */
  function ReadWord(data: seq<Byte>, idx: nat, j: nat, val: Word, full: bool): (r: (Word, nat))
    requires j <= 8 && idx <= |data|
    ensures idx <= r.1 <= |data|
    decreases 8 - j
  {
    if j == 8 || idx + 1 >= |data| then (val, idx)
    else
      var b := Pair(data[idx], data[idx + 1]);
      ReadWord(data, idx + 2, j + 1, OrByte(val, b, j, full), full || b < 0)
  }

  /** `gdb_write_registers` from register i on. */
  function Written(data: seq<Byte>, idx: nat, regs: seq<Word>, i: nat): (r: seq<Word>)
    requires i <= |regs| && idx <= |data|
    ensures |r| == |regs| && r[..i] == regs[..i]
    decreases |regs| - i
  {
    if i == |regs| || idx == |data| then regs
    else
      var (v, next) := ReadWord(data, idx, 0, 0, false);
      Written(data, next, regs[i := v], i + 1)
  }

  // ------------------------------------------------------------------ round trip

  /** The digits of k bytes are read on top of the bytes below, and reading goes on behind them. */
  lemma {:induction false} ReadSome(data: seq<Byte>, idx: nat, v: nat, k: nat, j: nat, val: Word, sum: int)
    requires j + k <= 8 && v < Pow256(k) && val < Pow256(j) && At(data, idx, HexBytes(v, k))
    requires sum == val + v * Pow256(j)
    ensures 0 <= sum < TWO64 && idx + 2 * k <= |data|
    ensures ReadWord(data, idx, j, val, false) == ReadWord(data, idx + 2 * k, j + k, sum, false)
    decreases k
  {
    hide TwoDigits, ReadWord, OrByte, At;
    if k == 0 {
      assert v == 0 && HexBytes(v, k) == [];
      AtNothing(data, idx);
    } else {
      var b, rest := v % 256, v / 256;
      AtSplit(data, idx, TwoDigits(b), HexBytes(rest, k - 1));
      ReadNext(data, idx, b, j, val);
      OrByteFits(val, b, j);
      PlaceByte(val, b, rest, Pow256(j));
      ReadSome(data, idx + 2, rest, k - 1, j + 1, OrByte(val, b, j, false), sum);
    }
  }

  lemma AtNothing(data: seq<Byte>, idx: nat)
    requires At(data, idx, [])
    ensures idx <= |data|
  {
  }

  lemma ReadNext(data: seq<Byte>, idx: nat, b: Byte, j: nat, val: Word)
    requires At(data, idx, TwoDigits(b)) && j < 8
    ensures idx + 1 < |data|
    ensures ReadWord(data, idx, j, val, false) == ReadWord(data, idx + 2, j + 1, OrByte(val, b, j, false), false)
  {
    ByteAt(data, idx, b);
    hide TwoDigits, Pair, OrByte, At;
  }

  /** Eight pairs are the whole value. */
  lemma ReadWhole(data: seq<Byte>, idx: nat, v: Word)
    requires At(data, idx, HexBytes(v, 8))
    ensures ReadWord(data, idx, 0, 0, false) == (v, idx + 16)
  {
    Widths();
    assert Pow256(0) == 1;
    ReadSome(data, idx, v, 8, 0, 0, v);
  }

  /** Where the digits end early, the upper bytes are zero. */
  lemma ReadShort(data: seq<Byte>, idx: nat, v: nat, k: nat)
    requires k <= 8 && v < Pow256(k) && At(data, idx, HexBytes(v, k)) && |data| - (idx + 2 * k) < 2
    ensures v < TWO64 && ReadWord(data, idx, 0, 0, false) == (v, idx + 2 * k)
  {
    ReadGood(data, idx, v, k);
  }

  lemma {:induction false} FullStays(data: seq<Byte>, idx: nat, j: nat, val: Word)
    requires j <= 8 && idx <= |data|
    ensures ReadWord(data, idx, j, val, true).0 == val
    decreases 8 - j
  {
    hide Pair;
    if j < 8 && idx + 1 < |data| { FullStays(data, idx + 2, j + 1, val); }
  }

  /** Behind k good pairs a bad one sets every bit above its lowest four, whatever follows: with `b` between
      -16 and -1, the value is the two's complement of b at byte k, on top of the good bytes. */
  lemma ReadBad(data: seq<Byte>, idx: nat, v: nat, k: nat, b: int)
    requires k < 8 && v < Pow256(k) && At(data, idx, HexBytes(v, k)) && idx + 2 * k + 1 < |data|
    requires b == Pair(data[idx + 2 * k], data[idx + 2 * k + 1]) < 0
    ensures ReadWord(data, idx, 0, 0, false).0 == v + (TWO64 + b * Pow256(k))
  {
    hide Pair, HexBytes, At, OrByte, Pow256;
    ReadGood(data, idx, v, k);
    BadFits(v, k, b);
    ReadOn(data, idx + 2 * k, k, v, b);
    FullStays(data, idx + 2 * k + 2, k + 1, OrByte(v, b, k, false));
  }

  lemma ReadGood(data: seq<Byte>, idx: nat, v: nat, k: nat)
    requires k <= 8 && v < Pow256(k) && At(data, idx, HexBytes(v, k))
    ensures v < TWO64 && idx + 2 * k <= |data|
    ensures ReadWord(data, idx, 0, 0, false) == ReadWord(data, idx + 2 * k, k, v, false)
  {
    assert Pow256(0) == 1 && v * 1 == v;
    ReadSome(data, idx, v, k, 0, 0, v);
  }

  lemma ReadOn(data: seq<Byte>, idx: nat, j: nat, val: Word, b: int)
    requires j < 8 && idx + 1 < |data| && b == Pair(data[idx], data[idx + 1]) < 0
    ensures ReadWord(data, idx, j, val, false) == ReadWord(data, idx + 2, j + 1, OrByte(val, b, j, false), true)
  {
    hide Pair, OrByte;
  }

  lemma BadFits(v: nat, k: nat, b: int)
    requires k < 8 && v < Pow256(k) && -16 <= b < 0
    ensures v < TWO64 && OrByte(v, b, k, false) == v + (TWO64 + b * Pow256(k))
  {
    Widths();
    PowersMultiply(k + 1, 7 - k);
    Below(v, Pow256(k), Pow256(7 - k), b, b * Pow256(k));
    Around64(v + b * Pow256(k));
  }

  lemma Below(v: nat, p: nat, q: nat, b: int, bp: int)
    requires v < p && q >= 1 && 256 * p * q == TWO64 && -16 <= b < 0 && bp == b * p
    ensures v < TWO64 && 0 - TWO64 <= v + bp < 0
  {
    assert 256 * p * 1 <= 256 * p * q;
    assert -16 * p <= b * p <= -1 * p;
  }

  lemma Around64(x: int)
    requires 0 - TWO64 <= x < 0
    ensures x % TWO64 == x + TWO64
  {
  }

  lemma ByteAt(data: seq<Byte>, idx: nat, b: Byte)
    requires At(data, idx, TwoDigits(b))
    ensures idx + 1 < |data| && Pair(data[idx], data[idx + 1]) == b
  {
    assert data[idx..idx + 2][0] == data[idx] && data[idx..idx + 2][1] == data[idx + 1];
    PairOfDigits(b);
  }

  lemma OrByteFits(val: Word, b: Byte, j: nat)
    requires j < 8 && val < Pow256(j)
    ensures OrByte(val, b, j, false) == val + b * Pow256(j) < Pow256(j + 1)
  {
    Widths();
    PlaceByte(val, b, 0, Pow256(j));
    PowersMultiply(j + 1, 7 - j);
    BelowTop(val + b * Pow256(j), Pow256(j + 1), Pow256(7 - j));
  }

  lemma PlaceByte(val: int, b: int, q: int, p: int)
    requires 0 <= val < p && 0 <= b < 256
    ensures 0 <= val + b * p < 256 * p
    ensures val + (b + 256 * q) * p == val + b * p + q * (256 * p)
  {
    assert (b + 256 * q) * p == b * p + q * (256 * p);
    assert 0 <= b * p <= 255 * p;
  }

  lemma BelowTop(x: int, p: int, q: int)
    requires 0 <= x < p && q >= 1 && p * q == TWO64
    ensures x < TWO64
  {
    assert p * 1 <= p * q;
  }

  lemma {:induction false} PowersMultiply(a: nat, b: nat)
    ensures Pow256(a) * Pow256(b) == Pow256(a + b)
  {
    if b > 0 {
      PowersMultiply(a, b - 1);
      assert Pow256(a) * (256 * Pow256(b - 1)) == 256 * (Pow256(a) * Pow256(b - 1));
    }
  }

  /** Writing back a dump of k registers sets exactly those and leaves the rest. */
  lemma {:induction false} WriteDump(data: seq<Byte>, idx: nat, values: seq<Word>, regs: seq<Word>, i: nat)
    requires i + |values| <= |regs| && idx <= |data| && data[idx..] == Dump(values)
    ensures Written(data, idx, regs, i) == regs[..i] + values + regs[i + |values|..]
    decreases |values|
  {
    if values == [] {
      assert regs[..i] + values + regs[i..] == regs;
    } else {
      hide At, Dump, HexBytes, ReadWord;
      var v, rest := values[0], values[1..];
      DumpSplit(data, idx, values);
      ReadWhole(data, idx, v);
      WriteDump(data, idx + 16, rest, regs[i := v], i + 1);
      WriteFirst(data, idx, regs, i, v);
      Spliced(regs, i, v, rest);
    }
  }

  lemma DumpSplit(data: seq<Byte>, idx: nat, values: seq<Word>)
    requires values != [] && idx <= |data| && data[idx..] == Dump(values)
    ensures At(data, idx, HexBytes(values[0], 8)) && idx + 16 <= |data| && data[idx + 16..] == Dump(values[1..])
  {
    var text := data[idx..];
    assert data[idx..idx + 16] == text[..16];
    assert data[idx + 16..] == text[16..];
  }

  lemma WriteFirst(data: seq<Byte>, idx: nat, regs: seq<Word>, i: nat, v: Word)
    requires i < |regs| && idx + 16 <= |data| && ReadWord(data, idx, 0, 0, false) == (v, idx + 16)
    ensures Written(data, idx, regs, i) == Written(data, idx + 16, regs[i := v], i + 1)
  {
  }

  lemma Spliced(regs: seq<Word>, i: nat, v: Word, rest: seq<Word>)
    requires i + 1 + |rest| <= |regs|
    ensures regs[i := v][..i + 1] + rest + regs[i := v][i + 1 + |rest|..]
         == regs[..i] + ([v] + rest) + regs[i + 1 + |rest|..]
  {
    assert regs[i := v][..i + 1] == regs[..i] + [v];
  }

  /** A full dump written back restores every register, whatever they held meanwhile. */
  lemma RegistersRoundTrip(values: seq<Word>, regs: seq<Word>)
    requires |values| == |regs| == REGISTERS
    ensures Written(Dump(values), 0, regs, 0) == values
  {
    assert Dump(values)[0..] == Dump(values);
    WriteDump(Dump(values), 0, values, regs, 0);
  }

  // ------------------------------------------------------------------ the commands

  /** `gdb_read_registers`: the packet's payload. */
  method DumpRegisters(regs: array<Word>) returns (text: seq<Byte>)
    ensures text == Dump(regs[..])
  {
    text := [];
    var i := 0;
    while i < regs.Length
      invariant i <= regs.Length && text + Dump(regs[i..]) == Dump(regs[..])
    {
      var digits := DumpWord(regs[i]);
      var rest := regs[i..];
      assert rest[0] == regs[i] && rest[1..] == regs[i + 1..];
      assert text + (digits + Dump(rest[1..])) == text + digits + Dump(rest[1..]);
      text := text + digits;
      i := i + 1;
    }
    assert text + [] == text;
  }

  /** One register, shifted right a byte at a time. */
  method DumpWord(v: Word) returns (digits: seq<Byte>)
    ensures digits == HexBytes(v, 8)
  {
    var val: nat, j := v, 0;
    digits := [];
    while j < 8
      invariant 0 <= j <= 8 && digits + HexBytes(val, 8 - j) == HexBytes(v, 8)
    {
      LowByte(val);
      var pair := [HexChar(val / 16 % 16), HexChar(val % 16)];
      assert digits + (pair + HexBytes(val / 256, 7 - j)) == digits + pair + HexBytes(val / 256, 7 - j);
      digits := digits + pair;
      val := val / 256;
      j := j + 1;
    }
    assert digits + [] == digits;
  }

  lemma LowByte(v: nat)
    ensures TwoDigits(v % 256) == [HexChar(v / 16 % 16), HexChar(v % 16)]
  {
    var q, r := v / 256, v % 256;
    assert v == 256 * q + r;
    assert v / 16 == 16 * q + r / 16;
    assert v % 16 == r % 16;
  }

  /** `gdb_write_registers` on a NUL-terminated argument. */
  method WriteRegisters(data: seq<Byte>, regs: array<Word>)
    modifies regs
    ensures regs[..] == Written(data, 0, old(regs[..]), 0)
  {
    var idx: nat, i := 0, 0;
    while i < regs.Length && idx < |data|
      invariant i <= regs.Length && idx <= |data|
      invariant Written(data, idx, regs[..], i) == Written(data, 0, old(regs[..]), 0)
    {
      ghost var before := regs[..];
      var val: Word;
      val, idx := ParseWord(data, idx);
      regs[i] := val;
      assert regs[..] == before[i := val];
      i := i + 1;
    }
  }

  /** The pairs of one register. */
  method ParseWord(data: seq<Byte>, start: nat) returns (val: Word, idx: nat)
    requires start <= |data|
    ensures (val, idx) == ReadWord(data, start, 0, 0, false)
  {
    hide OrByte, Pair;
    var j, full := 0, false;
    val, idx := 0, start;
    while j < 8 && idx + 1 < |data|
      invariant j <= 8 && idx <= |data|
      invariant ReadWord(data, idx, j, val, full) == ReadWord(data, start, 0, 0, false)
    {
      var b := Pair(data[idx], data[idx + 1]);
      val := OrByte(val, b, j, full);
      full := full || b < 0;
      idx := idx + 2;
      j := j + 1;
    }
  }
}
