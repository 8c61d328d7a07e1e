/**
  What the binary checks read, byte by byte: headers laid out field by field as the System V gABI and the
  Mach-O format give them, lowest byte first, and exactly which files are accepted.
*/
module BinaryLaws {
  import opened Wrappers
  import opened Bytes
  import opened Binary

  // ------------------------------------------------ numbers, lowest byte first

  function U16(d: Bytes, i: nat): nat
    requires i + 2 <= |d|
  {
    d[i] + 0x100 * (d[i + 1] as nat)
  }

  function U32(d: Bytes, i: nat): nat
    requires i + 4 <= |d|
  {
    d[i] + 0x100 * (d[i + 1] as nat) + 0x1_0000 * (d[i + 2] as nat) + 0x100_0000 * (d[i + 3] as nat)
  }

  function U64(d: Bytes, i: nat): nat
    requires i + 8 <= |d|
  {
    U32(d, i) + 0x1_0000_0000 * U32(d, i + 4)
  }

  lemma LeSplits(s: Bytes)
    requires s != []
    ensures Le(s) == s[0] + 256 * Le(s[1..])
  {}

  lemma LePair(s: Bytes)
    requires |s| == 2
    ensures Le(s) == s[0] + 256 * (s[1] as nat)
  {
    LeSplits(s);
    LeSplits(s[1..]);
    assert s[1..][1..] == [];
    assert Le([]) == 0;
  }

  lemma LeQuad(s: Bytes)
    requires |s| >= 4
    ensures Le(s) == U32(s, 0) + 0x1_0000_0000 * Le(s[4..])
  {
    hide Le;
    LeSplits(s);
    LeSplits(s[1..]);
    LeSplits(s[2..]);
    LeSplits(s[3..]);
    assert s[1..][1..] == s[2..] && s[2..][1..] == s[3..] && s[3..][1..] == s[4..];
  }

  lemma Reads16(d: Bytes, at: nat)
    requires at + 2 <= |d|
    ensures Number(d, at, 2) == U16(d, at)
  {
    LePair(d[at..at + 2]);
  }

  lemma Reads32(d: Bytes, at: nat)
    requires at + 4 <= |d|
    ensures Number(d, at, 4) == U32(d, at)
  {
    LeQuad(d[at..at + 4]);
    assert d[at..at + 4][4..] == [];
  }

  lemma Reads64(d: Bytes, at: nat)
    requires at + 8 <= |d|
    ensures Number(d, at, 8) == U64(d, at)
  {
    hide Le;
    var s := d[at..at + 8];
    LeQuad(s);
    LeQuad(s[4..]);
    assert s[4..][4..] == [];
    LeNothing();
  }

  lemma LeNothing()
    ensures Le([]) == 0
  {}

  // ------------------------------------------------ ELF headers on bytes

  predicate Wide(t: Target) {
    !t.I686Linux? && !t.ArmLinux32?
  }

  /** Where the fields lie: `e_phoff`, `e_flags`, `e_ehsize`, `e_phentsize` and `e_phnum` of a wide or narrow header. */
  datatype Fields = Fields(phoff: nat, flags: nat, ehsize: nat, phsize: nat, phnum: nat)

  function FieldsOf(d: Bytes, wide: bool): Fields
    requires |d| >= if wide then 64 else 52
  {
    if wide then Fields(U64(d, 32), U32(d, 48), U16(d, 52), U16(d, 54), U16(d, 56))
    else Fields(U32(d, 28), U32(d, 36), U16(d, 40), U16(d, 42), U16(d, 44))
  }

  /** The header of an executable for the target, on the bytes: EM_X86_64, EM_AARCH64, EM_386 or EM_ARM with EABI5 hard float. */
  predicate ElfHeaderShown(d: Bytes, t: Target) {
    && |d| >= (if Wide(t) then 64 else 52)
    && d[0] == 0x7f && d[1] == 'E' as int && d[2] == 'L' as int && d[3] == 'F' as int
    && d[4] == (if Wide(t) then 2 else 1) && d[5] == 1 && d[6] == 1
    && (d[16] == 2 || d[16] == 3) && d[17] == 0
    && d[18] == (match t case X86Linux => 0x3e case ArmLinux64 => 0xb7 case I686Linux => 3 case _ => 0x28) && d[19] == 0
    && d[20] == 1 && d[21] == 0 && d[22] == 0 && d[23] == 0
    && var f := FieldsOf(d, Wide(t));
    && f.ehsize == (if Wide(t) then 64 else 52) && f.phsize == (if Wide(t) then 56 else 32)
    && f.phoff >= f.ehsize && 0 < f.phnum < 65535 && f.phoff + f.phsize * f.phnum <= |d|
    && (t == ArmLinux32 ==> d[39] == 5 && d[37] / 4 % 2 == 1 && d[37] / 2 % 2 == 0)
  }

  lemma HeaderRead(d: Bytes, t: Target)
    requires |d| >= if Wide(t) then 64 else 52
    ensures var h := ReadElfHeader(ClassOf(t), d); var f := FieldsOf(d, Wide(t));
      && h.kind == U16(d, 16) && h.cpu == U16(d, 18) && h.version == U32(d, 20)
      && h.phoff == f.phoff && h.flags == f.flags && h.ehsize == f.ehsize && h.phsize == f.phsize && h.phnum == f.phnum
  {
    hide Number, U16, U32, U64;
    Reads16(d, 16); Reads16(d, 18); Reads32(d, 20);
    if Wide(t) {
      Reads64(d, 32); Reads32(d, 48); Reads16(d, 52); Reads16(d, 54); Reads16(d, 56);
    } else {
      Reads32(d, 28); Reads32(d, 36); Reads16(d, 40); Reads16(d, 42); Reads16(d, 44);
    }
  }

  lemma SmallPair(d: Bytes, i: nat, n: nat)
    requires i + 2 <= |d| && n < 256
    ensures U16(d, i) == n <==> d[i] == n && d[i + 1] == 0
  {}

  lemma SmallQuad(d: Bytes, i: nat, n: nat)
    requires i + 4 <= |d| && n < 256
    ensures U32(d, i) == n <==> d[i] == n && d[i + 1] == 0 && d[i + 2] == 0 && d[i + 3] == 0
  {}

  lemma IdentShown(d: Bytes, c: Class)
    requires |d| >= 7
    ensures d[0..7] == Ident(c) <==>
      && d[0] == 0x7f && d[1] == 0x45 && d[2] == 0x4c && d[3] == 0x46
      && d[4] == (if c == Class32 then 1 else 2) && d[5] == 1 && d[6] == 1
  {
    var s := d[0..7];
    assert forall i | 0 <= i < 7 :: s[i] == d[i];
    assert s == [d[0], d[1], d[2], d[3], d[4], d[5], d[6]];
  }

  lemma Quotient(n: nat, q: nat, hi: nat, lo: nat)
    requires lo < q && n == q * hi + lo
    ensures n / q == hi
  {
    var d, m := n / q, n % q;
    assert n == q * d + m && m < q;
    if d < hi {
      NextMultiple(q, d, hi);
    } else if hi < d {
      NextMultiple(q, hi, d);
    }
  }

  lemma {:induction false} NextMultiple(q: nat, x: nat, y: nat)
    requires x < y
    ensures q * x + q <= q * y
    decreases y
  {
    assert q * y == q * (y - 1) + q;
    if x < y - 1 {
      NextMultiple(q, x, y - 1);
    }
  }

  lemma Parity(n: nat, half: nat, bit: nat)
    requires n == 2 * half + bit
    ensures n % 2 == bit % 2
  {}

  /** The processor flags are in the top byte and in bits 10 and 9. */
  lemma ArmFlags(d: Bytes, i: nat)
    requires i + 4 <= |d|
    ensures U32(d, i) / 0x100_0000 == 5 <==> d[i + 3] == 5
    ensures Bit(U32(d, i), 0x400) <==> d[i + 1] / 4 % 2 == 1
    ensures Bit(U32(d, i), 0x200) <==> d[i + 1] / 2 % 2 == 1
  {
    var a: nat, b: nat, c: nat, e: nat := d[i], d[i + 1], d[i + 2], d[i + 3];
    var n := U32(d, i);
    assert n == a + 0x100 * b + 0x1_0000 * c + 0x100_0000 * e;
    hide U32;
    Quotient(n, 0x100_0000, e, a + 0x100 * b + 0x1_0000 * c);
    Quotient(n, 0x400, 0x4000 * e + 0x40 * c + b / 4, a + 0x100 * (b % 4));
    Quotient(n, 0x200, 0x8000 * e + 0x80 * c + b / 2, a + 0x100 * (b % 2));
    Parity(n / 0x400, 0x2000 * e + 0x20 * c, b / 4);
    Parity(n / 0x200, 0x4000 * e + 0x40 * c, b / 2);
  }

  /** Exactly which headers pass. */
  lemma ElfHeaderMeans(d: Bytes, t: Target)
    ensures ElfHeaderAccepted(d, t) <==> ElfHeaderShown(d, t)
  {
    if |d| >= (if Wide(t) then 64 else 52) {
      IdentShown(d, ClassOf(t));
      HeaderRead(d, t);
      SmallPair(d, 16, 2);
      SmallPair(d, 16, 3);
      SmallPair(d, 18, Machine(t));
      SmallQuad(d, 20, 1);
      if t == ArmLinux32 {
        ArmFlags(d, 36);
      }
    }
    hide Ident, ReadElfHeader, U16, U32, U64, Bit;
  }

  // ------------------------------------------------ program headers on bytes

  /** The byte at which program header `i` starts. */
  function RowAt(d: Bytes, t: Target, i: nat): nat
    requires ElfHeaderShown(d, t)
  {
    var f := FieldsOf(d, Wide(t));
    f.phoff + f.phsize * i
  }

  /** `p_type`, `p_offset`, `p_filesz`, `p_memsz` and `p_flags` of the program header at byte `at`. */
  function ProgramShown(d: Bytes, wide: bool, at: nat): Program
    requires at + (if wide then 56 else 32) <= |d|
  {
    if wide then Program(U32(d, at), U64(d, at + 8), U64(d, at + 32), U64(d, at + 40), U32(d, at + 4))
    else Program(U32(d, at), U32(d, at + 4), U32(d, at + 16), U32(d, at + 20), U32(d, at + 24))
  }

  lemma NumberInside(d: Bytes, at: nat, size: nat, i: nat, width: nat)
    requires at + size <= |d| && i + width <= size
    ensures Number(d[at..at + size], i, width) == Number(d, at + i, width)
  {
    SliceOfSlice(d, at, at + size, i, i + width);
  }

  lemma ProgramRead(d: Bytes, c: Class, at: nat)
    requires at + ProgramSize(c) <= |d|
    ensures ReadProgram(c, d[at..at + ProgramSize(c)]) == ProgramShown(d, c == Class64, at)
  {
    hide Number, U32, U64;
    var size := ProgramSize(c);
    NumberInside(d, at, size, 0, 4);
    Reads32(d, at);
    if c == Class64 {
      NumberInside(d, at, size, 8, 8); NumberInside(d, at, size, 32, 8); NumberInside(d, at, size, 40, 8); NumberInside(d, at, size, 4, 4);
      Reads64(d, at + 8); Reads64(d, at + 32); Reads64(d, at + 40); Reads32(d, at + 4);
    } else {
      NumberInside(d, at, size, 4, 4); NumberInside(d, at, size, 16, 4); NumberInside(d, at, size, 20, 4); NumberInside(d, at, size, 24, 4);
      Reads32(d, at + 4); Reads32(d, at + 16); Reads32(d, at + 20); Reads32(d, at + 24);
    }
  }

  lemma RowFits(d: Bytes, t: Target, i: nat)
    requires ElfHeaderShown(d, t) && i < FieldsOf(d, Wide(t)).phnum
    ensures RowAt(d, t, i) + (if Wide(t) then 56 else 32) <= |d|
  {
    hide FieldsOf;
    var f := FieldsOf(d, Wide(t));
    RowInside(f.phsize, i, f.phnum);
  }

  function RowShown(d: Bytes, t: Target, i: nat): Program
    requires ElfHeaderShown(d, t) && i < FieldsOf(d, Wide(t)).phnum
  {
    RowFits(d, t, i);
    ProgramShown(d, Wide(t), RowAt(d, t, i))
  }

  lemma RowRead(d: Bytes, t: Target, i: nat)
    requires ElfHeaderShown(d, t) && i < FieldsOf(d, Wide(t)).phnum
    ensures ElfHeaderAccepted(d, t) && ReadElfHeader(ClassOf(t), d).phnum == FieldsOf(d, Wide(t)).phnum
    ensures ProgramAt(d, t, i) == RowShown(d, t, i)
  {
    ElfHeaderMeans(d, t);
    HeaderRead(d, t);
    RowFits(d, t, i);
    hide ReadElfHeader, FieldsOf, ReadProgram, ProgramShown;
    ProgramRead(d, ClassOf(t), RowAt(d, t, i));
  }

  // ------------------------------------------------ dynamic tables on bytes

  /** The tag of entry `k`: four or eight bytes, lowest first. */
  function TagShown(s: Bytes, wide: bool, k: nat): nat
    requires (if wide then 16 * k + 16 else 8 * k + 8) <= |s|
  {
    if wide then U64(s, 16 * k) else U32(s, 8 * k)
  }

  function Entries(s: Bytes, wide: bool): nat {
    |s| / if wide then 16 else 8
  }

  /** Entry `k` is DT_NULL, none before it is DT_NULL or DT_NEEDED, and every byte after it is zero. */
  ghost predicate Terminated(s: Bytes, wide: bool, k: nat) {
    && k < Entries(s, wide) && TagShown(s, wide, k) == 0
    && (forall j: nat | j < k :: TagShown(s, wide, j) > 1)
    && (forall i | (k + 1) * (if wide then 16 else 8) <= i < |s| :: s[i] == 0)
  }

  ghost predicate DynamicShown(s: Bytes, wide: bool) {
    && s != [] && |s| % (if wide then 16 else 8) == 0
    && exists k: nat :: Terminated(s, wide, k)
  }

  lemma EntryIndex(s: Bytes, c: Class, at: nat, k: nat)
    requires at == k * EntrySize(c)
    ensures EntryAt(c, s, at) <==> k < Entries(s, c == Class64)
    ensures EntryAt(c, s, at) ==> Tag(c, s, at) == TagShown(s, c == Class64, k)
  {
    EntryCount(|s|, EntrySize(c), k);
    if EntryAt(c, s, at) {
      if c == Class64 { Reads64(s, at); } else { Reads32(s, at); }
    }
  }

  lemma EntryCount(length: nat, entry: nat, k: nat)
    requires entry == 8 || entry == 16
    ensures k * entry % entry == 0
    ensures k * entry + entry <= length <==> k < length / entry
  {}

  lemma {:induction false} EndsMeans(s: Bytes, c: Class, k: nat)
    ensures EndsAt(c, s, k * EntrySize(c)) <==> Terminated(s, c == Class64, k)
  {
    var e, wide := EntrySize(c), c == Class64;
    forall j: nat ensures EntryAt(c, s, j * e) <==> j < Entries(s, wide)
      ensures j < Entries(s, wide) ==> Tag(c, s, j * e) == TagShown(s, wide, j)
    {
      EntryIndex(s, c, j * e, j);
    }
    if k < Entries(s, wide) {
      BeforeMeans(s, c, k);
      ZerosAfter(s, k * e + e);
      hide Tag, TagShown, Entries, AllZero;
    }
  }

  lemma ZerosAfter(s: Bytes, from: nat)
    requires from <= |s|
    ensures AllZero(s[from..]) <==> forall i | from <= i < |s| :: s[i] == 0
  {
    if AllZero(s[from..]) {
      forall i | from <= i < |s| ensures s[i] == 0 {
        assert s[from..][i - from] == 0;
      }
    }
  }

  lemma BeforeMeans(s: Bytes, c: Class, k: nat)
    requires k < Entries(s, c == Class64)
    ensures var wide := c == Class64;
      (forall at | EntryAt(c, s, at) && at < k * EntrySize(c) :: Tag(c, s, at) != DT_NULL && Tag(c, s, at) != DT_NEEDED)
      <==> forall j: nat | j < k :: TagShown(s, wide, j) > 1
  {
    var e, wide := EntrySize(c), c == Class64;
    if forall at | EntryAt(c, s, at) && at < k * e :: Tag(c, s, at) != DT_NULL && Tag(c, s, at) != DT_NEEDED {
      forall j: nat | j < k ensures TagShown(s, wide, j) > 1 {
        EntryIndex(s, c, j * e, j);
        assert EntryAt(c, s, j * e) && j * e < k * e;
      }
    }
    if forall j: nat | j < k :: TagShown(s, wide, j) > 1 {
      forall at | EntryAt(c, s, at) && at < k * e ensures Tag(c, s, at) != DT_NULL && Tag(c, s, at) != DT_NEEDED {
        var j := at / e;
        assert at == j * e;
        EntryIndex(s, c, at, j);
        assert j < k;
      }
    }
  }

  /** Exactly which dynamic tables pass. */
  lemma DynamicMeans(s: Bytes, c: Class)
    ensures DynamicAccepted(c, s) <==> DynamicShown(s, c == Class64)
  {
    var e, wide := EntrySize(c), c == Class64;
    hide EndsAt, Terminated;
    if DynamicAccepted(c, s) {
      var stop := TableEnd(s, c);
      EndsAligned(s, c, stop);
      EndsMeans(s, c, stop / e);
      assert Terminated(s, wide, stop / e);
    }
    if DynamicShown(s, wide) {
      var k: nat :| Terminated(s, wide, k);
      EndsMeans(s, c, k);
      assert EndsAt(c, s, k * e);
    }
  }

  lemma TableEnd(s: Bytes, c: Class) returns (stop: int)
    requires DynamicAccepted(c, s)
    ensures EndsAt(c, s, stop)
  {
    stop :| EndsAt(c, s, stop);
  }

  lemma EndsAligned(s: Bytes, c: Class, stop: int)
    requires EndsAt(c, s, stop)
    ensures stop >= 0 && stop / EntrySize(c) * EntrySize(c) == stop
  {
    hide Tag, AllZero;
  }

  // ------------------------------------------------ the law for ELF

  /** One segment: inside the file, not an interpreter, and a dynamic table only if it ends without a needed library. */
  ghost predicate SegmentShown(d: Bytes, wide: bool, p: Program) {
    && p.filesz <= p.memsz && p.offset + p.filesz <= |d| && p.ptype != 3
    && (p.ptype == 2 ==> DynamicShown(d[p.offset..p.offset + p.filesz], wide))
  }

  /** An ELF file that is accepted, on its bytes. */
  ghost predicate ElfShown(d: Bytes, t: Target) {
    && ElfHeaderShown(d, t)
    && (forall i: nat | i < FieldsOf(d, Wide(t)).phnum :: SegmentShown(d, Wide(t), RowShown(d, t, i)))
    && (exists i: nat | i < FieldsOf(d, Wide(t)).phnum :: Executable(RowShown(d, t, i)))
  }

  predicate Executable(p: Program) {
    p.ptype == 1 && p.pflags % 2 == 1 && p.filesz > 0
  }

  lemma RowMeans(d: Bytes, t: Target, i: nat)
    requires ElfHeaderShown(d, t) && i < FieldsOf(d, Wide(t)).phnum
    ensures ElfHeaderAccepted(d, t) && i < ReadElfHeader(ClassOf(t), d).phnum
    ensures SegmentAccepted(ClassOf(t), d, ProgramAt(d, t, i)) <==> SegmentShown(d, Wide(t), RowShown(d, t, i))
    ensures ExecutableLoad(ProgramAt(d, t, i)) <==> Executable(RowShown(d, t, i))
  {
    hide Number, U32, U64, RowAt, ReadProgram, ProgramShown;
    RowRead(d, t, i);
    hide ElfHeaderShown, ElfHeaderAccepted, FieldsOf, ReadElfHeader, ProgramAt, RowShown, DynamicAccepted, DynamicShown;
    var p := RowShown(d, t, i);
    if p.offset + p.filesz <= |d| {
      DynamicMeans(d[p.offset..p.offset + p.filesz], ClassOf(t));
    }
  }

  /** The law for ELF, on the bytes of the file. */
  lemma ElfMeans(d: Bytes, t: Target)
    ensures ElfAccepted(d, t) <==> ElfShown(d, t)
  {
    ElfHeaderMeans(d, t);
    hide ElfHeaderShown, ElfHeaderAccepted, ProgramAt, RowShown, SegmentAccepted, SegmentShown, ExecutableLoad, Executable, FieldsOf, ReadElfHeader;
    if ElfHeaderShown(d, t) {
      HeaderLong(d, t);
      HeaderRead(d, t);
      var n := FieldsOf(d, Wide(t)).phnum;
      forall i: nat | i < n
        ensures SegmentAccepted(ClassOf(t), d, ProgramAt(d, t, i)) <==> SegmentShown(d, Wide(t), RowShown(d, t, i))
        ensures ExecutableLoad(ProgramAt(d, t, i)) <==> Executable(RowShown(d, t, i))
      {
        RowMeans(d, t, i);
      }
    }
  }

  lemma HeaderLong(d: Bytes, t: Target)
    requires ElfHeaderShown(d, t)
    ensures |d| >= if Wide(t) then 64 else 52
  {}

  // ------------------------------------------------ Mach-O on bytes

  lemma QuadBytes(d: Bytes, i: nat, a: byte, b: byte, c: byte, e: byte)
    requires i + 4 <= |d|
    ensures U32(d, i) == a + 0x100 * (b as nat) + 0x1_0000 * (c as nat) + 0x100_0000 * (e as nat) <==>
            d[i] == a && d[i + 1] == b && d[i + 2] == c && d[i + 3] == e
  {
    var x: nat, y: nat, z: nat := d[i + 1], d[i + 2], d[i + 3];
    Digit(y, z, c, e);
    Digit(x, y + 0x100 * z, b, c + 0x100 * (e as nat));
    Digit(d[i], x + 0x100 * (y + 0x100 * z), a, b + 0x100 * (c + 0x100 * (e as nat)));
  }

  lemma Digit(a: nat, x: nat, b: nat, y: nat)
    requires a < 0x100 && b < 0x100
    ensures a + 0x100 * x == b + 0x100 * y <==> a == b && x == y
  {}

  lemma LowTriple(d: Bytes, i: nat, n: nat)
    requires i + 4 <= |d| && n < 256
    ensures U32(d, i) % 0x100_0000 == n <==> d[i] == n && d[i + 1] == 0 && d[i + 2] == 0
  {
    var low := d[i] + 0x100 * (d[i + 1] as nat) + 0x1_0000 * (d[i + 2] as nat);
    assert U32(d, i) == 0x100_0000 * (d[i + 3] as nat) + low;
    assert U32(d, i) % 0x100_0000 == low;
  }

  /** The header of a 64-bit executable for the target, on the bytes; `ncmds` is at 16 and `sizeofcmds` at 20. */
  predicate MachHeaderShown(d: Bytes, t: Target) {
    && |d| >= 32
    && d[0] == 0xcf && d[1] == 0xfa && d[2] == 0xed && d[3] == 0xfe
    && d[4] == (if t == X86Darwin then 7 else 12) && d[5] == 0 && d[6] == 0 && d[7] == 1
    && d[8] == (if t == X86Darwin then 3 else 0) && d[9] == 0 && d[10] == 0
    && d[12] == 2 && d[13] == 0 && d[14] == 0 && d[15] == 0
    && 0 < U32(d, 16) <= 65535 && 8 * U32(d, 16) <= U32(d, 20) && 32 + U32(d, 20) <= |d|
    && d[28] == 0 && d[29] == 0 && d[30] == 0 && d[31] == 0
  }

  lemma MachHeaderMeans(d: Bytes, t: Target)
    ensures MachHeaderAccepted(d, t) <==> MachHeaderShown(d, t)
    ensures MachHeaderShown(d, t) ==> ReadMachHeader(d).ncmds == U32(d, 16) && ReadMachHeader(d).sizeofcmds == U32(d, 20)
  {
    hide Number;
    if |d| >= 32 {
      Reads32(d, 0); Reads32(d, 4); Reads32(d, 8); Reads32(d, 12); Reads32(d, 16); Reads32(d, 20); Reads32(d, 28);
      QuadBytes(d, 0, 0xcf, 0xfa, 0xed, 0xfe);
      QuadBytes(d, 4, if t == X86Darwin then 7 else 12, 0, 0, 1);
      LowTriple(d, 8, if t == X86Darwin then 3 else 0);
      QuadBytes(d, 12, 2, 0, 0, 0);
      QuadBytes(d, 28, 0, 0, 0, 0);
    }
    hide U32;
  }

  /** One load command: its size at 4, and of a segment `fileoff` at 40, `filesize` at 48 and `nsects` at 64. */
  predicate CommandShown(d: Bytes, at: nat, end: nat) {
    && at + 8 <= |d| && U32(d, at + 4) >= 8 && U32(d, at + 4) % 8 == 0 && at + U32(d, at + 4) <= end
    && (U32(d, at) == 0x19 ==>
          && at + 72 <= |d| && U32(d, at + 4) == 72 + 80 * U32(d, at + 64)
          && U64(d, at + 40) + U64(d, at + 48) <= |d|)
  }

  /** A segment that is not empty in the file and whose initial protection, at 60, lets it execute. */
  predicate ExecutableShown(d: Bytes, at: nat) {
    at + 72 <= |d| && U32(d, at) == 0x19 && d[at + 60] / 4 % 2 == 1 && U64(d, at + 48) > 0
  }

  lemma LowBit(d: Bytes, i: nat)
    requires i + 4 <= |d|
    ensures Bit(U32(d, i), 4) <==> d[i] / 4 % 2 == 1
  {
    var a: nat, b: nat, c: nat, e: nat := d[i], d[i + 1], d[i + 2], d[i + 3];
    var n := U32(d, i);
    assert n == a + 0x100 * b + 0x1_0000 * c + 0x100_0000 * e;
    hide U32;
    Quotient(n, 4, 0x40_0000 * e + 0x4000 * c + 0x40 * b + a / 4, a % 4);
    Parity(n / 4, 0x20_0000 * e + 0x2000 * c + 0x20 * b, a / 4);
  }

  lemma CommandMeans(d: Bytes, at: nat, end: nat)
    ensures CommandAccepted(d, at, end) <==> CommandShown(d, at, end)
    ensures CommandShown(d, at, end) ==> CommandSize(d, at) == U32(d, at + 4)
    ensures CommandShown(d, at, end) ==> (ExecutableSegment(d, at) <==> ExecutableShown(d, at))
  {
    hide Number, U32, U64, Bit;
    if at + 8 <= |d| {
      Reads32(d, at);
      Reads32(d, at + 4);
      if at + 72 <= |d| {
        Reads32(d, at + 64); Reads64(d, at + 40); Reads64(d, at + 48); Reads32(d, at + 60);
        LowBit(d, at + 60);
      }
    }
  }

  /** The commands start at byte 32, each where the one before ends, and fill the table. */
  ghost predicate Laid(d: Bytes, starts: seq<nat>, n: nat, end: nat) {
    && |starts| == n + 1 && starts[0] == 32 && starts[n] == end
    && forall i: nat | i < n :: CommandShown(d, starts[i], end) && starts[i + 1] == starts[i] + U32(d, starts[i] + 4)
  }

  ghost predicate SomeExecutable(d: Bytes, starts: seq<nat>) {
    exists i :: 0 <= i < |starts| - 1 && ExecutableShown(d, starts[i])
  }

  ghost predicate MachShown(d: Bytes, t: Target) {
    && MachHeaderShown(d, t)
    && exists starts :: Laid(d, starts, U32(d, 16), 32 + U32(d, 20)) && SomeExecutable(d, starts)
  }

  lemma TilesLaid(d: Bytes, starts: seq<nat>, n: nat, end: nat)
    ensures Tiles(d, starts, n, end) && starts[0] == 32 <==> Laid(d, starts, n, end)
    ensures Laid(d, starts, n, end) ==> (AnyExecutable(d, starts) <==> SomeExecutable(d, starts))
  {
    hide CommandShown, CommandAccepted, CommandSize, U32, ExecutableShown, ExecutableSegment;
    forall i | 0 <= i < |starts|
      ensures CommandAccepted(d, starts[i], end) <==> CommandShown(d, starts[i], end)
      ensures CommandShown(d, starts[i], end) ==> CommandSize(d, starts[i]) == U32(d, starts[i] + 4)
      ensures CommandShown(d, starts[i], end) ==> (ExecutableSegment(d, starts[i]) <==> ExecutableShown(d, starts[i]))
    {
      CommandMeans(d, starts[i], end);
    }
  }

  /** The law for Mach-O, on the bytes of the file. */
  lemma MachMeans(d: Bytes, t: Target)
    ensures MachAccepted(d, t) <==> MachShown(d, t)
  {
    MachAcceptedIff(d, t);
    MachHeaderMeans(d, t);
    hide MachAccepted, MachHeaderAccepted, ReadMachHeader, Laid, AnyExecutable, SomeExecutable, CommandAccepted, CommandSize;
    if MachHeaderShown(d, t) {
      MachHeaderFits(d, t);
      var n, end := U32(d, 16), 32 + U32(d, 20);
      forall starts ensures Tiles(d, starts, n, end) && starts[0] == 32 <==> Laid(d, starts, n, end)
        ensures Laid(d, starts, n, end) ==> (AnyExecutable(d, starts) <==> SomeExecutable(d, starts))
      {
        TilesLaid(d, starts, n, end);
      }
    }
  }

  // ------------------------------------------------ files laid out field by field

  /** A field of a header: its value and how many bytes it takes. */
  datatype Field = Field(value: nat, width: nat)

  /** `n` in `width` bytes, lowest first. */
  function Low(n: nat, width: nat): (r: Bytes)
    ensures |r| == width
  {
    if width == 0 then [] else [n % 256] + Low(n / 256, width - 1)
  }

  /** `n` fits in `width` bytes. */
  predicate Fits(n: nat, width: nat) {
    if width == 0 then n == 0 else Fits(n / 256, width - 1)
  }

  function Widths(fields: seq<Field>): nat {
    if fields == [] then 0 else fields[0].width + Widths(fields[1..])
  }

  /** The fields one after the other. */
  function Lay(fields: seq<Field>): (r: Bytes)
    ensures |r| == Widths(fields)
  {
    if fields == [] then [] else Low(fields[0].value, fields[0].width) + Lay(fields[1..])
  }

  ghost predicate AllFit(fields: seq<Field>) {
    forall f | f in fields :: Fits(f.value, f.width)
  }

  lemma {:induction false} LowReads(n: nat, width: nat)
    requires Fits(n, width)
    ensures Le(Low(n, width)) == n
    decreases width
  {
    if width > 0 {
      LowReads(n / 256, width - 1);
      assert Low(n, width)[1..] == Low(n / 256, width - 1);
    }
  }

  /** A field is read back from where the fields before it end, whatever stands before and after them all. */
  lemma {:induction false} FieldReads(before: Bytes, fields: seq<Field>, after: Bytes, k: nat)
    requires k < |fields| && AllFit(fields)
    ensures var d := before + Lay(fields) + after; var at := |before| + Widths(fields[..k]);
      at + fields[k].width <= |d| && Number(d, at, fields[k].width) == fields[k].value
    decreases k
  {
    var f, rest := fields[0], fields[1..];
    var d := before + Lay(fields) + after;
    assert Widths(fields) == f.width + Widths(rest);
    if k == 0 {
      FirstReads(before, f, Lay(rest), after);
    } else {
      LayJoins(before, f, rest, after);
      FieldReads(before + Low(f.value, f.width), rest, after, k - 1);
      assert rest[k - 1] == fields[k];
      assert fields[..k][1..] == rest[..k - 1] && fields[..k][0] == f;
    }
  }

  lemma LayJoins(before: Bytes, f: Field, rest: seq<Field>, after: Bytes)
    ensures before + (Low(f.value, f.width) + Lay(rest)) + after == before + Low(f.value, f.width) + Lay(rest) + after
  {}

  lemma FirstReads(before: Bytes, f: Field, rest: Bytes, after: Bytes)
    requires Fits(f.value, f.width)
    ensures Number(before + (Low(f.value, f.width) + rest) + after, |before|, f.width) == f.value
  {
    var d := before + (Low(f.value, f.width) + rest) + after;
    LowReads(f.value, f.width);
    assert d[|before|..|before| + f.width] == Low(f.value, f.width);
  }

  /** What the checks do not look at in the headers. */
  datatype Unread = Unread(entry: nat, shoff: nat, shentsize: nat, shnum: nat, shstrndx: nat, vaddr: nat, paddr: nat, align: nat)

  /** The fields of an ELF header after its sixteen bytes of identification, in the order of the System V gABI. */
  function ElfFields(h: ElfHeader, u: Unread, wide: bool): seq<Field> {
    var word := if wide then 8 else 4;
    [Field(h.kind, 2), Field(h.cpu, 2), Field(h.version, 4), Field(u.entry, word), Field(h.phoff, word), Field(u.shoff, word),
     Field(h.flags, 4), Field(h.ehsize, 2), Field(h.phsize, 2), Field(h.phnum, 2), Field(u.shentsize, 2), Field(u.shnum, 2),
     Field(u.shstrndx, 2)]
  }

  /** The fields of a program header; its flags come second in a wide file and last but one in a narrow one. */
  function ProgramFields(p: Program, u: Unread, wide: bool): seq<Field> {
    if wide then
      [Field(p.ptype, 4), Field(p.pflags, 4), Field(p.offset, 8), Field(u.vaddr, 8), Field(u.paddr, 8), Field(p.filesz, 8),
       Field(p.memsz, 8), Field(u.align, 8)]
    else
      [Field(p.ptype, 4), Field(p.offset, 4), Field(u.vaddr, 4), Field(u.paddr, 4), Field(p.filesz, 4), Field(p.memsz, 4),
       Field(p.pflags, 4), Field(u.align, 4)]
  }

  function MachFields(h: MachHeader, flags: nat): seq<Field> {
    [Field(h.magic, 4), Field(h.cpu, 4), Field(h.subtype, 4), Field(h.kind, 4), Field(h.ncmds, 4), Field(h.sizeofcmds, 4),
     Field(flags, 4), Field(h.reserved, 4)]
  }

  /** The fields of a segment command. */
  datatype Segment = Segment(
    command: nat, size: nat, name: nat, vmaddr: nat, vmsize: nat, fileoff: nat, filesize: nat, maxprot: nat, initprot: nat,
    nsects: nat, flags: nat)

  function SegmentFields(s: Segment): seq<Field> {
    [Field(s.command, 4), Field(s.size, 4), Field(s.name, 16), Field(s.vmaddr, 8), Field(s.vmsize, 8), Field(s.fileoff, 8),
     Field(s.filesize, 8), Field(s.maxprot, 4), Field(s.initprot, 4), Field(s.nsects, 4), Field(s.flags, 4)]
  }

  /** Where field `k` starts. */
  function At(fields: seq<Field>, k: nat): nat
    requires k <= |fields|
    decreases k
  {
    if k == 0 then 0 else At(fields, k - 1) + fields[k - 1].width
  }

  lemma {:induction false} WidthsSnoc(fields: seq<Field>, f: Field)
    ensures Widths(fields + [f]) == Widths(fields) + f.width
  {
    if fields != [] {
      WidthsSnoc(fields[1..], f);
      assert (fields + [f])[1..] == fields[1..] + [f];
    }
  }

  lemma {:induction false} WidthsAt(fields: seq<Field>, k: nat)
    requires k <= |fields|
    ensures Widths(fields[..k]) == At(fields, k)
  {
    if k > 0 {
      WidthsAt(fields, k - 1);
      WidthsSnoc(fields[..k - 1], fields[k - 1]);
      assert fields[..k] == fields[..k - 1] + [fields[k - 1]];
    }
  }

  lemma Reads(before: Bytes, fields: seq<Field>, after: Bytes, k: nat)
    requires k < |fields| && AllFit(fields)
    ensures var d := before + Lay(fields) + after; var at := |before| + At(fields, k);
      at + fields[k].width <= |d| && Number(d, at, fields[k].width) == fields[k].value
  {
    hide Lay, Number, AllFit, Widths, At;
    FieldReads(before, fields, after, k);
    WidthsAt(fields, k);
  }

  /** An ELF header that is laid out is read back, whatever its fields are and whatever follows it. */
  lemma ElfHeaderReads(ident: Bytes, h: ElfHeader, u: Unread, c: Class, after: Bytes)
    requires |ident| == 16 && AllFit(ElfFields(h, u, c == Class64))
    ensures var d := ident + Lay(ElfFields(h, u, c == Class64)) + after;
      HeaderSize(c) <= |d| && ReadElfHeader(c, d) == h
  {
    var fields := ElfFields(h, u, c == Class64);
    ElfPlaces(h, u, c == Class64);
    var d := ident + Lay(fields) + after;
    hide Lay, At, Number, AllFit;
    Reads(ident, fields, after, 0); Reads(ident, fields, after, 1); Reads(ident, fields, after, 2); Reads(ident, fields, after, 4);
    Reads(ident, fields, after, 6); Reads(ident, fields, after, 7); Reads(ident, fields, after, 8); Reads(ident, fields, after, 9);
    Reads(ident, fields, after, 12);
  }

  /** The positions the standard gives, counted from the end of the identification. */
  lemma ElfPlaces(h: ElfHeader, u: Unread, wide: bool)
    ensures var f := ElfFields(h, u, wide);
      && |f| == 13 && At(f, 0) == 0 && At(f, 1) == 2 && At(f, 2) == 4
      && At(f, 4) == (if wide then 16 else 12) && At(f, 6) == (if wide then 32 else 20) && At(f, 7) == (if wide then 36 else 24)
      && At(f, 8) == (if wide then 38 else 26) && At(f, 9) == (if wide then 40 else 28) && At(f, 12) == (if wide then 46 else 34)
  {
    var f := ElfFields(h, u, wide);
    assert At(f, 3) == 8;
    assert At(f, 6) == At(f, 3) + (if wide then 24 else 12);
    assert At(f, 9) == At(f, 6) + 8;
  }

  /** A program header that is laid out is read back. */
  lemma ProgramReads(before: Bytes, p: Program, u: Unread, c: Class, after: Bytes)
    requires AllFit(ProgramFields(p, u, c == Class64))
    ensures var row := Lay(ProgramFields(p, u, c == Class64)); |row| == ProgramSize(c) && ReadProgram(c, row) == p
  {
    var fields := ProgramFields(p, u, c == Class64);
    ProgramPlaces(p, u, c == Class64);
    WidthsAt(fields, 8);
    assert fields[..8] == fields;
    hide At, Number, AllFit;
    var row := Lay(fields);
    assert [] + row + [] == row;
    hide Lay;
    Reads([], fields, [], 0);
    if c == Class64 {
      Reads([], fields, [], 1); Reads([], fields, [], 2); Reads([], fields, [], 5); Reads([], fields, [], 6);
    } else {
      Reads([], fields, [], 1); Reads([], fields, [], 4); Reads([], fields, [], 5); Reads([], fields, [], 6);
    }
  }

  lemma ProgramPlaces(p: Program, u: Unread, wide: bool)
    ensures var f := ProgramFields(p, u, wide);
      && |f| == 8 && At(f, 0) == 0 && At(f, 1) == 4 && At(f, 2) == 8 && At(f, 4) == (if wide then 24 else 16)
      && At(f, 5) == (if wide then 32 else 20) && At(f, 6) == (if wide then 40 else 24) && At(f, 8) == if wide then 56 else 32
  {
    var f := ProgramFields(p, u, wide);
    assert At(f, 3) == if wide then 16 else 12;
    assert At(f, 7) == if wide then 48 else 28;
  }

  lemma MachPlaces(f: seq<Field>)
    requires |f| == 8 && forall k | 0 <= k < 8 :: f[k].width == 4
    ensures At(f, 0) == 0 && At(f, 1) == 4 && At(f, 2) == 8 && At(f, 3) == 12 && At(f, 4) == 16 && At(f, 5) == 20 && At(f, 7) == 28
  {
    assert At(f, 3) == 12;
    assert At(f, 6) == 24;
  }

  lemma SegmentPlaces(f: seq<Field>)
    requires |f| == 11 && f[0].width == f[1].width == 4 && f[2].width == 16
    requires forall k | 3 <= k < 7 :: f[k].width == 8
    requires forall k | 7 <= k < 11 :: f[k].width == 4
    ensures At(f, 0) == 0 && At(f, 1) == 4 && At(f, 5) == 40 && At(f, 6) == 48 && At(f, 8) == 60 && At(f, 9) == 64 && At(f, 10) == 68
  {
    assert At(f, 3) == 24;
    assert At(f, 6) == 48;
    assert At(f, 8) == 60;
  }

  /** A Mach-O header that is laid out is read back. */
  lemma MachHeaderReads(h: MachHeader, flags: nat, after: Bytes)
    requires AllFit(MachFields(h, flags))
    ensures var d := Lay(MachFields(h, flags)) + after; 32 <= |d| && ReadMachHeader(d) == h
  {
    hide Lay, Number, AllFit, At;
    var fields := MachFields(h, flags);
    var d := Lay(fields) + after;
    assert [] + Lay(fields) + after == d;
    MachPlaces(fields);
    Reads([], fields, after, 0); Reads([], fields, after, 1); Reads([], fields, after, 2); Reads([], fields, after, 3);
    Reads([], fields, after, 4); Reads([], fields, after, 5); Reads([], fields, after, 7);
  }

  /** A segment command that is laid out anywhere in a file is read back, field by field. */
  lemma SegmentReads(before: Bytes, s: Segment, after: Bytes)
    requires AllFit(SegmentFields(s))
    ensures var d := before + Lay(SegmentFields(s)) + after; var at := |before|;
      && at + 72 <= |d| && CommandSize(d, at) == s.size && (IsSegment(d, at) <==> s.command == 0x19)
      && Number(d, at + 40, 8) == s.fileoff && Number(d, at + 48, 8) == s.filesize
      && Number(d, at + 60, 4) == s.initprot && Number(d, at + 64, 4) == s.nsects
  {
    hide Lay, Number, AllFit, At;
    var fields := SegmentFields(s);
    var d := before + Lay(fields) + after;
    SegmentPlaces(fields);
    Reads(before, fields, after, 0); Reads(before, fields, after, 1); Reads(before, fields, after, 5); Reads(before, fields, after, 6);
    Reads(before, fields, after, 8); Reads(before, fields, after, 9); Reads(before, fields, after, 10);
  }

  // ------------------------------------------------ files that are accepted

  predicate Linux(t: Target) {
    !t.X86Darwin? && !t.ArmDarwin?
  }

  const NOTHING_ELSE := Unread(0, 0, 0, 0, 0, 0, 0, 4096)

  function ElfIdent(wide: bool): Bytes {
    [0x7f, 0x45, 0x4c, 0x46, if wide then 2 else 1, 1, 1, 0, 0, 0, 0, 0, 0, 0, 0, 0]
  }

  function SmallHeader(t: Target): ElfHeader {
    var size, row := if Wide(t) then 64 else 52, if Wide(t) then 56 else 32;
    ElfHeader(2, match t case X86Linux => 62 case ArmLinux64 => 183 case I686Linux => 3 case _ => 40, 1, size,
              if t == ArmLinux32 then 0x500_0400 else 0, size, row, 1)
  }

  function SmallProgram(t: Target, code: Bytes): Program {
    var total := |code| + if Wide(t) then 120 else 84;
    Program(1, 0, total, total, 5)
  }

  /** An executable for a Linux target: its header, one segment that loads the whole file, and the code. */
  function ElfImage(t: Target, code: Bytes): Bytes {
    ElfIdent(Wide(t)) + Lay(ElfFields(SmallHeader(t), NOTHING_ELSE, Wide(t)))
    + (Lay(ProgramFields(SmallProgram(t, code), NOTHING_ELSE, Wide(t))) + code)
  }

  lemma FitsWide(n: nat)
    ensures n < 0x1_0000 ==> Fits(n, 2)
    ensures n < 0x1_0000_0000 ==> Fits(n, 4) && Fits(n, 8)
    ensures n == 0 ==> Fits(n, 16)
  {
    FitsMore(n, 2, 0x1_0000);
    FitsMore(n, 4, 0x1_0000_0000);
    FitsZero(4);
    FitsZero(16);
    if n < 0x1_0000_0000 {
      FitsLonger(n, 4, 8);
    }
  }

  lemma {:induction false} FitsMore(n: nat, width: nat, limit: nat)
    requires (width == 0 && limit == 1) || (width == 1 && limit == 0x100) || (width == 2 && limit == 0x1_0000)
             || (width == 3 && limit == 0x100_0000) || (width == 4 && limit == 0x1_0000_0000)
    ensures Fits(n, width) <==> n < limit
  {
    if width > 0 {
      FitsMore(n / 256, width - 1, limit / 256);
    }
  }

  lemma {:induction false} FitsZero(width: nat)
    ensures Fits(0, width)
  {
    if width > 0 {
      FitsZero(width - 1);
    }
  }

  lemma {:induction false} FitsLonger(n: nat, width: nat, longer: nat)
    requires Fits(n, width) && width <= longer
    ensures Fits(n, longer)
  {
    if width == 0 {
      FitsZero(longer);
    } else {
      FitsLonger(n / 256, width - 1, longer - 1);
    }
  }

  lemma ElfFieldsFit(t: Target, code: Bytes)
    requires |code| <= 0x1000_0000
    ensures AllFit(ElfFields(SmallHeader(t), NOTHING_ELSE, Wide(t)))
    ensures AllFit(ProgramFields(SmallProgram(t, code), NOTHING_ELSE, Wide(t)))
  {
    hide Fits;
    forall n: nat ensures (n < 0x1_0000 ==> Fits(n, 2)) && (n < 0x1_0000_0000 ==> Fits(n, 4) && Fits(n, 8)) { FitsWide(n); }
  }

  lemma WidthOfHeader(t: Target)
    ensures Widths(ElfFields(SmallHeader(t), NOTHING_ELSE, Wide(t))) == if Wide(t) then 48 else 36
  {
    var f := ElfFields(SmallHeader(t), NOTHING_ELSE, Wide(t));
    ElfPlaces(SmallHeader(t), NOTHING_ELSE, Wide(t));
    WidthsAt(f, 13);
    assert f[..13] == f;
  }

  lemma ElfImageHeader(t: Target, code: Bytes)
    requires Linux(t) && |code| <= 0x0fff_0000
    ensures var d := ElfImage(t, code);
      ElfHeaderAccepted(d, t) && ReadElfHeader(ClassOf(t), d) == SmallHeader(t)
  {
    hide Lay, ReadElfHeader, AllFit, Widths, Ident, ElfFields, ProgramFields;
    var c, wide, d := ClassOf(t), Wide(t), ElfImage(t, code);
    var p := SmallProgram(t, code);
    ElfFieldsFit(t, code);
    ElfHeaderReads(ElfIdent(wide), SmallHeader(t), NOTHING_ELSE, c, Lay(ProgramFields(p, NOTHING_ELSE, wide)) + code);
    IdentShown(d, c);
    ProgramReads([], p, NOTHING_ELSE, c, []);
    ElfImageSize(t, code);
    if t == ArmLinux32 {
      assert 0x500_0400 / 0x100_0000 == 5 && Bit(0x500_0400, 0x400) && !Bit(0x500_0400, 0x200);
    }
  }

  lemma ElfImageSize(t: Target, code: Bytes)
    requires |code| <= 0x0fff_0000
    ensures var d := ElfImage(t, code);
      && |d| == |code| + (if Wide(t) then 120 else 84)
      && (forall i | 0 <= i < 16 :: d[i] == ElfIdent(Wide(t))[i])
      && (if Wide(t) then d[64..120] else d[52..84]) == Lay(ProgramFields(SmallProgram(t, code), NOTHING_ELSE, Wide(t)))
  {
    hide Lay, AllFit, Widths, ElfFields, ProgramFields, SmallProgram, SmallHeader;
    ElfFieldsFit(t, code);
    WidthOfHeader(t);
    ProgramReads([], SmallProgram(t, code), NOTHING_ELSE, ClassOf(t), []);
    MiddlePart(ElfIdent(Wide(t)) + Lay(ElfFields(SmallHeader(t), NOTHING_ELSE, Wide(t))),
               Lay(ProgramFields(SmallProgram(t, code), NOTHING_ELSE, Wide(t))), code);
  }

  lemma MiddlePart(a: Bytes, b: Bytes, c: Bytes)
    ensures (a + (b + c))[|a|..|a| + |b|] == b
  {}

  /** Every such file is accepted, for each Linux target and whatever the code is. */
  lemma ElfImageAccepted(t: Target, code: Bytes)
    requires Linux(t) && |code| <= 0x0fff_0000
    ensures Accepted(ElfImage(t, code), t)
  {
    hide Lay, ReadElfHeader, ReadProgram, AllFit, Widths, ElfHeaderAccepted, ElfImage, ElfFields, ProgramFields;
    var c, d, p := ClassOf(t), ElfImage(t, code), SmallProgram(t, code);
    ElfFieldsFit(t, code);
    ElfImageHeader(t, code);
    ElfImageSize(t, code);
    ProgramReads([], p, NOTHING_ELSE, c, []);
    assert ProgramAt(d, t, 0) == p;
    hide ProgramAt;
    assert Bit(5, 1);
    assert ExecutableLoad(ProgramAt(d, t, 0));
    assert SegmentAccepted(c, d, ProgramAt(d, t, 0));
  }

  function SmallMachHeader(t: Target): MachHeader {
    MachHeader(0xfeedfacf, if t == X86Darwin then 0x0100_0007 else 0x0100_000c, if t == X86Darwin then 3 else 0, 2, 1, 72, 0)
  }

  function SmallSegment(code: Bytes): Segment {
    Segment(0x19, 72, 0, 0, 104 + |code|, 0, 104 + |code|, 7, 5, 0, 0)
  }

  /** An executable for a Darwin target: its header, one segment over the whole file, and the code. */
  function MachImage(t: Target, code: Bytes): Bytes {
    Lay(MachFields(SmallMachHeader(t), 0)) + (Lay(SegmentFields(SmallSegment(code))) + code)
  }

  lemma MachFieldsFit(t: Target, code: Bytes)
    requires |code| <= 0x1000_0000
    ensures AllFit(MachFields(SmallMachHeader(t), 0)) && AllFit(SegmentFields(SmallSegment(code)))
  {
    hide Fits;
    forall n: nat ensures n < 0x1_0000_0000 ==> Fits(n, 4) && Fits(n, 8) { FitsWide(n); }
    FitsWide(0);
  }

  lemma WidthOfMach(t: Target)
    ensures Widths(MachFields(SmallMachHeader(t), 0)) == 32
  {
    var f := MachFields(SmallMachHeader(t), 0);
    MachPlaces(f);
    WidthsAt(f, 8);
    assert f[..8] == f;
  }

  lemma MachImageSegment(t: Target, code: Bytes)
    requires !Linux(t) && |code| <= 0x0fff_0000
    ensures var d := MachImage(t, code);
      |d| == 104 + |code| && CommandAccepted(d, 32, 104) && CommandSize(d, 32) == 72 && ExecutableSegment(d, 32)
  {
    hide Lay, AllFit, Widths, Number, MachFields, SegmentFields;
    var d, s := MachImage(t, code), SmallSegment(code);
    var head, command := Lay(MachFields(SmallMachHeader(t), 0)), Lay(SegmentFields(s));
    MachFieldsFit(t, code);
    WidthOfMach(t);
    WidthOfSegment(s);
    assert d == head + command + code;
    SegmentReads(head, s, code);
    assert Bit(5, 4);
  }

  lemma WidthOfSegment(s: Segment)
    ensures Widths(SegmentFields(s)) == 72
  {
    var f := SegmentFields(s);
    SegmentPlaces(f);
    WidthsAt(f, 11);
    assert f[..11] == f;
  }

  /** Every such file is accepted, for each Darwin target and whatever the code is. */
  lemma MachImageAccepted(t: Target, code: Bytes)
    requires !Linux(t) && |code| <= 0x0fff_0000
    ensures Accepted(MachImage(t, code), t)
  {
    hide Lay, ReadMachHeader, AllFit, CommandAccepted, CommandSize, ExecutableSegment, MachFields, SegmentFields;
    var d, h := MachImage(t, code), SmallMachHeader(t);
    MachFieldsFit(t, code);
    MachHeaderReads(h, 0, Lay(SegmentFields(SmallSegment(code))) + code);
    MachImageSegment(t, code);
    assert Walk(d, 104, 0, 104) == Some(false);
    assert Walk(d, 32, 1, 104) == Some(true);
  }

  // A program of one instruction for x86-64 Linux, and one for Darwin on ARM, byte for byte.

  function TinyElf(): Bytes {
    seq(121, i requires 0 <= i < 121 => TinyElfByte(i))
  }

  function TinyElfByte(i: nat): byte {
    match i
    case 0 => 0x7f case 1 => 0x45 case 2 => 0x4c case 3 => 0x46 case 4 => 0x02 case 5 => 0x01
    case 6 => 0x01 case 16 => 0x02 case 18 => 0x3e case 20 => 0x01 case 24 => 0x78 case 26 => 0x40
    case 32 => 0x40 case 52 => 0x40 case 54 => 0x38 case 56 => 0x01 case 64 => 0x01 case 68 => 0x05
    case 82 => 0x40 case 90 => 0x40 case 96 => 0x79 case 104 => 0x79 case 113 => 0x10 case 120 => 0xc3
    case _ => 0
  }

  function TinyMach(): Bytes {
    seq(108, i requires 0 <= i < 108 => TinyMachByte(i))
  }

  function TinyMachByte(i: nat): byte {
    match i
    case 0 => 0xcf case 1 => 0xfa case 2 => 0xed case 3 => 0xfe case 4 => 0x0c case 7 => 0x01
    case 12 => 0x02 case 16 => 0x01 case 20 => 0x48 case 32 => 0x19 case 36 => 0x48 case 40 => 0x5f
    case 41 => 0x5f case 42 => 0x54 case 43 => 0x45 case 44 => 0x58 case 45 => 0x54 case 60 => 0x01
    case 65 => 0x10 case 80 => 0x6c case 88 => 0x05 case 92 => 0x05 case 104 => 0xc0 case 105 => 0x03
    case 106 => 0x5f case 107 => 0xd6
    case _ => 0
  }

  lemma TinyElfAccepted()
    ensures Accepted(TinyElf(), X86Linux)
  {
    hide ElfAccepted, Le;
    var d := TinyElf();
    TinyElfShown(d);
    ElfMeans(d, X86Linux);
  }

  lemma TinyElfHeader(d: Bytes)
    requires |d| == 121 && forall i | 0 <= i < 121 :: d[i] == TinyElfByte(i)
    ensures ElfHeaderShown(d, X86Linux) && FieldsOf(d, true).phoff == 64 && FieldsOf(d, true).phsize == 56 && FieldsOf(d, true).phnum == 1
  {
    assert U64(d, 32) == 64;
    assert U16(d, 52) == 64 && U16(d, 54) == 56 && U16(d, 56) == 1;
  }

  lemma TinyElfRow(d: Bytes)
    requires |d| == 121 && forall i | 0 <= i < 121 :: d[i] == TinyElfByte(i)
    ensures ProgramShown(d, true, 64) == Program(1, 0, 121, 121, 5)
  {
    TinyElfWords(d);
    TinyElfSizes(d);
    hide TinyElfByte, U32;
  }

  lemma TinyElfWords(d: Bytes)
    requires |d| == 121 && forall i | 0 <= i < 121 :: d[i] == TinyElfByte(i)
    ensures U32(d, 64) == 1 && U32(d, 68) == 5 && U32(d, 72) == 0 && U32(d, 76) == 0
  {}

  lemma TinyElfSizes(d: Bytes)
    requires |d| == 121 && forall i | 0 <= i < 121 :: d[i] == TinyElfByte(i)
    ensures U32(d, 96) == 121 && U32(d, 100) == 0 && U32(d, 104) == 121 && U32(d, 108) == 0
  {}

  lemma TinyElfShown(d: Bytes)
    requires |d| == 121 && forall i | 0 <= i < 121 :: d[i] == TinyElfByte(i)
    ensures ElfShown(d, X86Linux)
  {
    hide TinyElfByte, ElfHeaderShown, ProgramShown, FieldsOf;
    TinyElfHeader(d);
    TinyElfRow(d);
    HeaderLong(d, X86Linux);
    assert RowShown(d, X86Linux, 0) == Program(1, 0, 121, 121, 5);
  }

  lemma TinyMachAccepted()
    ensures Accepted(TinyMach(), ArmDarwin)
  {
    hide MachAccepted, Le;
    var d := TinyMach();
    TinyMachShown(d);
    MachMeans(d, ArmDarwin);
  }

  lemma TinyMachHeader(d: Bytes)
    requires |d| == 108 && forall i | 0 <= i < 108 :: d[i] == TinyMachByte(i)
    ensures MachHeaderShown(d, ArmDarwin) && U32(d, 16) == 1 && U32(d, 20) == 72
  {}

  lemma TinyMachWords(d: Bytes)
    requires |d| == 108 && forall i | 0 <= i < 108 :: d[i] == TinyMachByte(i)
    ensures U32(d, 32) == 0x19 && U32(d, 36) == 72 && U32(d, 96) == 0 && d[92] == 5
  {}

  lemma TinyMachSizes(d: Bytes)
    requires |d| == 108 && forall i | 0 <= i < 108 :: d[i] == TinyMachByte(i)
    ensures U32(d, 72) == 0 && U32(d, 76) == 0 && U32(d, 80) == 108 && U32(d, 84) == 0
  {}

  lemma TinyMachShown(d: Bytes)
    requires |d| == 108 && forall i | 0 <= i < 108 :: d[i] == TinyMachByte(i)
    ensures MachShown(d, ArmDarwin)
  {
    hide TinyMachByte, U32, MachHeaderShown;
    TinyMachHeader(d);
    TinyMachWords(d);
    TinyMachSizes(d);
    var starts: seq<nat> := [32, 104];
    assert Laid(d, starts, U32(d, 16), 32 + U32(d, 20));
    assert ExecutableShown(d, starts[0]);
    assert SomeExecutable(d, starts);
  }
}
