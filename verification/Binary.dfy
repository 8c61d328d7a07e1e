/**
  `validate_binary` of scripts/release-binaries.py: bounded walks over ELF program headers and
  dynamic tables (System V gABI) and over Mach-O load commands.
*/
module Binary {
  import opened Wrappers
  import opened Bytes

  datatype Target = X86Linux | ArmLinux64 | I686Linux | ArmLinux32 | X86Darwin | ArmDarwin

  datatype Class = Class32 | Class64

  const MAX_BINARY: nat := 268435456
  const PT_LOAD: nat := 1
  const PT_DYNAMIC: nat := 2
  const PT_INTERP: nat := 3
  const DT_NULL: nat := 0
  const DT_NEEDED: nat := 1
  const LC_SEGMENT_64: nat := 0x19

  /** A little-endian unsigned number. */
  function Le(s: Bytes): (n: nat) {
    if s == [] then 0 else s[0] + 256 * Le(s[1..])
  }

  lemma {:induction false} LeOfZeros(s: Bytes)
    requires AllZero(s)
    ensures Le(s) == 0
  {
    if s != [] { LeOfZeros(s[1..]); }
  }

  /** Bit `v`, a power of two, of a number. */
  predicate Bit(n: nat, v: nat)
    requires v > 0
  {
    (n / v) % 2 == 1
  }

  /** A slice, or an error when it does not lie in the data. */
  function Region(data: Bytes, offset: int, size: int): (r: Option<Bytes>)
    ensures r.Some? <==> 0 <= offset && 0 <= size && offset + size <= |data|
    ensures r.Some? ==> r.value == data[offset..offset + size]
  {
    if 0 <= offset <= |data| && 0 <= size <= |data| - offset then Some(data[offset..offset + size]) else None
  }

  function Number(data: Bytes, at: nat, width: nat): nat
    requires at + width <= |data|
  {
    Le(data[at..at + width])
  }

  // ------------------------------------------------ ELF

  datatype ElfHeader = ElfHeader(kind: nat, cpu: nat, version: nat, phoff: nat, flags: nat, ehsize: nat, phsize: nat, phnum: nat)

  function HeaderSize(c: Class): nat {
    if c == Class32 then 52 else 64
  }

  function ProgramSize(c: Class): nat {
    if c == Class32 then 32 else 56
  }

  function EntrySize(c: Class): nat {
    if c == Class32 then 8 else 16
  }

  function ReadElfHeader(c: Class, d: Bytes): ElfHeader
    requires HeaderSize(c) <= |d|
  {
    if c == Class32 then
      ElfHeader(Number(d, 16, 2), Number(d, 18, 2), Number(d, 20, 4), Number(d, 28, 4), Number(d, 36, 4),
                Number(d, 40, 2), Number(d, 42, 2), Number(d, 44, 2))
    else
      ElfHeader(Number(d, 16, 2), Number(d, 18, 2), Number(d, 20, 4), Number(d, 32, 8), Number(d, 48, 4),
                Number(d, 52, 2), Number(d, 54, 2), Number(d, 56, 2))
  }

  datatype Program = Program(ptype: nat, offset: nat, filesz: nat, memsz: nat, pflags: nat)

  function ReadProgram(c: Class, p: Bytes): Program
    requires |p| == ProgramSize(c)
  {
    if c == Class32 then Program(Number(p, 0, 4), Number(p, 4, 4), Number(p, 16, 4), Number(p, 20, 4), Number(p, 24, 4))
    else Program(Number(p, 0, 4), Number(p, 8, 8), Number(p, 32, 8), Number(p, 40, 8), Number(p, 4, 4))
  }

  function Machine(t: Target): nat {
    match t
    case X86Linux => 62
    case ArmLinux64 => 183
    case I686Linux => 3
    case _ => 40
  }

  function ClassOf(t: Target): Class {
    if t.I686Linux? || t.ArmLinux32? then Class32 else Class64
  }

  function Ident(c: Class): Bytes {
    [0x7f, 0x45, 0x4c, 0x46, if c == Class32 then 1 else 2, 1, 1]
  }

  /** The tag of the dynamic entry at byte `at`. */
  function Tag(c: Class, segment: Bytes, at: nat): nat
    requires at + EntrySize(c) <= |segment|
  {
    Number(segment, at, EntrySize(c) / 2)
  }

  predicate EntryAt(c: Class, segment: Bytes, at: int) {
    0 <= at && at % EntrySize(c) == 0 && at + EntrySize(c) <= |segment|
  }

  /** The table ends at `stop`: a null tag there, none and no DT_NEEDED before, only zeros after. */
  ghost predicate EndsAt(c: Class, segment: Bytes, stop: int) {
    && EntryAt(c, segment, stop) && Tag(c, segment, stop) == DT_NULL
    && (forall at | EntryAt(c, segment, at) && at < stop :: Tag(c, segment, at) != DT_NULL && Tag(c, segment, at) != DT_NEEDED)
    && AllZero(segment[stop + EntrySize(c)..])
  }

  ghost predicate DynamicAccepted(c: Class, segment: Bytes) {
    |segment| > 0 && |segment| % EntrySize(c) == 0 && exists stop :: EndsAt(c, segment, stop)
  }

  ghost predicate SegmentAccepted(c: Class, d: Bytes, p: Program) {
    && p.filesz <= p.memsz && p.offset + p.filesz <= |d|
    && p.ptype != PT_INTERP
    && (p.ptype == PT_DYNAMIC ==> DynamicAccepted(c, d[p.offset..p.offset + p.filesz]))
  }

  predicate ExecutableLoad(p: Program) {
    p.ptype == PT_LOAD && Bit(p.pflags, 1) && p.filesz > 0
  }

  /** Everything up to the segments: identity, header, and a program table inside the file. */
  predicate ElfHeaderAccepted(d: Bytes, t: Target) {
    var c := ClassOf(t);
    && 7 <= |d| && d[0..7] == Ident(c) && HeaderSize(c) <= |d|
    && var h := ReadElfHeader(c, d);
    && (h.kind == 2 || h.kind == 3) && h.cpu == Machine(t) && h.version == 1 && h.ehsize == HeaderSize(c)
    && 0 < h.phnum < 65535 && h.phsize == ProgramSize(c) && h.phoff >= HeaderSize(c)
    && h.phoff + ProgramSize(c) * h.phnum <= |d|
    && (t == ArmLinux32 ==> h.flags / 0x1000000 == 5 && Bit(h.flags, 0x400) && !Bit(h.flags, 0x200))
  }

  lemma RowInside(size: nat, i: nat, n: nat)
    requires (size == 32 || size == 56) && i < n
    ensures size * i + size <= size * n
  {}

  function ProgramAt(d: Bytes, t: Target, i: nat): Program
    requires ElfHeaderAccepted(d, t) && i < ReadElfHeader(ClassOf(t), d).phnum
  {
    var h := ReadElfHeader(ClassOf(t), d);
    RowInside(ProgramSize(ClassOf(t)), i, h.phnum);
    var at := h.phoff + ProgramSize(ClassOf(t)) * i;
    ReadProgram(ClassOf(t), d[at..at + ProgramSize(ClassOf(t))])
  }

  ghost predicate ElfAccepted(d: Bytes, t: Target) {
    && ElfHeaderAccepted(d, t)
    && var n := ReadElfHeader(ClassOf(t), d).phnum;
    && (forall i | 0 <= i < n :: SegmentAccepted(ClassOf(t), d, ProgramAt(d, t, i)))
    && (exists i :: 0 <= i < n && ExecutableLoad(ProgramAt(d, t, i)))
  }

  /** The walk over one dynamic table, entry by entry up to the terminator. */
  method CheckDynamic(c: Class, segment: Bytes) returns (ok: bool)
    ensures ok <==> DynamicAccepted(c, segment)
  {
    hide Tag, AllZero;
    var entry := EntrySize(c);
    if |segment| == 0 || |segment| % entry != 0 {
      return false;
    }
    var position := 0;
    while position < |segment|
      invariant 0 <= position <= |segment| && position % entry == 0
      invariant forall at | EntryAt(c, segment, at) && at < position :: Tag(c, segment, at) != DT_NULL && Tag(c, segment, at) != DT_NEEDED
    {
      EntryFits(position, |segment|, entry);
      assert EntryAt(c, segment, position);
      var tag := Tag(c, segment, position);
      if tag == DT_NEEDED {
        NeededRefused(c, segment, position);
        return false;
      }
      if tag == DT_NULL {
        ok := AllZero(segment[position + entry..]);
        TerminatorDecides(c, segment, position);
        return;
      }
      NextEntry(c, segment, position);
      position := position + entry;
    }
    assert forall stop :: !EndsAt(c, segment, stop);
    return false;
  }

  lemma EntryFits(position: nat, length: nat, entry: nat)
    requires entry == 8 || entry == 16
    requires position < length && position % entry == 0 && length % entry == 0
    ensures position + entry <= length && (position + entry) % entry == 0
  {}

  lemma NextEntry(c: Class, segment: Bytes, position: nat)
    requires EntryAt(c, segment, position)
    ensures forall at | EntryAt(c, segment, at) && at < position + EntrySize(c) :: at <= position
  {}

  lemma NeededRefused(c: Class, segment: Bytes, position: nat)
    requires EntryAt(c, segment, position) && Tag(c, segment, position) == DT_NEEDED
    requires forall at | EntryAt(c, segment, at) && at < position :: Tag(c, segment, at) != DT_NULL
    ensures !DynamicAccepted(c, segment)
  {
    hide Tag;
    forall stop ensures !EndsAt(c, segment, stop) {
      if stop < position {
        assert EntryAt(c, segment, stop) ==> Tag(c, segment, stop) != DT_NULL;
      }
    }
  }

  lemma TerminatorDecides(c: Class, segment: Bytes, position: nat)
    requires |segment| > 0 && |segment| % EntrySize(c) == 0
    requires EntryAt(c, segment, position) && Tag(c, segment, position) == DT_NULL
    requires forall at | EntryAt(c, segment, at) && at < position :: Tag(c, segment, at) != DT_NULL && Tag(c, segment, at) != DT_NEEDED
    ensures DynamicAccepted(c, segment) <==> AllZero(segment[position + EntrySize(c)..])
  {
    hide Tag, AllZero;
    if stop :| EndsAt(c, segment, stop) {
      assert stop == position;
    }
    if AllZero(segment[position + EntrySize(c)..]) {
      assert EndsAt(c, segment, position);
    }
  }

  method CheckSegment(c: Class, d: Bytes, p: Program) returns (ok: bool)
    ensures ok <==> SegmentAccepted(c, d, p)
  {
    hide DynamicAccepted;
    if p.filesz > p.memsz {
      return false;
    }
    var segment := Region(d, p.offset, p.filesz);
    if segment.None? || p.ptype == PT_INTERP {
      return false;
    }
    if p.ptype == PT_DYNAMIC {
      ok := CheckDynamic(c, segment.value);
      return;
    }
    return true;
  }

  method ValidateElf(d: Bytes, t: Target) returns (ok: bool)
    ensures ok <==> ElfAccepted(d, t)
  {
    hide SegmentAccepted, ElfHeaderAccepted, ExecutableLoad, ProgramAt;
    if !ElfHeaderAccepted(d, t) {
      return false;
    }
    HeaderFits(d, t);
    var n := ReadElfHeader(ClassOf(t), d).phnum;
    var executable, i := false, 0;
    while i < n
      invariant 0 <= i <= n
      invariant forall j | 0 <= j < i :: SegmentAccepted(ClassOf(t), d, ProgramAt(d, t, j))
      invariant executable <==> exists j :: 0 <= j < i && ExecutableLoad(ProgramAt(d, t, j))
    {
      var p := ProgramAt(d, t, i);
      var good := CheckSegment(ClassOf(t), d, p);
      if !good {
        return false;
      }
      executable := executable || ExecutableLoad(p);
      i := i + 1;
    }
    return executable;
  }

  lemma HeaderFits(d: Bytes, t: Target)
    ensures ElfHeaderAccepted(d, t) ==> HeaderSize(ClassOf(t)) <= |d|
  {}

  /**
    What acceptance of a dynamic table means: no entry at ANY index is DT_NEEDED, neither before
    the terminator, where each was looked at, nor after it, where everything is zero.
  */
  lemma NoNeededAnywhere(c: Class, segment: Bytes, at: int)
    requires DynamicAccepted(c, segment) && EntryAt(c, segment, at)
    ensures Tag(c, segment, at) != DT_NEEDED
  {
    var stop :| EndsAt(c, segment, stop);
    if at > stop {
      var e := EntrySize(c);
      EntriesApart(at, stop, e);
      TailSlice(segment, stop + e, at - stop - e, at - stop - e + e / 2);
      LeOfZeros(segment[at..at + e / 2]);
    }
  }

  lemma EntriesApart(at: nat, stop: nat, entry: nat)
    requires entry == 8 || entry == 16
    requires stop < at && at % entry == 0 && stop % entry == 0
    ensures stop + entry <= at
  {}

  // ------------------------------------------------ Mach-O

  datatype MachHeader = MachHeader(magic: nat, cpu: nat, subtype: nat, kind: nat, ncmds: nat, sizeofcmds: nat, reserved: nat)

  function ReadMachHeader(d: Bytes): MachHeader
    requires 32 <= |d|
  {
    MachHeader(Number(d, 0, 4), Number(d, 4, 4), Number(d, 8, 4), Number(d, 12, 4), Number(d, 16, 4), Number(d, 20, 4), Number(d, 28, 4))
  }

  predicate MachHeaderAccepted(d: Bytes, t: Target) {
    && 32 <= |d|
    && var h := ReadMachHeader(d);
    && h.magic == 0xFEEDFACF && h.cpu == (if t == X86Darwin then 0x01000007 else 0x0100000C)
    && h.kind == 2 && h.reserved == 0
    && h.subtype % 0x1000000 == (if t == X86Darwin then 3 else 0)
    && 0 < h.ncmds <= 65535 && h.ncmds * 8 <= h.sizeofcmds
    && 32 + h.sizeofcmds <= |d|
  }

  function CommandSize(d: Bytes, at: nat): nat
    requires at + 8 <= |d|
  {
    Number(d, at + 4, 4)
  }

  predicate IsSegment(d: Bytes, at: nat)
    requires at + 8 <= |d|
  {
    Number(d, at, 4) == LC_SEGMENT_64
  }

  /** The load command at `at` passes every check, given where the command table ends. */
  predicate CommandAccepted(d: Bytes, at: nat, end: nat): (r: bool)
    ensures r ==> at + 8 <= |d| && 8 <= CommandSize(d, at)
  {
    && at + 8 <= |d|
    && var size := CommandSize(d, at);
    && 8 <= size && size % 8 == 0 && at + size <= end
    && (IsSegment(d, at) ==>
          && 72 <= size && at + 72 <= |d|
          && size == 72 + 80 * Number(d, at + 64, 4)
          && Number(d, at + 40, 8) + Number(d, at + 48, 8) <= |d|)
  }

  predicate ExecutableSegment(d: Bytes, at: nat)
    requires at + 8 <= |d|
  {
    IsSegment(d, at) && at + 72 <= |d| && Bit(Number(d, at + 60, 4), 4) && Number(d, at + 48, 8) > 0
  }

  /** Walk `n` commands from `at`; None when a check fails, otherwise whether one is executable. */
  function Walk(d: Bytes, at: nat, n: nat, end: nat): Option<bool>
    decreases n
  {
    if n == 0 then (if at == end then Some(false) else None)
    else if !CommandAccepted(d, at, end) then None
    else match Walk(d, at + CommandSize(d, at), n - 1, end)
      case None => None
      case Some(x) => Some(x || ExecutableSegment(d, at))
  }

  predicate MachAccepted(d: Bytes, t: Target) {
    && MachHeaderAccepted(d, t)
    && Walk(d, 32, ReadMachHeader(d).ncmds, 32 + ReadMachHeader(d).sizeofcmds) == Some(true)
  }

  function Or(x: Option<bool>, b: bool): Option<bool> {
    match x
    case None => None
    case Some(y) => Some(y || b)
  }

  method ValidateMachO(d: Bytes, t: Target) returns (ok: bool)
    ensures ok <==> MachAccepted(d, t)
  {
    hide CommandAccepted, ExecutableSegment, CommandSize;
    if !MachHeaderAccepted(d, t) {
      return false;
    }
    var h := ReadMachHeader(d);
    var end := 32 + h.sizeofcmds;
    var position: nat, executable, i := 32, false, 0;
    while i < h.ncmds
      invariant 0 <= i <= h.ncmds
      invariant Walk(d, 32, h.ncmds, end) == Or(Walk(d, position, h.ncmds - i, end), executable)
    {
      if !CommandAccepted(d, position, end) {
        return false;
      }
      executable := executable || ExecutableSegment(d, position);
      position := position + CommandSize(d, position);
      i := i + 1;
    }
    return position == end && executable;
  }

  /** The starts of the commands, with the end of the table appended. */
  ghost predicate Tiles(d: Bytes, starts: seq<nat>, n: nat, end: nat) {
    && |starts| == n + 1 && starts[n] == end
    && (forall i | 0 <= i < n :: CommandAccepted(d, starts[i], end) && starts[i + 1] == starts[i] + CommandSize(d, starts[i]))
  }

  ghost predicate AnyExecutable(d: Bytes, starts: seq<nat>) {
    exists i :: 0 <= i < |starts| - 1 && starts[i] + 8 <= |d| && ExecutableSegment(d, starts[i])
  }

  lemma AnyExecutableSplit(d: Bytes, starts: seq<nat>)
    requires |starts| > 1
    ensures AnyExecutable(d, starts) <==>
            (starts[0] + 8 <= |d| && ExecutableSegment(d, starts[0])) || AnyExecutable(d, starts[1..])
  {
    hide ExecutableSegment;
    var rest := starts[1..];
    if i :| 0 <= i < |rest| - 1 && rest[i] + 8 <= |d| && ExecutableSegment(d, rest[i]) {
      assert starts[i + 1] == rest[i];
    }
    if i :| 0 < i < |starts| - 1 && starts[i] + 8 <= |d| && ExecutableSegment(d, starts[i]) {
      assert rest[i - 1] == starts[i];
    }
  }

  /** A tiling is walked to the end, and the walk reports whether any of its commands is executable. */
  lemma {:induction false} WalkOfTiles(d: Bytes, starts: seq<nat>, n: nat, end: nat)
    requires Tiles(d, starts, n, end)
    ensures Walk(d, starts[0], n, end) == Some(AnyExecutable(d, starts))
    decreases n
  {
    hide CommandAccepted, CommandSize, ExecutableSegment;
    if n > 0 {
      var rest := starts[1..];
      TilesFirst(d, starts, n, end);
      TilesTail(d, starts, n, end);
      WalkOfTiles(d, rest, n - 1, end);
      hide AnyExecutable;
      AnyExecutableSplit(d, starts);
    }
  }

  /** A walk that succeeds has laid out a tiling. */
  lemma {:induction false} WalkLaysTiles(d: Bytes, at: nat, n: nat, end: nat) returns (starts: seq<nat>)
    requires Walk(d, at, n, end).Some?
    ensures Tiles(d, starts, n, end) && starts[0] == at
    decreases n
  {
    hide CommandAccepted, CommandSize, ExecutableSegment;
    if n == 0 {
      starts := [at];
    } else {
      var rest := WalkLaysTiles(d, at + CommandSize(d, at), n - 1, end);
      starts := [at] + rest;
      forall i | 0 <= i < n ensures CommandAccepted(d, starts[i], end) && starts[i + 1] == starts[i] + CommandSize(d, starts[i]) {
        assert starts[i + 1] == rest[i];
        assert i == 0 || starts[i] == rest[i - 1];
      }
    }
  }

  lemma TilesFirst(d: Bytes, starts: seq<nat>, n: nat, end: nat)
    requires n > 0 && Tiles(d, starts, n, end)
    ensures CommandAccepted(d, starts[0], end) && starts[0 + 1] == starts[0] + CommandSize(d, starts[0])
  {}

  lemma TilesTail(d: Bytes, starts: seq<nat>, n: nat, end: nat)
    requires n > 0 && Tiles(d, starts, n, end)
    ensures Tiles(d, starts[1..], n - 1, end)
  {
    hide CommandAccepted, CommandSize;
    var rest := starts[1..];
    forall i | 0 <= i < n - 1 ensures CommandAccepted(d, rest[i], end) && rest[i + 1] == rest[i] + CommandSize(d, rest[i]) {
      assert starts[i + 1] == rest[i] && starts[i + 1 + 1] == rest[i + 1];
    }
  }

  /** A tiling from an aligned start has aligned commands, no gap and no overlap. */
  lemma {:induction false} TilesCoverOnce(d: Bytes, starts: seq<nat>, n: nat, end: nat, p: nat)
    requires Tiles(d, starts, n, end) && starts[0] % 8 == 0 && starts[0] <= p < end
    ensures forall i | 0 <= i <= n :: starts[i] % 8 == 0
    ensures forall i, j | 0 <= i < j <= n :: starts[i] < starts[j]
    ensures exists i :: 0 <= i < n && starts[i] <= p < starts[i + 1]
    ensures forall i, j | 0 <= i < n && 0 <= j < n && starts[i] <= p < starts[i + 1] && starts[j] <= p < starts[j + 1] :: i == j
    decreases n
  {
    TilesAscend(d, starts, n, end);
    var k := 0;
    while starts[k + 1] <= p
      invariant 0 <= k < n && starts[k] <= p
      decreases n - k
    {
      k := k + 1;
    }
  }

  lemma {:induction false} TilesAscend(d: Bytes, starts: seq<nat>, n: nat, end: nat)
    requires Tiles(d, starts, n, end) && starts[0] % 8 == 0
    ensures forall i | 0 <= i <= n :: starts[i] % 8 == 0
    ensures forall i, j | 0 <= i < j <= n :: starts[i] < starts[j]
    decreases n
  {
    if n > 0 {
      var rest := starts[1..];
      TilesTail(d, starts, n, end);
      assert CommandAccepted(d, starts[0], end) && starts[0 + 1] == starts[0] + CommandSize(d, starts[0]);
      TilesAscend(d, rest, n - 1, end);
      forall i | 0 <= i <= n ensures starts[i] % 8 == 0 {
        assert i == 0 || starts[i] == rest[i - 1];
      }
      forall i, j | 0 <= i < j <= n ensures starts[i] < starts[j] {
        assert starts[j] == rest[j - 1] && starts[1] == rest[0];
        if i > 0 {
          assert starts[i] == rest[i - 1];
        }
      }
    }
  }

  /**
    The law for Mach-O: a file is accepted exactly when its header is, and `ncmds` load commands
    tile the command table from byte 32 to its end, one of them an executable segment.
  */
  lemma MachAcceptedIff(d: Bytes, t: Target)
    ensures MachAccepted(d, t) <==>
            && MachHeaderAccepted(d, t)
            && var h := ReadMachHeader(d);
            exists starts :: Tiles(d, starts, h.ncmds, 32 + h.sizeofcmds) && starts[0] == 32 && AnyExecutable(d, starts)
  {
    hide CommandAccepted, CommandSize, Walk, MachHeaderAccepted, AnyExecutable;
    MachHeaderFits(d, t);
    if MachHeaderAccepted(d, t) {
      var h := ReadMachHeader(d);
      if MachAccepted(d, t) {
        var starts := WalkLaysTiles(d, 32, h.ncmds, 32 + h.sizeofcmds);
        WalkOfTiles(d, starts, h.ncmds, 32 + h.sizeofcmds);
      }
      forall starts | Tiles(d, starts, h.ncmds, 32 + h.sizeofcmds) && starts[0] == 32
        ensures AnyExecutable(d, starts) ==> MachAccepted(d, t)
      {
        WalkOfTiles(d, starts, h.ncmds, 32 + h.sizeofcmds);
      }
    }
  }

  lemma MachHeaderFits(d: Bytes, t: Target)
    ensures MachHeaderAccepted(d, t) ==> 32 <= |d|
  {}

  // ------------------------------------------------ both

  ghost predicate Accepted(d: Bytes, t: Target) {
    0 < |d| <= MAX_BINARY && if t.X86Darwin? || t.ArmDarwin? then MachAccepted(d, t) else ElfAccepted(d, t)
  }

  method ValidateBinary(d: Bytes, t: Target) returns (ok: bool)
    ensures ok <==> Accepted(d, t)
  {
    hide MachAccepted, ElfAccepted;
    if |d| == 0 || |d| > MAX_BINARY {
      return false;
    }
    if t.X86Darwin? || t.ArmDarwin? {
      ok := ValidateMachO(d, t);
    } else {
      ok := ValidateElf(d, t);
    }
  }

  /** The law for ELF: every segment in the file, no interpreter, and no needed library at any index. */
  lemma ElfSelfContained(d: Bytes, t: Target, i: nat)
    requires ElfAccepted(d, t) && i < ReadElfHeader(ClassOf(t), d).phnum
    ensures var p := ProgramAt(d, t, i);
      && p.offset + p.filesz <= |d| && p.ptype != PT_INTERP
      && (p.ptype == PT_DYNAMIC ==>
            var segment := d[p.offset..p.offset + p.filesz];
            forall at | EntryAt(ClassOf(t), segment, at) :: Tag(ClassOf(t), segment, at) != DT_NEEDED)
  {
    hide DynamicAccepted, Tag, ProgramAt, ElfHeaderAccepted;
    var p := ProgramAt(d, t, i);
    assert SegmentAccepted(ClassOf(t), d, p);
    if p.ptype == PT_DYNAMIC {
      var segment := d[p.offset..p.offset + p.filesz];
      forall at | EntryAt(ClassOf(t), segment, at) ensures Tag(ClassOf(t), segment, at) != DT_NEEDED {
        NoNeededAnywhere(ClassOf(t), segment, at);
      }
    }
  }
}
