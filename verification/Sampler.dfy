/**
  `ResourceSampler` of scripts/migration-readiness.py: one task's resource peaks across all of its
  commands. Readers of memory, process trees and filesystems are inputs.
*/
module Sampler {
  import opened Wrappers
  import opened Sequences

  /** The identity of a mounted filesystem; two views are the same filesystem when they are equal. */
  datatype View = View(device: string, mount: string)

  datatype Observation = Observation(measurementPath: string, view: View)

  /** One call of the filesystem reader; `free` is None when the counter was not read. */
  datatype Reading = Unreadable | Read(observation: Observation, free: Option<nat>)

  /** The readings of a sequence of reader calls, in the order of the calls. */
  type Readings = nat -> Reading

  datatype Source = Source(role: string, path: string, observation: Observation)

  datatype Record = Record(device: string, roles: seq<string>, paths: seq<string>, sources: seq<Source>, baseline: nat, minimum: nat)

  datatype State = State(
    diskError: bool, baselineMemory: Option<int>, memoryComplete: bool, peakMemory: Option<int>, peakRss: nat,
    filesystems: seq<Record>)

  // ------------------------------------------------ registering paths

  function IndexOf(fs: seq<Record>, device: string): (r: Option<nat>)
    ensures r.Some? ==> r.value < |fs| && fs[r.value].device == device
    ensures r.None? ==> forall x | x in fs :: x.device != device
  {
    if fs == [] then None
    else if fs[|fs| - 1].device == device then Some(|fs| - 1)
    else IndexOf(fs[..|fs| - 1], device)
  }

  function AddOnce<T(==)>(s: seq<T>, x: T): seq<T> {
    if x in s then s else s + [x]
  }

  function AddSource(r: Record, role: string, path: string, o: Observation): Record {
    r.(roles := AddOnce(r.roles, role), paths := AddOnce(r.paths, path), sources := AddOnce(r.sources, Source(role, path, o)))
  }

  /** One registered path: look at the filesystem, and read a baseline if it is a new one. */
  function Register(fs: seq<Record>, role: string, path: string, calls: Readings, k: nat): Option<(seq<Record>, nat)> {
    var first := calls(k);
    if first.Unreadable? then None
    else
      var o := first.observation;
      match IndexOf(fs, o.view.device)
      case Some(i) => Some((fs[i := AddSource(fs[i], role, path, o)], k + 1))
      case None =>
        var second := calls(k + 1);
        if second.Unreadable? || second.observation.view != o.view || second.free.None? then None
        else
          var blank := Record(o.view.device, [], [], [], second.free.value, second.free.value);
          Some((fs + [AddSource(blank, role, path, o)], k + 2))
  }

  /** Registering stops at the first error and keeps what was registered before it. */
  function RegisterAll(fs: seq<Record>, paths: seq<(string, string)>, calls: Readings, k: nat): (seq<Record>, bool)
    decreases |paths|
  {
    if paths == [] then (fs, false)
    else match Register(fs, paths[0].0, paths[0].1, calls, k)
      case None => (fs, true)
      case Some(next) => RegisterAll(next.0, paths[1..], calls, next.1)
  }

  function Initial(paths: seq<(string, string)>, memory: Option<int>, calls: Readings): State {
    var (fs, failed) := RegisterAll([], paths, calls, 0);
    State(failed, memory, memory.Some?, if memory.Some? then Some(0) else None, 0, fs)
  }

  // ------------------------------------------------ one sample

  /** What one sample calls. `rss` is None when no process tree is measured. */
  datatype Sample = Sample(memory: Option<int>, rss: Option<nat>, calls: Readings)

  /** The reader calls made for the records before record `r`. */
  function Offset(fs: seq<Record>, r: nat): nat
    requires r <= |fs|
  {
    if r == 0 then 0 else Offset(fs, r - 1) + |fs[r - 1].sources|
  }

  /** A reading that raises no error; only the first source of a record calls the counter. */
  predicate Clean(source: Source, index: nat, reading: Reading) {
    reading.Read? && reading.observation.view == source.observation.view && (index == 0 ==> reading.free.Some?)
  }

  ghost predicate CleanRecord(fs: seq<Record>, calls: Readings, r: nat)
    requires r < |fs|
  {
    forall i | 0 <= i < |fs[r].sources| :: Clean(fs[r].sources[i], i, calls(Offset(fs, r) + i))
  }

  ghost predicate CleanSample(fs: seq<Record>, calls: Readings) {
    forall r | 0 <= r < |fs| :: CleanRecord(fs, calls, r)
  }

  /** The counter a clean sample takes for record `r`. */
  function Counter(fs: seq<Record>, calls: Readings, r: nat): nat
    requires r < |fs|
  {
    var reading := calls(Offset(fs, r));
    if fs[r].sources != [] && reading.Read? && reading.free.Some? then reading.free.value else fs[r].minimum
  }

  /** All minima at once, or none. */
  function Lowered(fs: seq<Record>, calls: Readings): (r: seq<Record>)
    ensures |r| == |fs|
    ensures forall i | 0 <= i < |fs| :: r[i] == fs[i].(minimum := Min(fs[i].minimum, Counter(fs, calls, i)))
  {
    seq(|fs|, i requires 0 <= i < |fs| => fs[i].(minimum := Min(fs[i].minimum, Counter(fs, calls, i))))
  }

  function PeakMemory(s: State, memory: Option<int>): Option<int> {
    if memory.None? || s.baselineMemory.None? || !s.memoryComplete then s.peakMemory
    else Some(Max(if s.peakMemory.Some? then s.peakMemory.value else 0, Max(0, s.baselineMemory.value - memory.value)))
  }

  ghost function Step(s: State, x: Sample): State {
    State(
      s.diskError || !CleanSample(s.filesystems, x.calls),
      s.baselineMemory,
      s.memoryComplete && x.memory.Some? && s.baselineMemory.Some?,
      PeakMemory(s, x.memory),
      if x.rss.Some? then Max(s.peakRss, x.rss.value) else s.peakRss,
      if s.diskError || !CleanSample(s.filesystems, x.calls) then s.filesystems else Lowered(s.filesystems, x.calls))
  }

  // ------------------------------------------------ snapshots

  const MEBIBYTE: nat := 1048576

  datatype Filesystem = Filesystem(
    device: string, roles: seq<string>, paths: seq<string>, sources: seq<Source>,
    baselineMib: nat, minimumMib: nat, growthMib: nat)

  datatype Observed = Observed(
    availableMemory: Option<int>, availableDisk: Option<nat>, diskError: bool, peakMemory: Option<int>, peakRss: nat,
    growth: int, filesystems: seq<Filesystem>)

  predicate DeviceLe(a: Filesystem, b: Filesystem) {
    StringLe(a.device, b.device)
  }

  /** `max(0, baseline - minimum)` rounded up to whole mebibytes. */
  function GrowthMib(r: Record): nat {
    (Max(0, r.baseline - r.minimum) + MEBIBYTE - 1) / MEBIBYTE
  }

  function FilesystemOf(): Record -> Filesystem {
    (r: Record) => Filesystem(r.device, Sort(StringLe, r.roles), Sort(StringLe, r.paths), r.sources,
                              r.baseline / MEBIBYTE, r.minimum / MEBIBYTE, GrowthMib(r))
  }

  function GrowthOf(): Filesystem -> int {
    (f: Filesystem) => f.growthMib
  }

  function LeastBaseline(fs: seq<Filesystem>): (m: nat)
    requires fs != []
    ensures forall f | f in fs :: m <= f.baselineMib
    ensures exists f :: f in fs && f.baselineMib == m
  {
    if |fs| == 1 then assert fs[0] in fs; fs[0].baselineMib else
      var m := LeastBaseline(fs[1..]);
      assert fs[0] in fs;
      if fs[0].baselineMib <= m then fs[0].baselineMib else m
  }

  /** The record written from the sampler's state. */
  function SnapshotOf(s: State): Observed {
    var unsorted := Map(FilesystemOf(), s.filesystems);
    var fs := Sort(DeviceLe, unsorted);
    Observed(
      s.baselineMemory,
      if s.diskError || fs == [] then None else Some(LeastBaseline(fs)),
      s.diskError,
      if s.memoryComplete then s.peakMemory else None,
      s.peakRss,
      Sum(GrowthOf(), unsorted),
      fs)
  }

  // ------------------------------------------------ the sampler

  /** The constructor's loop over the measurement paths. */
  method RegisterPaths(paths: seq<(string, string)>, calls: Readings) returns (fs: seq<Record>, failed: bool)
    ensures (fs, failed) == RegisterAll([], paths, calls, 0)
  {
    hide Register;
    fs, failed := [], false;
    var i, k := 0, 0;
    assert paths[0..] == paths;
    while i < |paths|
      invariant 0 <= i <= |paths|
      invariant RegisterAll([], paths, calls, 0) == RegisterAll(fs, paths[i..], calls, k)
    {
      assert paths[i..][1..] == paths[i + 1..];
      match Register(fs, paths[i].0, paths[i].1, calls, k)
      case None =>
        return fs, true;
      case Some(next) =>
        fs, k, i := next.0, next.1, i + 1;
    }
  }

  class ResourceSampler {
    var diskError: bool
    var baselineMemory: Option<int>
    var memoryComplete: bool
    var peakMemory: Option<int>
    var peakRss: nat
    var filesystems: seq<Record>

    ghost function Now(): State
      reads this
    {
      State(diskError, baselineMemory, memoryComplete, peakMemory, peakRss, filesystems)
    }

    constructor (paths: seq<(string, string)>, memory: Option<int>, calls: Readings)
      ensures Now() == Initial(paths, memory, calls)
    {
      hide RegisterAll, Register;
      baselineMemory, memoryComplete, peakRss := memory, memory.Some?, 0;
      peakMemory := if memory.Some? then Some(0) else None;
      var registered, failed := RegisterPaths(paths, calls);
      filesystems, diskError := registered, failed;
    }

    /** Walks every registered source; `counters` holds one fresh counter a record, unless a reading fails. */
    method Measure(calls: Readings) returns (failed: bool, counters: seq<nat>)
      ensures failed <==> !CleanSample(filesystems, calls)
      ensures !failed ==> |counters| == |filesystems| && forall r | 0 <= r < |counters| :: counters[r] == Counter(filesystems, calls, r)
    {
      counters := [];
      var r, k := 0, 0;
      while r < |filesystems|
        invariant 0 <= r <= |filesystems| && |counters| == r && k == Offset(filesystems, r)
        invariant forall j | 0 <= j < r :: CleanRecord(filesystems, calls, j)
        invariant forall j | 0 <= j < r :: counters[j] == Counter(filesystems, calls, j)
      {
        var sources := filesystems[r].sources;
        var i := 0;
        while i < |sources|
          invariant 0 <= i <= |sources|
          invariant forall j | 0 <= j < i :: Clean(sources[j], j, calls(k + j))
        {
          if !Clean(sources[i], i, calls(k + i)) {
            assert !CleanRecord(filesystems, calls, r);
            return true, [];
          }
          i := i + 1;
        }
        assert CleanRecord(filesystems, calls, r);
        counters := counters + [Counter(filesystems, calls, r)];
        k := k + |sources|;
        r := r + 1;
      }
      failed := false;
    }

    /** One sample. A failed filesystem measurement changes no minimum and latches the error. */
    method TakeSample(x: Sample)
      modifies this
      ensures Now() == Step(old(Now()), x)
    {
      if x.memory.None? || baselineMemory.None? {
        memoryComplete := false;
      } else if memoryComplete {
        var delta := Max(0, baselineMemory.value - x.memory.value);
        peakMemory := Some(Max(if peakMemory.Some? then peakMemory.value else 0, delta));
      }
      if x.rss.Some? {
        peakRss := Max(peakRss, x.rss.value);
      }
      if !diskError {
        var failed, counters := Measure(x.calls);
        if failed {
          diskError := true;
        } else {
          filesystems := seq(|filesystems|, i requires 0 <= i < |filesystems| && |counters| == |filesystems| reads this =>
            filesystems[i].(minimum := Min(filesystems[i].minimum, counters[i])));
          assert filesystems == Lowered(old(filesystems), x.calls);
        }
      }
    }

    /** Only a peak of zero is replaced by the fallback. */
    method ApplyRssFallback(rss: nat)
      modifies this
      ensures Now() == RssFallback(old(Now()), rss)
    {
      if peakRss == 0 {
        peakRss := rss;
      }
    }

    /** One filesystem as reported: sorted names, whole mebibytes, the growth rounded up. */
    method Summary(r: Record) returns (f: Filesystem)
      ensures f == FilesystemOf()(r)
    {
      hide Sort, StringLe;
      var growth := (Max(0, r.baseline - r.minimum) + MEBIBYTE - 1) / MEBIBYTE;
      f := Filesystem(r.device, Sort(StringLe, r.roles), Sort(StringLe, r.paths), r.sources,
                      r.baseline / MEBIBYTE, r.minimum / MEBIBYTE, growth);
    }

    /** The record of the state; the caller takes a sample first. */
    method Snapshot() returns (o: Observed)
      ensures o == SnapshotOf(Now())
    {
      hide Sort, StringLe, DeviceLe, LeastBaseline, FilesystemOf;
      var unsorted: seq<Filesystem>, total := [], 0;
      var i := 0;
      while i < |filesystems|
        invariant 0 <= i <= |filesystems|
        invariant unsorted == Map(FilesystemOf(), filesystems)[..i] && total == Sum(GrowthOf(), unsorted)
      {
        var r := filesystems[i];
        var item := Summary(r);
        SumSnoc(GrowthOf(), unsorted, item);
        total := total + item.growthMib;
        unsorted := unsorted + [item];
        i := i + 1;
      }
      assert unsorted == Map(FilesystemOf(), filesystems);
      var sorted := Sort(DeviceLe, unsorted);
      var disk := if diskError || sorted == [] then None else Some(LeastBaseline(sorted));
      return Observed(baselineMemory, disk, diskError, if memoryComplete then peakMemory else None, peakRss, total, sorted);
    }
  }

  /** `apply_rss_fallback` on states. */
  function RssFallback(s: State, rss: nat): State {
    if s.peakRss == 0 then s.(peakRss := rss) else s
  }

  // ------------------------------------------------ whole runs

  ghost function Run(s: State, samples: seq<Sample>): State {
    if samples == [] then s else Step(Run(s, samples[..|samples| - 1]), samples[|samples| - 1])
  }

  /** The shape of the filesystems never changes; only the minima do. */
  ghost predicate SameShape(a: seq<Record>, b: seq<Record>) {
    |a| == |b| && forall i | 0 <= i < |a| :: a[i].(minimum := 0) == b[i].(minimum := 0)
  }

  lemma {:induction false} ShapeOffset(a: seq<Record>, b: seq<Record>, r: nat)
    requires SameShape(a, b) && r <= |a|
    ensures Offset(a, r) == Offset(b, r)
  {
    if r > 0 {
      ShapeOffset(a, b, r - 1);
      assert a[r - 1].(minimum := 0) == b[r - 1].(minimum := 0);
    }
  }

  lemma ShapeClean(a: seq<Record>, b: seq<Record>, calls: Readings)
    requires SameShape(a, b)
    ensures CleanSample(a, calls) <==> CleanSample(b, calls)
  {
    forall r | 0 <= r < |a| ensures CleanRecord(a, calls, r) <==> CleanRecord(b, calls, r) {
      ShapeOffset(a, b, r);
      assert a[r].(minimum := 0) == b[r].(minimum := 0);
    }
  }

  /** The samples before the first failed one: those whose counters are used. */
  ghost function Used(s: State, samples: seq<Sample>): nat {
    if samples == [] || s.diskError then 0
    else if CleanSample(s.filesystems, samples[0].calls) then 1 + Used(s, samples[1..])
    else 0
  }

  /** `m` is the least of the baseline value and the counters of the first `n` samples. */
  ghost predicate IsLeast(m: nat, s: State, samples: seq<Sample>, n: nat, r: nat)
    requires r < |s.filesystems| && n <= |samples|
  {
    && m <= s.filesystems[r].minimum && (forall i | 0 <= i < n :: m <= Counter(s.filesystems, samples[i].calls, r))
    && (m == s.filesystems[r].minimum || exists i :: 0 <= i < n && m == Counter(s.filesystems, samples[i].calls, r))
  }

  /** The largest drop of available memory seen so far. */
  ghost predicate IsLargestDrop(peak: int, s: State, samples: seq<Sample>)
    requires s.baselineMemory.Some? && s.peakMemory.Some? && forall x | x in samples :: x.memory.Some?
  {
    && s.peakMemory.value <= peak && (forall x | x in samples :: s.baselineMemory.value - x.memory.value <= peak)
    && (peak == s.peakMemory.value || exists x :: x in samples && peak == s.baselineMemory.value - x.memory.value)
  }

  /** Every state the constructor or a sample can leave behind. */
  ghost predicate Sane(s: State) {
    && (s.memoryComplete ==> s.baselineMemory.Some?)
    && (s.baselineMemory.Some? ==> s.peakMemory.Some? && s.peakMemory.value >= 0)
    && (forall x | x in s.filesystems :: x.sources != [] && x.minimum <= x.baseline)
  }

  /** A step keeps the shape, and every peak only ever moves one way. */
  lemma StepMonotone(s: State, x: Sample)
    requires Sane(s)
    ensures var t := Step(s, x);
      && Sane(t) && SameShape(s.filesystems, t.filesystems)
      && (s.diskError ==> t.diskError && t.filesystems == s.filesystems)
      && (t.memoryComplete ==> s.memoryComplete) && s.peakRss <= t.peakRss
      && (s.peakMemory.Some? ==> t.peakMemory.Some? && s.peakMemory.value <= t.peakMemory.value)
      && (forall r | 0 <= r < |s.filesystems| :: t.filesystems[r].minimum <= s.filesystems[r].minimum)
  {}

  /**
    The whole run, in closed form: the disk error is latched by exactly the first failed sample;
    each minimum is the least of its starting value and the counters of the samples before it.
  */
  lemma {:induction false} DiskRun(s: State, samples: seq<Sample>)
    requires Sane(s)
    ensures var t := Run(s, samples);
      && Sane(t) && SameShape(s.filesystems, t.filesystems) && t.baselineMemory == s.baselineMemory
      && Used(s, samples) <= |samples|
      && (t.diskError <==> s.diskError || Used(s, samples) < |samples|)
      && (forall r | 0 <= r < |s.filesystems| :: IsLeast(t.filesystems[r].minimum, s, samples, Used(s, samples), r))
  {
    if samples != [] {
      var init, x := samples[..|samples| - 1], samples[|samples| - 1];
      DiskRun(s, init);
      var t := Run(s, init);
      StepMonotone(t, x);
      UsedSnoc(s, init, x);
      assert samples == init + [x];
      ShapeClean(s.filesystems, t.filesystems, x.calls);
      forall r | 0 <= r < |s.filesystems|
        ensures IsLeast(Run(s, samples).filesystems[r].minimum, s, samples, Used(s, samples), r)
      {
        LeastGrows(s, init, x, r);
      }
    }
  }

  lemma {:induction false} UsedSnoc(s: State, init: seq<Sample>, x: Sample)
    ensures Used(s, init + [x]) == if !s.diskError && Used(s, init) == |init| && CleanSample(s.filesystems, x.calls) then |init| + 1 else Used(s, init)
  {
    var all := init + [x];
    if init != [] && !s.diskError {
      assert all[1..] == init[1..] + [x];
      UsedSnoc(s, init[1..], x);
    } else if init == [] {
      assert all[1..] == [];
    }
  }

  lemma CounterByShape(a: seq<Record>, b: seq<Record>, calls: Readings, r: nat)
    requires SameShape(a, b) && r < |a| && a[r].sources != [] && CleanSample(a, calls)
    ensures Counter(a, calls, r) == Counter(b, calls, r)
  {
    ShapeOffset(a, b, r);
    assert a[r].(minimum := 0) == b[r].(minimum := 0);
    assert CleanRecord(a, calls, r);
    assert Clean(a[r].sources[0], 0, calls(Offset(a, r) + 0));
  }

  lemma LeastSame(m: nat, s: State, init: seq<Sample>, x: Sample, n: nat, r: nat)
    requires r < |s.filesystems| && n <= |init| && IsLeast(m, s, init, n, r)
    ensures IsLeast(m, s, init + [x], n, r)
  {
    hide Counter;
    var all := init + [x];
    assert forall i | 0 <= i < n :: all[i] == init[i];
    if m != s.filesystems[r].minimum {
      var i :| 0 <= i < n && m == Counter(s.filesystems, init[i].calls, r);
      assert m == Counter(s.filesystems, all[i].calls, r);
    }
  }

  lemma LeastNext(m: nat, s: State, init: seq<Sample>, x: Sample, r: nat)
    requires r < |s.filesystems| && IsLeast(m, s, init, |init|, r)
    ensures IsLeast(Min(m, Counter(s.filesystems, x.calls, r)), s, init + [x], |init| + 1, r)
  {
    hide Counter;
    var all := init + [x];
    LeastSame(m, s, init, x, |init|, r);
    assert all[|init|] == x;
    var next := Min(m, Counter(s.filesystems, x.calls, r));
    forall i | 0 <= i < |all| ensures next <= Counter(s.filesystems, all[i].calls, r) {}
    if next == m && m != s.filesystems[r].minimum {
      var i :| 0 <= i < |init| && m == Counter(s.filesystems, all[i].calls, r);
      assert next == Counter(s.filesystems, all[i].calls, r);
    }
    if next != m {
      assert next == Counter(s.filesystems, all[|init|].calls, r);
    }
  }

  lemma LeastGrows(s: State, init: seq<Sample>, x: Sample, r: nat)
    requires Sane(s) && r < |s.filesystems|
    requires var t := Run(s, init);
      && SameShape(s.filesystems, t.filesystems) && Used(s, init) <= |init|
      && (t.diskError <==> s.diskError || Used(s, init) < |init|)
      && IsLeast(t.filesystems[r].minimum, s, init, Used(s, init), r)
    ensures Used(s, init + [x]) <= |init| + 1
    ensures IsLeast(Step(Run(s, init), x).filesystems[r].minimum, s, init + [x], Used(s, init + [x]), r)
  {
    hide IsLeast, Counter, Used, CleanSample, Run;
    var t := Run(s, init);
    UsedSnoc(s, init, x);
    UsedNone(s, init);
    ShapeClean(s.filesystems, t.filesystems, x.calls);
    if t.diskError || !CleanSample(t.filesystems, x.calls) {
      LeastSame(t.filesystems[r].minimum, s, init, x, Used(s, init), r);
    } else {
      CounterByShape(s.filesystems, t.filesystems, x.calls, r);
      LeastNext(t.filesystems[r].minimum, s, init, x, r);
    }
  }

  lemma UsedNone(s: State, samples: seq<Sample>)
    ensures s.diskError ==> Used(s, samples) == 0
  {}

  /** Memory over a whole run: one unavailable reading makes the peak null for good; otherwise it is the largest drop. */
  lemma {:induction false} MemoryRun(s: State, samples: seq<Sample>)
    requires Sane(s)
    ensures var t := Run(s, samples);
      && (t.memoryComplete <==> s.memoryComplete && forall x | x in samples :: x.memory.Some?)
      && t.baselineMemory == s.baselineMemory
      && (t.memoryComplete ==> t.peakMemory.Some? && IsLargestDrop(t.peakMemory.value, s, samples))
  {
    if samples != [] {
      var init, x := samples[..|samples| - 1], samples[|samples| - 1];
      assert samples == init + [x];
      MemoryRun(s, init);
      var t := Run(s, init);
      if Run(s, samples).memoryComplete {
        DropGrows(t.peakMemory.value, s, init, x);
      }
    }
  }

  lemma DropGrows(peak: int, s: State, init: seq<Sample>, x: Sample)
    requires s.baselineMemory.Some? && s.peakMemory.Some? && s.peakMemory.value >= 0
    requires x.memory.Some? && forall y | y in init :: y.memory.Some?
    requires IsLargestDrop(peak, s, init)
    ensures IsLargestDrop(Max(peak, Max(0, s.baselineMemory.value - x.memory.value)), s, init + [x])
  {
    var all := init + [x];
    var next := Max(peak, Max(0, s.baselineMemory.value - x.memory.value));
    assert x in all && forall y | y in init :: y in all;
    if next == peak && peak != s.peakMemory.value {
      var y :| y in init && peak == s.baselineMemory.value - y.memory.value;
      assert y in all;
    }
  }
}
