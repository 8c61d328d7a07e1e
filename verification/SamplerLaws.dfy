/** What the sampler registers, what makes a sample fail, and what a snapshot shows, read off the raw readings. */
module SamplerLaws {
  import opened Wrappers
  import opened Sequences
  import opened Sampler

  // ------------------------------------------------ the reader calls made while registering

  /** Two calls that were answered, and that found the same device. */
  ghost predicate SameDevice(calls: Readings, a: nat, b: nat) {
    calls(a).Read? && calls(b).Read? && calls(a).observation.view.device == calls(b).observation.view.device
  }

  /** The numbers of the calls that look at the first `n + 1` paths: a device seen for the first time costs a second call. */
  ghost function Calls(calls: Readings, n: nat): (at: seq<nat>)
    ensures |at| == n + 1
  {
    if n == 0 then [0] else
      var at := Calls(calls, n - 1);
      at + [at[n - 1] + if exists j: nat | j < n - 1 :: SameDevice(calls, at[j], at[n - 1]) then 1 else 2]
  }

  ghost function CallOf(calls: Readings, i: nat): nat {
    Calls(calls, i)[i]
  }

  ghost predicate SeenBefore(calls: Readings, i: nat) {
    exists j: nat | j < i :: SameDevice(calls, CallOf(calls, j), CallOf(calls, i))
  }

  lemma {:induction false} CallsAt(calls: Readings, n: nat, i: nat)
    requires i <= n
    ensures Calls(calls, n)[i] == CallOf(calls, i)
  {
    if i < n {
      CallsAt(calls, n - 1, i);
    }
  }

  lemma CallNext(calls: Readings, n: nat)
    ensures CallOf(calls, n + 1) == CallOf(calls, n) + if SeenBefore(calls, n) then 1 else 2
  {
    hide SameDevice;
    var at := Calls(calls, n);
    forall j: nat | j <= n ensures at[j] == CallOf(calls, j) { CallsAt(calls, n, j); }
    assert (exists j: nat | j < n :: SameDevice(calls, at[j], at[n])) <==> SeenBefore(calls, n);
  }

  /** Path `i` is read, and a device seen for the first time keeps its identity and shows its counter. */
  ghost predicate Readable(calls: Readings, i: nat) {
    var k := CallOf(calls, i);
    && calls(k).Read?
    && (SeenBefore(calls, i) ||
        (calls(k + 1).Read? && calls(k + 1).observation.view == calls(k).observation.view && calls(k + 1).free.Some?))
  }

  ghost predicate On(calls: Readings, i: nat, device: string) {
    calls(CallOf(calls, i)).Read? && calls(CallOf(calls, i)).observation.view.device == device
  }

  ghost function SourceAt(paths: seq<(string, string)>, calls: Readings, i: nat): Source
    requires i < |paths| && calls(CallOf(calls, i)).Read?
  {
    Source(paths[i].0, paths[i].1, calls(CallOf(calls, i)).observation)
  }

  /** What the first `n` paths show of one device, in order and without repetition. */
  ghost function SourcesOn(paths: seq<(string, string)>, calls: Readings, n: nat, device: string): seq<Source>
    requires n <= |paths|
  {
    if n == 0 then [] else
      var before := SourcesOn(paths, calls, n - 1, device);
      if !On(calls, n - 1, device) || SourceAt(paths, calls, n - 1) in before then before
      else before + [SourceAt(paths, calls, n - 1)]
  }

  /** The first of the paths before `n` that is on the device, or `n` when none is. */
  ghost function FirstOn(calls: Readings, n: nat, device: string): (m: nat)
    ensures m <= n && forall i: nat | i < m :: !On(calls, i, device)
    ensures m < n ==> On(calls, m, device)
  {
    if n == 0 then 0 else
      var m := FirstOn(calls, n - 1, device);
      if m < n - 1 || On(calls, n - 1, device) then m else n
  }

  /** The baseline of a device is the counter of the second call for the first path on it. */
  ghost predicate BaselineOf(calls: Readings, n: nat, r: Record) {
    var i := FirstOn(calls, n, r.device);
    i < n && calls(CallOf(calls, i) + 1).Read? && calls(CallOf(calls, i) + 1).free == Some(r.baseline)
  }

  ghost predicate Recorded(r: Record, paths: seq<(string, string)>, calls: Readings, n: nat)
    requires n <= |paths|
  {
    && r.sources == SourcesOn(paths, calls, n, r.device) && r.sources != []
    && (forall role :: role in r.roles <==> exists x :: x in r.sources && x.role == role)
    && (forall path :: path in r.paths <==> exists x :: x in r.sources && x.path == path)
    && Distinct(r.roles) && Distinct(r.paths)
    && r.minimum == r.baseline
    && BaselineOf(calls, n, r)
  }

  ghost predicate Covered(fs: seq<Record>, calls: Readings, i: nat) {
    exists r :: 0 <= r < |fs| && On(calls, i, fs[r].device)
  }

  /** The records of the first `n` paths: one for each device, in the order the devices were met. */
  ghost predicate RecordsOf(fs: seq<Record>, paths: seq<(string, string)>, calls: Readings, n: nat)
    requires n <= |paths|
  {
    && (forall r | 0 <= r < |fs| :: Recorded(fs[r], paths, calls, n))
    && (forall i: nat | i < n :: Covered(fs, calls, i))
    && (forall q, r | 0 <= q < r < |fs| :: FirstOn(calls, n, fs[q].device) < FirstOn(calls, n, fs[r].device))
  }

  /** The first `n` paths register and the next one, if there is one, does not. */
  ghost predicate Registrable(paths: seq<(string, string)>, calls: Readings, n: nat) {
    && n <= |paths| && (forall i: nat | i < n :: Readable(calls, i))
    && (n < |paths| ==> !Readable(calls, n))
  }

  lemma {:induction false} SourcesNone(paths: seq<(string, string)>, calls: Readings, n: nat, device: string)
    requires n <= |paths| && forall i: nat | i < n :: !On(calls, i, device)
    ensures SourcesOn(paths, calls, n, device) == []
  {
    if n > 0 {
      SourcesNone(paths, calls, n - 1, device);
    }
  }

  /** A device has a record exactly when an earlier path was on it. */
  lemma KnownIff(fs: seq<Record>, paths: seq<(string, string)>, calls: Readings, n: nat)
    requires n < |paths| && RecordsOf(fs, paths, calls, n) && calls(CallOf(calls, n)).Read?
    ensures IndexOf(fs, calls(CallOf(calls, n)).observation.view.device).Some? <==> SeenBefore(calls, n)
  {
    hide CallOf, SourcesOn, FirstOn;
    var known := IndexOf(fs, calls(CallOf(calls, n)).observation.view.device);
    if known.Some? {
      assert Recorded(fs[known.value], paths, calls, n);
      var i := FirstOn(calls, n, fs[known.value].device);
      assert SameDevice(calls, CallOf(calls, i), CallOf(calls, n));
    }
    if SeenBefore(calls, n) {
      var j: nat :| j < n && SameDevice(calls, CallOf(calls, j), CallOf(calls, n));
      assert Covered(fs, calls, j);
    }
  }

  lemma AddedOnce<T>(s: seq<T>, x: T)
    requires Distinct(s)
    ensures Distinct(AddOnce(s, x)) && forall y :: y in AddOnce(s, x) <==> y in s || y == x
  {}

  /** A source added to a record, or to a new one, is the source of the path. */
  lemma SourceRecorded(r: Record, paths: seq<(string, string)>, calls: Readings, n: nat)
    requires n < |paths| && On(calls, n, r.device)
    requires r.sources == SourcesOn(paths, calls, n, r.device)
    requires (forall role :: role in r.roles <==> exists x :: x in r.sources && x.role == role)
    requires (forall path :: path in r.paths <==> exists x :: x in r.sources && x.path == path)
    requires Distinct(r.roles) && Distinct(r.paths) && r.minimum == r.baseline
    requires BaselineOf(calls, n + 1, r)
    ensures Recorded(AddSource(r, paths[n].0, paths[n].1, calls(CallOf(calls, n)).observation), paths, calls, n + 1)
  {
    hide CallOf, SeenBefore, On, Distinct, FirstOn;
    OnMeans(calls, n, r.device);
    var x := SourceAt(paths, calls, n);
    var t := AddSource(r, paths[n].0, paths[n].1, calls(CallOf(calls, n)).observation);
    AddedOnce(r.roles, x.role);
    AddedOnce(r.paths, x.path);
    assert x in t.sources && forall y :: y in t.sources <==> y in r.sources || y == x;
  }

  lemma OnMeans(calls: Readings, i: nat, device: string)
    ensures On(calls, i, device) <==> calls(CallOf(calls, i)).Read? && calls(CallOf(calls, i)).observation.view.device == device
  {}

  /** A record of another device stays what it was. */
  lemma OtherRecorded(r: Record, paths: seq<(string, string)>, calls: Readings, n: nat)
    requires n < |paths| && Recorded(r, paths, calls, n) && !On(calls, n, r.device)
    ensures Recorded(r, paths, calls, n + 1)
  {
    hide CallOf, SeenBefore, On;
  }

  /** One path registers exactly when it is readable, and its records are then those of one path more. */
  lemma RegisterMeans(fs: seq<Record>, paths: seq<(string, string)>, calls: Readings, n: nat)
    requires n < |paths| && RecordsOf(fs, paths, calls, n)
    ensures var r := Register(fs, paths[n].0, paths[n].1, calls, CallOf(calls, n));
      && (r.Some? <==> Readable(calls, n))
      && (r.Some? ==> r.value.1 == CallOf(calls, n + 1) && RecordsOf(r.value.0, paths, calls, n + 1))
  {
    var k := CallOf(calls, n);
    CallNext(calls, n);
    hide CallOf, SeenBefore, AddSource, RecordsOf;
    if Register(fs, paths[n].0, paths[n].1, calls, k).Some? {
      KnownIff(fs, paths, calls, n);
      var o := calls(k).observation;
      match IndexOf(fs, o.view.device)
      case Some(i) => KnownRecorded(fs, paths, calls, n, i);
      case None => NewRecorded(fs, paths, calls, n);
    } else if calls(k).Read? {
      KnownIff(fs, paths, calls, n);
    }
  }

  lemma KnownRecorded(fs: seq<Record>, paths: seq<(string, string)>, calls: Readings, n: nat, i: nat)
    requires n < |paths| && RecordsOf(fs, paths, calls, n) && i < |fs| && On(calls, n, fs[i].device)
    ensures RecordsOf(fs[i := AddSource(fs[i], paths[n].0, paths[n].1, calls(CallOf(calls, n)).observation)], paths, calls, n + 1)
  {
    hide CallOf, SourcesOn, AddSource;
    var t := AddSource(fs[i], paths[n].0, paths[n].1, calls(CallOf(calls, n)).observation);
    var next := fs[i := t];
    assert forall r | 0 <= r < |fs| :: Recorded(fs[r], paths, calls, n);
    AddSourceKeeps(fs[i], paths[n].0, paths[n].1, calls(CallOf(calls, n)).observation);
    SourceRecorded(fs[i], paths, calls, n);
    forall r | 0 <= r < |next| ensures Recorded(next[r], paths, calls, n + 1) {
      if r != i {
        assert FirstOn(calls, n, fs[i].device) != FirstOn(calls, n, fs[r].device);
        assert fs[i].device != fs[r].device;
        OtherRecorded(fs[r], paths, calls, n);
      }
    }
    assert On(calls, n, next[i].device);
    SameCover(fs, next, calls, n);
  }

  lemma AddSourceKeeps(r: Record, role: string, path: string, o: Observation)
    ensures var t := AddSource(r, role, path, o); t.device == r.device && t.baseline == r.baseline
  {}

  lemma SameCover(fs: seq<Record>, next: seq<Record>, calls: Readings, n: nat)
    requires |fs| <= |next| && forall r | 0 <= r < |fs| :: fs[r].device == next[r].device
    requires forall i: nat | i < n :: Covered(fs, calls, i)
    requires exists r :: 0 <= r < |next| && On(calls, n, next[r].device)
    ensures forall i: nat | i < n + 1 :: Covered(next, calls, i)
  {
    hide On;
    forall i: nat | i < n + 1 ensures Covered(next, calls, i) {
      if i < n {
        assert Covered(fs, calls, i);
        var r :| 0 <= r < |fs| && On(calls, i, fs[r].device);
        assert On(calls, i, next[r].device);
      }
    }
  }

  lemma NotOnBefore(calls: Readings, n: nat, device: string)
    requires On(calls, n, device) && !SeenBefore(calls, n)
    ensures FirstOn(calls, n, device) == n
  {
    hide CallOf;
    forall i: nat | i < n ensures !On(calls, i, device) {
      assert !SameDevice(calls, CallOf(calls, i), CallOf(calls, n));
    }
  }

  lemma NewRecorded(fs: seq<Record>, paths: seq<(string, string)>, calls: Readings, n: nat)
    requires n < |paths| && RecordsOf(fs, paths, calls, n) && Readable(calls, n) && !SeenBefore(calls, n)
    ensures var k := CallOf(calls, n); var o := calls(k).observation; var free := calls(k + 1).free.value;
      RecordsOf(fs + [AddSource(Record(o.view.device, [], [], [], free, free), paths[n].0, paths[n].1, o)], paths, calls, n + 1)
  {
    hide SourcesOn, CallOf, SeenBefore, AddSource;
    var k := CallOf(calls, n);
    var o, free := calls(k).observation, calls(k + 1).free.value;
    var blank := Record(o.view.device, [], [], [], free, free);
    var t := AddSource(blank, paths[n].0, paths[n].1, o);
    var next := fs + [t];
    assert On(calls, n, blank.device);
    NotOnBefore(calls, n, blank.device);
    SourcesNone(paths, calls, n, blank.device);
    SourceRecorded(blank, paths, calls, n);
    AddSourceKeeps(blank, paths[n].0, paths[n].1, o);
    assert forall r | 0 <= r < |fs| :: Recorded(fs[r], paths, calls, n);
    forall r | 0 <= r < |next| ensures Recorded(next[r], paths, calls, n + 1) {
      if r < |fs| {
        assert FirstOn(calls, n, fs[r].device) != n;
        OtherRecorded(fs[r], paths, calls, n);
      }
    }
    assert On(calls, n, next[|fs|].device);
    SameCover(fs, next, calls, n);
  }

  /** Registering fails exactly when some path cannot be read, and keeps the records of the paths before it. */
  lemma {:induction false} RegistersFrom(fs: seq<Record>, paths: seq<(string, string)>, calls: Readings, n: nat) returns (m: nat)
    requires n <= |paths| && RecordsOf(fs, paths, calls, n) && forall i: nat | i < n :: Readable(calls, i)
    ensures var (all, failed) := RegisterAll(fs, paths[n..], calls, CallOf(calls, n));
      Registrable(paths, calls, m) && (failed <==> m < |paths|) && RecordsOf(all, paths, calls, m)
    decreases |paths| - n
  {
    hide RecordsOf, Register, CallOf, Readable;
    m := n;
    if n < |paths| {
      RegisterMeans(fs, paths, calls, n);
      assert paths[n..][0] == paths[n] && paths[n..][1..] == paths[n + 1..];
      var next := Register(fs, paths[n].0, paths[n].1, calls, CallOf(calls, n));
      if next.Some? {
        m := RegistersFrom(next.value.0, paths, calls, n + 1);
      }
    }
  }

  /** The records are those of the first `n` paths, where `n` is the first that cannot be read or the number of them all. */
  ghost predicate RegisteredUpTo(fs: seq<Record>, failed: bool, paths: seq<(string, string)>, calls: Readings, n: nat) {
    Registrable(paths, calls, n) && RecordsOf(fs, paths, calls, n) && (failed <==> n < |paths|)
  }

  /** What registering does: it fails exactly when some path cannot be read, and the records are those of the paths before it. */
  lemma RegistrationMeans(paths: seq<(string, string)>, calls: Readings)
    ensures var (fs, failed) := RegisterAll([], paths, calls, 0);
      && (exists n: nat :: RegisteredUpTo(fs, failed, paths, calls, n))
      && (failed <==> exists i: nat | i < |paths| :: !Readable(calls, i))
  {
    hide Register, Readable;
    assert paths[0..] == paths;
    var n := RegistersFrom([], paths, calls, 0);
    var (fs, failed) := RegisterAll([], paths, calls, 0);
    assert RegisteredUpTo(fs, failed, paths, calls, n);
  }

  // ------------------------------------------------ one sample

  function SourcesIn(fs: seq<Record>): nat {
    if fs == [] then 0 else |fs[0].sources| + SourcesIn(fs[1..])
  }

  /** A sample calls the reader once for each source, record after record. */
  function FirstCall(fs: seq<Record>, r: nat): nat
    requires r <= |fs|
  {
    SourcesIn(fs[..r])
  }

  /** The reading of source `i` of record `r` is no use: not answered, of another view, or a first source without its counter. */
  ghost predicate Useless(fs: seq<Record>, calls: Readings, r: nat, i: nat) {
    && r < |fs| && i < |fs[r].sources|
    && var reading := calls(FirstCall(fs, r) + i);
    || reading.Unreadable?
    || reading.observation.view != fs[r].sources[i].observation.view
    || (i == 0 && reading.free.None?)
  }

  ghost predicate SampleFails(fs: seq<Record>, calls: Readings) {
    exists r: nat, i: nat :: Useless(fs, calls, r, i)
  }

  lemma {:induction false} SourcesInSnoc(fs: seq<Record>, x: Record)
    ensures SourcesIn(fs + [x]) == SourcesIn(fs) + |x.sources|
  {
    if fs == [] {
      assert fs + [x] == [x];
    } else {
      SourcesInSnoc(fs[1..], x);
      assert (fs + [x])[1..] == fs[1..] + [x];
    }
  }

  lemma {:induction false} OffsetCounts(fs: seq<Record>, r: nat)
    requires r <= |fs|
    ensures Offset(fs, r) == FirstCall(fs, r)
  {
    if r > 0 {
      OffsetCounts(fs, r - 1);
      assert fs[..r] == fs[..r - 1] + [fs[r - 1]];
      SourcesInSnoc(fs[..r - 1], fs[r - 1]);
    }
  }

  lemma RecordFailsIff(fs: seq<Record>, calls: Readings, r: nat)
    requires r < |fs|
    ensures CleanRecord(fs, calls, r) <==> forall i: nat :: !Useless(fs, calls, r, i)
  {
    OffsetCounts(fs, r);
    hide Offset, FirstCall;
    if CleanRecord(fs, calls, r) {
      forall i: nat ensures !Useless(fs, calls, r, i) {
        assert i < |fs[r].sources| ==> Clean(fs[r].sources[i], i, calls(Offset(fs, r) + i));
      }
    }
    if forall i: nat :: !Useless(fs, calls, r, i) {
      forall i | 0 <= i < |fs[r].sources| ensures Clean(fs[r].sources[i], i, calls(Offset(fs, r) + i)) {
        assert !Useless(fs, calls, r, i);
      }
    }
  }

  /** The walk over the registered sources fails exactly when one of its readings is no use. */
  lemma SampleFailsIff(fs: seq<Record>, calls: Readings)
    ensures CleanSample(fs, calls) <==> !SampleFails(fs, calls)
  {
    hide CleanRecord, Useless;
    if CleanSample(fs, calls) {
      forall r: nat, i: nat ensures !Useless(fs, calls, r, i) {
        if r < |fs| {
          RecordFailsIff(fs, calls, r);
        } else if Useless(fs, calls, r, i) {
          UselessInside(fs, calls, r, i);
        }
      }
    }
    if !SampleFails(fs, calls) {
      forall r | 0 <= r < |fs| ensures CleanRecord(fs, calls, r) {
        RecordFailsIff(fs, calls, r);
      }
    }
  }

  lemma UselessInside(fs: seq<Record>, calls: Readings, r: nat, i: nat)
    requires Useless(fs, calls, r, i)
    ensures r < |fs|
  {}

  /** The counter a good sample shows for a record: that of the record's first source. */
  ghost predicate ShowsFree(fs: seq<Record>, calls: Readings, r: nat, free: nat) {
    && r < |fs|
    && calls(FirstCall(fs, r)).Read? && calls(FirstCall(fs, r)).free == Some(free)
  }

  lemma CounterShown(fs: seq<Record>, calls: Readings, r: nat)
    requires r < |fs| && fs[r].sources != [] && !SampleFails(fs, calls)
    ensures ShowsFree(fs, calls, r, Counter(fs, calls, r))
    ensures forall free | ShowsFree(fs, calls, r, free) :: free == Counter(fs, calls, r)
  {
    OffsetCounts(fs, r);
    hide SourcesIn, Offset;
    assert !Useless(fs, calls, r, 0);
  }

  /** The memory peak moves to the drop that this sample shows, when that is more. */
  ghost predicate MemoryMoves(s: State, x: Sample, t: State) {
    && t.baselineMemory == s.baselineMemory
    && (t.memoryComplete <==> s.memoryComplete && s.baselineMemory.Some? && x.memory.Some?)
    && (t.memoryComplete && s.peakMemory.Some? && s.peakMemory.value >= 0 ==>
          && t.peakMemory.Some? && t.peakMemory.value >= s.peakMemory.value
          && t.peakMemory.value >= s.baselineMemory.value - x.memory.value
          && (t.peakMemory == s.peakMemory || t.peakMemory.value == s.baselineMemory.value - x.memory.value))
  }

  ghost predicate RssMoves(s: State, x: Sample, t: State) {
    && (x.rss.None? ==> t.peakRss == s.peakRss)
    && (x.rss.Some? ==> t.peakRss >= s.peakRss && t.peakRss >= x.rss.value && (t.peakRss == s.peakRss || t.peakRss == x.rss.value))
  }

  /** A useless reading, now or before, moves no minimum; otherwise each minimum falls to the counter shown, where that is less. */
  ghost predicate DiskMoves(s: State, x: Sample, t: State) {
    && (t.diskError <==> s.diskError || SampleFails(s.filesystems, x.calls))
    && (t.diskError ==> t.filesystems == s.filesystems)
    && |t.filesystems| == |s.filesystems|
    && (!t.diskError ==> forall r: nat | r < |s.filesystems| :: Lowers(s.filesystems, x.calls, r, t.filesystems[r]))
  }

  ghost predicate Lowers(fs: seq<Record>, calls: Readings, r: nat, lowered: Record)
    requires r < |fs|
  {
    exists free: nat :: ShowsFree(fs, calls, r, free) && lowered == fs[r].(minimum := if free < fs[r].minimum then free else fs[r].minimum)
  }

  /** One sample, field by field. */
  lemma StepMeans(s: State, x: Sample)
    requires forall r | r in s.filesystems :: r.sources != []
    ensures var t := Step(s, x); MemoryMoves(s, x, t) && RssMoves(s, x, t) && DiskMoves(s, x, t)
  {
    SampleFailsIff(s.filesystems, x.calls);
    if !SampleFails(s.filesystems, x.calls) {
      forall r: nat | r < |s.filesystems| ensures Lowers(s.filesystems, x.calls, r, Lowered(s.filesystems, x.calls)[r]) {
        CounterShown(s.filesystems, x.calls, r);
      }
    }
    hide SampleFails, CleanSample, Lowers, Lowered;
  }

  // ------------------------------------------------ what a snapshot shows

  ghost predicate IsFloor(mib: int, bytes: int) {
    mib * 1048576 <= bytes < (mib + 1) * 1048576
  }

  /** One filesystem as reported: its names in order, whole mebibytes, and the growth rounded up. */
  ghost predicate ShownAs(f: Filesystem, r: Record) {
    && f.device == r.device && f.sources == r.sources
    && multiset(f.roles) == multiset(r.roles) && Sorted(StringLe, f.roles)
    && multiset(f.paths) == multiset(r.paths) && Sorted(StringLe, f.paths)
    && IsFloor(f.baselineMib, r.baseline) && IsFloor(f.minimumMib, r.minimum)
    && (r.minimum >= r.baseline ==> f.growthMib == 0)
    && (r.minimum < r.baseline ==> (f.growthMib - 1) * 1048576 < r.baseline - r.minimum <= f.growthMib * 1048576)
  }

  ghost predicate AnyShows(fs: seq<Filesystem>, r: Record) {
    exists i :: 0 <= i < |fs| && ShownAs(fs[i], r)
  }

  ghost predicate ShowsAny(f: Filesystem, fs: seq<Record>) {
    exists i :: 0 <= i < |fs| && ShownAs(f, fs[i])
  }

  /** The growth of all the filesystems, one after the other. */
  ghost function TotalGrowth(fs: seq<Filesystem>): int {
    if fs == [] then 0 else TotalGrowth(fs[..|fs| - 1]) + fs[|fs| - 1].growthMib
  }

  lemma {:induction false} GrowthTotals(fs: seq<Filesystem>)
    ensures Sum(GrowthOf(), fs) == TotalGrowth(fs)
  {
    if fs != [] {
      GrowthTotals(fs[..|fs| - 1]);
      SumSnoc(GrowthOf(), fs[..|fs| - 1], fs[|fs| - 1]);
      assert fs == fs[..|fs| - 1] + [fs[|fs| - 1]];
    }
  }

  lemma FilesystemMeans(r: Record)
    ensures ShownAs(FilesystemOf()(r), r)
  {
    StringLeTotal();
    SortSorted(StringLe, r.roles);
    SortSorted(StringLe, r.paths);
    hide StringLe, Sort;
    CeilingMeans(r.baseline, r.minimum);
  }

  lemma CeilingMeans(b: nat, m: nat)
    ensures var g := (Max(0, b - m) + 1048576 - 1) / 1048576;
      && (m >= b ==> g == 0)
      && (m < b ==> (g - 1) * 1048576 < b - m <= g * 1048576)
    ensures IsFloor(b / 1048576, b) && IsFloor(m / 1048576, m)
  {}

  lemma DevicesRank()
    ensures Ranks(DeviceLe)
  {
    StringLeTotal();
    hide StringLe;
  }

  /** Everything a snapshot shows, in terms of what the sampler holds. */
  ghost predicate Shows(o: Observed, s: State) {
    && o.availableMemory == s.baselineMemory
    && o.diskError == s.diskError
    && (o.availableDisk.Some? <==> !s.diskError && s.filesystems != [])
    && (o.availableDisk.Some? ==>
          && (forall i | 0 <= i < |s.filesystems| :: o.availableDisk.value * 1048576 <= s.filesystems[i].baseline)
          && (exists i :: 0 <= i < |s.filesystems| && IsFloor(o.availableDisk.value, s.filesystems[i].baseline)))
    && (s.memoryComplete ==> o.peakMemory == s.peakMemory) && (!s.memoryComplete ==> o.peakMemory == None)
    && o.peakRss == s.peakRss
    && o.growth == TotalGrowth(o.filesystems)
    && |o.filesystems| == |s.filesystems|
    && (forall i | 0 <= i < |s.filesystems| :: AnyShows(o.filesystems, s.filesystems[i]))
    && (forall i | 0 <= i < |o.filesystems| :: ShowsAny(o.filesystems[i], s.filesystems))
    && (forall i, j | 0 <= i < j < |o.filesystems| :: StringLe(o.filesystems[i].device, o.filesystems[j].device))
  }

  lemma SnapshotMeans(s: State)
    ensures Shows(SnapshotOf(s), s)
  {
    hide StringLe, Sort, FilesystemOf, Sum, TotalGrowth, ShownAs, LeastBaseline, AnyShows, ShowsAny, IsFloor;
    var unsorted, o := Map(FilesystemOf(), s.filesystems), SnapshotOf(s);
    SumPermutation(GrowthOf(), o.filesystems, unsorted);
    GrowthTotals(o.filesystems);
    SnapshotOrdered(s);
    SnapshotShows(s);
    hide Map;
    assert o.availableDisk == if s.diskError || o.filesystems == [] then None else Some(LeastBaseline(o.filesystems));
    hide SnapshotOf;
    if o.availableDisk.Some? {
      DiskShown(o.filesystems, s.filesystems);
    }
  }

  lemma SnapshotOrdered(s: State)
    ensures var fs := SnapshotOf(s).filesystems; forall i, j | 0 <= i < j < |fs| :: StringLe(fs[i].device, fs[j].device)
  {
    var unsorted, fs := Map(FilesystemOf(), s.filesystems), SnapshotOf(s).filesystems;
    DevicesRank();
    SortSorted(DeviceLe, unsorted);
    hide StringLe, Sort, SnapshotOf;
    forall i, j | 0 <= i < j < |fs| ensures StringLe(fs[i].device, fs[j].device) {
      assert DeviceLe(fs[i], fs[j]);
    }
  }

  lemma SnapshotShows(s: State)
    ensures var fs := SnapshotOf(s).filesystems;
      && |fs| == |s.filesystems|
      && (forall i | 0 <= i < |s.filesystems| :: AnyShows(fs, s.filesystems[i]))
      && (forall i | 0 <= i < |fs| :: ShowsAny(fs[i], s.filesystems))
  {
    hide Sort, FilesystemOf, ShownAs;
    var unsorted, fs := Map(FilesystemOf(), s.filesystems), SnapshotOf(s).filesystems;
    MultisetMembers(fs, unsorted);
    hide SnapshotOf, Map;
    forall i | 0 <= i < |s.filesystems| ensures AnyShows(fs, s.filesystems[i]) {
      FilesystemMeans(s.filesystems[i]);
      assert unsorted[i] in fs;
    }
    forall i | 0 <= i < |fs| ensures ShowsAny(fs[i], s.filesystems) {
      assert fs[i] in unsorted;
      var j :| 0 <= j < |unsorted| && unsorted[j] == fs[i];
      FilesystemMeans(s.filesystems[j]);
    }
  }

  lemma DiskShown(fs: seq<Filesystem>, records: seq<Record>)
    requires fs != []
    requires forall i | 0 <= i < |records| :: AnyShows(fs, records[i])
    requires forall i | 0 <= i < |fs| :: ShowsAny(fs[i], records)
    ensures forall i | 0 <= i < |records| :: LeastBaseline(fs) * 1048576 <= records[i].baseline
    ensures exists i :: 0 <= i < |records| && IsFloor(LeastBaseline(fs), records[i].baseline)
  {
    hide LeastBaseline, ShownAs, IsFloor;
    forall i | 0 <= i < |records| ensures LeastBaseline(fs) * 1048576 <= records[i].baseline {
      assert AnyShows(fs, records[i]);
      var j :| 0 <= j < |fs| && ShownAs(fs[j], records[i]);
      FloorShown(fs[j], records[i], LeastBaseline(fs));
    }
    var f := LeastIs(fs);
    var i :| 0 <= i < |fs| && fs[i] == f;
    assert ShowsAny(fs[i], records);
    var j :| 0 <= j < |records| && ShownAs(f, records[j]);
    FloorShown(f, records[j], f.baselineMib);
  }

  lemma LeastIs(fs: seq<Filesystem>) returns (f: Filesystem)
    requires fs != []
    ensures f in fs && f.baselineMib == LeastBaseline(fs)
  {
    var least := LeastBaseline(fs);
    f :| f in fs && f.baselineMib == least;
  }

  lemma FloorShown(f: Filesystem, r: Record, m: int)
    requires ShownAs(f, r) && m <= f.baselineMib
    ensures IsFloor(f.baselineMib, r.baseline) && m * 1048576 <= r.baseline
  {}
}
