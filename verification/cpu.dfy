/** The system CPU percentage of cpu.cpp (`getCpuUsagePercent`) and the
    CPU tab's sampling step (`renderCpuTab`). The function-local statics
    that hold the previous reading become an explicit baseline that goes
    in and comes out again. */
module Cpu {
  import opened Common
  import opened Text
  import opened ProcStat
  import History

  // ---------------------------------------------------------------
  // Linux: /proc/stat read with `>>`
  // ---------------------------------------------------------------

  /** `CPUStats`: the eight counters of the aggregate line. */
  datatype CpuStats = CpuStats(user: nat, nice: nat, system: nat, idle: nat,
                               iowait: nat, irq: nat, softirq: nat, steal: nat)

  function StatsOf(xs: seq<nat>): (s: CpuStats)
    requires |xs| == 8
    ensures s.user == xs[0] && s.nice == xs[1] && s.system == xs[2] && s.idle == xs[3]
    ensures s.iowait == xs[4] && s.irq == xs[5] && s.softirq == xs[6] && s.steal == xs[7]
  {
    CpuStats(xs[0], xs[1], xs[2], xs[3], xs[4], xs[5], xs[6], xs[7])
  }

  /** `file >> cpu >> stat.user >> ... >> stat.steal` on the file's text:
      a word, then up to eight counters; once an extraction fails the
      stream stops and the remaining fields keep their zero initial
      value. */
  function ParseCpuStats(text: string): CpuStats {
    var rest := NextWord(text).1;
    StatsOf(Padded(ScanNats(rest, 8), 8))
  }

  /** Idle time is idle plus iowait. */
  function IdleTicks(s: CpuStats): nat {
    s.idle + s.iowait
  }

  /** Total time is idle time plus every busy bucket. */
  function TotalTicks(s: CpuStats): (t: nat)
    ensures t == IdleTicks(s) + s.user + s.nice + s.system + s.irq + s.softirq + s.steal
    ensures t >= IdleTicks(s)
  {
    IdleTicks(s) + (s.user + s.nice + s.system + s.irq + s.softirq + s.steal)
  }

  /** The kernel's aggregate line is parsed into its first eight counters. */
  lemma ParseCpuLine(fields: seq<nat>)
    requires |fields| >= 8
    ensures ParseCpuStats(CpuLine(fields)) == StatsOf(fields[..8])
  {
    CountersOfCpuLine(fields, 8);
    ParseCpuStatsOfRead(CpuLine(fields), fields[..8]);
  }

  /** What `>>` reads after the word "cpu" of an aggregate line. */
  lemma CountersOfCpuLine(fields: seq<nat>, n: nat)
    requires n <= |fields|
    ensures ScanNats(NextWord(CpuLine(fields)).1, n) == fields[..n]
  {
    CountersAfterWord("cpu", "  ", fields, n);
  }

  lemma CountersAfterWord(word: string, sp: string, vs: seq<nat>, n: nat)
    requires |word| > 0 && forall i :: 0 <= i < |word| ==> !IsSpace(word[i])
    requires |sp| > 0 && forall i :: 0 <= i < |sp| ==> IsSpace(sp[i])
    requires n <= |vs|
    ensures ScanNats(NextWord(word + sp + Join(DecimalStrings(vs), ' ')).1, n) == vs[..n]
  {
    var j := Join(DecimalStrings(vs), ' ');
    assert word + sp + j == word + (sp + j);
    NextWordOfWord(word, sp + j);
    ScanNatsOfSpacedJoin(sp, vs, n);
  }

  lemma ParseCpuStatsOfRead(text: string, xs: seq<nat>)
    requires ScanNats(NextWord(text).1, 8) == xs && |xs| == 8
    ensures ParseCpuStats(text) == StatsOf(xs)
  {
    PaddedFull(xs, 8);
  }

  /** The function-local statics `lastIdle` and `lastTotal`. */
  datatype LinuxBaseline = LinuxBaseline(lastIdle: int, lastTotal: int)

  /** The busy share of a tick interval, in percent; 0 for an empty
      interval. */
  function BusyPercent(deltaTotal: int, deltaIdle: int): (r: real)
    ensures deltaTotal == 0 ==> r == 0.0
    ensures deltaTotal != 0 ==> r * deltaTotal as real == 100.0 * (deltaTotal - deltaIdle) as real
    ensures 0 <= deltaIdle <= deltaTotal ==> 0.0 <= r <= 100.0
  {
    if deltaTotal == 0 then 0.0
    else
      BusyBounds(deltaTotal, deltaIdle);
      100.0 * (deltaTotal - deltaIdle) as real / deltaTotal as real
  }

  lemma BusyBounds(deltaTotal: int, deltaIdle: int)
    requires deltaTotal != 0
    ensures (100.0 * (deltaTotal - deltaIdle) as real / deltaTotal as real) * deltaTotal as real
            == 100.0 * (deltaTotal - deltaIdle) as real
    ensures 0 <= deltaIdle <= deltaTotal ==>
              0.0 <= 100.0 * (deltaTotal - deltaIdle) as real / deltaTotal as real <= 100.0
  {
    var busy := 100.0 * (deltaTotal - deltaIdle) as real;
    var q := busy / deltaTotal as real;
    assert q * deltaTotal as real == busy;
    if 0 <= deltaIdle <= deltaTotal {
      assert 0.0 <= busy <= 100.0 * deltaTotal as real;
      assert 0.0 <= q;
      assert q <= 100.0;
    }
  }

  /** One Linux reading against the baseline: the new idle and total are
      saved as the baseline BEFORE the zero-interval check, and the result
      is the busy share of the interval since the previous reading. */
  function LinuxStep(b: LinuxBaseline, s: CpuStats): (r: (real, LinuxBaseline))
    ensures r.1 == LinuxBaseline(IdleTicks(s), TotalTicks(s))
    ensures TotalTicks(s) == b.lastTotal ==> r.0 == 0.0
    ensures TotalTicks(s) != b.lastTotal ==>
              r.0 * (TotalTicks(s) - b.lastTotal) as real
              == 100.0 * ((TotalTicks(s) - b.lastTotal) - (IdleTicks(s) - b.lastIdle)) as real
  {
    var idle := IdleTicks(s);
    var total := TotalTicks(s);
    (BusyPercent(total - b.lastTotal, idle - b.lastIdle), LinuxBaseline(idle, total))
  }

  /** One Linux call: an unopenable file reports 0 and leaves the baseline
      alone; otherwise the file's counters are taken as the reading. */
  function LinuxCpuUsage(b: LinuxBaseline, file: Option<string>): (r: (real, LinuxBaseline))
    ensures file.None? ==> r == (0.0, b)
    ensures file.Some? ==> r == LinuxStep(b, ParseCpuStats(file.value))
  {
    match file
    case None => (0.0, b)
    case Some(text) => LinuxStep(b, ParseCpuStats(text))
  }

  /** Every counter is at least its previous value. */
  predicate NonDecreasing(s0: CpuStats, s1: CpuStats) {
    && s0.user <= s1.user && s0.nice <= s1.nice && s0.system <= s1.system && s0.idle <= s1.idle
    && s0.iowait <= s1.iowait && s0.irq <= s1.irq && s0.softirq <= s1.softirq && s0.steal <= s1.steal
  }

  /** Starting from the baseline of a previous reading, a reading whose
      counters all moved forward gives a percentage in [0, 100], and an
      unchanged reading gives exactly 0. */
  lemma LinuxUsageInRange(s0: CpuStats, s1: CpuStats)
    requires NonDecreasing(s0, s1)
    ensures var r := LinuxStep(LinuxBaseline(IdleTicks(s0), TotalTicks(s0)), s1).0;
            0.0 <= r <= 100.0
    ensures s1 == s0 ==> LinuxStep(LinuxBaseline(IdleTicks(s0), TotalTicks(s0)), s1).0 == 0.0
  {
    assert 0 <= IdleTicks(s1) - IdleTicks(s0) <= TotalTicks(s1) - TotalTicks(s0);
  }

  /** Two successive readings: the second is measured against the first,
      whatever the first returned and whatever the baseline was before. */
  lemma LinuxBaselineAdvances(b: LinuxBaseline, s1: CpuStats, s2: CpuStats)
    ensures LinuxStep(LinuxStep(b, s1).1, s2).0
            == LinuxStep(LinuxBaseline(IdleTicks(s1), TotalTicks(s1)), s2).0
  {
  }

  /** From idle 1000 / total 2000 to idle 1100 / total 2300 the CPU was
      busy for 200 of 300 ticks: 66.67 %. */
  lemma LinuxExample()
    ensures BusyPercent(2300 - 2000, 1100 - 1000) == 200.0 / 3.0
  {
  }

  // ---------------------------------------------------------------
  // macOS: host_statistics(HOST_CPU_LOAD_INFO)
  // ---------------------------------------------------------------

  /** `host_cpu_load_info_data_t`: natural_t (32-bit) tick counters. */
  datatype MachLoad = MachLoad(user: u32, system: u32, idle: u32, nice: u32)

  /** The zero-initialised `prevLoad` of the first call. */
  const NoLoad := MachLoad(0, 0, 0, 0)

  /** One macOS call. Each delta is a natural_t subtraction (it wraps
      modulo 2^32) widened to 64 bits; the sum of four such deltas cannot
      overflow. A failed query reports 0 and keeps the previous load. */
  function MacCpuUsage(prev: MachLoad, load: Option<MachLoad>): (r: (real, MachLoad))
    ensures load.None? ==> r == (0.0, prev)
    ensures load.Some? ==> r.1 == load.value
    ensures 0.0 <= r.0 <= 100.0
    ensures load.Some? ==>
              var l := load.value;
              var busy := Sub32(l.user, prev.user) + Sub32(l.system, prev.system) + Sub32(l.nice, prev.nice);
              var idle := Sub32(l.idle, prev.idle);
              r.0 == BusyPercent(busy + idle, idle)
  {
    match load
    case None => (0.0, prev)
    case Some(l) =>
      var user := Sub32(l.user, prev.user);
      var system := Sub32(l.system, prev.system);
      var idle := Sub32(l.idle, prev.idle);
      var nice := Sub32(l.nice, prev.nice);
      var busy := user + system + nice;
      var total := busy + idle;
      (BusyPercent(total, idle), l)
  }

  /** With every counter moved forward without wrapping, the macOS busy
      share counts exactly the user, system and nice ticks of the
      interval. */
  lemma MacUsageOfForwardCounters(prev: MachLoad, l: MachLoad)
    requires prev.user <= l.user && prev.system <= l.system && prev.idle <= l.idle && prev.nice <= l.nice
    requires l != prev
    ensures var busy := (l.user - prev.user) + (l.system - prev.system) + (l.nice - prev.nice);
            var total := busy + (l.idle - prev.idle);
            MacCpuUsage(prev, Some(l)).0 * total as real == 100.0 * busy as real
  {
  }

  // ---------------------------------------------------------------
  // Windows: GetSystemTimes
  // ---------------------------------------------------------------

  /** The three FILETIME readings as 64-bit counts; kernel time includes
      idle time. */
  datatype SystemTimes = SystemTimes(idle: u64, kernel: u64, user: u64)

  const NoTimes := SystemTimes(0, 0, 0)

  /** One Windows call, in ULONGLONG arithmetic throughout: the busy
      numerator `sysTotal - idleDiff` is itself an unsigned subtraction. */
  function WindowsCpuUsage(prev: SystemTimes, now: Option<SystemTimes>): (r: (real, SystemTimes))
    ensures now.None? ==> r == (0.0, prev)
    ensures now.Some? ==> r.1 == now.value
    ensures now.Some? ==>
              var t := now.value;
              var sysTotal := Sub64(Add64(t.kernel, t.user), Add64(prev.kernel, prev.user));
              var busy := Sub64(sysTotal, Sub64(t.idle, prev.idle));
              (sysTotal == 0 ==> r.0 == 0.0)
              && (sysTotal != 0 ==> r.0 * sysTotal as real == 100.0 * busy as real && r.0 >= 0.0)
  {
    match now
    case None => (0.0, prev)
    case Some(t) =>
      var sysTotal := Sub64(Add64(t.kernel, t.user), Add64(prev.kernel, prev.user));
      var idleDiff := Sub64(t.idle, prev.idle);
      var busy := Sub64(sysTotal, idleDiff);
      (if sysTotal == 0 then 0.0 else 100.0 * busy as real / sysTotal as real, t)
  }

  /** When the idle delta does not exceed the kernel-plus-user delta (as
      the OS guarantees, since kernel time includes idle time), the Windows
      result is the ordinary busy share and lies in [0, 100]. */
  lemma WindowsUsageInRange(prev: SystemTimes, t: SystemTimes)
    requires prev.kernel + prev.user <= t.kernel + t.user < U64
    requires prev.idle <= t.idle && t.idle - prev.idle <= (t.kernel + t.user) - (prev.kernel + prev.user)
    ensures var d := (t.kernel + t.user) - (prev.kernel + prev.user);
            WindowsCpuUsage(prev, Some(t)).0 == BusyPercent(d, t.idle - prev.idle)
    ensures 0.0 <= WindowsCpuUsage(prev, Some(t)).0 <= 100.0
  {
    var d := (t.kernel + t.user) - (prev.kernel + prev.user);
    assert Add64(t.kernel, t.user) == t.kernel + t.user;
    assert Add64(prev.kernel, prev.user) == prev.kernel + prev.user;
    assert Sub64(t.idle, prev.idle) == t.idle - prev.idle;
    if d != 0 {
      BusyBounds(d, t.idle - prev.idle);
    }
  }

  // ---------------------------------------------------------------
  // The CPU tab
  // ---------------------------------------------------------------

  /** The CPU tab's statics: the graph history and the Linux baseline. */
  datatype CpuTab = CpuTab(history: seq<real>, baseline: LinuxBaseline)

  const InitialTab := CpuTab([], LinuxBaseline(0, 0))

  /** One frame of the tab with the "Pause" box in state `paused`: a
      paused frame does not sample at all, so neither the history nor the
      baseline moves; otherwise the reading is taken and pushed. */
  function TabFrame(tab: CpuTab, paused: bool, file: Option<string>): (r: CpuTab)
    ensures paused ==> r == tab
    ensures !paused ==>
              var (u, b) := LinuxCpuUsage(tab.baseline, file);
              r.baseline == b && History.Latest(r.history) == u
              && r.history == History.Push(tab.history, u)
    ensures |tab.history| <= History.MaxSamples ==> |r.history| <= History.MaxSamples
  {
    if paused then tab
    else
      var (u, b) := LinuxCpuUsage(tab.baseline, file);
      History.LatestAfterSample(tab.history, false, u);
      CpuTab(History.Sample(tab.history, false, u), b)
  }

  /** The frames of a run, with each frame's pause state and file text. */
  function TabRun(tab: CpuTab, frames: seq<(bool, Option<string>)>): CpuTab
    decreases |frames|
  {
    if |frames| == 0 then tab else TabRun(TabFrame(tab, frames[0].0, frames[0].1), frames[1..])
  }

  /** A run of frames, paused or not, never grows the history past 100
      samples. */
  lemma {:induction false} TabRunBounded(tab: CpuTab, frames: seq<(bool, Option<string>)>)
    requires |tab.history| <= History.MaxSamples
    ensures |TabRun(tab, frames).history| <= History.MaxSamples
    decreases |frames|
  {
    if |frames| > 0 {
      TabRunBounded(TabFrame(tab, frames[0].0, frames[0].1), frames[1..]);
    }
  }
}
