/** Physical memory (memory.cpp): the /proc/meminfo parser that swap.cpp
    repeats line for line, `getMemoryUsageMB` on each platform, and the
    RAM window's choice between "unsupported" and a usage bar. Sizes that
    the C++ code holds in `float` are reals here. */
module Memory {
  import opened Common
  import opened Text

  // ---------------------------------------------------------------
  // /proc/meminfo
  // ---------------------------------------------------------------

  /** One line through `iss >> key >> value >> unit` and the removal of
      the key's last character (the ':'). `unset` stands for what the
      uninitialised `long value` holds when the stream fails before
      reaching it; a failed number extraction stores 0 and an
      out-of-range one the nearest `long`. An empty key stays empty,
      because `substr(0, npos)` of "" is "". */
  function MeminfoEntry(line: string, unset: int): (e: (string, int))
    ensures |NextWord(line).0| == 0 ==> e == ("", unset)
    ensures |NextWord(line).0| > 0 ==>
              |e.0| == |NextWord(line).0| - 1 && e.0 == NextWord(line).0[..|e.0|]
              && e.1 == LongValue(NextWord(line).1, unset)
  {
    var w := NextWord(line);
    if |w.0| == 0 then ("", unset)
    else (w.0[..|w.0| - 1], LongValue(w.1, unset))
  }

  /** `iss >> value` into a `long` that holds `unset` beforehand. */
  function LongValue(rest: string, unset: int): (v: int)
    ensures ScanInt(rest).AtEnd? ==> v == unset
    ensures ScanInt(rest).NoNumber? ==> v == 0
    ensures ScanInt(rest).Number? ==> Int64Min <= v <= Int64Max
    ensures ScanInt(rest).Number? && Int64Min <= ScanInt(rest).value <= Int64Max ==> v == ScanInt(rest).value
  {
    match ScanInt(rest)
    case AtEnd => unset
    case NoNumber => 0
    case Number(x, _) => ClampInt64(x)
  }

  function MeminfoEntries(lines: seq<string>, unset: int): (es: seq<(string, int)>)
    ensures |es| == |lines|
    ensures forall i :: 0 <= i < |lines| ==> es[i] == MeminfoEntry(lines[i], unset)
  {
    seq(|lines|, i requires 0 <= i < |lines| => MeminfoEntry(lines[i], unset))
  }

  /** The `memValues` map after the read loop. */
  function ParseMeminfo(lines: seq<string>, unset: int): map<string, int> {
    MapOf(MeminfoEntries(lines, unset))
  }

  /** A line as the kernel writes it: key, colon, padding, value, unit.
      The padding must be non-empty: without it the value would be read
      as part of the key. */
  function MeminfoLine(key: string, pad: string, n: nat): string {
    key + ":" + pad + DecimalString(n) + " kB"
  }

  /** Such a line reads back as its key and value. */
  lemma MeminfoEntryOfLine(key: string, pad: string, n: nat, unset: int)
    requires NoSpace(key) && AllSpace(pad) && |pad| > 0 && n <= Int64Max
    ensures MeminfoEntry(MeminfoLine(key, pad, n), unset) == (key, n)
  {
    KeyWordOfLine(key, pad, n);
    LongValueOfPadded(pad, n, unset);
    var w := key + ":";
    assert w[..|w| - 1] == key;
  }

  lemma KeyWordOfLine(key: string, pad: string, n: nat)
    requires NoSpace(key) && AllSpace(pad) && |pad| > 0
    ensures NextWord(MeminfoLine(key, pad, n)) == (key + ":", pad + (DecimalString(n) + " kB"))
  {
    var w := key + ":";
    var rest := pad + (DecimalString(n) + " kB");
    assert MeminfoLine(key, pad, n) == w + rest;
    assert rest[0] == pad[0];
    NextWordOfWord(w, rest);
  }

  lemma LongValueOfPadded(pad: string, n: nat, unset: int)
    requires AllSpace(pad) && n <= Int64Max
    ensures LongValue(pad + (DecimalString(n) + " kB"), unset) == n
  {
    ScanNatOfPadded(pad, n);
  }

  lemma ScanNatOfPadded(pad: string, n: nat)
    requires AllSpace(pad)
    ensures ScanNat(pad + (DecimalString(n) + " kB")) == Number(n, " kB")
  {
    var tail := DecimalString(n) + " kB";
    ScanNatOfDecimal(n, " kB");
    SkipSpacePrefix(pad, tail);
  }

  /** The value under a key is the one on the last line that yields that
      key, and a key no line yields reads as 0. */
  lemma MeminfoLastLineWins(lines: seq<string>, unset: int, i: nat, key: string, pad: string, n: nat)
    requires i < |lines| && lines[i] == MeminfoLine(key, pad, n)
    requires NoSpace(key) && AllSpace(pad) && |pad| > 0 && n <= Int64Max
    requires forall j :: i < j < |lines| ==> MeminfoEntry(lines[j], unset).0 != key
    ensures GetOrZero(ParseMeminfo(lines, unset), key) == n
  {
    MeminfoEntryOfLine(key, pad, n, unset);
    ParsedEntryLastWins(lines, unset, i);
  }

  /** The entry of the last line carrying a key is the one the map keeps. */
  lemma ParsedEntryLastWins(lines: seq<string>, unset: int, i: nat)
    requires i < |lines|
    requires forall j :: i < j < |lines| ==> MeminfoEntry(lines[j], unset).0 != MeminfoEntry(lines[i], unset).0
    ensures var (key, v) := MeminfoEntry(lines[i], unset);
            GetOrZero(ParseMeminfo(lines, unset), key) == v
  {
    var es := MeminfoEntries(lines, unset);
    MapOfLastWins(es, i);
  }

  lemma MeminfoMissingKey(lines: seq<string>, unset: int, key: string)
    requires forall j :: 0 <= j < |lines| ==> MeminfoEntry(lines[j], unset).0 != key
    ensures GetOrZero(ParseMeminfo(lines, unset), key) == 0
  {
    var es := MeminfoEntries(lines, unset);
    assert forall j :: 0 <= j < |es| ==> es[j].0 != key;
  }

  // ---------------------------------------------------------------
  // getMemoryUsageMB
  // ---------------------------------------------------------------

  /** What each platform's query yields. Linux: the lines of
      /proc/meminfo (none when it cannot be opened). Windows: whether
      `GlobalMemoryStatusEx` succeeded and its two byte counts. macOS: the
      `hw.memsize` value (0 when sysctl fails), whether
      `host_statistics64` succeeded, the three page counters and the page
      size. */
  datatype MemSource =
    | LinuxMem(lines: seq<string>, unset: int)
    | WindowsMem(ok: bool, totalPhys: u64, availPhys: u64)
    | MacMem(physical: int, ok: bool, active: u32, inactive: u32, wire: u32, pageSize: int)
    | OtherMem

  /** The Linux branch: MemTotal and MemAvailable, read as 0 when
      missing. */
  function LinuxMemoryUsage(lines: seq<string>, unset: int): (r: (real, real))
    ensures var m := ParseMeminfo(lines, unset);
            r.1 * 1024.0 == GetOrZero(m, "MemTotal") as real
            && r.1 - r.0 == GetOrZero(m, "MemAvailable") as real / 1024.0
  {
    var m := ParseMeminfo(lines, unset);
    UsageOfKb(GetOrZero(m, "MemTotal"), GetOrZero(m, "MemAvailable"))
  }

  /** kB counts turned into MB; used is what is not available. */
  function UsageOfKb(memTotal: int, memAvailable: int): (r: (real, real))
    ensures r.1 * 1024.0 == memTotal as real
    ensures r.1 - r.0 == memAvailable as real / 1024.0
  {
    ((memTotal - memAvailable) as real / 1024.0, memTotal as real / 1024.0)
  }

  /** The Windows branch: used is the unsigned 64-bit difference, which
      wraps when more is available than installed. */
  function WindowsMemoryUsage(totalPhys: u64, availPhys: u64): (r: (real, real))
    ensures r.1 * 1048576.0 == totalPhys as real
    ensures availPhys <= totalPhys ==> r.0 * 1048576.0 == (totalPhys - availPhys) as real
    ensures availPhys > totalPhys ==> r.0 * 1048576.0 == (totalPhys - availPhys + U64) as real
  {
    (Sub64(totalPhys, availPhys) as real / 1048576.0, totalPhys as real / 1048576.0)
  }

  /** The macOS branch: the three page counters are `natural_t`, so their
      sum wraps modulo 2^32 before the multiplication by the page size. */
  function MacMemoryUsage(physical: int, active: u32, inactive: u32, wire: u32, pageSize: int): (r: (real, real))
    ensures r.1 * 1048576.0 == physical as real
    ensures active + inactive + wire < U32 ==>
              r.0 * 1048576.0 == ((active + inactive + wire) * pageSize) as real
    ensures U32 <= active + inactive + wire < 2 * U32 ==>
              r.0 * 1048576.0 == ((active + inactive + wire - U32) * pageSize) as real
    ensures 2 * U32 <= active + inactive + wire ==>
              r.0 * 1048576.0 == ((active + inactive + wire - 2 * U32) * pageSize) as real
  {
    var pages := (active + inactive + wire) % U32;
    ((pages * pageSize) as real / 1048576.0, physical as real / 1048576.0)
  }

  /** `getMemoryUsageMB`: (used, total) in MB; the sentinel (-1, -1) on an
      unsupported OS and (0, 0) when the platform query fails. */
  function GetMemoryUsageMB(src: MemSource): (r: (real, real))
    ensures src.OtherMem? ==> r == (-1.0, -1.0)
    ensures src.WindowsMem? && !src.ok ==> r == (0.0, 0.0)
    ensures src.MacMem? && !src.ok ==> r == (0.0, 0.0)
    ensures src.LinuxMem? ==> r == LinuxMemoryUsage(src.lines, src.unset)
    ensures src.WindowsMem? && src.ok ==> r == WindowsMemoryUsage(src.totalPhys, src.availPhys)
    ensures src.MacMem? && src.ok ==>
              r == MacMemoryUsage(src.physical, src.active, src.inactive, src.wire, src.pageSize)
  {
    match src
    case LinuxMem(lines, unset) => LinuxMemoryUsage(lines, unset)
    case WindowsMem(ok, total, avail) =>
      if ok then WindowsMemoryUsage(total, avail) else (0.0, 0.0)
    case MacMem(physical, ok, active, inactive, wire, pageSize) =>
      if ok then MacMemoryUsage(physical, active, inactive, wire, pageSize) else (0.0, 0.0)
    case OtherMem => (-1.0, -1.0)
  }

  // ---------------------------------------------------------------
  // renderRAMWindow
  // ---------------------------------------------------------------

  /** What the RAM window shows: the "not supported" text, or the bar with
      its fraction (displayed times 100 as a percentage). */
  datatype RamView = RamUnsupported | RamUsage(usedMB: real, totalMB: real, fraction: real)

  function RamWindow(usage: (real, real)): (v: RamView)
    ensures v.RamUnsupported? <==> usage.0 < 0.0 || usage.1 <= 0.0
    ensures v.RamUsage? ==>
              v.usedMB == usage.0 && v.totalMB == usage.1
              && v.fraction * v.totalMB == v.usedMB && v.fraction >= 0.0
              && (v.usedMB <= v.totalMB ==> v.fraction <= 1.0)
  {
    var (used, total) := usage;
    if used < 0.0 || total <= 0.0 then RamUnsupported
    else RamUsage(used, total, Fraction(used, total))
  }

  /** The sentinel and the failure pair both land on "not supported". */
  lemma FailuresAreUnsupported(src: MemSource)
    requires src.OtherMem? || (src.WindowsMem? && !src.ok) || (src.MacMem? && !src.ok)
    ensures RamWindow(GetMemoryUsageMB(src)).RamUnsupported?
  {
  }

  /** On Linux, a positive MemTotal with MemAvailable between 0 and
      MemTotal shows a bar whose fraction is the share of MemTotal that is
      not available. */
  lemma LinuxRamBar(memTotal: int, memAvailable: int)
    requires 0 <= memAvailable <= memTotal && memTotal > 0
    ensures RamWindow(UsageOfKb(memTotal, memAvailable)).RamUsage?
    ensures 0.0 <= RamWindow(UsageOfKb(memTotal, memAvailable)).fraction <= 1.0
    ensures RamWindow(UsageOfKb(memTotal, memAvailable)).fraction * memTotal as real
            == (memTotal - memAvailable) as real
  {
    var t := memTotal as real;
    var a := memAvailable as real;
    var u := UsageOfKb(memTotal, memAvailable);
    var f := RamWindow(u).fraction;
    assert f * (t / 1024.0) == (t - a) / 1024.0;
    Unscale(f, t, t - a, 1024.0);
  }

  lemma Unscale(f: real, x: real, y: real, k: real)
    requires k > 0.0 && f * (x / k) == y / k
    ensures f * x == y
  {
    calc {
      f * x;
      f * (x / k) * k;
      y / k * k;
      y;
    }
  }
}
