/** Swap (swap.cpp): `getSwapInfo` on each platform, which reports either
    used and total MB or an error message, and the swap window's three-way
    choice between the error, "used only" and a usage bar. */
module Swap {
  import opened Common
  import Memory

  /** `SwapStats`: an empty message means the numbers are valid. */
  datatype SwapStats = SwapStats(usedMB: real, totalMB: real, errorMessage: string)

  /** What each platform's query yields. Linux: the lines of /proc/meminfo,
      or None when it cannot be opened, and the stand-in for the
      uninitialised `long` (see `Memory.MeminfoEntry`). Windows: whether
      `GlobalMemoryStatusEx` succeeded and the page-file byte counts.
      macOS: whether `host_statistics64` succeeded, the `pageouts`
      counter and the page size. */
  datatype SwapSource =
    | LinuxSwap(meminfo: Option<seq<string>>, unset: int)
    | WindowsSwap(ok: bool, totalPageFile: u64, availPageFile: u64)
    | MacSwap(ok: bool, pageouts: u64, pageSize: u64)
    | OtherSwap

  const LinuxOpenError := "Failed to open /proc/meminfo"
  const WindowsError := "Failed to get Windows memory status"
  const MacError := "Failed to get macOS vm statistics"
  const UnsupportedError := "Swap monitoring is not supported on this OS."

  /** A query that failed, or an OS without support. */
  predicate Fails(src: SwapSource) {
    || (src.LinuxSwap? && src.meminfo.None?)
    || (src.WindowsSwap? && !src.ok)
    || (src.MacSwap? && !src.ok)
    || src.OtherSwap?
  }

  /** `getSwapInfo`. */
  function GetSwapInfo(src: SwapSource): (s: SwapStats)
    ensures s.errorMessage != "" <==> Fails(src)
    ensures Fails(src) ==> s.usedMB == 0.0 && s.totalMB == 0.0
    ensures src.LinuxSwap? && src.meminfo.Some? ==>
              var m := Memory.ParseMeminfo(src.meminfo.value, src.unset);
              s.totalMB * 1024.0 == GetOrZero(m, "SwapTotal") as real
              && s.totalMB - s.usedMB == GetOrZero(m, "SwapFree") as real / 1024.0
    ensures src.WindowsSwap? && src.ok ==>
              s.totalMB * 1048576.0 == src.totalPageFile as real
              && s.totalMB - s.usedMB == src.availPageFile as real / 1048576.0
    ensures src.MacSwap? && src.ok ==>
              s.totalMB == 0.0 && s.usedMB * 1048576.0 == Mul64(src.pageouts, src.pageSize) as real
  {
    match src
    case LinuxSwap(meminfo, unset) =>
      if meminfo.None? then SwapStats(0.0, 0.0, LinuxOpenError)
      else
        var m := Memory.ParseMeminfo(meminfo.value, unset);
        var swapTotal := GetOrZero(m, "SwapTotal");
        var swapFree := GetOrZero(m, "SwapFree");
        SwapStats((swapTotal - swapFree) as real / 1024.0, swapTotal as real / 1024.0, "")
    case WindowsSwap(ok, total, avail) =>
      if ok then
        var totalMB := total as real / 1048576.0;
        var availMB := avail as real / 1048576.0;
        SwapStats(totalMB - availMB, totalMB, "")
      else SwapStats(0.0, 0.0, WindowsError)
    case MacSwap(ok, pageouts, pageSize) =>
      if ok then SwapStats(Mul64(pageouts, pageSize) as real / 1048576.0, 0.0, "")
      else SwapStats(0.0, 0.0, MacError)
    case OtherSwap => SwapStats(0.0, 0.0, UnsupportedError)
  }

  /** What the swap window shows. */
  datatype SwapView =
    | ErrorOnly(message: string)
    | UsedOnly(usedMB: real)
    | SwapUsage(usedMB: real, totalMB: real, fraction: real)

  /** `renderSwapWindow`: an error hides the numbers; a total that is not
      positive means "unknown" and shows only the used amount; otherwise
      the bar shows used / total. */
  function SwapWindow(s: SwapStats): (v: SwapView)
    ensures v.ErrorOnly? <==> s.errorMessage != ""
    ensures v.ErrorOnly? ==> v.message == s.errorMessage
    ensures v.UsedOnly? <==> s.errorMessage == "" && s.totalMB <= 0.0
    ensures v.UsedOnly? ==> v.usedMB == s.usedMB
    ensures v.SwapUsage? ==>
              v.usedMB == s.usedMB && v.totalMB == s.totalMB && v.totalMB > 0.0
              && v.fraction * v.totalMB == v.usedMB
              && (0.0 <= v.usedMB <= v.totalMB ==> 0.0 <= v.fraction <= 1.0)
  {
    if s.errorMessage != "" then ErrorOnly(s.errorMessage)
    else if s.totalMB <= 0.0 then UsedOnly(s.usedMB)
    else SwapUsage(s.usedMB, s.totalMB, Fraction(s.usedMB, s.totalMB))
  }

  /** macOS never knows the total, so a successful query always shows
      the used amount alone. */
  lemma MacShowsUsedOnly(pageouts: u64, pageSize: u64)
    ensures SwapWindow(GetSwapInfo(MacSwap(true, pageouts, pageSize))).UsedOnly?
  {
  }

  /** Every failure is shown as its message and nothing else. */
  lemma FailuresShowMessage(src: SwapSource)
    requires Fails(src)
    ensures SwapWindow(GetSwapInfo(src)).ErrorOnly?
    ensures SwapWindow(GetSwapInfo(src)).message != ""
  {
  }

  /** The Windows page-file bar lies in [0, 1] whenever the available
      page file does not exceed its total and the total is positive. */
  lemma WindowsSwapBar(total: u64, avail: u64)
    requires 0 < total && avail <= total
    ensures var v := SwapWindow(GetSwapInfo(WindowsSwap(true, total, avail)));
            v.SwapUsage? && 0.0 <= v.fraction <= 1.0
  {
    var s := GetSwapInfo(WindowsSwap(true, total, avail));
    assert s.totalMB > 0.0;
    assert s.usedMB == s.totalMB - avail as real / 1048576.0;
  }
}
