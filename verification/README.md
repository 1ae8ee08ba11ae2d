# A model of the system-monitor dashboard's core

The dashboard reads operating-system counters each frame and draws them
with ImGui. This project models, in Dafny, the deterministic logic between
the reads and the drawing:

- the per-process table of `processes.cpp`: the 0.5 s sampling gate, the
  case-insensitive name/pid filter, the CPU-share formula with its guards,
  the record and selection updates of one table pass, the baseline commit
  after the pass, and the `/proc/stat` and `/proc/[pid]/stat` extractors;
- the system CPU percentage of `cpu.cpp` (Linux, macOS and Windows
  branches), with the previous reading as explicit state, and the 100-sample
  "push unless paused" graph history shared by the CPU, fan and thermal tabs;
- the fan sensor of `fan.cpp` (file discovery, first-match choice of the
  enable and level files, the combination into `FanInfo`);
- the CPU temperature sensor of `thermals.cpp` (sensor discovery, the
  cached path and the fallback latch);
- memory, swap and disk usage (`memory.cpp`, `swap.cpp`, `disk.cpp`): the
  `/proc/meminfo` parser, used/total on each platform, and the windows'
  choice between an error, "used only" and a usage bar;
- the network window of `network-receiver-transmitter.cpp`: the
  `/proc/net/dev` line splitter, `formatBytes` and the usage-bar clamp;
- the system tab of `system.cpp`: the process-state tally, the CPU model
  name from `/proc/cpuinfo` and the logged-in user.

Every OS read (files, directory listings, system calls, the clock, the
environment) is a parameter: a file's text, or `None` when it cannot be
opened. The C++ statics become immutable state records that each step takes
and returns (`Processes.Table`, `Cpu.LinuxBaseline`, `Thermals.Sensor`,
`Fan.FanTab`, ...). Fixed-width unsigned arithmetic is written out
(`Common.Sub32`, `Sub64`, `Add64`, `Mul64`), as is the saturation of `>>`
into `int` and `long` (`ClampInt32`, `ClampInt64`). `float` and `double`
values are reals.

Modules: `Common` (options, wrap-around, the last-wins map fold), `Text`
(the istream, `sscanf` and `strtok` scanning the parsers share), `ProcStat`
(the `/proc/stat` aggregate line), `History`, and one module per source file:
`Processes`, `Cpu`, `Fan`, `Thermals`, `Memory`, `Swap`, `Disk`, `NetDev`
(network-receiver-transmitter.cpp) and `System`.

The model follows the code as written:

- a pid seen for the first time is differenced against a default
  baseline of 0; there is no special first-sight case
  (processes.cpp:204-205);
- a frame whose rate gate is closed reports 0 % for every shown process
  and still overwrites each shown process's baseline
  (processes.cpp:204);
- processes rejected by the filter are not updated at all, so their next
  delta spans every frame they were hidden (processes.cpp:189-197);
- the process map never evicts a vanished pid, and its selection entry
  stays (processes.cpp:140-143).

In `getTaskStats` the branch that would count state "D" as
uninterruptible is unreachable, because "D" is already counted as sleeping
by the test before it (`System.Classify`). The intent is unclear, since "D"
is listed with the sleeping states on purpose, so this is modelled but not
reported as a finding.

## Model

| member | source | states |
|---|---|---|
| Processes.TotalCpuTime | processes.cpp:50-65 | An unopenable or empty `/proc/stat`, a first line not starting with "cpu", or fewer than eight counters all give 0 |
| Processes.TotalCpuTimeOfCpuLine | processes.cpp:62-64 | The kernel's aggregate line reads back as the sum of its first eight counters (user to steal); guest counters after them are ignored |
| Processes.AfterName | processes.cpp:81-85 | The tokens start two characters after the last ')'; there are none exactly when '(' or ')' is missing or the last ')' is not after the first '(' |
| Processes.TokenValue | processes.cpp:93-95 | `strtoull` gives the unsigned decimal number at the head of a token after any whitespace, and 0 when the token has none (signs: see Left out) |
| Processes.ProcessCpuTimeAsWritten | processes.cpp:68-103 | The extractor as written: 0 for an unreadable file or a line without a well-placed name |
| Processes.ProcessCpuTimeAsWrittenReadsChildTimes | processes.cpp:86-100 | As written, any stat line whose fields after the name are non-empty and free of blanks and ')' (signed fields such as tpgid -1 included) yields tokens 13 and 14: cutime + cstime, the CPU time of waited-for children |
| Processes.AsWrittenMissesOwnTicks | processes.cpp:86 | For a process with utime 500, stime 300 and no children, the extractor as written reports 0 ticks and the corrected one 800 |
| Processes.ProcessCpuTime | processes.cpp:81-102 | The corrected extractor, with the same 0 results for an unreadable file or a line without a well-placed name |
| Processes.ProcessCpuTimeReadsUtimeStime | processes.cpp:86-102 | The corrected extractor returns utime + stime of any stat line whose fields after the name are non-empty and free of blanks and ')', whatever blanks or parentheses the command name holds and whatever the other fields are |
| Processes.CommName | processes.cpp:165-175 | The name is the comm file's first line without its newline, and "unknown" when the file cannot be opened or is empty |
| Processes.VmRssKbFirstMatch | processes.cpp:114-116 | The resident size is the value on the first status line that `sscanf("VmRSS: %lu kB")` accepts; later lines are never read |
| Processes.VmRssKbNoMatch | processes.cpp:113-116 | With no accepted VmRSS line the resident size stays 0 |
| Processes.PercentOf | processes.cpp:119-120 | `part * 100 / whole` is non-negative, is 0 when the whole is not positive, and otherwise times the whole gives 100 times the part |
| Processes.MemoryPercent | processes.cpp:106-121 | The memory percentage is 0 when the status file cannot be opened or total memory is not positive; otherwise it is the percentage of the total that the first accepted VmRSS value makes up (0 kB without one) |
| Processes.Admits | processes.cpp:189-197 | An empty filter admits every row |
| Processes.AdmitsIffOccurs | processes.cpp:189-197 | A non-empty filter admits a row exactly when its lowercased text occurs at some position of the lowercased name or of the decimal pid |
| Processes.PidFilterAdmits | processes.cpp:194-196 | Typing a process's own pid as the filter always shows that process |
| Processes.NameFilterAdmits | processes.cpp:189-195 | Typing a process's name in any letter case always shows that process |
| Processes.ScaledShare | processes.cpp:206-208 | `(part / whole) * 100 * c` times the whole is `part * 100 * c`; it is non-negative for c >= 0 and at most 100c when part <= whole |
| Processes.CpuPercent | processes.cpp:200-209 | 0 when the gate is closed, the process counter went backwards or the system total did not grow; otherwise the process delta over the system delta times 100 times the CPU count, never negative for a non-negative CPU count |
| Processes.Toggle | processes.cpp:224-230 | A click flips membership of exactly the clicked pid; every other pid keeps its selection |
| Processes.Baseline | processes.cpp:204 | A pid never stored is differenced against the default baseline 0, a stored one against its `lastCpuTime` |
| Processes.NewRecord | processes.cpp:199-218 | A shown row's record is overwritten with the name, state, CPU share against the old baseline, memory share, and the current ticks (from the corrected extractor, see Findings) as the new baseline |
| Processes.VisitRow | processes.cpp:158-230 | A non-process or filtered-out entry leaves the table unchanged; a shown row gains or replaces only its own record and toggles only its own selection |
| Processes.PassKeys | processes.cpp:155-237 | After a table pass the map holds exactly the old pids plus the shown pids: nothing is evicted |
| Processes.PassLeavesOthers | processes.cpp:189-197 | A pid that no shown row carries keeps its record, its presence or absence, and its selection across the pass |
| Processes.PassUpdatesShown | processes.cpp:204-230 | With distinct pids, every shown row ends the pass with the record computed against the baseline it had before the pass, and its selection flipped iff clicked |
| Processes.Poll | processes.cpp:127-254 | A collapsed window changes nothing; otherwise the system total and the sample time are committed after the pass, whether or not the gate was open, and the map only grows |
| Processes.PollShownPercent | processes.cpp:140-218 | Each shown process's CPU share uses the gate of the previous sample time, its old baseline and the previous frame's system total; a closed gate reports 0 |
| Processes.PollLeavesUnshown | processes.cpp:189-218 | A pid absent from the listing or rejected by the filter keeps its stale record and selection, so its next delta spans every hidden frame |
| Processes.FirstPollReportsZero | processes.cpp:140-143 | On the first frame no previous sample exists, so every process reports 0 % |
| Cpu.TotalTicks | cpu.cpp:63-65 | Total time is idle plus iowait plus all six busy buckets, so it is never below the idle time |
| Cpu.ParseCpuLine | cpu.cpp:58-60 | The kernel's aggregate "cpu" line read with `>>` yields its first eight counters in order |
| Cpu.BusyPercent | cpu.cpp:76-79 | An empty interval gives 0; otherwise the result times the interval is 100 times the busy ticks, and it lies in [0, 100] when idle ticks do not exceed the interval |
| Cpu.LinuxStep | cpu.cpp:63-79 | The new baseline is the reading itself, saved even when the interval is empty; the result is the busy share of the interval since the old baseline |
| Cpu.LinuxCpuUsage | cpu.cpp:47-79 | An unopenable `/proc/stat` reports 0 and leaves the baseline untouched; otherwise the file's counters are the reading |
| Cpu.LinuxUsageInRange | cpu.cpp:63-79 | If every counter is non-decreasing since the previous reading, the percentage lies in [0, 100], and an unchanged reading gives 0 |
| Cpu.LinuxBaselineAdvances | cpu.cpp:68-73 | A second reading is measured against the first, whatever the first one returned |
| Cpu.LinuxExample | cpu.cpp:63-79 | From idle 1000 and total 2000 to idle 1100 and total 2300 the result is 200/3 % |
| Cpu.MacCpuUsage | cpu.cpp:118-137 | A failed query reports 0 and keeps the previous load; otherwise the new load is kept and the result is `Cpu.BusyPercent` of the 32-bit wrapped deltas (user + system + nice against that plus idle), always in [0, 100] |
| Cpu.MacUsageOfForwardCounters | cpu.cpp:128-137 | Counters that moved forward without wrapping give exactly the busy share of the plain tick deltas |
| Cpu.WindowsCpuUsage | cpu.cpp:84-113 | A failed query reports 0 and keeps the previous times; otherwise the times are saved and the result is the 64-bit wrapped busy delta over the kernel+user delta, 0 when that delta is 0 |
| Cpu.WindowsUsageInRange | cpu.cpp:104-113 | When the idle delta does not exceed the kernel+user delta and nothing wraps, the result is the ordinary busy share, in [0, 100] |
| Cpu.TabFrame | cpu.cpp:170-178 | A paused frame samples nothing, so neither the history nor the baseline moves; otherwise the history is the old one with the new reading pushed (the oldest dropped at 100) and the baseline is the new counters |
| Cpu.TabRunBounded | cpu.cpp:170-178 | Over any run of paused and unpaused frames the history never exceeds 100 samples |
| History.Push | cpu.cpp:171-177 | The value is appended last; the oldest sample is dropped only when the size would exceed 100 |
| History.Sample | cpu.cpp:170-178 | A paused frame leaves the history as it is; an unpaused one is exactly one push, which makes the value the newest sample; the size stays within 100 |
| History.Latest | cpu.cpp:193 | The value shown is the newest sample, or 0 when the history is empty |
| History.LatestAfterSample | thermals.cpp:111-121 | After an unpaused frame the value shown is the new sample; after a paused frame it is the one shown before |
| History.PushAllKeepsNewest | fan.cpp:135-142 | Whatever values arrive, the history holds exactly the newest min(count, 100) of them, oldest first |
| Fan.ReadIntFromFile | fan.cpp:63-70 | -1 when the file cannot be opened or holds only whitespace, 0 when the text does not start with a number, and the value always fits an int |
| Fan.ReadIntOfDecimal | fan.cpp:63-70 | A file holding a non-negative int and a newline reads back as that int |
| Fan.FindFanInput | fan.cpp:17-33 | The input file is found in the first directory holding a name containing "fan1_input"; there is none exactly when no directory holds one |
| Fan.FirstPresent | fan.cpp:37-58 | The first candidate name that exists in the fan's directory, in candidate order; none exactly when no candidate exists |
| Fan.Discover | fan.cpp:75-77 | The cached input is present exactly when `FindFanInput` finds one; it is then that first "fan1_input" file, and the enable and level paths are `FirstPresent` of their candidate lists in that file's directory; with no input, neither is searched |
| Fan.EnablePrefersFirst | fan.cpp:42-45 | "fan1_enable" is chosen over "fan1_status" whenever it exists |
| Fan.GetFanInfo | fan.cpp:73-106 | No input file gives {false, 0, 0}; a positive speed sets the speed and turns the fan on; an enable file overrides that with (reading == 1); the level changes only for a reading >= 0 |
| Fan.UnreadableFilesAreFallbacks | fan.cpp:94-103 | An unreadable enable file turns the fan off even when it reports a speed, and an unreadable level file leaves the level at 0 |
| Fan.TabFrame | fan.cpp:118-142 | `getFanInfo` runs every frame, paused or not, and the first frame fixes the paths; the history is the old one with the speed pushed when not paused, unchanged when paused, and stays within 100 |
| Fan.TabRunKeepsPaths | fan.cpp:75-77 | Once the paths are cached, later frames never change them, and the history stays within 100 |
| Thermals.ReadWord | thermals.cpp:38-40 | `>>` into a string yields the file's first whitespace-delimited word, and fails exactly when the file cannot be opened or holds only whitespace |
| Thermals.FindThermalSensorPath | thermals.cpp:31-65 | The result is "" exactly when no thermal zone and no k10temp hwmon device is usable; otherwise it is a path that exists |
| Thermals.SensorPathIsFirstUsable | thermals.cpp:33-61 | A usable thermal zone always wins over hwmon, and within each directory the first usable entry in iteration order is taken |
| Thermals.ReadMillidegrees | thermals.cpp:86-88 | The reading succeeds exactly when the file opens and starts with a number that fits an int |
| Thermals.ReadTemperatureC | thermals.cpp:69-94 | Discovery runs only while the cached path is empty; no sensor or a failed read switches fallback mode on, a failed read returning 50; otherwise the result is millidegrees / 1000 |
| Thermals.ReadsDecimalSensor | thermals.cpp:86-89 | On the first call, a discovered file holding a decimal millidegree count reads as the count / 1000, with the path cached and fallback mode off |
| Thermals.ReadMillidegreesOfDecimal | thermals.cpp:87-88 | A sensor file holding a decimal int followed by a non-digit reads back as that int |
| Thermals.FallbackIsPermanent | thermals.cpp:71-91 | Fallback mode is never cleared and a found path is never searched again, whatever later frames hold |
| Thermals.TabFrame | thermals.cpp:102-115 | The temperature is read, and the latch may close, whether or not the tab is paused; the history is the old one with the reading pushed when not paused, unchanged when paused |
| Common.MapOfLastWins | memory.cpp:32 | In a map filled by `m[k] = v` in order, a key holds the value of its last assignment |
| Memory.MeminfoEntry | memory.cpp:26-32 | The key is the first word minus its last character and the value is what `>>` reads next; a blank line gives the empty key |
| Memory.LongValue | memory.cpp:28-30 | `>>` into a `long`: the old value when the line ends, 0 when no number follows, and the number clamped to the `long` range otherwise |
| Memory.MeminfoEntryOfLine | memory.cpp:26-32 | A kernel line "Key:   n kB" reads back as the key and n |
| Memory.MeminfoLastLineWins | memory.cpp:25-36 | A key's value is the one on its last line |
| Memory.MeminfoMissingKey | memory.cpp:35-36 | A key that no line yields reads as 0 |
| Memory.LinuxMemoryUsage | memory.cpp:35-40 | Total is MemTotal / 1024, and total minus used is MemAvailable / 1024 |
| Memory.UsageOfKb | memory.cpp:38-39 | Total is the kB total / 1024, and total minus used is the available kB / 1024 |
| Memory.WindowsMemoryUsage | memory.cpp:45-48 | Total is the physical bytes in MB; used is their unsigned 64-bit difference, which wraps when more is available than installed |
| Memory.MacMemoryUsage | memory.cpp:64-68 | Total is `hw.memsize` in MB; used is the page-counter sum, wrapped modulo 2^32, times the page size |
| Memory.GetMemoryUsageMB | memory.cpp:19-77 | An unsupported OS gives the sentinel (-1, -1); a failed Windows or macOS query gives (0, 0) |
| Memory.RamWindow | memory.cpp:89-102 | "Not supported" exactly when used < 0 or total <= 0; otherwise the fraction is used / total, non-negative, at most 1 when used <= total |
| Memory.FailuresAreUnsupported | memory.cpp:50-96 | The sentinel and the failure pair both show "not supported" |
| Memory.LinuxRamBar | memory.cpp:35-98 | With 0 <= MemAvailable <= MemTotal and MemTotal > 0, the bar's fraction is the unavailable share of MemTotal, in [0, 1] |
| Swap.GetSwapInfo | swap.cpp:25-82 | A failure or unsupported OS has a non-empty message and zero values; Linux gives SwapTotal and SwapTotal - SwapFree in MB; macOS always reports total 0 |
| Swap.SwapWindow | swap.cpp:94-109 | An error shows only the message; otherwise a total <= 0 shows "used only"; otherwise the bar shows used / total |
| Swap.MacShowsUsedOnly | swap.cpp:70-74 | A successful macOS query always shows the used amount alone |
| Swap.FailuresShowMessage | swap.cpp:94-100 | Every failure is shown as its non-empty message and nothing else |
| Swap.WindowsSwapBar | swap.cpp:57-61 | The Windows page-file bar lies in [0, 1] when the available page file does not exceed a positive total |
| Disk.FloatDivide | disk.cpp:34 | A positive divisor gives the exact quotient; a zero divisor gives an infinity or, for 0 / 0, NaN |
| Disk.WindowsDiskView | disk.cpp:29-37 | Used / total with no zero guard: a zero total gives no finite fraction; otherwise a fraction in [0, 1] when free <= total |
| Disk.StatDiskView | disk.cpp:66-76 | Total and free are 64-bit block products; the fraction is used / (used + available), 0 when that sum is 0 |
| Disk.DiskWindow | disk.cpp:13-97 | A failed query returns early with no fraction; an unsupported OS shows only its text |
| Disk.StatFractionInUnitRange | disk.cpp:66-76 | Without 64-bit overflow and with free <= total blocks, the Linux/macOS fraction lies in [0, 1] |
| Disk.WindowsZeroTotalIsNotFinite | disk.cpp:34 | A zero Windows total gives NaN when nothing is free and an infinity otherwise |
| NetDev.TrimBlanks | network-receiver-transmitter.cpp:29 | Only leading ' ' characters are removed |
| NetDev.NetIface | network-receiver-transmitter.cpp:28-29 | The interface name is the text before the first ':' (the whole line without one) with its leading blanks, and only those, removed |
| NetDev.NetCounters | network-receiver-transmitter.cpp:31-32 | A line without ':' leaves all sixteen counters at 0 |
| NetDev.ParseNetLineOfNetLine | network-receiver-transmitter.cpp:24-32 | A kernel interface line (blanks, the name, ':', then sixteen counters, each after its own run of whitespace of any width) reads back as its name and its counters, eight rx then eight tx, in order |
| NetDev.ReadInterfaces | network-receiver-transmitter.cpp:23-35 | Every interface line's name is a key of the result |
| NetDev.ReadNetworkStats | network-receiver-transmitter.cpp:14-38 | The first two lines are skipped unread; with no more lines the result is empty |
| NetDev.NamesComeFromInterfaceLines | network-receiver-transmitter.cpp:23-35 | Every key of the result is the name of some interface line |
| NetDev.LastLineWins | network-receiver-transmitter.cpp:34 | A later line for the same interface replaces the earlier one |
| NetDev.FormatBytes | network-receiver-transmitter.cpp:40-58 | Exactly one unit is chosen by the 1024-power thresholds; the value times the unit's scale is the byte count, and lies in [1, 1024) for KB and MB |
| NetDev.Progress | network-receiver-transmitter.cpp:136-137 | The bar is min(GB / 2, 1): in [0, 1], full exactly at 2 GiB or more |
| NetDev.ProgressIsMonotone | network-receiver-transmitter.cpp:149-150 | More bytes never give a shorter bar |
| System.StateWord | system.cpp:134-135 | The state is the word a third `>>` extraction takes after the pid and comm words: whitespace-free, empty when the text runs out |
| System.Classify | system.cpp:137-146 | "R" is running; "S", "D", "I", "W" sleeping; "T", "t" stopped; "Z" zombie; nothing is ever uninterruptible |
| System.TallyOfCounts | system.cpp:121-149 | The tally counts every entry whose name starts with a digit and each state class among them; the state counters add up to at most the total |
| System.GetTaskStats | system.cpp:116-151 | An unopenable /proc gives all zeros; otherwise each counter equals a reference count over the listing, uninterruptible is 0, and the state counters sum to at most the total |
| System.WindowsTaskStats | system.cpp:88-114 | Every process in the snapshot counts as running, so running equals total; a failed snapshot gives all zeros |
| System.StateWordOfStatLine | system.cpp:134-135 | A stat line whose command name has no blank yields its state field |
| System.BlankInCommandHidesState | system.cpp:134-146 | A command name holding a blank pushes its second half into the state, which counts toward the total only |
| System.ModelNameValue | system.cpp:184 | The text two characters after the first ':'; with no ':' the wrapped `npos + 2` drops only the first character; a final ':' throws `out_of_range` |
| System.LinuxCpuName | system.cpp:178-187 | The value of the first line starting with "model name", or "Unknown CPU" when there is none |
| System.ModelNameRoundTrip | system.cpp:180-185 | A kernel "model name<blanks>: <name>" line after other lines yields exactly the name |
| System.LoggedInUser | system.cpp:41-52 | The USER variable (USERNAME on Windows) when set, even to "", and "Unknown" otherwise |

## Left out

- ImGui: every window, table, slider and bar. The `fps*` and `yScale*` settings are stored but affect no logic.
- OS access: every file, directory walk and system call is an input parameter. A directory listing is a sequence in iteration order.
- network.cpp is not part of this model. It wraps `getifaddrs` and `inet_ntop` and has no logic of its own.
- fan.h appears only as the `Fan.FanInfo` datatype. header.h is not part of this model.
- `getOsName` and `getComputerName`: compile-time platform selection and `gethostname`.
- `CPUinfo` on Windows (`__cpuid`) and macOS (`sysctlbyname`): foreign calls.
- The fallback temperature walk driven by `rand()`. `Thermals.ReadTemperatureC` takes each frame's fallback value as a parameter.
- The commented-out dummy fan implementation.
- Floating point: percentages, MB and GB values are exact reals. `float` rounding and the `%.2f` and `%.1f` formatting are not modelled.
- Processes.TotalCpuTime: the `unsigned long long` sum of the eight counters is unbounded here. It does not wrap at 2^64, and `fgets`'s 512-byte line limit is not modelled. A counter with a leading sign, which `%llu` accepts and wraps, stops the scan here.
- Processes.ProcessCpuTime: `strtoull` saturation at 2^64 - 1 and the 1024-byte `fgets` buffer are not modelled.
- Processes.CommName: the 255-character `fgets` limit is not modelled.
- Processes.Poll: the state character comes from `fscanf("%d %255s %c")` and is taken as an input.
- Processes.Poll: the table is built on the corrected extractor `Processes.ProcessCpuTime` (utime + stime). The program as written stores cutime + cstime (`Processes.ProcessCpuTimeAsWritten`), so its CPU column shows the time of waited-for children, which is 0 for most processes. The as-written table is not modelled; see Findings.
- Processes.NewRecord: the new baseline is the corrected extractor's utime + stime, not the cutime + cstime the program stores (see Processes.Poll).
- Processes.PollShownPercent: the CPU share is computed from the corrected extractor's ticks, not from the cutime + cstime deltas the program as written shows (see Processes.Poll).
- Processes.AfterName: when the last ')' is the final character of the line read (a line without a newline, or `fgets` stopping at 1023 bytes just after a ')'), processes.cpp:85 points one byte past the terminating NUL and `strtok_r` reads uninitialised bytes, which is undefined behaviour. The model returns the empty text there, so the line yields 0 ticks.
- Processes.TokenValue: `strtoull` also accepts a leading '+' or '-', and "-n" wraps to 2^64 - n. The model reads unsigned digits only, so a signed token reads as 0. The kernel never writes a sign in the fields that are summed.
- Processes.VmRssKbFirstMatch: `%lu` also accepts a leading sign, which wraps; the model does not accept one, so such a line is not matched.
- Cpu.ParseCpuLine: `>>` into the `CPUStats` fields (their types are in header.h) would accept a leading sign; the model reads unsigned counters, and the kernel writes none.
- Fan.FindFanInput and Fan.Discover: when /sys/class/hwmon or a device directory cannot be opened, `fs::directory_iterator` throws `filesystem_error`, nothing catches it, and the program terminates. The model takes the listing as given and does not model that termination.
- Thermals.FindThermalSensorPath: the same uncaught `filesystem_error` when /sys/class/thermal or /sys/class/hwmon cannot be opened is not modelled.
- Cpu.LinuxStep: the `long long` sums and deltas are unbounded; overflow at 2^63 is not modelled. The `CPUStats` field types live in header.h.
- NetDev.NetCounters: counters are unbounded naturals. A value above 2^64 - 1, which sets `failbit`, is not modelled. Nor is a leading sign, which `>>` into `unsigned long long` accepts and wraps.
- Memory.MacMemoryUsage: the product of the wrapped page count and the page size is not wrapped at 2^63, since it stays below 2^32 times the page size.
- System.GetTaskStats: the Windows process snapshot is modelled only as its length (`System.WindowsTaskStats`).
- System.LinuxCpuName: the `std::out_of_range` exception is `None`; what the caller does with it is not modelled.
- Memory.MeminfoEntry: the uninitialised `long value` read when a line ends before the number is an explicit `unset` parameter.
- NetDev.ReadNetworkStats: `std::map` orders its keys and is drawn in that order. The model is a Dafny `map`, which has no order.

## Findings

| source | as written | input that shows it | evidently intended | confidence | as-written member | corrected member |
|---|---|---|---|---|---|---|
| processes.cpp:86 | `utimeIndex = 13, stimeIndex = 14`, counted from the state field after the name, read proc(5) fields 16 and 17 (cutime, cstime) | a stat line with utime 500, stime 300 and no waited-for children: 0 ticks instead of 800 (`Processes.AsWrittenMissesOwnTicks`) | tokens 11 and 12 after the name: utime and stime of the process itself | not executed | Processes.ProcessCpuTimeAsWritten | Processes.ProcessCpuTime |
