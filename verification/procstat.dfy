/** The first line of /proc/stat, read both by the process table and by
    the CPU tab: the word "cpu", then the cumulative tick counters user,
    nice, system, idle, iowait, irq, softirq, steal (and, on newer
    kernels, guest and guest_nice). */
module ProcStat {
  import opened Text

  function Sum(xs: seq<nat>): nat {
    if |xs| == 0 then 0 else xs[0] + Sum(xs[1..])
  }

  /** The aggregate line as the kernel writes it: "cpu", two spaces, then
      the counters in decimal separated by single spaces. */
  function CpuLine(fields: seq<nat>): string {
    "cpu" + "  " + Join(DecimalStrings(fields), ' ')
  }
}
