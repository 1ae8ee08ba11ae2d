/** The per-process table of processes.cpp: the text extractors that feed
    it (`readTotalCpuTime`, `readProcessCpuTime`, the comm name and the
    VmRSS percentage), the sampling gate, the case-insensitive filter, the
    CPU-share formula, the record and selection updates of one table
    pass, and the baseline commit that follows the pass.

    The C++ statics `processesCpuData`, `selectedPids`, `lastTotalCpu` and
    `lastSampleTime` become the immutable `Table`; one call of
    `renderProcessesWindow` becomes `Poll`. */
module Processes {
  import opened Common
  import opened Text
  import opened ProcStat

  // ---------------------------------------------------------------
  // /proc/stat: the system-wide tick total
  // ---------------------------------------------------------------

  /** `readTotalCpuTime`: the first line of /proc/stat (None when the file
      cannot be opened or is empty) matched against
      `"cpu  %llu %llu %llu %llu %llu %llu %llu %llu"`. */
  function TotalCpuTime(firstLine: Option<string>): (r: nat)
    ensures firstLine.None? ==> r == 0
    ensures firstLine.Some? && !IsPrefix("cpu", firstLine.value) ==> r == 0
    ensures (firstLine.Some? && IsPrefix("cpu", firstLine.value)
             && |ScanNats(firstLine.value[3..], 8)| < 8) ==> r == 0
  {
    match firstLine
    case None => 0
    case Some(line) =>
      if !IsPrefix("cpu", line) then 0
      else
        var xs := ScanNats(line[3..], 8);
        if |xs| == 8 then Sum(xs) else 0
  }

  /** Reading back an aggregate line with at least eight counters yields
      the sum of the first eight (user .. steal); any counters after the
      eighth (guest, guest_nice) are ignored. */
  lemma TotalCpuTimeOfCpuLine(fields: seq<nat>)
    requires |fields| >= 8
    ensures TotalCpuTime(Some(CpuLine(fields))) == Sum(fields[..8])
  {
    var line := CpuLine(fields);
    var j := Join(DecimalStrings(fields), ' ');
    assert IsPrefix("cpu", line);
    assert line[3..] == "  " + j;
    ScanNatsOfSpacedJoin("  ", fields, 8);
  }

  // ---------------------------------------------------------------
  // /proc/[pid]/stat: the process's CPU ticks
  // ---------------------------------------------------------------

  /** The text `strtok_r` starts from: two characters after the LAST ')',
      or None when '(' or ')' is missing or the last ')' is not after the
      first '('. When the ')' is the final character, processes.cpp
      starts one byte past the string's terminator, which is undefined;
      the model chooses the empty text there, so the line gives 0 ticks. */
  function AfterName(line: string): (r: Option<string>)
    ensures r.None? <==> ('(' !in line || ')' !in line
                          || LastIndexOf(line, ')') <= IndexOf(line, '('))
    ensures r.Some? ==> |r.value| <= |line|
    ensures r.Some? ==> var close := LastIndexOf(line, ')');
              && (close + 2 <= |line| ==> r.value == line[close + 2..])
              && (close + 2 > |line| ==> r.value == "")
  {
    var open := IndexOf(line, '(');
    var close := LastIndexOf(line, ')');
    if open < 0 || close < 0 || close <= open then None
    else if close + 2 <= |line| then Some(line[close + 2..])
    else Some("")
  }

  /** `strtoull(token, nullptr, 10)`: leading whitespace, then digits; 0
      when there are none. */
  function TokenValue(t: string): (v: nat)
    ensures !ScanNat(t).Number? ==> v == 0
    ensures ScanNat(t).Number? ==> v == ScanNat(t).value
  {
    match ScanNat(t)
    case Number(x, _) => x as nat
    case _ => 0
  }

  /** Sum of the space-separated tokens `i` and `j` after the name, each 0
      when the line is too short to have it. */
  function TicksAt(line: Option<string>, i: nat, j: nat): nat {
    match line
    case None => 0
    case Some(l) =>
      match AfterName(l)
      case None => 0
      case Some(rest) =>
        var ts := Tokens(rest, ' ');
        (if i < |ts| then TokenValue(ts[i]) else 0) + (if j < |ts| then TokenValue(ts[j]) else 0)
  }

  /** `readProcessCpuTime` as written: tokens 13 and 14 counted from the
      state field, i.e. fields 16 and 17 of the proc(5) numbering
      (cutime and cstime: CPU time of waited-for children). */
  function ProcessCpuTimeAsWritten(line: Option<string>): (r: nat)
    ensures line.None? ==> r == 0
    ensures line.Some? && AfterName(line.value).None? ==> r == 0
  {
    TicksAt(line, 13, 14)
  }

  /** `readProcessCpuTime` as its variable names intend: tokens 11 and 12
      counted from the state field, i.e. proc(5) fields 14 and 15 (utime
      and stime of the process itself). The process table uses this one. */
  function ProcessCpuTime(line: Option<string>): (r: nat)
    ensures line.None? ==> r == 0
    ensures line.Some? && AfterName(line.value).None? ==> r == 0
  {
    TicksAt(line, 11, 12)
  }

  /** A /proc/[pid]/stat line: pid, the command name in parentheses (it
      may itself contain spaces and parentheses), the one-letter state,
      then the fields from proc(5) field 4 (ppid) on, as the kernel writes
      them; `fields[k]` is proc(5) field k + 4. Some of them are signed
      (tpgid is -1 without a controlling terminal), and the last one ends
      with the newline. */
  function StatLine(pid: nat, comm: string, state: char, fields: seq<string>): string {
    DecimalString(pid) + " (" + comm + ") " + Join([[state]] + fields, ' ')
  }

  /** What the kernel's fields after the name look like: a state that is
      neither a blank nor ')', and non-empty fields with neither. */
  predicate StatFields(state: char, fields: seq<string>) {
    && state != ' ' && state != ')'
    && forall i :: 0 <= i < |fields| ==> IsField(fields[i], ' ') && ')' !in fields[i]
  }

  /** The tokens after the name in a `StatLine`. */
  lemma AfterNameOfStatLine(pid: nat, comm: string, state: char, fields: seq<string>)
    requires StatFields(state, fields)
    ensures AfterName(StatLine(pid, comm, state, fields)) == Some(Join([[state]] + fields, ' '))
  {
    var p := DecimalString(pid);
    var ts := [[state]] + fields;
    var tail := Join(ts, ' ');
    var line := StatLine(pid, comm, state, fields);
    assert line == p + " (" + comm + ") " + tail;
    var open := |p| + 1;
    var close := |p| + 2 + |comm|;
    assert line[open] == '(';
    assert forall k :: 0 <= k < open ==> line[k] != '(' by {
      assert forall k :: 0 <= k < |p| ==> line[k] == p[k];
    }
    assert line[close] == ')';
    NoCloseInTail(state, fields);
    assert forall k :: close < k < |line| ==> line[k] != ')' by {
      assert forall k :: close + 2 <= k < |line| ==> line[k] == tail[k - close - 2];
    }
    assert line[close + 2..] == tail;
  }

  lemma NoCloseInTail(state: char, fields: seq<string>)
    requires StatFields(state, fields)
    ensures ')' !in Join([[state]] + fields, ' ')
  {
    var ts := [[state]] + fields;
    assert forall i :: 0 < i < |ts| ==> ts[i] == fields[i - 1];
    CharNotInJoin(ts, ' ', ')');
  }

  /** A character that is neither the separator nor in any field is not
      in the joined text. */
  lemma {:induction false} CharNotInJoin(ts: seq<string>, sep: char, c: char)
    requires c != sep && forall i :: 0 <= i < |ts| ==> c !in ts[i]
    ensures c !in Join(ts, sep)
    decreases |ts|
  {
    if |ts| > 1 {
      CharNotInJoin(ts[1..], sep, c);
      JoinCons(ts, sep);
    }
  }

  /** The token list after the name is the state followed by the fields. */
  lemma TokensOfStatLine(pid: nat, comm: string, state: char, fields: seq<string>)
    requires StatFields(state, fields)
    ensures AfterName(StatLine(pid, comm, state, fields)).Some?
    ensures Tokens(AfterName(StatLine(pid, comm, state, fields)).value, ' ') == [[state]] + fields
  {
    AfterNameOfStatLine(pid, comm, state, fields);
    var ts := [[state]] + fields;
    assert forall i :: 0 < i < |ts| ==> ts[i] == fields[i - 1];
    TokensOfJoin(ts, ' ');
  }

  lemma TokenValueOfDecimal(n: nat)
    ensures TokenValue(DecimalString(n)) == n
  {
    ScanNatOfDecimal(n, "");
    assert DecimalString(n) + "" == DecimalString(n);
  }

  /** The corrected extractor returns utime + stime (proc(5) fields 14 and
      15) of any well-formed stat line, whatever the command name and the
      other fields hold. */
  lemma ProcessCpuTimeReadsUtimeStime(pid: nat, comm: string, state: char, fields: seq<string>, utime: nat, stime: nat)
    requires StatFields(state, fields)
    requires |fields| >= 12 && fields[10] == DecimalString(utime) && fields[11] == DecimalString(stime)
    ensures ProcessCpuTime(Some(StatLine(pid, comm, state, fields))) == utime + stime
  {
    TokensOfStatLine(pid, comm, state, fields);
    var ts := [[state]] + fields;
    assert ts[11] == fields[10] && ts[12] == fields[11];
    TokenValueOfDecimal(utime);
    TokenValueOfDecimal(stime);
  }

  /** The extractor as written returns cutime + cstime (proc(5) fields 16
      and 17) of a well-formed stat line. */
  lemma ProcessCpuTimeAsWrittenReadsChildTimes(pid: nat, comm: string, state: char, fields: seq<string>, cutime: nat, cstime: nat)
    requires StatFields(state, fields)
    requires |fields| >= 14 && fields[12] == DecimalString(cutime) && fields[13] == DecimalString(cstime)
    ensures ProcessCpuTimeAsWritten(Some(StatLine(pid, comm, state, fields))) == cutime + cstime
  {
    TokensOfStatLine(pid, comm, state, fields);
    var ts := [[state]] + fields;
    assert ts[13] == fields[12] && ts[14] == fields[13];
    TokenValueOfDecimal(cutime);
    TokenValueOfDecimal(cstime);
  }

  /** The fields of a process without a controlling terminal (tpgid -1)
      that has used 500 + 300 ticks itself and has no waited-for
      children. */
  function InitFields(): seq<string> {
    ["0", "1", "1", "0", "-1", "4194560", "0", "0", "0", "0", "500", "300", "0", "0"]
  }

  lemma InitFieldsWellFormed()
    ensures StatFields('S', InitFields())
  {
    var fs := InitFields();
    forall i | 0 <= i < |fs|
      ensures IsField(fs[i], ' ') && ')' !in fs[i]
    {
    }
  }

  lemma InitFieldsTicks()
    ensures |InitFields()| == 14
    ensures InitFields()[10] == DecimalString(500) && InitFields()[11] == DecimalString(300)
    ensures InitFields()[12] == DecimalString(0) && InitFields()[13] == DecimalString(0)
  {
  }

  /** For such a process the extractor as written reports 0 ticks, the
      corrected one 800. */
  lemma AsWrittenMissesOwnTicks()
    ensures var line := StatLine(1, "init", 'S', InitFields());
            ProcessCpuTimeAsWritten(Some(line)) == 0 && ProcessCpuTime(Some(line)) == 800
  {
    InitFieldsWellFormed();
    InitFieldsTicks();
    ProcessCpuTimeReadsUtimeStime(1, "init", 'S', InitFields(), 500, 300);
    ProcessCpuTimeAsWrittenReadsChildTimes(1, "init", 'S', InitFields(), 0, 0);
  }

  // ---------------------------------------------------------------
  // /proc/[pid]/comm and /proc/[pid]/status
  // ---------------------------------------------------------------

  /** The displayed name: the comm file's first line without its newline;
      "unknown" when the file cannot be opened or is empty. */
  function CommName(comm: Option<string>): (name: string)
    ensures comm.None? || comm == Some("") ==> name == "unknown"
    ensures comm.Some? && |comm.value| > 0 ==>
              IsPrefix(name, comm.value) && '\n' !in name
              && (|name| == |comm.value| || comm.value[|name|] == '\n')
  {
    match comm
    case None => "unknown"
    case Some(c) =>
      if |c| == 0 then "unknown"
      else
        var k := IndexOf(c, '\n');
        if k < 0 then c else c[..k]
  }

  /** A status line accepted by `sscanf(line, "VmRSS: %lu kB", &vmrss) == 1`. */
  predicate IsVmRssLine(line: string) {
    IsPrefix("VmRSS:", line) && ScanNat(line[6..]).Number?
  }

  /** The VmRSS value (kB) of the first accepted status line, or 0. */
  function VmRssKb(lines: seq<string>): nat {
    if |lines| == 0 then 0
    else if IsVmRssLine(lines[0]) then ScanNat(lines[0][6..]).value as nat
    else VmRssKb(lines[1..])
  }

  /** The scan stops at the first accepted line. */
  lemma {:induction false} VmRssKbFirstMatch(lines: seq<string>, i: nat)
    requires i < |lines| && IsVmRssLine(lines[i])
    requires forall j :: 0 <= j < i ==> !IsVmRssLine(lines[j])
    ensures VmRssKb(lines) == ScanNat(lines[i][6..]).value
  {
    if i > 0 {
      assert !IsVmRssLine(lines[0]);
      assert lines[1..][i - 1] == lines[i];
      forall j | 0 <= j < i - 1
        ensures !IsVmRssLine(lines[1..][j])
      {
        assert lines[1..][j] == lines[j + 1];
      }
      VmRssKbFirstMatch(lines[1..], i - 1);
    }
  }

  /** Without an accepted line the resident size reads as 0. */
  lemma {:induction false} VmRssKbNoMatch(lines: seq<string>)
    requires forall j :: 0 <= j < |lines| ==> !IsVmRssLine(lines[j])
    ensures VmRssKb(lines) == 0
  {
    if |lines| > 0 {
      assert !IsVmRssLine(lines[0]);
      forall j | 0 <= j < |lines| - 1
        ensures !IsVmRssLine(lines[1..][j])
      {
        assert lines[1..][j] == lines[j + 1];
      }
      VmRssKbNoMatch(lines[1..]);
    }
  }

  lemma QuotientTimesDivisor(x: real, y: real)
    requires x >= 0.0 && y > 0.0
    ensures x / y >= 0.0 && (x / y) * y == x
  {
  }

  /** `part * 100.0 / whole` guarded against a non-positive whole. */
  function PercentOf(part: nat, whole: int): (r: real)
    ensures r >= 0.0
    ensures whole <= 0 ==> r == 0.0
    ensures whole > 0 ==> r * whole as real == part as real * 100.0
  {
    if whole > 0 then
      QuotientTimesDivisor(part as real * 100.0, whole as real);
      part as real * 100.0 / whole as real
    else 0.0
  }

  /** `readProcessMemoryPercent`: resident memory as a percentage of
      physical memory, with 0 when the status file cannot be opened or
      the total is not positive. */
  function MemoryPercent(status: Option<seq<string>>, totalMemKb: int): (r: real)
    ensures r >= 0.0
    ensures status.None? || totalMemKb <= 0 ==> r == 0.0
    ensures status.Some? ==> r == PercentOf(VmRssKb(status.value), totalMemKb)
  {
    if status.Some? then PercentOf(VmRssKb(status.value), totalMemKb) else 0.0
  }

  // ---------------------------------------------------------------
  // Filter, gate, CPU share, selection
  // ---------------------------------------------------------------

  /** The filter test of the table pass: the lowercased filter is empty,
      or it occurs in the lowercased name or in the decimal pid. */
  function Admits(filter: string, name: string, pid: nat): (b: bool)
    ensures filter == "" ==> b
  {
    var f := ToLower(filter);
    |f| == 0 || Contains(ToLower(name), f) || Contains(DecimalString(pid), f)
  }

  /** A non-empty filter admits a row exactly when, ignoring letter case,
      it occurs at some position of the name or of the decimal pid. */
  lemma AdmitsIffOccurs(filter: string, name: string, pid: nat)
    requires filter != ""
    ensures Admits(filter, name, pid) <==>
              (exists i :: OccursAt(ToLower(name), ToLower(filter), i))
              || (exists i :: OccursAt(DecimalString(pid), ToLower(filter), i))
  {
    var f := ToLower(filter);
    assert |f| > 0;
    assert Admits(filter, name, pid) == (Contains(ToLower(name), f) || Contains(DecimalString(pid), f));
    ContainsIffOccurs(ToLower(name), f);
    ContainsIffOccurs(DecimalString(pid), f);
  }

  /** Digits are unchanged by lowering. */
  lemma LowerOfDigits(s: string)
    requires AllDigits(s)
    ensures ToLower(s) == s
  {
  }

  /** Typing a process's own pid as the filter shows that process. */
  lemma PidFilterAdmits(name: string, pid: nat)
    ensures Admits(DecimalString(pid), name, pid)
  {
    var p := DecimalString(pid);
    LowerOfDigits(p);
    assert OccursAt(p, ToLower(p), 0);
    AdmitsIffOccurs(p, name, pid);
  }

  /** Typing a process's name, in any letter case, as the filter shows
      that process. */
  lemma NameFilterAdmits(name: string, pid: nat, filter: string)
    requires ToLower(filter) == ToLower(name)
    ensures Admits(filter, name, pid)
  {
    if filter != "" {
      assert OccursAt(ToLower(name), ToLower(filter), 0);
      AdmitsIffOccurs(filter, name, pid);
    }
  }

  /** The 0.5 s rate gate: a previous sample exists and at least half a
      second has passed since it. */
  predicate CanCalculate(lastSampleTime: real, now: real) {
    lastSampleTime > 0.0 && now - lastSampleTime >= 0.5
  }

  /** `(part / whole) * 100 * c` for a positive whole. */
  function ScaledShare(part: nat, whole: nat, c: int): (r: real)
    requires whole > 0
    ensures r * whole as real == part as real * 100.0 * c as real
    ensures c >= 0 ==> r >= 0.0
    ensures c >= 0 && part <= whole ==> r <= 100.0 * c as real
  {
    var s := part as real / whole as real;
    ShareBounds(part as real, whole as real, c as real);
    s * 100.0 * c as real
  }

  lemma ShareBounds(part: real, whole: real, c: real)
    requires part >= 0.0 && whole > 0.0
    ensures (part / whole) * 100.0 * c * whole == part * 100.0 * c
    ensures c >= 0.0 ==> (part / whole) * 100.0 * c >= 0.0
    ensures c >= 0.0 && part <= whole ==> (part / whole) * 100.0 * c <= 100.0 * c
  {
    var s := part / whole;
    assert s * whole == part;
    assert s >= 0.0;
    if part <= whole {
      assert s <= 1.0;
    }
    if c >= 0.0 {
      assert s * 100.0 >= 0.0;
      assert s * 100.0 * c >= 0.0;
      if part <= whole {
        assert s * 100.0 <= 100.0;
        assert s * 100.0 * c <= 100.0 * c;
      }
    }
  }

  /** The CPU share of one process over the interval: its tick delta over
      the system tick delta, times 100 and the number of online CPUs; 0
      when the gate is closed, the process counter went backwards or the
      system counter did not advance. */
  function CpuPercent(canCalculate: bool, curr: nat, last: nat, total: nat, lastTotal: nat,
                      cpuCount: int): (r: real)
    ensures !canCalculate || curr < last || total <= lastTotal ==> r == 0.0
    ensures canCalculate && curr >= last && total > lastTotal ==>
              r * (total - lastTotal) as real == (curr - last) as real * 100.0 * cpuCount as real
    ensures cpuCount >= 0 ==> r >= 0.0
    ensures cpuCount >= 0 && curr - last <= total - lastTotal ==> r <= 100.0 * cpuCount as real
  {
    if canCalculate && curr >= last && total > lastTotal then
      ScaledShare(curr - last, total - lastTotal, cpuCount)
    else 0.0
  }

  /** Clicking a row flips that pid's membership and no other. */
  function Toggle(selected: set<nat>, pid: nat, clicked: bool): (r: set<nat>)
    ensures pid in r <==> (pid in selected) != clicked
    ensures forall q :: q != pid ==> (q in r <==> q in selected)
  {
    if !clicked then selected
    else if pid in selected then selected - {pid}
    else selected + {pid}
  }

  // ---------------------------------------------------------------
  // The table and one pass over /proc
  // ---------------------------------------------------------------


  /** `ProcInfo`; `lastCpuTime` is the baseline the next delta uses. */
  datatype ProcInfo = ProcInfo(name: string, state: char, lastCpuTime: nat,
                               cpuPercent: real, memPercent: real)

  /** The process-table statics. A pid absent from `procs` behaves as a
      default-constructed `ProcInfo` (baseline 0). */
  datatype Table = Table(procs: map<nat, ProcInfo>, selected: set<nat>,
                         lastTotalCpu: nat, lastSampleTime: real)

  const Initial := Table(map[], {}, 0, 0.0)

  /** One /proc directory entry as read this frame: its name and whether
      it is a directory, the comm file, the state character `fscanf`
      found ('?' when the stat file could not be opened), the stat line,
      the status file's lines, and whether its row was clicked. */
  datatype ProcEntry = ProcEntry(name: string, isDir: bool, comm: Option<string>, state: char,
                                 stat: Option<string>, status: Option<seq<string>>,
                                 clicked: bool)

  /** Only directories whose names are all digits are processes. */
  predicate Numeric(e: ProcEntry) {
    e.isDir && AllDigits(e.name)
  }

  /** `atoi` of an all-digit name. */
  function Pid(e: ProcEntry): nat {
    if AllDigits(e.name) then DigitsValue(e.name) else 0
  }

  /** What stays fixed during one pass. */
  datatype PassContext = PassContext(filter: string, canCalculate: bool, totalCpu: nat,
                                     cpuCount: int, totalMemKb: int)

  /** The entry is a process and the filter admits it. */
  predicate Shown(ctx: PassContext, e: ProcEntry) {
    Numeric(e) && Admits(ctx.filter, CommName(e.comm), Pid(e))
  }

  /** The baseline a pid is differenced against: its stored `lastCpuTime`,
      or the default 0 for a pid never stored. */
  function Baseline(procs: map<nat, ProcInfo>, pid: nat): (b: nat)
    ensures pid !in procs ==> b == 0
    ensures pid in procs ==> b == procs[pid].lastCpuTime
  {
    if pid in procs then procs[pid].lastCpuTime else 0
  }

  /** The record written for a shown row, given the pid's old baseline and
      the system total of the previous frame. */
  function NewRecord(baseline: nat, lastTotalCpu: nat, ctx: PassContext, e: ProcEntry): (p: ProcInfo)
    ensures p.name == CommName(e.comm) && p.state == e.state
    ensures p.lastCpuTime == ProcessCpuTime(e.stat)
    ensures p.memPercent == MemoryPercent(e.status, ctx.totalMemKb)
    ensures p.cpuPercent == CpuPercent(ctx.canCalculate, ProcessCpuTime(e.stat), baseline,
                                       ctx.totalCpu, lastTotalCpu, ctx.cpuCount)
  {
    var curr := ProcessCpuTime(e.stat);
    ProcInfo(CommName(e.comm), e.state, curr,
             CpuPercent(ctx.canCalculate, curr, baseline, ctx.totalCpu, lastTotalCpu, ctx.cpuCount),
             MemoryPercent(e.status, ctx.totalMemKb))
  }

  /** One iteration of the table loop: an entry that is not a process or
      that the filter rejects is skipped without touching the map; a shown
      row overwrites its record (the delta taken against the old baseline)
      and may toggle its selection. */
  function VisitRow(t: Table, ctx: PassContext, e: ProcEntry): (r: Table)
    ensures r.lastTotalCpu == t.lastTotalCpu && r.lastSampleTime == t.lastSampleTime
    ensures !Shown(ctx, e) ==> r == t
    ensures Shown(ctx, e) ==>
              (Pid(e) in r.procs
               && r.procs[Pid(e)] == NewRecord(Baseline(t.procs, Pid(e)), t.lastTotalCpu, ctx, e)
               && r.selected == Toggle(t.selected, Pid(e), e.clicked))
    ensures r.procs.Keys == t.procs.Keys + (if Shown(ctx, e) then {Pid(e)} else {})
    ensures forall q :: q != Pid(e) && q in t.procs ==> r.procs[q] == t.procs[q]
  {
    if !Shown(ctx, e) then t
    else
      var rec := NewRecord(Baseline(t.procs, Pid(e)), t.lastTotalCpu, ctx, e);
      Table(t.procs[Pid(e) := rec], Toggle(t.selected, Pid(e), e.clicked),
            t.lastTotalCpu, t.lastSampleTime)
  }

  /** The whole table loop over the entries in directory order. */
  function Pass(t: Table, ctx: PassContext, es: seq<ProcEntry>): (r: Table)
    ensures r.lastTotalCpu == t.lastTotalCpu && r.lastSampleTime == t.lastSampleTime
    decreases |es|
  {
    if |es| == 0 then t else Pass(VisitRow(t, ctx, es[0]), ctx, es[1..])
  }

  /** The pids the pass shows. */
  function ShownPids(ctx: PassContext, es: seq<ProcEntry>): set<nat> {
    set i | 0 <= i < |es| && Shown(ctx, es[i]) :: Pid(es[i])
  }

  /** No two process entries carry the same pid. */
  predicate DistinctPids(es: seq<ProcEntry>) {
    forall i, j :: 0 <= i < j < |es| && Numeric(es[i]) && Numeric(es[j]) ==> Pid(es[i]) != Pid(es[j])
  }

  /** No entry carrying pid `q` is shown. */
  predicate Unshown(ctx: PassContext, es: seq<ProcEntry>, q: nat) {
    forall i :: 0 <= i < |es| && Pid(es[i]) == q ==> !Shown(ctx, es[i])
  }

  lemma ShownPidsCons(ctx: PassContext, es: seq<ProcEntry>)
    requires |es| > 0
    ensures ShownPids(ctx, es)
            == (if Shown(ctx, es[0]) then {Pid(es[0])} else {}) + ShownPids(ctx, es[1..])
  {
    var head := if Shown(ctx, es[0]) then {Pid(es[0])} else {};
    forall p | p in ShownPids(ctx, es)
      ensures p in head + ShownPids(ctx, es[1..])
    {
      var i :| 0 <= i < |es| && Shown(ctx, es[i]) && Pid(es[i]) == p;
      if i > 0 {
        assert es[1..][i - 1] == es[i];
      }
    }
    forall p | p in ShownPids(ctx, es[1..])
      ensures p in ShownPids(ctx, es)
    {
      var i :| 0 <= i < |es[1..]| && Shown(ctx, es[1..][i]) && Pid(es[1..][i]) == p;
      assert es[i + 1] == es[1..][i];
    }
  }

  lemma UnshownTail(ctx: PassContext, es: seq<ProcEntry>, q: nat)
    requires |es| > 0 && Unshown(ctx, es, q)
    ensures Unshown(ctx, es[1..], q)
  {
    forall i | 0 <= i < |es[1..]| && Pid(es[1..][i]) == q
      ensures !Shown(ctx, es[1..][i])
    {
      assert es[1..][i] == es[i + 1];
    }
  }

  lemma DistinctTail(es: seq<ProcEntry>)
    requires |es| > 0 && DistinctPids(es)
    ensures DistinctPids(es[1..])
  {
    forall a, b | 0 <= a < b < |es[1..]| && Numeric(es[1..][a]) && Numeric(es[1..][b])
      ensures Pid(es[1..][a]) != Pid(es[1..][b])
    {
      assert es[1..][a] == es[a + 1] && es[1..][b] == es[b + 1];
    }
  }

  /** With distinct pids, the head's pid is shown by no later entry. */
  lemma DistinctHead(ctx: PassContext, es: seq<ProcEntry>)
    requires |es| > 0 && DistinctPids(es) && Numeric(es[0])
    ensures Unshown(ctx, es[1..], Pid(es[0]))
  {
    forall i | 0 <= i < |es[1..]| && Pid(es[1..][i]) == Pid(es[0])
      ensures !Shown(ctx, es[1..][i])
    {
      assert es[1..][i] == es[i + 1];
    }
  }

  /** The pass only adds keys: the map gains exactly the shown pids and
      never loses one. */
  lemma {:induction false} PassKeys(t: Table, ctx: PassContext, es: seq<ProcEntry>)
    ensures Pass(t, ctx, es).procs.Keys == t.procs.Keys + ShownPids(ctx, es)
    decreases |es|
  {
    if |es| > 0 {
      PassKeys(VisitRow(t, ctx, es[0]), ctx, es[1..]);
      ShownPidsCons(ctx, es);
    }
  }

  /** A pid that no shown row carries keeps its record, its presence or
      absence in the map, and its selection state: filtered-out and
      vanished processes are neither updated nor evicted. */
  lemma {:induction false} PassLeavesOthers(t: Table, ctx: PassContext, es: seq<ProcEntry>, q: nat)
    requires Unshown(ctx, es, q)
    ensures q in Pass(t, ctx, es).procs <==> q in t.procs
    ensures q in t.procs ==> Pass(t, ctx, es).procs[q] == t.procs[q]
    ensures q in Pass(t, ctx, es).selected <==> q in t.selected
    decreases |es|
  {
    if |es| > 0 {
      UnshownTail(ctx, es, q);
      PassLeavesOthers(VisitRow(t, ctx, es[0]), ctx, es[1..], q);
    }
  }

  /** With distinct pids, every shown row ends the pass holding the record
      computed against the baseline the pid had BEFORE the pass (0 for a
      never-seen pid), and its selection is toggled iff it was clicked. */
  lemma {:induction false} PassUpdatesShown(t: Table, ctx: PassContext, es: seq<ProcEntry>, i: nat)
    requires DistinctPids(es) && i < |es| && Shown(ctx, es[i])
    ensures Pid(es[i]) in Pass(t, ctx, es).procs
    ensures Pass(t, ctx, es).procs[Pid(es[i])]
            == NewRecord(Baseline(t.procs, Pid(es[i])), t.lastTotalCpu, ctx, es[i])
    ensures Pid(es[i]) in Pass(t, ctx, es).selected <==> (Pid(es[i]) in t.selected) != es[i].clicked
    decreases |es|
  {
    var t1 := VisitRow(t, ctx, es[0]);
    if i == 0 {
      DistinctHead(ctx, es);
      PassLeavesOthers(t1, ctx, es[1..], Pid(es[0]));
    } else {
      assert es[1..][i - 1] == es[i];
      DistinctTail(es);
      PassUpdatesShown(t1, ctx, es[1..], i - 1);
      if Shown(ctx, es[0]) {
        assert Pid(es[0]) != Pid(es[i]);
      }
      assert Baseline(t1.procs, Pid(es[i])) == Baseline(t.procs, Pid(es[i]));
    }
  }

  /** `Pass` with its key growth exposed to callers. */
  function PassAll(t: Table, ctx: PassContext, es: seq<ProcEntry>): (r: Table)
    ensures r == Pass(t, ctx, es)
    ensures r.procs.Keys == t.procs.Keys + ShownPids(ctx, es)
  {
    PassKeys(t, ctx, es);
    Pass(t, ctx, es)
  }

  // ---------------------------------------------------------------
  // One frame of the process window
  // ---------------------------------------------------------------

  /** Everything one call of `renderProcessesWindow` reads: whether the
      window is open, the filter text, the first line of /proc/stat, the
      monotonic clock, the online CPU count, physical memory in kB, and
      the /proc entries in directory order (None when the table is not
      drawn this frame or /proc cannot be opened). */
  datatype PollInput = PollInput(windowOpen: bool, filter: string, statFirstLine: Option<string>,
                                 now: real, cpuCount: int, totalMemKb: int,
                                 entries: Option<seq<ProcEntry>>)

  function ContextOf(t: Table, p: PollInput): PassContext {
    PassContext(p.filter, CanCalculate(t.lastSampleTime, p.now),
                TotalCpuTime(p.statFirstLine), p.cpuCount, p.totalMemKb)
  }

  /** One frame: a collapsed window changes nothing; otherwise the pass
      runs against the previous frame's system total, and only afterwards
      are the system total and the sample time committed, whether or not
      the gate was open. */
  function Poll(t: Table, p: PollInput): (r: Table)
    ensures !p.windowOpen ==> r == t
    ensures p.windowOpen ==> r.lastTotalCpu == TotalCpuTime(p.statFirstLine) && r.lastSampleTime == p.now
    ensures t.procs.Keys <= r.procs.Keys
    ensures p.windowOpen && p.entries.Some? ==>
              r.procs.Keys == t.procs.Keys + ShownPids(ContextOf(t, p), p.entries.value)
    ensures p.entries.None? ==> r.procs == t.procs && r.selected == t.selected
  {
    if !p.windowOpen then t
    else
      var ctx := ContextOf(t, p);
      var passed := if p.entries.None? then t else PassAll(t, ctx, p.entries.value);
      passed.(lastTotalCpu := ctx.totalCpu, lastSampleTime := p.now)
  }

  /** Within one frame with distinct pids, every shown process gets the
      CPU share of its tick delta against its old baseline over the system
      delta since the previous frame; when the 0.5 s gate is closed every
      shown process reports 0. */
  lemma PollShownPercent(t: Table, p: PollInput, i: nat)
    requires p.windowOpen && p.entries.Some? && DistinctPids(p.entries.value)
    requires i < |p.entries.value| && Shown(ContextOf(t, p), p.entries.value[i])
    ensures var e := p.entries.value[i];
            var r := Poll(t, p).procs[Pid(e)];
            && r.lastCpuTime == ProcessCpuTime(e.stat)
            && r.cpuPercent == CpuPercent(CanCalculate(t.lastSampleTime, p.now),
                                          ProcessCpuTime(e.stat), Baseline(t.procs, Pid(e)),
                                          TotalCpuTime(p.statFirstLine), t.lastTotalCpu, p.cpuCount)
            && (!CanCalculate(t.lastSampleTime, p.now) ==> r.cpuPercent == 0.0)
  {
    PassUpdatesShown(t, ContextOf(t, p), p.entries.value, i);
  }

  /** A pid that is absent from this frame's listing, or rejected by the
      filter, keeps its stored record untouched (baseline included) and
      its selection state; the next frame that shows it differences
      against that stale baseline. */
  lemma PollLeavesUnshown(t: Table, p: PollInput, q: nat)
    requires p.windowOpen && p.entries.Some? && Unshown(ContextOf(t, p), p.entries.value, q)
    ensures q in Poll(t, p).procs <==> q in t.procs
    ensures q in t.procs ==> Poll(t, p).procs[q] == t.procs[q]
    ensures q in Poll(t, p).selected <==> q in t.selected
  {
    PassLeavesOthers(t, ContextOf(t, p), p.entries.value, q);
  }

  /** The very first frame: no previous sample exists, so every process
      reports 0 % even though each is differenced against a 0 baseline. */
  lemma FirstPollReportsZero(p: PollInput, i: nat)
    requires p.windowOpen && p.entries.Some? && DistinctPids(p.entries.value)
    requires i < |p.entries.value| && Shown(ContextOf(Initial, p), p.entries.value[i])
    ensures Poll(Initial, p).procs[Pid(p.entries.value[i])].cpuPercent == 0.0
  {
    PollShownPercent(Initial, p, i);
  }
}
