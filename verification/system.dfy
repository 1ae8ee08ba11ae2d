/** The system tab's readings (system.cpp): the process-state tally of
    `getTaskStats`, the CPU name of `CPUinfo` on Linux, and the user name
    of `getLoggedInUser`. The /proc listing, the stat files, /proc/cpuinfo
    and the environment are parameters. */
module System {
  import opened Common
  import opened Text

  /** `TaskStats`: the number of processes and how many are in each state. */
  datatype TaskStats = TaskStats(total: nat, running: nat, sleeping: nat,
                                 uninterruptible: nat, zombie: nat, stopped: nat)

  const NoTasks := TaskStats(0, 0, 0, 0, 0, 0)

  /** One entry of the /proc listing, in `readdir` order: its name and the
      text of `/proc/<name>/stat`, None when that file cannot be opened. */
  datatype ProcDirEntry = ProcDirEntry(name: string, stat: Option<string>)

  /** An entry is counted as a process when its name starts with a digit. */
  predicate IsPidEntry(e: ProcDirEntry) {
    |e.name| > 0 && IsDigit(e.name[0])
  }

  /** `statFile >> pid >> comm >> state`: the third whitespace-separated
      word; once an extraction fails the later ones leave their strings
      empty, as `NextWord` does at the end of the text. */
  function StateWord(stat: string): (w: string)
    ensures forall i :: 0 <= i < |w| ==> !IsSpace(w[i])
    ensures w == NextWord(NextWord(NextWord(stat).1).1).0
  {
    var (_, afterPid) := NextWord(stat);
    var (_, afterComm) := NextWord(afterPid);
    NextWord(afterComm).0
  }

  /** The counter an entry increments. */
  datatype StateClass = Running | Sleeping | Uninterruptible | Stopped | Zombie | Uncounted

  /** The if-chain of `getTaskStats`, in its order: "D" is met by the
      sleeping test before the test that would count it as uninterruptible,
      so that branch is never taken. */
  function Classify(state: string): (c: StateClass)
    ensures c == Running <==> state == "R"
    ensures c == Sleeping <==> state in {"S", "D", "I", "W"}
    ensures c == Stopped <==> state in {"T", "t"}
    ensures c == Zombie <==> state == "Z"
    ensures c != Uninterruptible
  {
    if state == "R" then Running
    else if state == "S" || state == "D" || state == "I" || state == "W" then Sleeping
    else if state == "D" then Uninterruptible
    else if state == "T" || state == "t" then Stopped
    else if state == "Z" then Zombie
    else Uncounted
  }

  /** The class an entry contributes: a process whose stat file cannot be
      opened contributes to the total only. */
  function EntryClass(e: ProcDirEntry): StateClass {
    if e.stat.None? then Uncounted else Classify(StateWord(e.stat.value))
  }

  /** The number of elements of `xs` that satisfy `p`: the reference the
      tally is checked against. */
  function CountWhere<T>(xs: seq<T>, p: T -> bool): (n: nat)
    ensures n <= |xs|
  {
    if |xs| == 0 then 0
    else CountWhere(xs[..|xs| - 1], p) + (if p(xs[|xs| - 1]) then 1 else 0)
  }

  /** The processes of `es` in class `c`. */
  function CountClass(es: seq<ProcDirEntry>, c: StateClass): nat {
    CountWhere(es, e => IsPidEntry(e) && EntryClass(e) == c)
  }

  /** One pass of the loop body: a process increments the total and at
      most one state counter. */
  function Tally(stats: TaskStats, e: ProcDirEntry): TaskStats {
    if !IsPidEntry(e) then stats
    else
      var t := stats.(total := stats.total + 1);
      match EntryClass(e)
      case Running => t.(running := t.running + 1)
      case Sleeping => t.(sleeping := t.sleeping + 1)
      case Uninterruptible => t.(uninterruptible := t.uninterruptible + 1)
      case Stopped => t.(stopped := t.stopped + 1)
      case Zombie => t.(zombie := t.zombie + 1)
      case Uncounted => t
  }

  /** The counters after the loop has seen `es`. */
  function TallyOf(es: seq<ProcDirEntry>): TaskStats {
    if |es| == 0 then NoTasks else Tally(TallyOf(es[..|es| - 1]), es[|es| - 1])
  }

  /** The tally counts every process, whether or not its stat file opens,
      and each state class among them; nothing is ever uninterruptible, so
      the state counters never add up to more than the total. */
  lemma {:induction false} TallyOfCounts(es: seq<ProcDirEntry>)
    ensures var s := TallyOf(es);
            && s.total == CountWhere(es, IsPidEntry)
            && s.running == CountClass(es, Running)
            && s.sleeping == CountClass(es, Sleeping)
            && s.stopped == CountClass(es, Stopped)
            && s.zombie == CountClass(es, Zombie)
            && s.uninterruptible == 0
            && s.running + s.sleeping + s.stopped + s.zombie <= s.total
  {
    var s := TallyOf(es);
    TallyTotal(es);
    TallyClass(es, Running);
    TallyClass(es, Sleeping);
    TallyClass(es, Stopped);
    TallyClass(es, Zombie);
    NeverUninterruptible(es);
    assert s.running == Counter(s, Running) && s.sleeping == Counter(s, Sleeping);
    assert s.stopped == Counter(s, Stopped) && s.zombie == Counter(s, Zombie);
    ClassesWithinTotal(es);
  }

  /** The state counter of class `c`; the total stands in for `Uncounted`. */
  function Counter(s: TaskStats, c: StateClass): nat {
    match c
    case Running => s.running
    case Sleeping => s.sleeping
    case Uninterruptible => s.uninterruptible
    case Stopped => s.stopped
    case Zombie => s.zombie
    case Uncounted => s.total
  }

  lemma {:induction false} TallyTotal(es: seq<ProcDirEntry>)
    ensures TallyOf(es).total == CountWhere(es, IsPidEntry)
  {
    if |es| > 0 {
      var init, e := es[..|es| - 1], es[|es| - 1];
      TallyTotal(init);
      assert TallyOf(es) == Tally(TallyOf(init), e);
      TotalStep(TallyOf(init), e);
      assert CountWhere(es, IsPidEntry) == CountWhere(init, IsPidEntry) + (if IsPidEntry(e) then 1 else 0);
    }
  }

  /** One pass counts the entry in the total exactly when it is a
      process. */
  lemma TotalStep(s: TaskStats, e: ProcDirEntry)
    ensures Tally(s, e).total == s.total + (if IsPidEntry(e) then 1 else 0)
  {
  }

  /** The uninterruptible counter stays at 0. */
  lemma {:induction false} NeverUninterruptible(es: seq<ProcDirEntry>)
    ensures TallyOf(es).uninterruptible == 0
  {
    if |es| > 0 {
      NeverUninterruptible(es[..|es| - 1]);
      TallyStep(TallyOf(es[..|es| - 1]), es[|es| - 1], Uninterruptible);
    }
  }

  /** A state counter counts the processes of its class. */
  lemma {:induction false} TallyClass(es: seq<ProcDirEntry>, c: StateClass)
    requires c != Uncounted
    ensures Counter(TallyOf(es), c) == CountClass(es, c)
  {
    if |es| > 0 {
      var init, e := es[..|es| - 1], es[|es| - 1];
      TallyClass(init, c);
      TallyStep(TallyOf(init), e, c);
      assert CountClass(es, c) == CountClass(init, c) + (if IsPidEntry(e) && EntryClass(e) == c then 1 else 0);
    }
  }

  /** One pass adds one to the counter of the entry's class and nothing
      to the others. */
  lemma TallyStep(s: TaskStats, e: ProcDirEntry, c: StateClass)
    requires c != Uncounted
    ensures Counter(Tally(s, e), c) == Counter(s, c) + (if IsPidEntry(e) && EntryClass(e) == c then 1 else 0)
  {
  }

  /** One pass adds to at most one state counter, and then also to the
      total. */
  lemma {:induction false} ClassesWithinTotal(es: seq<ProcDirEntry>)
    ensures var s := TallyOf(es);
            s.running + s.sleeping + s.uninterruptible + s.stopped + s.zombie <= s.total
  {
    if |es| > 0 {
      ClassesWithinTotal(es[..|es| - 1]);
      assert TallyOf(es) == Tally(TallyOf(es[..|es| - 1]), es[|es| - 1]);
    }
  }

  /** `getTaskStats` on Linux and macOS. `listing` is None when /proc
      cannot be opened, which returns all zeros. */
  method GetTaskStats(listing: Option<seq<ProcDirEntry>>) returns (stats: TaskStats)
    ensures listing.None? ==> stats == NoTasks
    ensures listing.Some? ==>
              && stats.total == CountWhere(listing.value, IsPidEntry)
              && stats.running == CountClass(listing.value, Running)
              && stats.sleeping == CountClass(listing.value, Sleeping)
              && stats.stopped == CountClass(listing.value, Stopped)
              && stats.zombie == CountClass(listing.value, Zombie)
    ensures stats.uninterruptible == 0
    ensures stats.running + stats.sleeping + stats.uninterruptible + stats.stopped + stats.zombie
            <= stats.total
  {
    stats := NoTasks;
    if listing.None? {
      return;
    }
    var es := listing.value;
    var i := 0;
    while i < |es|
      invariant 0 <= i <= |es|
      invariant stats == TallyOf(es[..i])
    {
      assert es[..i + 1][..i] == es[..i];
      stats := Tally(stats, es[i]);
      i := i + 1;
    }
    assert es[..i] == es;
    TallyOfCounts(es);
  }

  /** `getTaskStats` on Windows: the snapshot holds `count` processes, and
      every one of them is counted as running. `ok` is false when the
      snapshot or its first entry cannot be obtained. */
  function WindowsTaskStats(ok: bool, count: nat): (stats: TaskStats)
    ensures stats.running == stats.total
    ensures stats.sleeping == 0 && stats.uninterruptible == 0 && stats.stopped == 0 && stats.zombie == 0
    ensures stats.total == (if ok then count else 0)
  {
    if ok then TaskStats(count, count, 0, 0, 0, 0) else NoTasks
  }

  /** A stat line whose command name has no blank yields its state field. */
  lemma StateWordOfStatLine(pid: string, comm: string, state: string, rest: string)
    requires |pid| > 0 && |comm| > 0 && |state| > 0
    requires forall i :: 0 <= i < |pid| ==> !IsSpace(pid[i])
    requires forall i :: 0 <= i < |comm| ==> !IsSpace(comm[i])
    requires forall i :: 0 <= i < |state| ==> !IsSpace(state[i])
    requires |rest| == 0 || IsSpace(rest[0])
    ensures StateWord(pid + " " + comm + " " + state + rest) == state
  {
    var afterComm := " " + state + rest;
    var afterPid := " " + comm + afterComm;
    assert pid + " " + comm + " " + state + rest == pid + afterPid;
    NextWordOfWord(pid, afterPid);
    WordAfterBlank(comm, afterComm);
    WordAfterBlank(state, rest);
  }

  lemma WordAfterBlank(w: string, rest: string)
    requires |w| > 0 && forall i :: 0 <= i < |w| ==> !IsSpace(w[i])
    requires |rest| == 0 || IsSpace(rest[0])
    ensures NextWord(" " + w + rest) == (w, rest)
  {
    assert " " + w + rest == " " + (w + rest);
    NextWordAfterBlank(w + rest);
    NextWordOfWord(w, rest);
  }

  lemma NextWordAfterBlank(s: string)
    ensures NextWord(" " + s) == NextWord(s)
  {
    assert AllSpace(" ");
    NextWordAfterSpace(" ", s);
  }

  /** A command name holding a blank, such as "(Web Content)", is split by
      `>>`: its second half is taken as the state, which matches no state
      letter, so the process counts toward the total only. */
  lemma BlankInCommandHidesState(pid: string, comm1: string, comm2: string, state: string, rest: string)
    requires |pid| > 0 && |comm1| > 0 && |comm2| > 1 && |state| > 0
    requires forall i :: 0 <= i < |pid| ==> !IsSpace(pid[i])
    requires forall i :: 0 <= i < |comm1| ==> !IsSpace(comm1[i])
    requires forall i :: 0 <= i < |comm2| ==> !IsSpace(comm2[i])
    requires forall i :: 0 <= i < |state| ==> !IsSpace(state[i])
    requires |rest| == 0 || IsSpace(rest[0])
    ensures var stat := pid + " " + comm1 + " " + comm2 + " " + state + rest;
            StateWord(stat) == comm2 && Classify(StateWord(stat)) == Uncounted
  {
    var tail := " " + state + rest;
    assert pid + " " + comm1 + " " + comm2 + " " + state + rest == pid + " " + comm1 + " " + comm2 + tail;
    StateWordOfStatLine(pid, comm1, comm2, tail);
    LongWordUncounted(comm2);
  }

  /** Every state letter is a single character. */
  lemma LongWordUncounted(w: string)
    requires |w| > 1
    ensures Classify(w) == Uncounted
  {
  }

  // ---------------------------------------------------------------
  // CPUinfo on Linux
  // ---------------------------------------------------------------

  const ModelNameKey := "model name"
  const UnknownCpu := "Unknown CPU"

  /** `line.substr(0, 10) == "model name"`. */
  predicate IsModelNameLine(line: string) {
    |line| >= |ModelNameKey| && line[..|ModelNameKey|] == ModelNameKey
  }

  /** `line.substr(line.find(":") + 2)`: the text two characters after the
      first ':'. With no ':' the unsigned `npos + 2` wraps to 1 and the
      text loses only its first character; a ':' as the last character
      puts the start past the end, where `substr` throws
      `std::out_of_range` (None). */
  function ModelNameValue(line: string): (r: Option<string>)
    requires IsModelNameLine(line)
    ensures IndexOf(line, ':') < 0 ==> r == Some(line[1..])
    ensures r.None? <==> IndexOf(line, ':') == |line| - 1
    ensures 0 <= IndexOf(line, ':') < |line| - 1 ==>
              r.Some? && line == line[..IndexOf(line, ':') + 2] + r.value
  {
    var colon := IndexOf(line, ':');
    var start := if colon < 0 then 1 else colon + 2;
    if start <= |line| then Some(line[start..]) else None
  }

  /** `CPUinfo` on Linux: the value of the first "model name" line, or
      "Unknown CPU" when there is none (or /proc/cpuinfo cannot be read,
      which yields no lines). */
  function LinuxCpuName(lines: seq<string>): (r: Option<string>)
    ensures (forall i :: 0 <= i < |lines| ==> !IsModelNameLine(lines[i])) ==> r == Some(UnknownCpu)
    ensures forall i :: 0 <= i < |lines| && IsModelNameLine(lines[i])
                        && (forall k :: 0 <= k < i ==> !IsModelNameLine(lines[k])) ==>
                          r == ModelNameValue(lines[i])
  {
    match FirstIndex(lines, IsModelNameLine)
    case None => Some(UnknownCpu)
    case Some(i) => ModelNameValue(lines[i])
  }

  /** A line as the kernel writes it, "model name", blanks or tabs, ": "
      and the name, read back after any earlier lines that are not model
      name lines, yields exactly the name. */
  lemma ModelNameRoundTrip(before: seq<string>, pad: string, name: string, after: seq<string>)
    requires forall i :: 0 <= i < |before| ==> !IsModelNameLine(before[i])
    requires ':' !in pad
    ensures LinuxCpuName(before + [ModelNameKey + pad + ": " + name] + after) == Some(name)
  {
    var line := ModelNameKey + pad + ": " + name;
    var lines := before + [line] + after;
    assert line[..|ModelNameKey|] == ModelNameKey;
    assert lines[|before|] == line;
    assert forall k :: 0 <= k < |before| ==> lines[k] == before[k];
    var head := ModelNameKey + pad;
    assert ':' !in head;
    assert line == head + ([':'] + (" " + name));
    IndexOfAfterPrefix(head, " " + name, ':');
    assert line[|head| + 2..] == name;
  }

  // ---------------------------------------------------------------
  // getLoggedInUser
  // ---------------------------------------------------------------

  /** The environment variable that names the user on each platform. */
  function UserVariable(windows: bool): string {
    if windows then "USERNAME" else "USER"
  }

  /** `getLoggedInUser`: the variable's value when it is set (even to the
      empty string), "Unknown" otherwise. */
  function LoggedInUser(env: map<string, string>, windows: bool): (user: string)
    ensures UserVariable(windows) in env ==> user == env[UserVariable(windows)]
    ensures UserVariable(windows) !in env ==> user == "Unknown"
  {
    var name := UserVariable(windows);
    if name in env then env[name] else "Unknown"
  }
}
