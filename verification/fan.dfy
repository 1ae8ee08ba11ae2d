/** The Linux fan sensor of fan.cpp: discovery of the `fan1_input` file
    under /sys/class/hwmon, the choice of the enable and level files
    beside it, the combination of the three readings into `FanInfo`
    (fan.h), and the fan tab's history step. The directory listing and
    the file contents become parameters. */
module Fan {
  import opened Common
  import opened Text
  import History

  /** `FanInfo` of fan.h. */
  datatype FanInfo = FanInfo(active: bool, speedRPM: int, level: int)

  /** What `getFanInfo` returns when no fan was found. */
  const NoFan := FanInfo(false, 0, 0)

  // ---------------------------------------------------------------
  // readIntFromFile
  // ---------------------------------------------------------------

  /** `readIntFromFile`: -1 when the file cannot be opened or holds only
      whitespace (`>>` never reaches the number, so `val` keeps -1); 0 when
      the text does not start with a number (a failed extraction stores
      0); otherwise the number, clamped to the int range as `>>` does. */
  function ReadIntFromFile(file: Option<string>): (v: int)
    ensures Int32Min <= v <= Int32Max
    ensures file.None? ==> v == -1
    ensures file.Some? && ScanInt(file.value).AtEnd? ==> v == -1
    ensures file.Some? && ScanInt(file.value).NoNumber? ==> v == 0
  {
    match file
    case None => -1
    case Some(text) =>
      match ScanInt(text)
      case AtEnd => -1
      case NoNumber => 0
      case Number(x, _) => ClampInt32(x)
  }

  /** A file holding a non-negative int in decimal (as sysfs writes it,
      with a trailing newline) reads back as that value. */
  lemma ReadIntOfDecimal(n: nat)
    requires n <= Int32Max
    ensures ReadIntFromFile(Some(DecimalString(n) + "\n")) == n
  {
    ScanNatOfDecimal(n, "\n");
  }

  // ---------------------------------------------------------------
  // Discovery
  // ---------------------------------------------------------------

  /** One entry of /sys/class/hwmon: its path, whether it is a directory,
      and the names of the files it contains in iteration order. */
  datatype HwmonEntry = HwmonEntry(path: string, isDir: bool, files: seq<string>)

  /** Where the fan was found: the directory and the input file's name. */
  datatype FanDir = FanDir(dir: HwmonEntry, inputName: string)

  predicate IsFanInput(name: string) {
    Contains(name, "fan1_input")
  }

  /** The directory holds a file whose name contains "fan1_input". */
  predicate HoldsFanInput(e: HwmonEntry) {
    e.isDir && FirstIndex(e.files, IsFanInput).Some?
  }

  /** `findFanInputPath`: directories in iteration order, and within each
      its files in order; the first file whose name contains "fan1_input"
      wins. Non-directories are skipped. */
  function FindFanInput(entries: seq<HwmonEntry>): (r: Option<FanDir>)
    ensures r.None? <==> forall i :: 0 <= i < |entries| ==> !HoldsFanInput(entries[i])
    ensures r.Some? ==>
              (IsFanInput(r.value.inputName) && r.value.inputName in r.value.dir.files
               && exists i :: 0 <= i < |entries| && entries[i] == r.value.dir && HoldsFanInput(entries[i])
                              && forall k :: 0 <= k < i ==> !HoldsFanInput(entries[k]))
  {
    match FirstIndex(entries, HoldsFanInput)
    case None => None
    case Some(i) =>
      var e := entries[i];
      Some(FanDir(e, e.files[FirstIndex(e.files, IsFanInput).value]))
  }

  /** `findFanEnablePath` / `findFanLevelPath`: the first candidate name
      that exists in the fan's directory. */
  function FirstPresent(candidates: seq<string>, present: seq<string>): (r: Option<string>)
    ensures r.None? <==> forall k :: 0 <= k < |candidates| ==> candidates[k] !in present
    ensures r.Some? ==>
              (r.value in present
               && exists k :: 0 <= k < |candidates| && candidates[k] == r.value
                              && forall j :: 0 <= j < k ==> candidates[j] !in present)
  {
    match FirstIndex(candidates, c => c in present)
    case None => None
    case Some(k) => Some(candidates[k])
  }

  const EnableNames: seq<string> := ["fan1_enable", "fan1_status"]
  const LevelNames: seq<string> := ["fan1_level", "pwm1", "pwm1_enable"]

  /** The three cached paths, as directory-relative names; an absent
      input means `fanInputPath` is empty, and then the other two are
      never searched. */
  datatype FanPaths = FanPaths(input: Option<string>, enable: Option<string>, level: Option<string>)

  function Discover(entries: seq<HwmonEntry>): (p: FanPaths)
    ensures p.input.None? <==> FindFanInput(entries).None?
    ensures p.input.None? ==> p.enable.None? && p.level.None?
    ensures p.input.Some? ==> IsFanInput(p.input.value)
    ensures FindFanInput(entries).Some? ==>
              var fd := FindFanInput(entries).value;
              p == FanPaths(Some(fd.inputName), FirstPresent(EnableNames, fd.dir.files),
                            FirstPresent(LevelNames, fd.dir.files))
  {
    match FindFanInput(entries)
    case None => FanPaths(None, None, None)
    case Some(fd) =>
      FanPaths(Some(fd.inputName), FirstPresent(EnableNames, fd.dir.files),
               FirstPresent(LevelNames, fd.dir.files))
  }

  /** "fan1_enable" is preferred over "fan1_status" whenever both exist. */
  lemma EnablePrefersFirst(files: seq<string>)
    requires "fan1_enable" in files
    ensures FirstPresent(EnableNames, files) == Some("fan1_enable")
  {
  }

  // ---------------------------------------------------------------
  // getFanInfo
  // ---------------------------------------------------------------

  /** The file contents of one frame, by directory-relative name; an
      absent name cannot be opened. */
  type Files = map<string, string>

  function Read(files: Files, name: Option<string>): Option<string> {
    if name.Some? && name.value in files then Some(files[name.value]) else None
  }

  /** `getFanInfo` once the paths are known. */
  function GetFanInfo(p: FanPaths, files: Files): (info: FanInfo)
    ensures p.input.None? ==> info == NoFan
    ensures info.speedRPM >= 0 && info.level >= 0
    ensures p.input.Some? ==>
              var speed := ReadIntFromFile(Read(files, p.input));
              info.speedRPM == (if speed > 0 then speed else 0)
              && (p.enable.None? ==> info.active == (speed > 0))
              && (p.enable.Some? ==> info.active == (ReadIntFromFile(Read(files, p.enable)) == 1))
              && (p.level.None? ==> info.level == 0)
              && (p.level.Some? ==>
                    var lv := ReadIntFromFile(Read(files, p.level));
                    info.level == (if lv >= 0 then lv else 0))
  {
    if p.input.None? then NoFan
    else
      var speed := ReadIntFromFile(Read(files, p.input));
      var afterSpeed := if speed > 0 then FanInfo(true, speed, 0) else NoFan;
      var afterEnable :=
        if p.enable.Some? then afterSpeed.(active := ReadIntFromFile(Read(files, p.enable)) == 1)
        else afterSpeed;
      if p.level.Some? then
        var lv := ReadIntFromFile(Read(files, p.level));
        if lv >= 0 then afterEnable.(level := lv) else afterEnable
      else afterEnable
  }

  /** An unreadable enable file turns the fan off even when it reports a
      speed, and an unreadable level file leaves the level at 0. */
  lemma UnreadableFilesAreFallbacks(p: FanPaths, files: Files)
    requires p.input.Some? && p.enable.Some? && p.level.Some?
    requires p.enable.value !in files && p.level.value !in files
    ensures !GetFanInfo(p, files).active && GetFanInfo(p, files).level == 0
  {
  }

  // ---------------------------------------------------------------
  // The fan tab
  // ---------------------------------------------------------------

  /** The tab's statics: the path cache (None until the first call of
      `getFanInfo`) and the speed history. */
  datatype FanTab = FanTab(paths: Option<FanPaths>, history: seq<real>)

  const InitialTab := FanTab(None, [])

  /** One frame: `getFanInfo` runs whether or not the tab is paused (so
      the first frame fixes the paths for good); the speed is pushed only
      when not paused. */
  function TabFrame(tab: FanTab, entries: seq<HwmonEntry>, files: Files, paused: bool): (r: (FanInfo, FanTab))
    ensures r.1.paths.Some?
    ensures tab.paths.Some? ==> r.1.paths == tab.paths
    ensures tab.paths.None? ==> r.1.paths == Some(Discover(entries))
    ensures r.0 == GetFanInfo(r.1.paths.value, files)
    ensures paused ==> r.1.history == tab.history
    ensures !paused ==> History.Latest(r.1.history) == r.0.speedRPM as real
    ensures !paused ==> r.1.history == History.Push(tab.history, r.0.speedRPM as real)
    ensures |tab.history| <= History.MaxSamples ==> |r.1.history| <= History.MaxSamples
  {
    var p := if tab.paths.Some? then tab.paths.value else Discover(entries);
    var info := GetFanInfo(p, files);
    History.LatestAfterSample(tab.history, paused, info.speedRPM as real);
    (info, FanTab(Some(p), History.Sample(tab.history, paused, info.speedRPM as real)))
  }

  /** Frames of a run: each frame's hwmon listing, file contents and
      pause state. */
  function TabRun(tab: FanTab, frames: seq<(seq<HwmonEntry>, Files, bool)>): FanTab
    decreases |frames|
  {
    if |frames| == 0 then tab
    else TabRun(TabFrame(tab, frames[0].0, frames[0].1, frames[0].2).1, frames[1..])
  }

  /** Discovery happens once: after the first frame, later listings never
      change the cached paths, and the history stays within 100 samples. */
  lemma {:induction false} TabRunKeepsPaths(tab: FanTab, frames: seq<(seq<HwmonEntry>, Files, bool)>)
    requires tab.paths.Some? && |tab.history| <= History.MaxSamples
    ensures TabRun(tab, frames).paths == tab.paths
    ensures |TabRun(tab, frames).history| <= History.MaxSamples
    decreases |frames|
  {
    if |frames| > 0 {
      TabRunKeepsPaths(TabFrame(tab, frames[0].0, frames[0].1, frames[0].2).1, frames[1..]);
    }
  }
}
