/** The Linux CPU temperature sensor of thermals.cpp: discovery of a
    sensor file (a CPU thermal zone first, an AMD k10temp hwmon device
    second), the reading with its latch into a fallback mode, and the
    thermal tab's history step. The sysfs tree is a parameter. */
module Thermals {
  import opened Common
  import opened Text
  import History

  const ThermalDir := "/sys/class/thermal/"
  const HwmonDir := "/sys/class/hwmon/"

  /** One snapshot of the two sysfs directories: the entry names of each
      in iteration order, the files that can be opened with their text,
      and the paths that exist (whether or not they can be read). */
  datatype SysFs = SysFs(zones: seq<string>, hwmons: seq<string>,
                         contents: map<string, string>, present: set<string>)

  /** `ifstream f(path); f >> word`: the word when the file opens and
      holds one, None when the extraction fails. */
  function ReadWord(fs: SysFs, path: string): (r: Option<string>)
    ensures r.Some? ==> path in fs.contents && |r.value| > 0
    ensures r.Some? ==> r.value == NextWord(fs.contents[path]).0
    ensures r.None? ==>
              (path !in fs.contents || forall i :: 0 <= i < |fs.contents[path]| ==> IsSpace(fs.contents[path][i]))
  {
    if path !in fs.contents then None
    else
      var w := NextWord(fs.contents[path]).0;
      if |w| == 0 then None else Some(w)
  }

  function ZoneTemp(zone: string): string {
    ThermalDir + zone + "/temp"
  }

  function HwmonTemp(dev: string): string {
    HwmonDir + dev + "/temp1_input"
  }

  /** A type word that names a CPU sensor. */
  predicate IsCpuType(t: string) {
    Contains(t, "cpu") || Contains(t, "x86_pkg_temp") || Contains(t, "k10temp")
  }

  /** A thermal zone is usable when its name contains "thermal_zone", its
      `type` file yields a CPU type word and its `temp` file exists. */
  predicate ZoneUsable(fs: SysFs, zone: string) {
    && Contains(zone, "thermal_zone")
    && var t := ReadWord(fs, ThermalDir + zone + "/type");
    && t.Some? && IsCpuType(t.value)
    && ZoneTemp(zone) in fs.present
  }

  /** A hwmon device is usable when its `name` file yields exactly
      "k10temp" and its `temp1_input` file exists. */
  predicate HwmonUsable(fs: SysFs, dev: string) {
    ReadWord(fs, HwmonDir + dev + "/name") == Some("k10temp") && HwmonTemp(dev) in fs.present
  }

  /** `findThermalSensorPath`: the first usable thermal zone's `temp`; if
      there is none, the first usable hwmon device's `temp1_input`; if
      there is none either, "". */
  function FindThermalSensorPath(fs: SysFs): (p: string)
    ensures p == "" <==>
              ((forall i :: 0 <= i < |fs.zones| ==> !ZoneUsable(fs, fs.zones[i]))
               && (forall i :: 0 <= i < |fs.hwmons| ==> !HwmonUsable(fs, fs.hwmons[i])))
    ensures p != "" ==> p in fs.present
  {
    match FirstIndex(fs.zones, z => ZoneUsable(fs, z))
    case Some(i) => ZoneTemp(fs.zones[i])
    case None =>
      match FirstIndex(fs.hwmons, d => HwmonUsable(fs, d))
      case Some(i) => HwmonTemp(fs.hwmons[i])
      case None => ""
  }

  /** The search order: a usable thermal zone always wins, and within
      each directory the first usable entry is taken. */
  lemma SensorPathIsFirstUsable(fs: SysFs)
    ensures (exists i :: 0 <= i < |fs.zones| && ZoneUsable(fs, fs.zones[i])) ==>
              (exists i :: 0 <= i < |fs.zones| && ZoneUsable(fs, fs.zones[i])
                           && FindThermalSensorPath(fs) == ZoneTemp(fs.zones[i])
                           && forall k :: 0 <= k < i ==> !ZoneUsable(fs, fs.zones[k]))
    ensures (forall i :: 0 <= i < |fs.zones| ==> !ZoneUsable(fs, fs.zones[i])) && FindThermalSensorPath(fs) != "" ==>
              (exists i :: 0 <= i < |fs.hwmons| && HwmonUsable(fs, fs.hwmons[i])
                           && FindThermalSensorPath(fs) == HwmonTemp(fs.hwmons[i])
                           && forall k :: 0 <= k < i ==> !HwmonUsable(fs, fs.hwmons[k]))
  {
    var zone := FirstIndex(fs.zones, z => ZoneUsable(fs, z));
    if zone.None? {
      var dev := FirstIndex(fs.hwmons, d => HwmonUsable(fs, d));
    }
  }

  // ---------------------------------------------------------------
  // readTemperatureC
  // ---------------------------------------------------------------

  /** The two statics: the cached sensor path ("" until one is found) and
      the fallback flag, which nothing ever clears. */
  datatype Sensor = Sensor(path: string, useDummy: bool)

  const InitialSensor := Sensor("", false)

  /** `file >> millidegrees` on an int: the number when the file opens and
      starts with one that fits in 32 bits (a value out of range sets
      failbit), None otherwise. */
  function ReadMillidegrees(fs: SysFs, path: string): (r: Option<int>)
    ensures r.Some? ==> Int32Min <= r.value <= Int32Max
    ensures r.Some? <==>
              (path in fs.contents && ScanInt(fs.contents[path]).Number?
               && Int32Min <= ScanInt(fs.contents[path]).value <= Int32Max)
    ensures r.Some? ==> r.value == ScanInt(fs.contents[path]).value
  {
    if path !in fs.contents then None
    else match ScanInt(fs.contents[path])
      case Number(v, _) => if Int32Min <= v <= Int32Max then Some(v) else None
      case _ => None
  }

  /** `readTemperatureC`: discovery runs whenever the cached path is
      empty; fallback mode starts when discovery finds nothing or a read
      fails. In fallback mode the value is `dummy` (the random walk, which
      is not part of this model); a failed read returns 50 degrees. */
  function ReadTemperatureC(s: Sensor, fs: SysFs, dummy: real): (r: (real, Sensor))
    ensures s.path != "" ==> r.1.path == s.path
    ensures s.path == "" ==> r.1.path == FindThermalSensorPath(fs)
    ensures r.1.path == "" ==> r.1.useDummy && r.0 == dummy
    ensures s.useDummy ==> r.1.useDummy && r.0 == dummy
    ensures !r.1.useDummy <==> (!s.useDummy && r.1.path != "" && ReadMillidegrees(fs, r.1.path).Some?)
    ensures !r.1.useDummy ==> r.0 == ReadMillidegrees(fs, r.1.path).value as real / 1000.0
    ensures !s.useDummy && r.1.path != "" && ReadMillidegrees(fs, r.1.path).None? ==> r.0 == 50.0
  {
    var path := if s.path == "" then FindThermalSensorPath(fs) else s.path;
    if s.useDummy || path == "" then (dummy, Sensor(path, true))
    else match ReadMillidegrees(fs, path)
      case Some(m) => (m as real / 1000.0, Sensor(path, false))
      case None => (50.0, Sensor(path, true))
  }

  /** On the first call, a discovered sensor file holding a decimal
      millidegree count that fits an int, followed by anything but a digit
      (sysfs writes a newline), reads as that count divided by 1000, and
      the path is cached without entering fallback mode. */
  lemma ReadsDecimalSensor(fs: SysFs, n: nat, tail: string, dummy: real)
    requires FindThermalSensorPath(fs) != "" && n <= Int32Max
    requires |tail| == 0 || !IsDigit(tail[0])
    requires FindThermalSensorPath(fs) in fs.contents
    requires fs.contents[FindThermalSensorPath(fs)] == DecimalString(n) + tail
    ensures ReadTemperatureC(InitialSensor, fs, dummy).0 == n as real / 1000.0
    ensures ReadTemperatureC(InitialSensor, fs, dummy).1 == Sensor(FindThermalSensorPath(fs), false)
  {
    ReadMillidegreesOfDecimal(fs, FindThermalSensorPath(fs), n, tail);
  }

  lemma ReadMillidegreesOfDecimal(fs: SysFs, path: string, n: nat, tail: string)
    requires n <= Int32Max && (|tail| == 0 || !IsDigit(tail[0]))
    requires path in fs.contents && fs.contents[path] == DecimalString(n) + tail
    ensures ReadMillidegrees(fs, path) == Some(n as int)
  {
    ScanNatOfDecimal(n, tail);
  }

  /** A run of frames, each with its sysfs snapshot and its fallback value. */
  function ReadRun(s: Sensor, frames: seq<(SysFs, real)>): Sensor
    decreases |frames|
  {
    if |frames| == 0 then s
    else ReadRun(ReadTemperatureC(s, frames[0].0, frames[0].1).1, frames[1..])
  }

  /** The latch: once in fallback mode the sensor stays there, whatever
      the later snapshots hold, and a found path is never searched again. */
  lemma {:induction false} FallbackIsPermanent(s: Sensor, frames: seq<(SysFs, real)>)
    ensures s.useDummy ==> ReadRun(s, frames).useDummy
    ensures s.path != "" ==> ReadRun(s, frames).path == s.path
    decreases |frames|
  {
    if |frames| > 0 {
      FallbackIsPermanent(ReadTemperatureC(s, frames[0].0, frames[0].1).1, frames[1..]);
    }
  }

  // ---------------------------------------------------------------
  // The thermal tab
  // ---------------------------------------------------------------

  datatype ThermalTab = ThermalTab(sensor: Sensor, history: seq<real>)

  const InitialTab := ThermalTab(InitialSensor, [])

  /** One frame: the temperature is read (and the latch may close) whether
      or not the tab is paused; it is pushed only when not paused. */
  function TabFrame(tab: ThermalTab, fs: SysFs, dummy: real, paused: bool): (r: (real, ThermalTab))
    ensures r.0 == ReadTemperatureC(tab.sensor, fs, dummy).0
    ensures r.1.sensor == ReadTemperatureC(tab.sensor, fs, dummy).1
    ensures paused ==> r.1.history == tab.history
    ensures !paused ==> History.Latest(r.1.history) == r.0
    ensures !paused ==> r.1.history == History.Push(tab.history, r.0)
    ensures |tab.history| <= History.MaxSamples ==> |r.1.history| <= History.MaxSamples
  {
    var (v, s) := ReadTemperatureC(tab.sensor, fs, dummy);
    History.LatestAfterSample(tab.history, paused, v);
    (v, ThermalTab(s, History.Sample(tab.history, paused, v)))
  }
}
