/** The extra network window (network-receiver-transmitter.cpp): the
    /proc/net/dev reader `readNetworkStats`, the unit choice of
    `formatBytes`, and the clamp of the RX/TX usage bars. */
module NetDev {
  import opened Common
  import opened Text

  /** `NetStats`: eight receive counters then eight transmit counters,
      each 0 unless read. */
  datatype NetStats = NetStats(
    rxBytes: nat, rxPackets: nat, rxErrs: nat, rxDrop: nat,
    rxFifo: nat, rxFrame: nat, rxCompressed: nat, rxMulticast: nat,
    txBytes: nat, txPackets: nat, txErrs: nat, txDrop: nat,
    txFifo: nat, txColls: nat, txCarrier: nat, txCompressed: nat)

  const CounterCount: nat := 16

  /** The sixteen counters in the order the extraction chain fills them. */
  function Counters(ns: NetStats): (xs: seq<nat>)
    ensures |xs| == CounterCount
  {
    [ns.rxBytes, ns.rxPackets, ns.rxErrs, ns.rxDrop, ns.rxFifo, ns.rxFrame, ns.rxCompressed, ns.rxMulticast,
     ns.txBytes, ns.txPackets, ns.txErrs, ns.txDrop, ns.txFifo, ns.txColls, ns.txCarrier, ns.txCompressed]
  }

  function StatsOf(xs: seq<nat>): (ns: NetStats)
    requires |xs| == CounterCount
    ensures Counters(ns) == xs
  {
    NetStats(xs[0], xs[1], xs[2], xs[3], xs[4], xs[5], xs[6], xs[7],
             xs[8], xs[9], xs[10], xs[11], xs[12], xs[13], xs[14], xs[15])
  }

  /** `s.erase(0, s.find_first_not_of(" "))`: drops the leading blanks
      (only ' ', not tabs); a string of blanks becomes empty. */
  function TrimBlanks(s: string): (r: string)
    ensures |r| <= |s| && r == s[|s| - |r|..]
    ensures forall i :: 0 <= i < |s| - |r| ==> s[i] == ' '
    ensures |r| == 0 || r[0] != ' '
    decreases |s|
  {
    if |s| > 0 && s[0] == ' ' then TrimBlanks(s[1..]) else s
  }

  /** One interface line: `getline(iss, iface, ':')` takes the text before
      the first ':' (the whole line when there is none, which leaves
      nothing to read after it), the name loses its leading blanks, and
      the sixteen extractions stop at the first failure, leaving the rest
      of the counters at 0. */
  function ParseNetLine(line: string): (r: (string, NetStats)) {
    (NetIface(line), NetCounters(line))
  }

  function NetIface(line: string): (name: string)
    ensures ':' !in name
    ensures var colon := IndexOf(line, ':');
            var head := if colon < 0 then line else line[..colon];
            && |name| <= |head| && name == head[|head| - |name|..]
            && Blanks(head[..|head| - |name|])
            && (|name| == 0 || name[0] != ' ')
  {
    var colon := IndexOf(line, ':');
    var name := if colon < 0 then line else line[..colon];
    assert ':' !in name;
    TrimBlanks(name)
  }

  function NetCounters(line: string): (ns: NetStats)
    ensures ':' !in line ==> ns == StatsOf(Padded([], CounterCount))
  {
    var colon := IndexOf(line, ':');
    var rest := if colon < 0 then "" else line[colon + 1..];
    StatsOf(Padded(ScanNats(rest, CounterCount), CounterCount))
  }

  function ParsedLines(ls: seq<string>): (ps: seq<(string, NetStats)>)
    ensures |ps| == |ls|
    ensures forall i :: 0 <= i < |ls| ==> ps[i] == ParseNetLine(ls[i])
  {
    seq(|ls|, i requires 0 <= i < |ls| => ParseNetLine(ls[i]))
  }

  /** The loop body `stats[iface] = ns` run over the interface lines in
      order. */
  function ReadInterfaces(ls: seq<string>): (m: map<string, NetStats>)
    ensures forall i :: 0 <= i < |ls| ==> NetIface(ls[i]) in m
  {
    var ps := ParsedLines(ls);
    assert forall i :: 0 <= i < |ls| ==> ps[i].0 == NetIface(ls[i]);
    MapOf(ps)
  }

  /** `readNetworkStats`: the two header lines are consumed unread, then
      every remaining line is an interface line. */
  function ReadNetworkStats(lines: seq<string>): (m: map<string, NetStats>)
    ensures |lines| <= 2 ==> m == map[]
    ensures |lines| > 2 ==> m == ReadInterfaces(lines[2..])
  {
    if |lines| <= 2 then map[] else ReadInterfaces(lines[2..])
  }

  /** Every name in the map comes from an interface line. */
  lemma NamesComeFromInterfaceLines(ls: seq<string>, k: string)
    requires k in ReadInterfaces(ls)
    ensures exists i :: 0 <= i < |ls| && NetIface(ls[i]) == k
  {
    var ps := ParsedLines(ls);
    var j := MapOfKey(ps, k);
    assert NetIface(ls[j]) == k;
  }

  /** An interface line as the kernel writes it: blanks, the name, ':',
      then the sixteen counters, each after its own run of whitespace (the
      kernel pads the columns to a fixed width, and a wide counter leaves
      a single blank or, right after the ':', none). */
  function NetLine(pad: string, iface: string, gaps: seq<string>, counters: seq<nat>): string
    requires |gaps| == |counters|
  {
    pad + iface + ":" + Spaced(gaps, counters)
  }

  predicate Blanks(s: string) {
    forall i :: 0 <= i < |s| ==> s[i] == ' '
  }

  /** Such a line reads back as its name and its counters, in order. */
  lemma ParseNetLineOfNetLine(pad: string, iface: string, gaps: seq<string>, counters: seq<nat>)
    requires Blanks(pad) && ':' !in iface && (|iface| == 0 || iface[0] != ' ')
    requires Separators(gaps)
    requires |gaps| == |counters| == CounterCount
    ensures ParseNetLine(NetLine(pad, iface, gaps, counters)) == (iface, StatsOf(counters))
  {
    NetLineSplit(pad, iface, gaps, counters);
    TrimBlanksOfPadded(pad, iface);
    ScanNatsOfSpaced(gaps, counters, CounterCount);
    assert counters[..CounterCount] == counters;
    assert Padded(counters, CounterCount) == counters;
  }

  /** The text before the first ':' and the text after it. */
  lemma NetLineSplit(pad: string, iface: string, gaps: seq<string>, counters: seq<nat>)
    requires Blanks(pad) && ':' !in iface && |gaps| == |counters|
    ensures var line := NetLine(pad, iface, gaps, counters);
            var colon := IndexOf(line, ':');
            && colon == |pad + iface|
            && line[..colon] == pad + iface
            && line[colon + 1..] == Spaced(gaps, counters)
  {
    var line := NetLine(pad, iface, gaps, counters);
    var body := Spaced(gaps, counters);
    assert line == (pad + iface) + ([':'] + body);
    assert ':' !in pad + iface;
    IndexOfAfterPrefix(pad + iface, body, ':');
  }

  lemma {:induction false} TrimBlanksOfPadded(pad: string, s: string)
    requires Blanks(pad) && (|s| == 0 || s[0] != ' ')
    ensures TrimBlanks(pad + s) == s
    decreases |pad|
  {
    if |pad| == 0 {
      assert pad + s == s;
    } else {
      assert (pad + s)[1..] == pad[1..] + s;
      TrimBlanksOfPadded(pad[1..], s);
    }
  }

  /** A later line for the same interface replaces an earlier one. */
  lemma LastLineWins(ls: seq<string>, i: nat)
    requires i < |ls|
    requires forall j :: i < j < |ls| ==> NetIface(ls[j]) != NetIface(ls[i])
    ensures ReadInterfaces(ls)[NetIface(ls[i])] == NetCounters(ls[i])
  {
    var ps := ParsedLines(ls);
    assert forall j :: i < j < |ps| ==> ps[j].0 != ps[i].0;
    MapOfLastWins(ps, i);
  }

  // ---------------------------------------------------------------
  // formatBytes
  // ---------------------------------------------------------------

  datatype Unit = B | KB | MB | GB

  const KiB: nat := 1024
  const MiB: nat := 1048576
  const GiB: nat := 1073741824

  /** The divisor that goes with each unit. */
  function Scale(u: Unit): (d: nat)
    ensures d > 0
  {
    match u
    case B => 1
    case KB => KiB
    case MB => MiB
    case GB => GiB
  }

  /** `formatBytes` before the "%.2f %s" rendering: the largest unit (up
      to GB) whose scale does not exceed the count, and the count in that
      unit. */
  function FormatBytes(bytes: u64): (r: (real, Unit))
    ensures r.1 == B <==> bytes < KiB
    ensures r.1 == KB <==> KiB <= bytes < MiB
    ensures r.1 == MB <==> MiB <= bytes < GiB
    ensures r.1 == GB <==> GiB <= bytes
    ensures r.0 * Scale(r.1) as real == bytes as real
    ensures r.1 != B && r.1 != GB ==> 1.0 <= r.0 < 1024.0
    ensures r.1 == GB ==> r.0 >= 1.0
  {
    var u := if bytes < KiB then B else if bytes < MiB then KB else if bytes < GiB then MB else GB;
    var v := Fraction(bytes as real, Scale(u) as real);
    assert Scale(u) <= bytes || u == B;
    (v, u)
  }

  // ---------------------------------------------------------------
  // The usage bars
  // ---------------------------------------------------------------

  /** `std::min(gb / 2, 1)`: the bar is full at 2 GiB. */
  function Progress(bytes: u64): (p: real)
    ensures 0.0 <= p <= 1.0
    ensures p == 1.0 <==> bytes >= 2 * GiB
    ensures bytes < 2 * GiB ==> p * (2 * GiB) as real == bytes as real
  {
    var half := Fraction(bytes as real, (2 * GiB) as real);
    if half < 1.0 then half else 1.0
  }

  /** More bytes never give a shorter bar. */
  lemma ProgressIsMonotone(a: u64, b: u64)
    requires a <= b
    ensures Progress(a) <= Progress(b)
  {
    if b < 2 * GiB {
      assert Progress(a) * (2 * GiB) as real <= Progress(b) * (2 * GiB) as real;
    }
  }
}
