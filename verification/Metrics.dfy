/** src/application/MetricsService.cpp:38-82: CPU figures from two samples, in exact arithmetic. */
module Metrics {
  import opened Common

  datatype CpuTimes = CpuTimes(total: nat, idle: nat)

  datatype SystemSample = SystemSample(cpu: CpuTimes, memoryTotal: nat, memoryAvailable: nat, uptime: int,
                                       logicalCpus: nat, hostname: string)

  datatype ProcessSample = ProcessSample(pid: int, startTime: nat, cpuTime: nat)

  datatype MetricsSnapshot = MetricsSnapshot(system: SystemSample, processes: seq<ProcessSample>)

  datatype HostStatus = HostStatus(hostname: string, cpuPercent: Option<real>, memoryTotal: nat, memoryUsed: nat,
                                   uptime: int)

  datatype MetricsView = MetricsView(host: HostStatus, processPercent: map<int, real>)

  const NO_HOST := HostStatus("", None, 0, 0, 0)

  function Clamp(x: real, low: real, high: real): real {
    if x < low then low else if x > high then high else x
  }

  function Cpus(system: SystemSample): nat {
    if system.logicalCpus < 1 then 1 else system.logicalCpus
  }

  // ----- the reference -----

  /** Both counters moved the right way, and the total moved at all. */
  predicate Ticking(previous: SystemSample, current: SystemSample) {
    current.cpu.total > previous.cpu.total && current.cpu.idle >= previous.cpu.idle
  }

  function TotalTicks(previous: SystemSample, current: SystemSample): nat
    requires Ticking(previous, current)
  {
    current.cpu.total - previous.cpu.total
  }

  /** The share of the ticks that were not idle; there is none when the idle counter outran the total. */
  function HostPercent(previous: SystemSample, current: SystemSample): Option<real> {
    if Ticking(previous, current) && current.cpu.idle - previous.cpu.idle <= TotalTicks(previous, current) then
      var total := TotalTicks(previous, current);
      Some(100.0 * (total - (current.cpu.idle - previous.cpu.idle)) as real / total as real)
    else None
  }

  /** The last sample of a process. */
  function SampleOf(samples: seq<ProcessSample>, pid: int): Option<ProcessSample> {
    if samples == [] then None
    else if samples[|samples| - 1].pid == pid then Some(samples[|samples| - 1])
    else SampleOf(samples[..|samples| - 1], pid)
  }

  /** The same process in both samples, with a counter that did not go back. */
  predicate Comparable(before: Option<ProcessSample>, now: ProcessSample) {
    before.Some? && before.value.startTime == now.startTime && now.cpuTime >= before.value.cpuTime
  }

  function Share(used: nat, total: nat, cpus: nat): real
    requires total > 0
  {
    Clamp(100.0 * used as real * cpus as real / total as real, 0.0, 100.0 * cpus as real)
  }

  function ProcessPercents(earlier: seq<ProcessSample>, samples: seq<ProcessSample>, total: nat, cpus: nat): map<int, real>
    requires total > 0
  {
    if samples == [] then map[]
    else
      var rest := ProcessPercents(earlier, samples[..|samples| - 1], total, cpus);
      var now := samples[|samples| - 1];
      var before := SampleOf(earlier, now.pid);
      if Comparable(before, now) then rest[now.pid := Share(now.cpuTime - before.value.cpuTime, total, cpus)] else rest
  }

  function Compared(previous: MetricsSnapshot, current: MetricsSnapshot): MetricsView {
    var s := current.system;
    MetricsView(
      HostStatus(s.hostname, HostPercent(previous.system, s), s.memoryTotal,
                 if s.memoryAvailable <= s.memoryTotal then s.memoryTotal - s.memoryAvailable else 0, s.uptime),
      if Ticking(previous.system, s)
      then ProcessPercents(previous.processes, current.processes, TotalTicks(previous.system, s), Cpus(s))
      else map[])
  }

  // ----- the code -----

  method Index(samples: seq<ProcessSample>) returns (earlier: map<int, ProcessSample>)
    ensures forall pid :: pid in earlier <==> SampleOf(samples, pid).Some?
    ensures forall pid :: pid in earlier ==> SampleOf(samples, pid) == Some(earlier[pid])
  {
    earlier := map[];
    for i := 0 to |samples|
      invariant forall pid :: pid in earlier <==> SampleOf(samples[..i], pid).Some?
      invariant forall pid :: pid in earlier ==> SampleOf(samples[..i], pid) == Some(earlier[pid])
    {
      assert samples[..i + 1][..i] == samples[..i];
      earlier := earlier[samples[i].pid := samples[i]];
    }
    assert samples[..|samples|] == samples;
  }

  method MeasureProcesses(previous: seq<ProcessSample>, current: seq<ProcessSample>, total: nat, cpus: nat)
    returns (percents: map<int, real>)
    requires total > 0
    ensures percents == ProcessPercents(previous, current, total, cpus)
  {
    var earlier := Index(previous);
    var maximum := 100.0 * cpus as real;
    percents := map[];
    for i := 0 to |current|
      invariant percents == ProcessPercents(previous, current[..i], total, cpus)
    {
      assert current[..i + 1][..i] == current[..i];
      var process := current[i];
      assert process.pid in earlier <==> SampleOf(previous, process.pid).Some?;
      assert process.pid in earlier ==> SampleOf(previous, process.pid) == Some(earlier[process.pid]);
      if process.pid !in earlier || earlier[process.pid].startTime != process.startTime
         || process.cpuTime < earlier[process.pid].cpuTime {
        assert !Comparable(SampleOf(previous, process.pid), process);
        continue;
      }
      assert Comparable(SampleOf(previous, process.pid), process);
      var used := process.cpuTime - earlier[process.pid].cpuTime;
      assert Share(used, total, cpus) == Clamp(100.0 * used as real * cpus as real / total as real, 0.0, maximum);
      percents := percents[process.pid := Clamp(100.0 * used as real * cpus as real / total as real, 0.0, maximum)];
    }
    assert current[..|current|] == current;
  }

  /** The clamp on the host figure is written out as in the source; the reference has none. */
  method Compare(previous: MetricsSnapshot, current: MetricsSnapshot) returns (view: MetricsView)
    ensures view == Compared(previous, current)
    ensures var (host, system) := (view.host, current.system);
            && host.hostname == system.hostname && host.uptime == system.uptime && host.memoryTotal == system.memoryTotal
            && host.memoryUsed <= host.memoryTotal
            && (system.memoryAvailable <= system.memoryTotal ==> host.memoryUsed + system.memoryAvailable == host.memoryTotal)
  {
    var used := if current.system.memoryAvailable <= current.system.memoryTotal
                then current.system.memoryTotal - current.system.memoryAvailable else 0;
    var percent: Option<real> := None;
    var percents := map[];
    if current.system.cpu.total > previous.system.cpu.total && current.system.cpu.idle >= previous.system.cpu.idle {
      var total := current.system.cpu.total - previous.system.cpu.total;
      var idle := current.system.cpu.idle - previous.system.cpu.idle;
      if idle <= total {
        PercentInRange(total - idle, total);
        percent := Some(Clamp(100.0 * (total - idle) as real / total as real, 0.0, 100.0));
      }
      var cpus := if current.system.logicalCpus > 1 then current.system.logicalCpus else 1;
      percents := MeasureProcesses(previous.processes, current.processes, total, cpus);
    }
    view := MetricsView(HostStatus(current.system.hostname, percent, current.system.memoryTotal, used,
                                   current.system.uptime), percents);
  }

  lemma PercentInRange(part: nat, whole: nat)
    requires part <= whole && whole > 0
    ensures 0.0 <= 100.0 * part as real / whole as real <= 100.0
  {
    var p, w := part as real, whole as real;
    assert 100.0 * p <= 100.0 * w;
    assert 100.0 * p / w <= 100.0;
  }

  lemma PercentCancels(part: nat, whole: nat)
    requires whole > 0
    ensures var percent := 100.0 * part as real / whole as real;
            && percent * whole as real == 100.0 * part as real
            && (part == whole ==> percent == 100.0) && (part == 0 ==> percent == 0.0)
  {
  }

  /** The host figure is there exactly when time passed and the idle counter kept within the total. Then it is the
      share of the ticks that were not idle, and lies in 0..100 by itself: 100 when none was idle, 0 when all were. */
  lemma HostPercentExactly(previous: MetricsSnapshot, current: MetricsSnapshot)
    ensures var percent := Compared(previous, current).host.cpuPercent;
            var total := current.system.cpu.total - previous.system.cpu.total;
            var idle := current.system.cpu.idle - previous.system.cpu.idle;
            && (percent.Some? <==> total > 0 && 0 <= idle <= total)
            && (percent.Some? ==>
                  && 0.0 <= percent.value <= 100.0
                  && percent.value * total as real == 100.0 * (total - idle) as real
                  && (idle == 0 ==> percent.value == 100.0) && (idle == total ==> percent.value == 0.0))
  {
    if HostPercent(previous.system, current.system).Some? {
      var total := TotalTicks(previous.system, current.system);
      var busy := total - (current.system.cpu.idle - previous.system.cpu.idle);
      PercentInRange(busy, total);
      PercentCancels(busy, total);
    }
  }

  /** A sample compared with itself yields no figure at all. */
  lemma NothingPassed(snapshot: MetricsSnapshot)
    ensures Compared(snapshot, snapshot).host.cpuPercent == None && Compared(snapshot, snapshot).processPercent == map[]
  {
  }

  /** The same process, later: the same start, and a counter that did not go back. */
  predicate Follows(before: ProcessSample, now: ProcessSample) {
    now.pid == before.pid && now.startTime == before.startTime && now.cpuTime >= before.cpuTime
  }

  ghost predicate IsLastFollower(samples: seq<ProcessSample>, before: ProcessSample, m: nat) {
    && m < |samples| && Follows(before, samples[m])
    && forall j :: m < j < |samples| ==> !Follows(before, samples[j])
  }

  lemma {:induction false} NotMeasured(earlier: seq<ProcessSample>, samples: seq<ProcessSample>, total: nat, cpus: nat,
                                       pid: int)
    requires total > 0 && SampleOf(earlier, pid).None?
    ensures pid !in ProcessPercents(earlier, samples, total, cpus)
  {
    if samples != [] {
      NotMeasured(earlier, samples[..|samples| - 1], total, cpus, pid);
    }
  }

  /** The last of the samples of its process. */
  ghost predicate IsLastOf(samples: seq<ProcessSample>, k: nat) {
    k < |samples| && forall j :: k < j < |samples| ==> samples[j].pid != samples[k].pid
  }

  lemma {:induction false} LastIsSampleOf(samples: seq<ProcessSample>, k: nat)
    requires IsLastOf(samples, k)
    ensures SampleOf(samples, samples[k].pid) == Some(samples[k])
  {
    var n := |samples| - 1;
    if k < n {
      LastIsSampleOf(samples[..n], k);
    }
  }

  lemma {:induction false} NoSampleOf(samples: seq<ProcessSample>, pid: int)
    requires forall p :: p in samples ==> p.pid != pid
    ensures SampleOf(samples, pid).None?
  {
    if samples != [] {
      var n := |samples| - 1;
      assert samples[n] in samples;
      NoSampleOf(samples[..n], pid);
    }
  }

  /** The figure of a process that used `used` ticks of its own while the host's `cpus` processors together made `total`:
      in exact arithmetic 100 * used * cpus / total, but never more than 100 for each processor. */
  ghost predicate IsShare(percent: real, used: nat, total: nat, cpus: nat) {
    if used <= total then percent * total as real == 100.0 * used as real * cpus as real
    else percent == 100.0 * cpus as real
  }

  lemma ShareExactly(used: nat, total: nat, cpus: nat)
    requires total > 0
    ensures IsShare(Share(used, total, cpus), used, total, cpus)
  {
    ClampedQuotient(100.0 * used as real * cpus as real, total as real, 100.0 * cpus as real);
    Swapped(used as real, 100.0, cpus as real);
    if used <= total {
      Scaled(used as real, total as real, 100.0 * cpus as real);
    } else {
      Scaled(total as real, used as real, 100.0 * cpus as real);
    }
  }

  lemma Swapped(a: real, b: real, c: real)
    ensures b * a * c == a * (b * c)
  {
  }

  lemma Scaled(a: real, b: real, c: real)
    requires a <= b && c >= 0.0
    ensures a * c <= b * c
  {
  }

  lemma ClampedQuotient(part: real, whole: real, most: real)
    requires part >= 0.0 && whole > 0.0 && most >= 0.0
    ensures var q := Clamp(part / whole, 0.0, most);
            if part <= whole * most then q * whole == part else q == most
  {
    var q := part / whole;
    assert q * whole == part;
    if q > most { Scaled(most, q, whole); } else { Scaled(q, most, whole); }
  }

  ghost predicate HasFollower(samples: seq<ProcessSample>, before: ProcessSample) {
    exists p :: p in samples && Follows(before, p)
  }

  /** The figure is that of the last sample that continues `before`. */
  ghost predicate IsFigure(percent: real, samples: seq<ProcessSample>, before: ProcessSample, total: nat, cpus: nat) {
    exists m: nat :: IsLastFollower(samples, before, m) && IsShare(percent, samples[m].cpuTime - before.cpuTime, total, cpus)
  }

  lemma FigureOf(percent: real, samples: seq<ProcessSample>, before: ProcessSample, total: nat, cpus: nat, m: nat)
    requires total > 0 && IsLastFollower(samples, before, m)
    requires percent == Share(samples[m].cpuTime - before.cpuTime, total, cpus)
    ensures HasFollower(samples, before) && IsFigure(percent, samples, before, total, cpus)
  {
    ShareExactly(samples[m].cpuTime - before.cpuTime, total, cpus);
    assert samples[m] in samples;
  }

  lemma LastFollows(earlier: seq<ProcessSample>, samples: seq<ProcessSample>, total: nat, cpus: nat, last: ProcessSample)
    requires total > 0 && SampleOf(earlier, last.pid) == Some(last)
    requires samples != [] && Follows(last, samples[|samples| - 1])
    ensures var percents := ProcessPercents(earlier, samples, total, cpus);
            && last.pid in percents
            && percents[last.pid] == Share(samples[|samples| - 1].cpuTime - last.cpuTime, total, cpus)
  {
  }

  lemma LastDoesNot(earlier: seq<ProcessSample>, samples: seq<ProcessSample>, total: nat, cpus: nat, last: ProcessSample)
    requires total > 0 && SampleOf(earlier, last.pid) == Some(last)
    requires samples != [] && !Follows(last, samples[|samples| - 1])
    ensures var (all, rest) := (ProcessPercents(earlier, samples, total, cpus),
                                ProcessPercents(earlier, samples[..|samples| - 1], total, cpus));
            && (last.pid in all <==> last.pid in rest)
            && (last.pid in all ==> all[last.pid] == rest[last.pid])
  {
  }

  lemma {:induction false} MeasuredExactly(earlier: seq<ProcessSample>, samples: seq<ProcessSample>, total: nat,
                                           cpus: nat, last: ProcessSample)
    requires total > 0 && SampleOf(earlier, last.pid) == Some(last)
    ensures var percents := ProcessPercents(earlier, samples, total, cpus);
            && (last.pid in percents <==> HasFollower(samples, last))
            && (last.pid in percents ==> IsFigure(percents[last.pid], samples, last, total, cpus))
  {
    if samples != [] {
      var n := |samples| - 1;
      MeasuredExactly(earlier, samples[..n], total, cpus, last);
      assert samples == samples[..n] + [samples[n]];
      if Follows(last, samples[n]) {
        LastFollows(earlier, samples, total, cpus, last);
        FigureOf(ProcessPercents(earlier, samples, total, cpus)[last.pid], samples, last, total, cpus, n);
      } else {
        LastDoesNot(earlier, samples, total, cpus, last);
        if last.pid in ProcessPercents(earlier, samples[..n], total, cpus) {
          FigureStays(ProcessPercents(earlier, samples[..n], total, cpus)[last.pid], samples, last, total, cpus);
        }
      }
    }
  }

  lemma FigureStays(percent: real, samples: seq<ProcessSample>, before: ProcessSample, total: nat, cpus: nat)
    requires samples != [] && !Follows(before, samples[|samples| - 1])
    requires IsFigure(percent, samples[..|samples| - 1], before, total, cpus)
    ensures IsFigure(percent, samples, before, total, cpus)
  {
    var earlier := samples[..|samples| - 1];
    var m: nat :| IsLastFollower(earlier, before, m) && IsShare(percent, earlier[m].cpuTime - before.cpuTime, total, cpus);
    assert IsLastFollower(samples, before, m);
  }

  /** A process figure is shown exactly when the host's counters ticked and some current sample continues the last
      earlier sample of the pid; it is the share of the last such sample, scaled by the processors (one at least). */
  lemma ProcessPercentExactly(previous: MetricsSnapshot, current: MetricsSnapshot, k: nat)
    requires IsLastOf(previous.processes, k)
    ensures var (percents, last) := (Compared(previous, current).processPercent, previous.processes[k]);
            var total := current.system.cpu.total - previous.system.cpu.total;
            var cpus := if current.system.logicalCpus == 0 then 1 else current.system.logicalCpus;
            && (last.pid in percents <==>
                  total > 0 && previous.system.cpu.idle <= current.system.cpu.idle && HasFollower(current.processes, last))
            && (last.pid in percents ==> IsFigure(percents[last.pid], current.processes, last, total, cpus))
  {
    if Ticking(previous.system, current.system) {
      LastIsSampleOf(previous.processes, k);
      MeasuredExactly(previous.processes, current.processes, TotalTicks(previous.system, current.system),
                      Cpus(current.system), previous.processes[k]);
    }
  }

  /** A process without an earlier sample has no figure. */
  lemma NewProcessHasNone(previous: MetricsSnapshot, current: MetricsSnapshot, pid: int)
    requires forall p :: p in previous.processes ==> p.pid != pid
    ensures pid !in Compared(previous, current).processPercent
  {
    NoSampleOf(previous.processes, pid);
    if Ticking(previous.system, current.system) {
      NotMeasured(previous.processes, current.processes, TotalTicks(previous.system, current.system),
                  Cpus(current.system), pid);
    }
  }
}
