/** classify_drops: pin a dropped-frame burst on a cause by elimination. */
module Attribution {
  import opened Sequences
  import LogScan

  datatype Cause = BackPressure | UdpBuffer | Nic | IpFragments | LinkLoss | CameraBandwidth | Uncertain
  datatype Confidence = High | Medium | Low
  datatype Finding = Finding(cause: Cause, confidence: Confidence)

  /** The per-station signals. A signal that could not be read is None, which is not 0. */
  datatype Signals = Signals(
    dropped: Option<nat>,
    leadupPeak: Option<real>,
    reconnects: nat,
    decoderErrors: nat,
    pingLoss: Option<real>,
    keyframePeak: Option<real>,
    probed: bool)

  /** The host-wide signals of the same cycle. */
  datatype HostSignals = HostSignals(
    cpuBusy: Option<real>,
    udpRate: Option<real>,
    nicRate: Option<real>,
    fragRate: Option<real>)

  datatype Limits = Limits(
    droppedWarn: int,
    fillSpike: real,
    udpRate: real,
    nicRate: real,
    fragRate: real,
    pingLoss: real,
    decoderErrors: int)

  predicate Hot(value: Option<real>, threshold: real) {
    value.Some? && value.value > threshold
  }

  /** There is a burst to explain. */
  predicate Dropping(s: Signals, t: Limits) {
    s.dropped.Some? && s.dropped.value != 0 && s.dropped.value >= t.droppedWarn
  }

  function ClassifyDrops(s: Signals, host: Option<HostSignals>, t: Limits): Option<Finding> {
    if !Dropping(s, t) then None
    else
      var h := if host.Some? then host.value else HostSignals(None, None, None, None);
      if Hot(s.leadupPeak, t.fillSpike) && s.reconnects == 0 then Some(Finding(BackPressure, High))
      else if Hot(h.udpRate, t.udpRate) then Some(Finding(UdpBuffer, High))
      else if Hot(h.nicRate, t.nicRate) then Some(Finding(Nic, High))
      else if Hot(h.fragRate, t.fragRate) then Some(Finding(IpFragments, High))
      else if Hot(s.pingLoss, t.pingLoss) then Some(Finding(LinkLoss, High))
      else if s.decoderErrors >= t.decoderErrors || s.reconnects != 0 then
        var hostKnown := h.cpuBusy.Some? || h.nicRate.Some?;
        Some(Finding(CameraBandwidth,
                     if s.keyframePeak.Some? then High else if hostKnown then Medium else Low))
      else Some(Finding(Uncertain, if s.probed then Medium else Low))
  }

  /** Causes the cheap signals settle; a probe would add nothing. */
  predicate HostExplained(c: Cause) {
    c == BackPressure || c == UdpBuffer || c == Nic || c == IpFragments || c == LinkLoss
  }

  /** How far down the stack a cause lies; the classifier reports the topmost one that is hot. */
  function Depth(c: Cause): nat {
    match c
    case BackPressure => 0
    case UdpBuffer => 1
    case Nic => 2
    case IpFragments => 3
    case LinkLoss => 4
    case CameraBandwidth => 5
    case Uncertain => 6
  }

  /** The evidence for one cause, taken by itself. */
  predicate Evidence(s: Signals, host: Option<HostSignals>, t: Limits, c: Cause) {
    match c
    case BackPressure => Hot(s.leadupPeak, t.fillSpike) && s.reconnects == 0
    case UdpBuffer => host.Some? && Hot(host.value.udpRate, t.udpRate)
    case Nic => host.Some? && Hot(host.value.nicRate, t.nicRate)
    case IpFragments => host.Some? && Hot(host.value.fragRate, t.fragRate)
    case LinkLoss => Hot(s.pingLoss, t.pingLoss)
    case CameraBandwidth => s.decoderErrors >= t.decoderErrors || s.reconnects != 0
    case Uncertain => true
  }

  /** Host signals that tell a clean host from an unread one. */
  predicate HostKnown(host: Option<HostSignals>) {
    host.Some? && (host.value.cpuBusy.Some? || host.value.nicRate.Some?)
  }

  /** The cause is measured: it has a counter of its own, or the probe saw the keyframe burst. */
  predicate Measured(s: Signals, c: Cause) {
    HostExplained(c) || (c == CameraBandwidth && s.keyframePeak.Some?)
  }

  /** Something was ruled out: the host was seen clean of a camera fault, or a probe found nothing. */
  predicate RuledOut(s: Signals, host: Option<HostSignals>, c: Cause) {
    (c == CameraBandwidth && HostKnown(host)) || (c == Uncertain && s.probed)
  }

  /**
   * The verdict is the topmost cause with evidence, and there is one exactly when frames drop;
   * its confidence is high iff measured, else medium iff other causes were ruled out.
   */
  lemma EliminationIsExact(s: Signals, host: Option<HostSignals>, t: Limits)
    ensures ClassifyDrops(s, host, t).None? <==> !Dropping(s, t)
    ensures Dropping(s, t) ==>
              var c := ClassifyDrops(s, host, t).value.cause;
              Evidence(s, host, t, c) && forall d :: Evidence(s, host, t, d) ==> Depth(c) <= Depth(d)
    ensures Dropping(s, t) ==>
              var f := ClassifyDrops(s, host, t).value;
              && (f.confidence == High <==> Measured(s, f.cause))
              && (f.confidence == Medium <==> !Measured(s, f.cause) && RuledOut(s, host, f.cause))
  {
  }

  /**
   * The verdict, read off the signals: what must be hot, and what must not be, for each cause. A
   * host signal that could not be read is not hot.
   */
  lemma VerdictOnSignals(s: Signals, host: Option<HostSignals>, t: Limits)
    ensures ClassifyDrops(s, host, t) == None <==>
            s.dropped == None || s.dropped.value == 0 || s.dropped.value < t.droppedWarn
    ensures ClassifyDrops(s, host, t) != None ==>
              var c := ClassifyDrops(s, host, t).value.cause;
              var spike := s.leadupPeak != None && s.leadupPeak.value > t.fillSpike && s.reconnects == 0;
              var udp := host != None && host.value.udpRate != None && host.value.udpRate.value > t.udpRate;
              var nic := host != None && host.value.nicRate != None && host.value.nicRate.value > t.nicRate;
              var frag := host != None && host.value.fragRate != None && host.value.fragRate.value > t.fragRate;
              var loss := s.pingLoss != None && s.pingLoss.value > t.pingLoss;
              var camera := s.reconnects > 0 || s.decoderErrors >= t.decoderErrors;
              && (c == BackPressure <==> spike)
              && (c == UdpBuffer <==> udp && !spike)
              && (c == Nic <==> nic && !udp && !spike)
              && (c == IpFragments <==> frag && !nic && !udp && !spike)
              && (c == LinkLoss <==> loss && !frag && !nic && !udp && !spike)
              && (c == CameraBandwidth <==> camera && !loss && !frag && !nic && !udp && !spike)
              && (c == Uncertain <==> !camera && !loss && !frag && !nic && !udp && !spike)
    ensures ClassifyDrops(s, host, t) != None ==>
              var f := ClassifyDrops(s, host, t).value;
              var read := host != None && (host.value.cpuBusy != None || host.value.nicRate != None);
              && (f.confidence == Low <==>
                    || (f.cause == CameraBandwidth && s.keyframePeak == None && !read)
                    || (f.cause == Uncertain && !s.probed))
              && (f.confidence == Medium <==>
                    || (f.cause == CameraBandwidth && s.keyframePeak == None && read)
                    || (f.cause == Uncertain && s.probed))
  {
  }

  function Certainty(c: Confidence): nat {
    match c
    case Low => 0
    case Medium => 1
    case High => 2
  }

  /** What a probe measures; either part may fail. */
  datatype Probe = Probe(pingLoss: Option<real>, keyframePeak: Option<real>)

  /** A station's signals with a probe's results merged in. */
  function WithProbe(s: Signals, r: Probe): Signals {
    s.(pingLoss := r.pingLoss, keyframePeak := r.keyframePeak, probed := true)
  }

  /**
   * What a probe can do to a verdict: it never lowers the confidence, and it changes the cause
   * only from one the host does not explain to link loss, exactly when the measured loss is hot.
   */
  lemma ProbeSharpens(s: Signals, r: Probe, host: Option<HostSignals>, t: Limits)
    requires Dropping(s, t) && s.pingLoss == None && s.keyframePeak == None && !s.probed
    ensures Dropping(WithProbe(s, r), t)
    ensures var f, f' := ClassifyDrops(s, host, t).value, ClassifyDrops(WithProbe(s, r), host, t).value;
            && Certainty(f'.confidence) >= Certainty(f.confidence)
            && (f.cause == Uncertain ==> f'.confidence != Low)
            && f'.cause == if !HostExplained(f.cause) && Hot(r.pingLoss, t.pingLoss) then LinkLoss else f.cause
  {
    EliminationIsExact(s, host, t);
    EliminationIsExact(WithProbe(s, r), host, t);
  }

  /** Hence a probe is pointless exactly when something above the camera is hot. */
  lemma HostExplainedIff(s: Signals, host: Option<HostSignals>, t: Limits)
    requires Dropping(s, t)
    ensures HostExplained(ClassifyDrops(s, host, t).value.cause) <==>
            exists c :: HostExplained(c) && Evidence(s, host, t, c)
  {
    EliminationIsExact(s, host, t);
    var c := ClassifyDrops(s, host, t).value.cause;
    if d :| HostExplained(d) && Evidence(s, host, t, d) {
      assert Depth(c) <= Depth(d);
    }
  }

  /** The signals of a station whose log was scanned into r. */
  predicate FromScan(s: Signals, r: LogScan.Result) {
    s.leadupPeak == r.leadupPeak && s.reconnects == r.rebuilds && s.decoderErrors == r.decoderErrors
  }

  /**
   * Line i carries a fill above the threshold, ahead of a drop at j: at most 15 minutes ahead,
   * or at most 90 readings ahead when one of the two has no date.
   */
  ghost predicate SpikeAheadOfDrop(lines: seq<LogScan.Line>, i: nat, j: nat, threshold: real) {
    && i < j < |lines| && lines[i].buffer.Some? && lines[i].buffer.value.fill > threshold
    && (exists k: nat :: LogScan.DropsAt(lines, k, j))
    && (lines[i].ts.Some? && lines[j].ts.Some? ==>
          0 <= lines[j].ts.value - lines[i].ts.value <= 900)
    && (lines[i].ts.None? || lines[j].ts.None? ==> LogScan.Readings(lines, i, j) <= 90)
  }

  /** A lead-up peak above the threshold comes from a line ahead of the drop. */
  lemma {:induction false} PeakIsAhead(lines: seq<LogScan.Line>, peak: real, threshold: real)
    requires LogScan.IsLeadupPeak(LogScan.Points(lines, |lines|), Some(peak)) && peak > threshold
    ensures exists i: nat, j: nat :: SpikeAheadOfDrop(lines, i, j, threshold)
  {
    hide LogScan.Points, LogScan.Readings;
    var ps := LogScan.Points(lines, |lines|);
    var d: nat, k: nat :| LogScan.IsLastDrop(ps, d) && LogScan.InLeadup(ps, d, k) && ps[k].fill == peak;
    LogScan.PointsFacts(lines, |lines|);
    LogScan.DropLines(lines, d);
    assert k < d && (ps[k].ts.Some? ==> LogScan.TimedBefore(ps, d));
    LogScan.ReadingsBetween(lines, k, d);
    assert SpikeAheadOfDrop(lines, ps[k].at, ps[d].at, threshold);
  }

  /**
   * From the log to the verdict: back-pressure is only ever blamed when no reconnect counted
   * in the window, and some line a bounded way ahead of a drop shows the buffer filling up.
   */
  lemma {:induction false} BackPressureIsGenuine(
      lines: seq<LogScan.Line>, now: real, window: Option<real>, r: LogScan.Result,
      s: Signals, host: Option<HostSignals>, t: Limits)
    requires r.rebuilds == |LogScan.AllHits(lines, LogScan.Cutoff(now, window), LogScan.Rebuild)|
    requires LogScan.IsLeadupPeak(LogScan.Points(lines, |lines|), r.leadupPeak)
    requires FromScan(s, r)
    requires ClassifyDrops(s, host, t).Some? && ClassifyDrops(s, host, t).value.cause == BackPressure
    ensures LogScan.AllHits(lines, LogScan.Cutoff(now, window), LogScan.Rebuild) == {}
    ensures exists i: nat, j: nat :: SpikeAheadOfDrop(lines, i, j, t.fillSpike)
  {
    hide LogScan.AllHits, LogScan.Points, SpikeAheadOfDrop, LogScan.IsLeadupPeak;
    EliminationIsExact(s, host, t);
    assert |LogScan.AllHits(lines, LogScan.Cutoff(now, window), LogScan.Rebuild)| == 0;
    PeakIsAhead(lines, s.leadupPeak.value, t.fillSpike);
  }
}
