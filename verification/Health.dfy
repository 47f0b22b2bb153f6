/**
 * The verdict engine: every check in the order evaluate and evaluate_host run them, what a
 * disabled check removes, and how the verdicts of different functions agree.
 */
module Health {
  import opened Sequences
  import BootMarker

  datatype Status = Ok | Degraded | Error

  function Rank(s: Status): nat {
    match s
    case Ok => 0
    case Degraded => 1
    case Error => 2
  }

  function Worse(a: Status, b: Status): Status {
    if Rank(a) >= Rank(b) then a else b
  }

  datatype Key =
    | CameraUnreachable | CaptureDown | CaptureDuplicate | DataUnreadable | CaptureStalled
    | DetectionStalled | PlateparMismatch | ConfigFovMismatch | BackendFallback | TimelapseMissing
    | TimelapseOverdue | LogFatal | LogWarning | WatchdogEvent | DiskLow | UploadBacklog | ClockUnsynced
    | ClockUncertainty | DroppedFrames | DroppedFramesLive | Oom | MemPressure | UdpRcvbufErrors
    | NicErrors | NicLinkSlow | DiskErrors | UpdateBlocked | UncleanShutdown

  datatype Problem = Problem(level: Status, key: Key)

  // ----- Problem lists and disabled checks -----

  function Kept(ps: seq<Problem>, disabled: set<Key>): (r: seq<Problem>)
    ensures forall p :: p in r <==> p in ps && p.key !in disabled
  {
    if ps == [] then []
    else (if ps[0].key in disabled then [] else [ps[0]]) + Kept(ps[1..], disabled)
  }

  /** The worst severity; Ok exactly for the empty list. */
  function Worst(ps: seq<Problem>): (s: Status)
    requires forall p :: p in ps ==> p.level != Ok
    ensures s == Ok <==> ps == []
    ensures forall p :: p in ps ==> Rank(p.level) <= Rank(s)
    ensures ps != [] ==> exists p :: p in ps && p.level == s
  {
    if ps == [] then Ok
    else
      var init, last := ps[..|ps| - 1], ps[|ps| - 1];
      var w := Worst(init);
      assert last in ps && forall p :: p in ps <==> p in init || p == last;
      Worse(w, last.level)
  }

  lemma {:induction false} KeptConcat(a: seq<Problem>, b: seq<Problem>, disabled: set<Key>)
    ensures Kept(a + b, disabled) == Kept(a, disabled) + Kept(b, disabled)
  {
    if a == [] {
      assert a + b == b;
    } else {
      assert (a + b)[1..] == a[1..] + b;
      KeptConcat(a[1..], b, disabled);
    }
  }

  lemma KeptOne(level: Status, key: Key, disabled: set<Key>)
    ensures Kept([Problem(level, key)], disabled) == if key in disabled then [] else [Problem(level, key)]
    ensures Kept([], disabled) == []
  {
  }

  /** Disabling in two steps or in one leaves the same problems, in the same order. */
  lemma {:induction false} KeptTwice(ps: seq<Problem>, d: set<Key>, e: set<Key>)
    ensures Kept(Kept(ps, d), e) == Kept(ps, d + e)
  {
    if ps != [] {
      KeptTwice(ps[1..], d, e);
      var head := if ps[0].key in d then [] else [ps[0]];
      KeptConcat(head, Kept(ps[1..], d), e);
    }
  }

  // ----- What a record holds -----

  datatype Output = Ff | Frames | Transition | Idle

  datatype Metrics = Metrics(
    standby: bool, instances: nat, alive: bool, dataReadable: Option<bool>,
    expected: Option<Output>, nightFrames: Option<bool>,
    fitsAge: Option<real>, frameAge: Option<real>, sessionAge: Option<real>,
    captureAge: Option<real>, captureWait: real,
    plateparMismatch: bool, fellBack: bool, fovMismatch: bool,
    fitsCount: nat, ftpdetect: bool, calstars: bool,
    timelapseAge: Option<real>, timelapsePresent: Option<bool>,
    newestTimelapse: Option<real>, framesData: Option<real>,
    fatals: nat, warnings: nat, watchdog: bool, diskFree: Option<real>, uploadQueue: nat,
    clockUnsynced: bool, clockError: Option<real>, dropRate: Option<real>, dropped: nat)

  datatype Thresholds = Thresholds(
    outputFresh: real, restartGrace: real, activeWindow: real, detectionGrace: real,
    timelapseGrace: real, timelapseMax: real, diskWarn: real, diskError: real, uploadWarn: int,
    clockError: real, warningsWarn: int, dropRate: real, catastrophic: int)

  /** The frame tag names night (true) or day (false) when the schedule is unknown. */
  function ResolveExpected(m: Metrics, t: Thresholds): Output {
    if m.expected.Some? then m.expected.value
    else if m.nightFrames == Some(true) then Ff
    else if m.nightFrames == Some(false) then Frames
    else if m.sessionAge.Some? && m.sessionAge.value <= t.activeWindow then Ff
    else Idle
  }

  predicate Settling(m: Metrics, t: Thresholds) {
    m.captureAge.Some? && m.captureAge.value < t.restartGrace + m.captureWait
  }

  function OutputAge(m: Metrics, t: Thresholds): Option<real> {
    match ResolveExpected(m, t)
    case Ff => m.fitsAge
    case Frames => m.frameAge
    case _ => None
  }

  /** The gate in front of the reachability ping. */
  predicate OutputStalled(m: Metrics, t: Thresholds) {
    if Settling(m, t) then false
    else
      var expected := ResolveExpected(m, t);
      if expected != Ff && expected != Frames then false
      else
        var age := OutputAge(m, t);
        if age.Some? then age.value >= t.outputFresh
        else
          var elapsed := if m.sessionAge.Some? then m.sessionAge else m.captureAge;
          elapsed.Some? && elapsed.value >= t.outputFresh
  }

  datatype LinkRule = Off | Auto | Floor(mbps: real)

  datatype Link = Link(speed: Option<real>, partner: Option<real>, halfDuplex: bool)

  datatype HostMetrics = HostMetrics(
    updateBlocked: bool, shutdown: Option<BootMarker.Verdict>, shutdownAge: Option<real>,
    oomKills: nat, oomAge: Option<real>, uptime: Option<real>, restartAge: Option<real>, pythonVictim: bool,
    psi10: Option<real>, psi60: Option<real>, udpRate: Option<real>, nicRate: Option<real>,
    links: seq<Link>, readOnly: bool, diskErrors: nat)

  datatype HostThresholds = HostThresholds(
    uncleanRecent: real, oomRecent: real, psi10: real, psi60: real, udpRate: real, nicRate: real,
    link: LinkRule)

  predicate Above(value: Option<real>, threshold: real) {
    value.Some? && value.value > threshold
  }

  /** The kill's damage is gone: capture restarted since, or the host rebooted since. */
  predicate OomRecovered(h: HostMetrics) {
    h.oomAge.Some? &&
    ((h.restartAge.Some? && h.restartAge.value < h.oomAge.value) ||
     (h.uptime.Some? && h.oomAge.value > h.uptime.value + 60.0))
  }

  function LinkFloor(link: Link, rule: LinkRule): Option<real> {
    match rule
    case Off => None
    case Auto => link.partner
    case Floor(mbps) => Some(mbps)
  }

  predicate LinkSlow(link: Link, rule: LinkRule) {
    rule != Off && link.speed.Some? &&
    var floor := LinkFloor(link, rule);
    (floor.Some? && link.speed.value < floor.value) || link.halfDuplex
  }

  /** A night of capture long under way, and the detector has produced neither of its files. */
  predicate DetectionFires(m: Metrics, t: Thresholds) {
    ResolveExpected(m, t) == Ff && m.fitsCount > 0 && m.sessionAge.Some? &&
    m.sessionAge.value > t.detectionGrace && !m.ftpdetect && !m.calstars
  }

  /** Frames are fresh, and the newest timelapse, or failing any the oldest frames data, is too old. */
  predicate OverdueFires(m: Metrics, t: Thresholds) {
    m.frameAge.Some? && m.frameAge.value <= t.outputFresh &&
    if m.newestTimelapse.None? then Above(m.framesData, t.timelapseMax)
    else m.timelapsePresent == Some(false) && Above(m.newestTimelapse, t.timelapseMax)
  }

  // ----- The checks, independently of the order they run in -----

  datatype Record =
    | Station(m: Metrics, t: Thresholds)
    | Host(h: HostMetrics, ht: HostThresholds)

  /** The data-dependent checks make sense. */
  predicate Observable(m: Metrics) {
    !m.standby && m.alive && m.dataReadable != Some(false)
  }

  predicate StationFires(m: Metrics, t: Thresholds, key: Key) {
    match key
    case CameraUnreachable => m.standby
    case CaptureDuplicate => !m.standby && m.instances > 1
    case CaptureDown => !m.standby && !m.alive
    case DataUnreadable => !m.standby && m.alive && m.dataReadable == Some(false)
    case CaptureStalled => Observable(m) && OutputStalled(m, t) && OutputAge(m, t).Some?
    case PlateparMismatch => Observable(m) && m.plateparMismatch
    case BackendFallback => Observable(m) && m.fellBack
    case ConfigFovMismatch => Observable(m) && m.fovMismatch
    case DetectionStalled => Observable(m) && DetectionFires(m, t)
    case TimelapseMissing =>
      Observable(m) && m.timelapseAge.Some? && m.timelapseAge.value >= t.timelapseGrace &&
      m.timelapsePresent == Some(false)
    case TimelapseOverdue => Observable(m) && OverdueFires(m, t)
    case LogFatal => Observable(m) && m.fatals != 0
    case LogWarning => Observable(m) && m.warnings >= t.warningsWarn
    case WatchdogEvent => Observable(m) && m.watchdog
    case DiskLow =>
      Observable(m) && m.diskFree.Some? && (m.diskFree.value <= t.diskError || m.diskFree.value <= t.diskWarn)
    case UploadBacklog => Observable(m) && m.uploadQueue >= t.uploadWarn
    case ClockUnsynced => Observable(m) && m.clockUnsynced
    case ClockUncertainty => Observable(m) && Above(m.clockError, t.clockError)
    case DroppedFrames => Observable(m) && Above(m.dropRate, t.dropRate)
    case DroppedFramesLive => Observable(m) && m.dropped >= t.catastrophic
    case _ => false
  }

  predicate HostFires(h: HostMetrics, t: HostThresholds, key: Key) {
    match key
    case UpdateBlocked => h.updateBlocked
    case UncleanShutdown =>
      h.shutdown == Some(BootMarker.Unclean) && !Above(h.shutdownAge, t.uncleanRecent)
    case Oom => h.oomKills != 0 && !OomRecovered(h)
    case MemPressure => Above(h.psi60, t.psi60) || Above(h.psi10, t.psi10)
    case UdpRcvbufErrors => Above(h.udpRate, t.udpRate)
    case NicErrors => Above(h.nicRate, t.nicRate)
    case NicLinkSlow => exists i :: 0 <= i < |h.links| && LinkSlow(h.links[i], t.link)
    case DiskErrors => h.readOnly || h.diskErrors != 0
    case _ => false
  }

  predicate Fires(r: Record, key: Key) {
    match r
    case Station(m, t) => StationFires(m, t, key)
    case Host(h, t) => HostFires(h, t, key)
  }

  function Severity(r: Record, key: Key): (s: Status)
    ensures s != Ok
  {
    match r
    case Station(m, t) => (
      match key
      case CameraUnreachable => Error
      case CaptureDuplicate => Error
      case CaptureDown => Error
      case CaptureStalled => Error
      case PlateparMismatch => Error
      case DetectionStalled => Error
      case LogFatal => Error
      case DroppedFramesLive => Error
      case DiskLow => if m.diskFree.Some? && m.diskFree.value <= t.diskError then Error else Degraded
      case _ => Degraded)
    case Host(h, t) => (
      match key
      case Oom => if !Above(h.oomAge, t.oomRecent) && h.pythonVictim then Error else Degraded
      case MemPressure => if Above(h.psi60, t.psi60) then Error else Degraded
      case DiskErrors => if h.readOnly then Error else Degraded
      case _ => Degraded)
  }

  /** The order of the report. */
  function KeyAt(r: Record, i: nat): Key
    requires i < Count(r)
  {
    match r
    case Station(_, _) =>
      if i == 0 then CameraUnreachable else if i == 1 then CaptureDuplicate
      else if i == 2 then CaptureDown else if i == 3 then DataUnreadable
      else if i == 4 then CaptureStalled else if i == 5 then PlateparMismatch
      else if i == 6 then BackendFallback else if i == 7 then ConfigFovMismatch
      else if i == 8 then DetectionStalled else if i == 9 then TimelapseMissing
      else if i == 10 then TimelapseOverdue else if i == 11 then LogFatal
      else if i == 12 then LogWarning else if i == 13 then WatchdogEvent
      else if i == 14 then DiskLow else if i == 15 then UploadBacklog
      else if i == 16 then ClockUnsynced else if i == 17 then ClockUncertainty
      else if i == 18 then DroppedFrames else DroppedFramesLive
    case Host(_, _) =>
      if i == 0 then UpdateBlocked else if i == 1 then UncleanShutdown else if i == 2 then Oom
      else if i == 3 then MemPressure else if i == 4 then UdpRcvbufErrors else if i == 5 then NicErrors
      else if i == 6 then NicLinkSlow else DiskErrors
  }

  function Count(r: Record): nat {
    match r
    case Station(_, _) => 20
    case Host(_, _) => 8
  }

  /** Where a check stands in the report; Count(r) for a check the report does not hold. */
  function Position(r: Record, key: Key): (i: nat)
    ensures i <= Count(r)
    ensures i < Count(r) ==> KeyAt(r, i) == key
  {
    match r
    case Station(_, _) => (
      match key
      case CameraUnreachable => 0
      case CaptureDuplicate => 1
      case CaptureDown => 2
      case DataUnreadable => 3
      case CaptureStalled => 4
      case PlateparMismatch => 5
      case BackendFallback => 6
      case ConfigFovMismatch => 7
      case DetectionStalled => 8
      case TimelapseMissing => 9
      case TimelapseOverdue => 10
      case LogFatal => 11
      case LogWarning => 12
      case WatchdogEvent => 13
      case DiskLow => 14
      case UploadBacklog => 15
      case ClockUnsynced => 16
      case ClockUncertainty => 17
      case DroppedFrames => 18
      case DroppedFramesLive => 19
      case _ => 20)
    case Host(_, _) => (
      match key
      case UpdateBlocked => 0
      case UncleanShutdown => 1
      case Oom => 2
      case MemPressure => 3
      case UdpRcvbufErrors => 4
      case NicErrors => 5
      case NicLinkSlow => 6
      case DiskErrors => 7
      case _ => 8)
  }

  lemma PositionOf(r: Record, i: nat)
    requires i < Count(r)
    ensures Position(r, KeyAt(r, i)) == i
  {
  }

  /** The problems of the first n checks of the report. */
  function Upto(r: Record, n: nat): (ps: seq<Problem>)
    requires n <= Count(r)
    ensures forall p :: p in ps ==> p.level != Ok
  {
    if n == 0 then []
    else
      var key := KeyAt(r, n - 1);
      Upto(r, n - 1) + (if Fires(r, key) then [Problem(Severity(r, key), key)] else [])
  }

  /** Every problem of a record, with all checks enabled. */
  function AllProblems(r: Record): seq<Problem> {
    Upto(r, Count(r))
  }

  // ----- The evaluator -----

  /** The state evaluate's flag closure shares. The ghost fields follow the report. */
  class Flagger {
    const disabled: set<Key>
    var status: Status
    var problems: seq<Problem>
    ghost const subject: Record
    ghost var next: nat

    ghost predicate Valid()
      reads this
    {
      next <= Count(subject) &&
      problems == Kept(Upto(subject, next), disabled) && status == Worst(problems)
    }

    constructor (disabled: set<Key>, ghost subject: Record)
      ensures Valid() && next == 0 && this.disabled == disabled && this.subject == subject
    {
      this.disabled := disabled;
      this.subject := subject;
      status, problems, next := Ok, [], 0;
    }

    method Flag(level: Status, key: Key)
      requires level != Ok && forall p :: p in problems ==> p.level != Ok
      requires status == Worst(problems)
      modifies this
      ensures problems == old(problems) + (if key in disabled then [] else [Problem(level, key)])
      ensures forall p :: p in problems ==> p.level != Ok
      ensures status == Worst(problems) && next == old(next)
    {
      if key in disabled {
        return;
      }
      status := Worse(status, level);
      problems := problems + [Problem(level, key)];
      assert problems[..|problems| - 1] == old(problems);
    }

    /** The next check of the report: raise its problem if it fires. */
    method Check(fires: bool, level: Status, key: Key)
      requires Valid() && next < Count(subject) && Position(subject, key) == next
      requires fires <==> Fires(subject, key)
      requires level == Severity(subject, key)
      modifies this
      ensures Valid() && next == old(next) + 1
    {
      hide Fires, Severity, KeyAt, Count, Kept, Worst, Position;
      ghost var found := if fires then [Problem(level, key)] else [];
      KeptConcat(Upto(subject, next), found, disabled);
      KeptOne(level, key, disabled);
      if fires {
        Flag(level, key);
      }
      next := next + 1;
    }

    /** The report stops early when none of the remaining checks can fire. */
    ghost method Finish()
      requires Valid()
      requires forall key :: Fires(subject, key) ==> Position(subject, key) < next
      modifies this
      ensures Valid() && next == Count(subject)
      ensures problems == old(problems) && status == old(status)
      decreases Count(subject) - next
    {
      hide Fires, Severity, KeyAt, Kept, Worst, Position;
      NoneLeft(subject, next);
      next := Count(subject);
    }
  }

  lemma {:induction false} NoneLeft(r: Record, n: nat)
    requires n <= Count(r)
    requires forall key :: Fires(r, key) ==> Position(r, key) < n
    ensures Upto(r, n) == AllProblems(r)
    decreases Count(r) - n
  {
    hide Fires, Severity, KeyAt, Count, Position;
    if n < Count(r) {
      PositionOf(r, n);
      NoneLeft(r, n + 1);
    }
  }

  /** The verdict on a station with some checks disabled: the full verdict, their problems struck out. */
  method Evaluate(m: Metrics, t: Thresholds, disabled: set<Key>)
    returns (status: Status, problems: seq<Problem>)
    ensures problems == Kept(AllProblems(Station(m, t)), disabled)
    ensures status == Worst(problems)
  {
    hide Kept, Worst, Upto, Fires, KeyAt;
    var f := new Flagger(disabled, Station(m, t));
    var observable := CheckReachable(f, m, t);
    if observable {
      CheckOutput(f, m, t);
      CheckLog(f, m, t);
      CheckSummary(f, m, t);
    }
    return f.status, f.problems;
  }

  /** The checks that end the report when they fire. */
  method CheckReachable(f: Flagger, m: Metrics, t: Thresholds) returns (observable: bool)
    requires f.Valid() && f.subject == Station(m, t) && f.next == 0
    modifies f
    ensures f.Valid() && observable == Observable(m)
    ensures f.next == if observable then 4 else 20
  {
    hide Flagger.Valid, KeyAt;
    f.Check(m.standby, Error, CameraUnreachable);
    if m.standby {
      StopsReport(m, t);
      f.Finish();
      return false;
    }
    f.Check(m.instances > 1, Error, CaptureDuplicate);
    f.Check(!m.alive, Error, CaptureDown);
    if !m.alive {
      StopsReport(m, t);
      f.Finish();
      return false;
    }
    f.Check(m.dataReadable == Some(false), Degraded, DataUnreadable);
    if m.dataReadable == Some(false) {
      StopsReport(m, t);
      f.Finish();
      return false;
    }
    return true;
  }

  /** No check after the one that ended the report can fire. */
  lemma StopsReport(m: Metrics, t: Thresholds)
    ensures forall key :: Fires(Station(m, t), key) ==>
              Position(Station(m, t), key) <
              if m.standby then 1 else if !m.alive then 3 else if m.dataReadable == Some(false) then 4 else 20
  {
  }

  method CheckOutput(f: Flagger, m: Metrics, t: Thresholds)
    requires f.Valid() && f.subject == Station(m, t) && f.next == 4 && Observable(m)
    modifies f
    ensures f.Valid() && f.next == 11
  {
    hide Flagger.Valid, KeyAt, DetectionFires, OverdueFires, OutputStalled, OutputAge;
    var stalled := StallTest(m, t);
    f.Check(stalled, Error, CaptureStalled);
    f.Check(m.plateparMismatch, Error, PlateparMismatch);
    f.Check(m.fellBack, Degraded, BackendFallback);
    f.Check(m.fovMismatch, Degraded, ConfigFovMismatch);
    var silent := DetectionTest(m, t);
    f.Check(silent, Error, DetectionStalled);
    f.Check(m.timelapseAge.Some? && m.timelapseAge.value >= t.timelapseGrace &&
            m.timelapsePresent == Some(false), Degraded, TimelapseMissing);
    var overdue := OverdueTest(m, t);
    f.Check(overdue.Some?, Degraded, TimelapseOverdue);
  }

  /** The inline stall test of evaluate agrees with the gate, wherever an output age is known. */
  method StallTest(m: Metrics, t: Thresholds) returns (stalled: bool)
    ensures stalled <==> OutputStalled(m, t) && OutputAge(m, t).Some?
  {
    var expected := ResolveExpected(m, t);
    var settling := m.captureAge.Some? && m.captureAge.value < t.restartGrace + m.captureWait;
    stalled := false;
    if expected == Ff && m.fitsAge.Some? && m.fitsAge.value >= t.outputFresh && !settling {
      stalled := true;
    } else if expected == Frames && m.frameAge.Some? && m.frameAge.value >= t.outputFresh && !settling {
      stalled := true;
    }
  }

  method DetectionTest(m: Metrics, t: Thresholds) returns (silent: bool)
    ensures silent <==> DetectionFires(m, t)
  {
    var expected := ResolveExpected(m, t);
    silent := false;
    if expected == Ff && m.fitsCount > 0 && m.sessionAge.Some? && m.sessionAge.value > t.detectionGrace {
      silent := !m.ftpdetect && !m.calstars;
    }
  }

  /** How long no timelapse has appeared; an age only when the check fires. */
  method OverdueTest(m: Metrics, t: Thresholds) returns (overdue: Option<real>)
    ensures overdue.Some? <==> OverdueFires(m, t)
    ensures overdue.Some? ==>
              overdue == (if m.newestTimelapse.Some? then m.newestTimelapse else m.framesData) &&
              overdue.value > t.timelapseMax
  {
    overdue := None;
    if m.frameAge.Some? && m.frameAge.value <= t.outputFresh {
      if m.newestTimelapse.None? {
        if m.framesData.Some? && m.framesData.value > t.timelapseMax {
          overdue := m.framesData;
        }
      } else if m.timelapsePresent == Some(false) {
        if m.newestTimelapse.value > t.timelapseMax {
          overdue := m.newestTimelapse;
        }
      }
    }
  }

  method CheckLog(f: Flagger, m: Metrics, t: Thresholds)
    requires f.Valid() && f.subject == Station(m, t) && f.next == 11 && Observable(m)
    modifies f
    ensures f.Valid() && f.next == 16
  {
    hide Flagger.Valid, KeyAt;
    f.Check(m.fatals != 0, Error, LogFatal);
    f.Check(m.warnings >= t.warningsWarn, Degraded, LogWarning);
    f.Check(m.watchdog, Degraded, WatchdogEvent);
    var low := DiskTest(m, t);
    f.Check(low.Some?, LevelOf(low), DiskLow);
    f.Check(m.uploadQueue >= t.uploadWarn, Degraded, UploadBacklog);
  }

  method CheckSummary(f: Flagger, m: Metrics, t: Thresholds)
    requires f.Valid() && f.subject == Station(m, t) && f.next == 16 && Observable(m)
    modifies f
    ensures f.Valid() && f.next == 20
  {
    hide Flagger.Valid, KeyAt;
    f.Check(m.clockUnsynced, Degraded, ClockUnsynced);
    f.Check(Above(m.clockError, t.clockError), Degraded, ClockUncertainty);
    f.Check(Above(m.dropRate, t.dropRate), Degraded, DroppedFrames);
    f.Check(m.dropped >= t.catastrophic, Error, DroppedFramesLive);
  }

  function LevelOf(found: Option<Status>): Status {
    if found.Some? then found.value else Degraded
  }

  method DiskTest(m: Metrics, t: Thresholds) returns (low: Option<Status>)
    ensures low.Some? <==>
            m.diskFree.Some? && (m.diskFree.value <= t.diskError || m.diskFree.value <= t.diskWarn)
    ensures low.Some? ==> low.value == if m.diskFree.value <= t.diskError then Error else Degraded
  {
    low := None;
    if m.diskFree.Some? {
      if m.diskFree.value <= t.diskError {
        low := Some(Error);
      } else if m.diskFree.value <= t.diskWarn {
        low := Some(Degraded);
      }
    }
  }

  /** The sustained stall hides the onset. */
  method PressureTest(h: HostMetrics, t: HostThresholds) returns (pressed: Option<Status>)
    ensures pressed.Some? <==> Above(h.psi60, t.psi60) || Above(h.psi10, t.psi10)
    ensures pressed == Some(Error) <==> Above(h.psi60, t.psi60)
    ensures pressed != Some(Ok)
  {
    pressed := None;
    if h.psi60.Some? && h.psi60.value > t.psi60 {
      pressed := Some(Error);
    } else if h.psi10.Some? && h.psi10.value > t.psi10 {
      pressed := Some(Degraded);
    }
  }

  method StorageTest(h: HostMetrics) returns (failing: Option<Status>)
    ensures failing.Some? <==> h.readOnly || h.diskErrors != 0
    ensures failing.Some? ==> failing.value == if h.readOnly then Error else Degraded
  {
    failing := None;
    if h.readOnly {
      failing := Some(Error);
    } else if h.diskErrors != 0 {
      failing := Some(Degraded);
    }
  }

  /** Some interface has a reason to be called slow; one whose speed cannot be read has none. */
  method AnyLinkSlow(h: HostMetrics, rule: LinkRule) returns (any: bool)
    ensures any <==> exists i :: 0 <= i < |h.links| && LinkSlow(h.links[i], rule)
  {
    any := false;
    for i := 0 to |h.links|
      invariant any <==> exists k :: 0 <= k < i && LinkSlow(h.links[k], rule)
    {
      var link := h.links[i];
      if rule.Off? || link.speed.None? {
        continue;
      }
      var floor := if rule.Auto? then link.partner else Some(rule.mbps);
      if (floor.Some? && link.speed.value < floor.value) || link.halfDuplex {
        any := true;
      }
    }
  }

  method EvaluateHost(h: HostMetrics, t: HostThresholds, disabled: set<Key>)
    returns (status: Status, problems: seq<Problem>)
    ensures problems == Kept(AllProblems(Host(h, t)), disabled)
    ensures status == Worst(problems)
  {
    hide Kept, Worst, Upto;
    var f := new Flagger(disabled, Host(h, t));
    CheckKernel(f, h, t);
    CheckDevices(f, h, t);
    return f.status, f.problems;
  }

  method CheckKernel(f: Flagger, h: HostMetrics, t: HostThresholds)
    requires f.Valid() && f.subject == Host(h, t) && f.next == 0
    modifies f
    ensures f.Valid() && f.next == 4
  {
    hide Flagger.Valid, KeyAt, OomRecovered;
    f.Check(h.updateBlocked, Degraded, UpdateBlocked);
    f.Check(h.shutdown == Some(BootMarker.Unclean) &&
            (h.shutdownAge.None? || h.shutdownAge.value <= t.uncleanRecent), Degraded, UncleanShutdown);
    var damaged, level := OomTest(h, t);
    f.Check(damaged, level, Oom);
    var pressed := PressureTest(h, t);
    f.Check(pressed.Some?, LevelOf(pressed), MemPressure);
  }

  /** Kills since boot matter until capture or the host has restarted; a fresh one of capture itself most. */
  method OomTest(h: HostMetrics, t: HostThresholds) returns (damaged: bool, level: Status)
    ensures damaged <==> h.oomKills != 0 && !OomRecovered(h)
    ensures level == Error <==> !Above(h.oomAge, t.oomRecent) && h.pythonVictim
    ensures level != Ok
  {
    var restarted := h.oomAge.Some? && h.restartAge.Some? && h.restartAge.value < h.oomAge.value;
    var rebooted := h.oomAge.Some? && h.uptime.Some? && h.oomAge.value > h.uptime.value + 60.0;
    damaged := false;
    if h.oomKills != 0 {
      damaged := !(restarted || rebooted);
    }
    level := Degraded;
    if h.oomAge.None? || h.oomAge.value <= t.oomRecent {
      if h.pythonVictim {
        level := Error;
      }
    }
  }

  method CheckDevices(f: Flagger, h: HostMetrics, t: HostThresholds)
    requires f.Valid() && f.subject == Host(h, t) && f.next == 4
    modifies f
    ensures f.Valid() && f.next == 8
  {
    hide Flagger.Valid, KeyAt, LinkSlow;
    f.Check(Above(h.udpRate, t.udpRate), Degraded, UdpRcvbufErrors);
    f.Check(Above(h.nicRate, t.nicRate), Degraded, NicErrors);
    var slow := AnyLinkSlow(h, t.link);
    f.Check(slow, Degraded, NicLinkSlow);
    var failing := StorageTest(h);
    f.Check(failing.Some?, LevelOf(failing), DiskErrors);
  }

  // ----- What the verdict means -----

  lemma FiringIsListed(r: Record, key: Key)
    requires Fires(r, key)
    ensures Position(r, key) < Count(r)
  {
  }

  /** The first n checks list a problem exactly when one of them fires, in order of position. */
  lemma {:induction false} UptoListsFiring(r: Record, n: nat)
    requires n <= Count(r)
    ensures forall p :: p in Upto(r, n) <==>
              Fires(r, p.key) && p.level == Severity(r, p.key) && Position(r, p.key) < n
    ensures forall i, j :: 0 <= i < j < |Upto(r, n)| ==>
              Position(r, Upto(r, n)[i].key) < Position(r, Upto(r, n)[j].key)
  {
    hide Fires, Severity, KeyAt, Count, Position;
    if n > 0 {
      UptoListsFiring(r, n - 1);
      PositionOf(r, n - 1);
      var before, key := Upto(r, n - 1), KeyAt(r, n - 1);
      assert forall i :: 0 <= i < |before| ==> before[i] in before;
      forall p: Problem ensures Position(r, p.key) < n <==> Position(r, p.key) < n - 1 || p.key == key {
        if Position(r, p.key) == n - 1 { assert KeyAt(r, Position(r, p.key)) == p.key; }
      }
    }
  }

  /**
   * The report holds each firing check once, with its severity and in report order, and
   * nothing else; a disabled check is the only thing that can remove one.
   */
  lemma ReportIsExact(r: Record, disabled: set<Key>)
    ensures forall p :: p in Kept(AllProblems(r), disabled) <==>
              Fires(r, p.key) && p.level == Severity(r, p.key) && p.key !in disabled
    ensures var ps := AllProblems(r);
            forall i, j :: 0 <= i < j < |ps| ==> Position(r, ps[i].key) < Position(r, ps[j].key)
  {
    hide Fires, Severity, KeyAt, Kept, Upto;
    UptoListsFiring(r, Count(r));
    forall p: Problem | Fires(r, p.key) ensures Position(r, p.key) < Count(r) {
      FiringIsListed(r, p.key);
    }
  }

  /** Disabling more checks never worsens the status. */
  lemma DisablingNeverWorsens(r: Record, d: set<Key>, d': set<Key>)
    requires d <= d'
    ensures Kept(AllProblems(r), d') == Kept(Kept(AllProblems(r), d), d')
    ensures Rank(Worst(Kept(AllProblems(r), d'))) <= Rank(Worst(Kept(AllProblems(r), d)))
  {
    hide Upto, Kept, Worst;
    KeptTwice(AllProblems(r), d, d');
    assert d + d' == d';
  }

  /**
   * The power-cut advisory over a whole multi-boot run: it is raised exactly when the last
   * event of the previous monitored boot was a start or a heartbeat, for as long as that boot
   * was last seen alive no longer ago than the limit.
   */
  lemma PowerCutAdvisory(run: seq<BootMarker.Event>, last: int, now: real, h: HostMetrics, t: HostThresholds)
    requires BootMarker.Lifecycle(run) && BootMarker.DistinctBoots(run) && run != []
    requires -1 <= last < |run|
    requires last >= 0 ==> run[last].boot != BootMarker.Latest(run).boot
    requires forall i :: last < i < |run| ==> run[i].boot == BootMarker.Latest(run).boot
    requires BootMarker.After(run).rec.Some?
    requires h.shutdown == BootMarker.After(run).rec.value.verdict
    requires h.shutdownAge == BootMarker.Age(BootMarker.After(run).rec.value, now)
    ensures Fires(Host(h, t), UncleanShutdown) <==>
            last >= 0 && !run[last].op.Stop? && h.shutdownAge.Some? && h.shutdownAge.value <= t.uncleanRecent
    ensures Fires(Host(h, t), UncleanShutdown) ==>
              h.shutdownAge.value < now - run[last].now + BootMarker.HEARTBEAT || h.shutdownAge.value == 0.0
  {
    hide BootMarker.After, BootMarker.Lifecycle;
    BootMarker.PublishedVerdict(run, last);
  }

  // ----- Every check, read off the record -----

  /** What output is expected; the frame tag, then the session's age, stand in for an unknown schedule. */
  lemma ExpectedOnFields(m: Metrics, t: Thresholds)
    ensures ResolveExpected(m, t) == Ff <==>
            || m.expected == Some(Ff)
            || (m.expected == None && m.nightFrames == Some(true))
            || (m.expected == None && m.nightFrames == None && m.sessionAge != None &&
                m.sessionAge.value <= t.activeWindow)
    ensures ResolveExpected(m, t) == Frames <==>
            m.expected == Some(Frames) || (m.expected == None && m.nightFrames == Some(false))
    ensures ResolveExpected(m, t) == Transition <==> m.expected == Some(Transition)
  {
    assert m.nightFrames == None || m.nightFrames == Some(true) || m.nightFrames == Some(false) by {
      if m.nightFrames.Some? && m.nightFrames.value { assert m.nightFrames == Some(true); }
    }
  }

  /** The ping gate: stale output, or none ever after long enough, once the process has settled. */
  lemma GateOnFields(m: Metrics, t: Thresholds)
    ensures OutputStalled(m, t) <==>
            && (m.captureAge == None || m.captureAge.value >= t.restartGrace + m.captureWait)
            && (ResolveExpected(m, t) == Ff || ResolveExpected(m, t) == Frames)
            && var age := if ResolveExpected(m, t) == Ff then m.fitsAge else m.frameAge;
               || (age != None && age.value >= t.outputFresh)
               || (age == None && m.sessionAge != None && m.sessionAge.value >= t.outputFresh)
               || (age == None && m.sessionAge == None && m.captureAge != None && m.captureAge.value >= t.outputFresh)
  {
  }

  /** The checks that can end a station's report, and those on its output. */
  lemma OutputChecksOnFields(m: Metrics, t: Thresholds)
    ensures var r := Station(m, t);
            && (Fires(r, CameraUnreachable) <==> m.standby)
            && (Fires(r, CaptureDuplicate) <==> !m.standby && m.instances >= 2)
            && (Fires(r, CaptureDown) <==> !m.standby && !m.alive)
            && (Fires(r, DataUnreadable) <==> !m.standby && m.alive && m.dataReadable == Some(false))
    ensures var r, seen := Station(m, t), !m.standby && m.alive && m.dataReadable != Some(false);
            && (Fires(r, CaptureStalled) <==>
                  && seen && (m.captureAge == None || m.captureAge.value >= t.restartGrace + m.captureWait)
                  && (|| (ResolveExpected(m, t) == Ff && m.fitsAge != None && m.fitsAge.value >= t.outputFresh)
                      || (ResolveExpected(m, t) == Frames && m.frameAge != None && m.frameAge.value >= t.outputFresh)))
            && (Fires(r, PlateparMismatch) <==> seen && m.plateparMismatch)
            && (Fires(r, BackendFallback) <==> seen && m.fellBack)
            && (Fires(r, ConfigFovMismatch) <==> seen && m.fovMismatch)
            && (Fires(r, DetectionStalled) <==>
                  seen && ResolveExpected(m, t) == Ff && m.fitsCount > 0 && m.sessionAge != None &&
                  m.sessionAge.value > t.detectionGrace && !m.ftpdetect && !m.calstars)
            && (Fires(r, TimelapseMissing) <==>
                  seen && m.timelapseAge != None && m.timelapseAge.value >= t.timelapseGrace &&
                  m.timelapsePresent == Some(false))
            && (Fires(r, TimelapseOverdue) <==>
                  && seen && m.frameAge != None && m.frameAge.value <= t.outputFresh
                  && (|| (m.newestTimelapse == None && m.framesData != None && m.framesData.value > t.timelapseMax)
                      || (m.newestTimelapse != None && m.newestTimelapse.value > t.timelapseMax &&
                          m.timelapsePresent == Some(false))))
  {
  }

  lemma LogChecksOnFields(m: Metrics, t: Thresholds)
    ensures var r, seen := Station(m, t), !m.standby && m.alive && m.dataReadable != Some(false);
            && (Fires(r, LogFatal) <==> seen && m.fatals > 0)
            && (Fires(r, LogWarning) <==> seen && m.warnings >= t.warningsWarn)
            && (Fires(r, WatchdogEvent) <==> seen && m.watchdog)
            && (Fires(r, DiskLow) <==>
                  seen && m.diskFree != None && (m.diskFree.value <= t.diskError || m.diskFree.value <= t.diskWarn))
            && (Fires(r, UploadBacklog) <==> seen && m.uploadQueue >= t.uploadWarn)
  {
  }

  lemma SummaryChecksOnFields(m: Metrics, t: Thresholds)
    ensures var r, seen := Station(m, t), !m.standby && m.alive && m.dataReadable != Some(false);
            && (Fires(r, ClockUnsynced) <==> seen && m.clockUnsynced)
            && (Fires(r, ClockUncertainty) <==> seen && m.clockError != None && m.clockError.value > t.clockError)
            && (Fires(r, DroppedFrames) <==> seen && m.dropRate != None && m.dropRate.value > t.dropRate)
            && (Fires(r, DroppedFramesLive) <==> seen && m.dropped >= t.catastrophic)
  {
  }

  /** And a station's report holds no other check. */
  lemma NoOtherStationCheck(m: Metrics, t: Thresholds, key: Key)
    requires key !in {CameraUnreachable, CaptureDuplicate, CaptureDown, DataUnreadable, CaptureStalled,
                      PlateparMismatch, BackendFallback, ConfigFovMismatch, DetectionStalled, TimelapseMissing,
                      TimelapseOverdue, LogFatal, LogWarning, WatchdogEvent, DiskLow, UploadBacklog, ClockUnsynced,
                      ClockUncertainty, DroppedFrames, DroppedFramesLive}
    ensures !Fires(Station(m, t), key)
  {
  }

  lemma KernelChecksOnFields(h: HostMetrics, t: HostThresholds)
    ensures var r := Host(h, t);
            && (Fires(r, UpdateBlocked) <==> h.updateBlocked)
            && (Fires(r, UncleanShutdown) <==>
                  h.shutdown == Some(BootMarker.Unclean) &&
                  (h.shutdownAge == None || h.shutdownAge.value <= t.uncleanRecent))
            && (Fires(r, Oom) <==>
                  && h.oomKills > 0
                  && !(h.oomAge != None && h.restartAge != None && h.restartAge.value < h.oomAge.value)
                  && !(h.oomAge != None && h.uptime != None && h.oomAge.value > h.uptime.value + 60.0))
            && (Fires(r, MemPressure) <==>
                  (h.psi60 != None && h.psi60.value > t.psi60) || (h.psi10 != None && h.psi10.value > t.psi10))
  {
    hide OomRecovered;
    OomOnFields(h);
  }

  lemma DeviceChecksOnFields(h: HostMetrics, t: HostThresholds)
    ensures var r := Host(h, t);
            && (Fires(r, UdpRcvbufErrors) <==> h.udpRate != None && h.udpRate.value > t.udpRate)
            && (Fires(r, NicErrors) <==> h.nicRate != None && h.nicRate.value > t.nicRate)
            && (Fires(r, DiskErrors) <==> h.readOnly || h.diskErrors > 0)
    ensures Fires(Host(h, t), NicLinkSlow) <==>
            exists i :: 0 <= i < |h.links| && t.link != Off && h.links[i].speed != None &&
              (|| h.links[i].halfDuplex
               || (t.link == Auto && h.links[i].partner != None && h.links[i].speed.value < h.links[i].partner.value)
               || (t.link.Floor? && h.links[i].speed.value < t.link.mbps))
  {
    hide LinkSlow;
    forall i | 0 <= i < |h.links| {
      LinkOnFields(h.links[i], t.link);
    }
  }

  lemma NoOtherHostCheck(h: HostMetrics, t: HostThresholds, key: Key)
    requires key !in {UpdateBlocked, UncleanShutdown, Oom, MemPressure, UdpRcvbufErrors, NicErrors, NicLinkSlow,
                      DiskErrors}
    ensures !Fires(Host(h, t), key)
  {
  }

  lemma OomOnFields(h: HostMetrics)
    ensures OomRecovered(h) <==>
            || (h.oomAge != None && h.restartAge != None && h.restartAge.value < h.oomAge.value)
            || (h.oomAge != None && h.uptime != None && h.oomAge.value > h.uptime.value + 60.0)
  {
  }

  lemma LinkOnFields(link: Link, rule: LinkRule)
    ensures LinkSlow(link, rule) <==>
            rule != Off && link.speed != None &&
            (|| link.halfDuplex
             || (rule == Auto && link.partner != None && link.speed.value < link.partner.value)
             || (rule.Floor? && link.speed.value < rule.mbps))
  {
  }

  /** Which problems are errors; the rest are advisories. */
  lemma SeverityOnFields(m: Metrics, t: Thresholds, h: HostMetrics, ht: HostThresholds, key: Key)
    ensures Severity(Station(m, t), key) == Error <==>
            || key in {CameraUnreachable, CaptureDuplicate, CaptureDown, CaptureStalled, PlateparMismatch,
                       DetectionStalled, LogFatal, DroppedFramesLive}
            || (key == DiskLow && m.diskFree != None && m.diskFree.value <= t.diskError)
    ensures Severity(Host(h, ht), key) == Error <==>
            || (key == Oom && h.pythonVictim && (h.oomAge == None || h.oomAge.value <= ht.oomRecent))
            || (key == MemPressure && h.psi60 != None && h.psi60.value > ht.psi60)
            || (key == DiskErrors && h.readOnly)
    ensures Severity(Station(m, t), key) != Ok && Severity(Host(h, ht), key) != Ok
  {
  }

  /** The order of a report. */
  lemma OrderOfReport(m: Metrics, t: Thresholds, h: HostMetrics, ht: HostThresholds, i: nat)
    ensures Count(Station(m, t)) == 20 && Count(Host(h, ht)) == 8
    ensures i < 20 ==>
              KeyAt(Station(m, t), i) ==
              [CameraUnreachable, CaptureDuplicate, CaptureDown, DataUnreadable, CaptureStalled, PlateparMismatch,
               BackendFallback, ConfigFovMismatch, DetectionStalled, TimelapseMissing, TimelapseOverdue, LogFatal,
               LogWarning, WatchdogEvent, DiskLow, UploadBacklog, ClockUnsynced, ClockUncertainty, DroppedFrames,
               DroppedFramesLive][i]
    ensures i < 8 ==>
              KeyAt(Host(h, ht), i) ==
              [UpdateBlocked, UncleanShutdown, Oom, MemPressure, UdpRcvbufErrors, NicErrors, NicLinkSlow,
               DiskErrors][i]
  {
  }

  /** The status of a list: error if it holds an error, else degraded if it holds anything, else ok. */
  lemma WorstOnLevels(ps: seq<Problem>)
    requires forall p :: p in ps ==> p.level != Ok
    ensures Worst(ps) == Error <==> exists p :: p in ps && p.level == Error
    ensures Worst(ps) == Ok <==> ps == []
  {
  }
}
