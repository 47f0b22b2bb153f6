/**
 * The boot marker: a file that tells, at the next start, how the previous boot ended. The
 * marker is judged over whole runs of starts, heartbeats and stops across boots.
 */
module BootMarker {
  import opened Sequences
  import opened StateFiles
  import opened Spacing

  const HEARTBEAT := 120.0

  datatype State = Live | Shutdown | Stopped | Unrecognised
  datatype Verdict = Clean | Unclean | Unknown

  datatype Rec = Rec(boot: string, state: State, ts: Option<real>,
                     verdict: Option<Verdict>, verdictTs: Option<real>)

  function VerdictFor(s: State): Verdict {
    match s
    case Live => Unclean
    case Shutdown => Clean
    case _ => Unknown
  }

  // ----- One process against the file -----

  /** What a reader finds, and the process's own memory of its last heartbeat. */
  datatype View = View(rec: Option<Rec>, lastBeat: real)

  datatype Op = Start | Beat(force: bool) | Stop(stopping: bool)
  datatype Event = Event(boot: string, op: Op, now: real)

  function StartRec(prev: Option<Rec>, boot: string, now: real): Rec {
    var live := Rec(boot, Live, Some(now), None, None);
    if prev.None? then live
    else if prev.value.boot == boot
    then live.(verdict := prev.value.verdict, verdictTs := prev.value.verdictTs)
    else live.(verdict := Some(VerdictFor(prev.value.state)), verdictTs := prev.value.ts)
  }

  predicate Skipped(v: View, e: Event) {
    e.op.Beat? && !e.op.force && e.now - v.lastBeat < HEARTBEAT
  }

  predicate Mine(v: View, boot: string) {
    v.rec.Some? && v.rec.value.boot == boot
  }

  /** One operation whose write, if it makes one, lands. */
  function Step(v: View, e: Event): View {
    match e.op
    case Start => View(Some(StartRec(v.rec, e.boot, e.now)), e.now)
    case Beat(_) =>
      if Skipped(v, e) || !Mine(v, e.boot) then v
      else View(Some(v.rec.value.(state := Live, ts := Some(e.now))), e.now)
    case Stop(stopping) =>
      if !Mine(v, e.boot) then v
      else v.(rec := Some(v.rec.value.(state := if stopping then Shutdown else Stopped, ts := Some(e.now))))
  }

  /** What each operation leaves, given what was on record. */
  lemma StepOnRecord(v: View, e: Event)
    ensures e.op == Op.Start ==>
              var r := Step(v, e).rec;
              && r != None && r.value.boot == e.boot && r.value.state == Live && r.value.ts == Some(e.now)
              && Step(v, e).lastBeat == e.now
              && (v.rec == None ==> r.value.verdict == None && r.value.verdictTs == None)
              && (v.rec != None && v.rec.value.boot == e.boot ==>
                    r.value.verdict == v.rec.value.verdict && r.value.verdictTs == v.rec.value.verdictTs)
              && (v.rec != None && v.rec.value.boot != e.boot ==>
                    r.value.verdictTs == v.rec.value.ts &&
                    r.value.verdict == Some(if v.rec.value.state == Live then Unclean
                                            else if v.rec.value.state == Shutdown then Clean else Unknown))
    ensures e.op != Op.Start && (v.rec == None || v.rec.value.boot != e.boot) ==> Step(v, e) == v
    ensures e.op.Beat? && v.rec != None && v.rec.value.boot == e.boot ==>
              Step(v, e) == if !e.op.force && e.now < v.lastBeat + 120.0 then v
                            else View(Some(v.rec.value.(state := Live, ts := Some(e.now))), e.now)
    ensures e.op.Stop? && v.rec != None && v.rec.value.boot == e.boot ==>
              Step(v, e) == View(Some(v.rec.value.(state := if e.op.stopping then Shutdown else Stopped,
                                                   ts := Some(e.now))), v.lastBeat)
  {
  }

  class Process {
    const file: StateFile<Rec>
    var lastBeat: real

    constructor (file: StateFile<Rec>)
      ensures this.file == file && lastBeat == 0.0
    {
      this.file := file;
      lastBeat := 0.0;
    }

    ghost function Seen(): View
      reads this, file
    {
      View(FirstRecord(file.files), lastBeat)
    }

    /** boot is None when the kernel's boot id cannot be read; the marker is then inert. */
    method Start(boot: Option<string>, now: real, writable: seq<bool>)
      requires |writable| == |file.files|
      modifies this, file
      ensures |file.files| == |writable|
      ensures boot.None? ==> Seen() == old(Seen()) && file.files == old(file.files)
      ensures boot.Some? ==> lastBeat == now
      ensures boot.Some? ==>
                file.files == Stored(old(file.files), writable, StartRec(FirstRecord(old(file.files)), boot.value, now))
      ensures boot.Some? && Lands(old(file.files), writable) ==>
                Seen() == Step(old(Seen()), Event(boot.value, Op.Start, now))
      ensures !Lands(old(file.files), writable) ==> Seen().rec == old(Seen().rec)
    {
      if boot.None? {
        return;
      }
      var prev := file.Read();
      var rec := Rec(boot.value, Live, Some(now), None, None);
      if prev.Some? && prev.value.boot == boot.value {
        rec := rec.(verdict := prev.value.verdict, verdictTs := prev.value.verdictTs);
      } else if prev.Some? {
        rec := rec.(verdict := Some(VerdictFor(prev.value.state)), verdictTs := prev.value.ts);
      }
      ReadBack(file.files, writable, rec);
      var _ := file.Write(rec, writable);
      lastBeat := now;
    }

    method Heartbeat(boot: Option<string>, force: bool, now: real, writable: seq<bool>)
      requires |writable| == |file.files|
      modifies this, file
      ensures |file.files| == |writable|
      ensures boot.None? ==> Seen() == old(Seen()) && file.files == old(file.files)
      ensures boot.Some? && Lands(old(file.files), writable) ==>
                Seen() == Step(old(Seen()), Event(boot.value, Beat(force), now))
      ensures !Lands(old(file.files), writable) ==> Seen().rec == old(Seen().rec)
      ensures var found := FirstRecord(old(file.files));
              file.files ==
              if boot != None && found != None && found.value.boot == boot.value &&
                 (force || now >= old(lastBeat) + 120.0)
              then Stored(old(file.files), writable, found.value.(state := Live, ts := Some(now)))
              else old(file.files)
      ensures lastBeat ==
              if boot.Some? && Mine(old(Seen()), boot.value) && true in writable &&
                 !Skipped(old(Seen()), Event(boot.value, Beat(force), now))
              then now else old(lastBeat)
    {
      if !force && now - lastBeat < HEARTBEAT {
        return;
      }
      var found := file.Read();
      if boot.None? || found.None? || found.value.boot != boot.value {
        return;
      }
      var rec := found.value.(state := Live, ts := Some(now));
      ReadBack(file.files, writable, rec);
      var ok := file.Write(rec, writable);
      if ok {
        lastBeat := now;
      }
    }

    method Stop(boot: Option<string>, stopping: bool, now: real, writable: seq<bool>)
      requires |writable| == |file.files|
      modifies file
      ensures |file.files| == |writable|
      ensures boot.None? ==> file.files == old(file.files)
      ensures boot.Some? && Lands(old(file.files), writable) ==>
                Seen() == Step(old(Seen()), Event(boot.value, Op.Stop(stopping), now))
      ensures !Lands(old(file.files), writable) ==> Seen().rec == old(Seen().rec)
      ensures var found := FirstRecord(old(file.files));
              file.files ==
              if boot != None && found != None && found.value.boot == boot.value
              then Stored(old(file.files), writable,
                          found.value.(state := if stopping then Shutdown else Stopped, ts := Some(now)))
              else old(file.files)
    {
      var found := file.Read();
      if boot.None? || found.None? || found.value.boot != boot.value {
        return;
      }
      var rec := found.value.(state := if stopping then Shutdown else Stopped, ts := Some(now));
      ReadBack(file.files, writable, rec);
      var _ := file.Write(rec, writable);
    }
  }

  /** The published fields. It reads the file and changes nothing. */
  method Metrics(file: StateFile<Rec>, boot: Option<string>, now: real)
    returns (verdict: Option<Verdict>, age: Option<real>)
    ensures var rec := FirstRecord(file.files);
            if rec.None? || boot.None? || rec.value.boot != boot.value then verdict == None && age == None
            else verdict == rec.value.verdict && age == Age(rec.value, now)
  {
    var found := file.Read();
    if found.None? || boot.None? || found.value.boot != boot.value {
      return None, None;
    }
    verdict, age := found.value.verdict, Age(found.value, now);
  }

  /** Time since the previous boot was last known alive; never negative. */
  function Age(rec: Rec, now: real): (age: Option<real>)
    ensures age.Some? ==> age.value >= 0.0
  {
    if rec.verdict.None? || rec.verdictTs.None? then None
    else if now < rec.verdictTs.value then Some(0.0)
    else Some(now - rec.verdictTs.value)
  }

  /** The age counts from the verdict's date, and a clock that has stepped back makes it 0. */
  lemma AgeOnClock(rec: Rec, now: real)
    ensures Age(rec, now) != None <==> rec.verdict != None && rec.verdictTs != None
    ensures Age(rec, now) != None && now >= rec.verdictTs.value ==> rec.verdictTs.value + Age(rec, now).value == now
    ensures Age(rec, now) != None && now < rec.verdictTs.value ==> Age(rec, now).value == 0.0
  {
  }

  // ----- Runs across boots -----

  /** The view after a run in which every write lands. */
  function After(run: seq<Event>): View {
    if run == [] then View(None, 0.0)
    else Step(After(run[..|run| - 1]), run[|run| - 1])
  }

  function Latest(run: seq<Event>): Event
    requires run != []
  {
    run[|run| - 1]
  }

  /** Each process starts before it beats, and does nothing after it stops. Any of them may just die. */
  ghost predicate Lifecycle(run: seq<Event>) {
    (run != [] ==> run[0].op.Start?) &&
    forall i :: 0 < i < |run| && (run[i].boot != run[i - 1].boot || run[i - 1].op.Stop?) ==> run[i].op.Start?
  }

  /** A boot id, once left, never comes back. */
  ghost predicate DistinctBoots(run: seq<Event>) {
    forall i, j, k :: 0 <= i <= j <= k < |run| && run[i].boot == run[k].boot ==> run[j].boot == run[i].boot
  }

  /** The state an operation leaves behind. */
  function Leaves(op: Op): State {
    match op
    case Start => Live
    case Beat(_) => Live
    case Stop(stopping) => if stopping then Shutdown else Stopped
  }

  /** Where the unbroken stretch of the run's last boot begins. */
  function BootBegins(run: seq<Event>): (k: nat)
    requires run != []
    ensures k < |run|
    ensures forall i :: k <= i < |run| ==> run[i].boot == Latest(run).boot
    ensures k > 0 ==> run[k - 1].boot != Latest(run).boot
  {
    if |run| == 1 || run[|run| - 2].boot != Latest(run).boot then |run| - 1
    else BootBegins(run[..|run| - 1])
  }

  lemma LifecyclePrefix(run: seq<Event>)
    requires Lifecycle(run) && run != []
    ensures Lifecycle(run[..|run| - 1])
  {
  }

  /** After any run the marker names the current boot, how it stands, and a fresh enough time. */
  lemma {:induction false} MarkerAfter(run: seq<Event>)
    requires Lifecycle(run) && run != []
    ensures var v := After(run);
            && Mine(v, Latest(run).boot)
            && v.rec.value.state == Leaves(Latest(run).op)
            && v.rec.value.ts.Some?
            && Latest(run).now - v.rec.value.ts.value < 120.0
            && (Leaves(Latest(run).op) == Live ==> v.lastBeat == v.rec.value.ts.value)
  {
    var before := run[..|run| - 1];
    if before != [] {
      LifecyclePrefix(run);
      MarkerAfter(before);
    }
  }

  /**
   * The verdict: none on the first boot ever monitored; otherwise exactly how the last
   * operation of the boot before left the marker, dated by that marker. Restarts within the
   * boot, any number of them, change neither.
   */
  lemma {:induction false} VerdictAfter(run: seq<Event>)
    requires Lifecycle(run) && run != []
    ensures After(run).rec.Some?
    ensures var rec, k := After(run).rec.value, BootBegins(run);
            if k == 0 then rec.verdict == None && rec.verdictTs == None
            else After(run[..k]).rec.Some? &&
                 rec.verdict == Some(VerdictFor(Leaves(run[k - 1].op))) &&
                 rec.verdictTs == After(run[..k]).rec.value.ts
  {
    var before, k := run[..|run| - 1], BootBegins(run);
    MarkerAfter(run);
    if before != [] {
      LifecyclePrefix(run);
      MarkerAfter(before);
      VerdictAfter(before);
      if k < |run| - 1 {
        assert before[..k] == run[..k];
      }
    }
  }

  /**
   * What a maintainer reads off the published record. With distinct boot ids, let the
   * previous monitored boot's last event be `last`: unclean iff it was a start or heartbeat,
   * clean iff a stop during a system shutdown, unknown iff a stop alone; and the time is less
   * than 120 s before that event.
   */
  lemma PublishedVerdict(run: seq<Event>, last: int)
    requires Lifecycle(run) && DistinctBoots(run) && run != []
    requires -1 <= last < |run|
    requires last >= 0 ==> run[last].boot != Latest(run).boot
    requires forall i :: last < i < |run| ==> run[i].boot == Latest(run).boot
    ensures forall i :: 0 <= i <= last ==> run[i].boot != Latest(run).boot
    ensures Mine(After(run), Latest(run).boot)
    ensures last == -1 <==> After(run).rec.value.verdict == None
    ensures last >= 0 ==>
              var rec := After(run).rec.value;
              && (rec.verdict == Some(Unclean) <==> run[last].op.Start? || run[last].op.Beat?)
              && (rec.verdict == Some(Clean) <==> run[last].op == Stop(true))
              && (rec.verdict == Some(Unknown) <==> run[last].op == Stop(false))
              && rec.verdictTs.Some? && run[last].now - rec.verdictTs.value < 120.0
  {
    hide After, Lifecycle, BootBegins;
    var k := BootBegins(run);
    assert k == last + 1;
    MarkerAfter(run);
    VerdictAfter(run);
    if last >= 0 {
      LifecycleTake(run, k);
      MarkerAfter(run[..k]);
    }
  }

  lemma LifecycleTake(run: seq<Event>, k: nat)
    requires Lifecycle(run) && k <= |run|
    ensures Lifecycle(run[..k])
  {
  }

  /** Whatever a boot's processes do, its verdict and its date stay what they were. */
  lemma VerdictIsStable(run: seq<Event>, more: seq<Event>)
    requires run != [] && Lifecycle(run + more)
    requires forall i :: 0 <= i < |more| ==> more[i].boot == Latest(run).boot
    ensures After(run).rec.Some? && After(run + more).rec.Some?
    ensures After(run + more).rec.value.verdict == After(run).rec.value.verdict
    ensures After(run + more).rec.value.verdictTs == After(run).rec.value.verdictTs
  {
    hide After, Lifecycle;
    var all := run + more;
    LifecycleTake(all, |run|);
    assert all[..|run|] == run;
    VerdictAfter(run);
    VerdictAfter(all);
    var k := BootBegins(run);
    assert Latest(all).boot == Latest(run).boot;
    assert forall i :: 0 <= i < |run| ==> all[i] == run[i];
    assert BootBegins(all) == k;
    assert all[..k] == run[..k];
  }

  // ----- Timing -----

  ghost predicate Clocked(run: seq<Event>) {
    forall i, j :: 0 <= i <= j < |run| ==> run[i].now <= run[j].now
  }

  /** The marker carries the time of some event of the run. */
  lemma {:induction false} MarkerIsOfRun(run: seq<Event>) returns (i: nat)
    requires Lifecycle(run) && run != []
    ensures i < |run| && After(run).rec.Some? && After(run).rec.value.ts == Some(run[i].now)
  {
    var before := run[..|run| - 1];
    MarkerAfter(run);
    if before != [] {
      LifecyclePrefix(run);
      MarkerAfter(before);
      i := MarkerIsOfRun(before);
      if After(run).rec.value.ts != After(before).rec.value.ts {
        i := |run| - 1;
      }
    } else {
      i := 0;
    }
  }

  /** While the clock does not step back, the verdict's date lies in the last 120 s of the boot it is about. */
  lemma VerdictDate(run: seq<Event>, last: nat)
    requires Lifecycle(run) && DistinctBoots(run) && Clocked(run)
    requires last < |run| && run[last].boot != Latest(run).boot
    requires forall i :: last < i < |run| ==> run[i].boot == Latest(run).boot
    ensures After(run).rec.Some? && After(run).rec.value.verdictTs.Some?
    ensures run[last].now - 120.0 < After(run).rec.value.verdictTs.value <= run[last].now
  {
    hide After, Lifecycle, BootBegins;
    PublishedVerdict(run, last);
    var k := BootBegins(run);
    assert k == last + 1;
    VerdictAfter(run);
    LifecycleTake(run, k);
    var i := MarkerIsOfRun(run[..k]);
  }

  /** While the process lives and is called at least every c seconds, the marker lags by less than 120 + c. */
  lemma MarkerLags(run: seq<Event>, present: real, c: real)
    requires Lifecycle(run) && run != [] && present - Latest(run).now <= c
    ensures After(run).rec.Some? && After(run).rec.value.ts.Some?
    ensures present - After(run).rec.value.ts.value < 120.0 + c
  {
    MarkerAfter(run);
  }

  /** Times of the live writes of the current process: its start and the heartbeats not skipped. */
  function LiveWrites(run: seq<Event>): seq<real> {
    if run == [] then []
    else
      var before, e := run[..|run| - 1], Latest(run);
      match e.op
      case Start => [e.now]
      case Beat(_) => if Skipped(After(before), e) || !Mine(After(before), e.boot)
                      then LiveWrites(before) else LiveWrites(before) + [e.now]
      case Stop(_) => LiveWrites(before)
  }

  ghost predicate Unforced(run: seq<Event>) {
    forall i :: 0 <= i < |run| ==> run[i].op != Beat(true)
  }

  /** A process never refreshes the marker twice within 120 s. */
  lemma {:induction false} HeartbeatsAreSpaced(run: seq<Event>)
    requires Lifecycle(run) && Unforced(run) && run != []
    ensures SpacedBy(LiveWrites(run), 120.0)
    ensures LiveWrites(run) != [] && LiveWrites(run)[|LiveWrites(run)| - 1] == After(run).lastBeat
  {
    var before := run[..|run| - 1];
    if before != [] {
      LifecyclePrefix(run);
      HeartbeatsAreSpaced(before);
    }
  }

  /** Hence n live writes need a window of at least (n - 1) * 120 seconds. */
  lemma WriteRate(run: seq<Event>, i: nat, j: nat, span: real)
    requires Lifecycle(run) && Unforced(run) && run != []
    requires i <= j < |LiveWrites(run)| && LiveWrites(run)[j] - LiveWrites(run)[i] <= span
    ensures Times(j - i, 120.0) <= span
  {
    HeartbeatsAreSpaced(run);
    AtMostInWindow(LiveWrites(run), HEARTBEAT, i, j, span);
  }
}
