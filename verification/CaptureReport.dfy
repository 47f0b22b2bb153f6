/** collect_capture_events as a whole: the log pass, the history and the classifier together. */
module CaptureReport {
  import opened Sequences
  import opened StateFiles
  import opened CaptureEvents
  import Disconnects
  import DisconnectHistory

  datatype Report =
    | Unavailable
    | Report(scan: CaptureEvents.Scan, verdict: DisconnectHistory.Verdict, runAge: Option<real>)

  /** How long the run has lasted: unknown without a dated start marker, never negative. */
  function Age(run: Option<Run>, now: real): (age: Option<real>)
    ensures age.Some? <==> run.Some? && run.value.ts.Some?
    ensures age.Some? ==> age.value >= 0.0
    ensures age.Some? && now >= run.value.ts.value as real ==> run.value.ts.value as real + age.value == now
    ensures age.Some? && now < run.value.ts.value as real ==> age.value == 0.0
  {
    if run.None? || run.value.ts.None? then None
    else
      var elapsed := now - run.value.ts.value as real;
      Some(if elapsed < 0.0 then 0.0 else elapsed)
  }

  /** log is None when there is no log or it cannot be read to the end. */
  method CollectCaptureEvents(store: StateFile<seq<int>>, hasId: bool, log: Option<seq<Line>>,
                              now: real, writable: seq<bool>)
    returns (r: Report)
    requires |writable| == |store.files|
    modifies store
    ensures log.None? ==> r == Unavailable && store.files == old(store.files)
    ensures log.Some? ==>
              var session := Session(Events(log.value));
              var times := DisconnectTimes(session);
              var hist := DisconnectHistory.Loaded(old(store.files));
              && r.Report?
              && r.scan == WholeLog(Events(log.value))
              && r.verdict.disconnects == DisconnectCount(session)
              && r.verdict.scheduled + r.verdict.unplanned == DisconnectCount(session)
              && r.verdict.scheduled ==
                 |Disconnects.Scheduled(times, if hasId then DisconnectHistory.Earlier(hist, times) else [])|
              && store.files == (if hasId
                                 then Stored(old(store.files), writable,
                                             DisconnectHistory.Merged(hist + times, now))
                                 else old(store.files))
              && r.runAge == Age(r.scan.run, now)
  {
    if log.None? {
      return Unavailable;
    }
    var scan := ScanLog(log.value);
    var verdict := DisconnectHistory.JudgeSession(store, hasId, scan.disconnects, scan.times, now, writable);
    r := Report(scan, verdict, Age(scan.run, now));
  }
}
