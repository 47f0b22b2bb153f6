/** What the record published for a station reports, over a run of observed cycles. */
module StandbyReport {
  import opened Sequences
  import opened Health
  import Standby

  /** The last cycle took the fast path: in standby, and the camera still silent. */
  ghost predicate FastPath(run: seq<Standby.Cycle>)
    requires run != []
  {
    Standby.FastPath(Standby.Before(run, |run| - 1), run[|run| - 1])
  }

  /**
   * m is what the last cycle publishes: the standby field of that cycle, and, unless the fast
   * path skipped the collectors, the metrics whose stall gate decided whether to ping.
   */
  ghost predicate PublishedBy(run: seq<Standby.Cycle>, m: Metrics, t: Thresholds) {
    run != [] &&
    var last := run[|run| - 1];
    m.standby == Standby.Publishes(Standby.Before(run, |run| - 1), last).standby &&
    (!FastPath(run) ==> last.stalled == OutputStalled(m, t))
  }

  /** Since some cycle the camera has been silent, for at least the grace of a cycle since. */
  ghost predicate Collapsed(run: seq<Standby.Cycle>) {
    exists i: nat, e: nat :: Standby.SilentFrom(run, i) && Standby.Sustained(run, i, e)
  }

  lemma StandbyIsCollapse(run: seq<Standby.Cycle>, m: Metrics, t: Thresholds)
    requires Standby.Clocked(run) && PublishedBy(run, m, t)
    ensures m.standby <==> Collapsed(run)
    ensures !m.standby ==> run[|run| - 1].stalled == OutputStalled(m, t)
  {
    hide Standby.SilentFrom, Standby.Sustained, Standby.NextClock;
    Standby.StandbyMeans(run);
    Standby.PublishedIsState(run);
  }

  /**
   * A collapsed camera is one root cause: the report is `camera_unreachable` alone, or nothing
   * when that check is disabled; and no other record mentions it.
   */
  lemma CollapseReportsOneCause(run: seq<Standby.Cycle>, m: Metrics, t: Thresholds, disabled: set<Key>)
    requires Standby.Clocked(run) && PublishedBy(run, m, t)
    ensures Collapsed(run) ==>
              Kept(AllProblems(Station(m, t)), disabled) ==
              if CameraUnreachable in disabled then [] else [Problem(Error, CameraUnreachable)]
    ensures !Collapsed(run) ==> forall p :: p in AllProblems(Station(m, t)) ==> p.key != CameraUnreachable
  {
    hide Collapsed, PublishedBy, Standby.Clocked, Kept, Severity, Upto;
    StandbyIsCollapse(run, m, t);
    if m.standby {
      OneProblem(m, t);
      KeptOne(Error, CameraUnreachable, disabled);
    } else {
      UptoListsFiring(Station(m, t), 20);
    }
  }

  lemma OneProblem(m: Metrics, t: Thresholds)
    requires m.standby
    ensures AllProblems(Station(m, t)) == [Problem(Error, CameraUnreachable)]
  {
    StopsReport(m, t);
    NoneLeft(Station(m, t), 1);
    assert Upto(Station(m, t), 1) == Upto(Station(m, t), 0) + [Problem(Error, CameraUnreachable)];
  }

  /**
   * Up to the collapse the fault stays visible as a stall: while capture runs, its data can be
   * read and its newest output has a known age, `capture_stalled` is reported in exactly the
   * stalled cycles that are not collapsed.
   */
  lemma StallShowsUntilCollapse(run: seq<Standby.Cycle>, m: Metrics, t: Thresholds)
    requires Standby.Clocked(run) && PublishedBy(run, m, t)
    requires m.alive && m.dataReadable != Some(false) && OutputAge(m, t).Some?
    ensures Problem(Error, CaptureStalled) in AllProblems(Station(m, t)) <==>
            run[|run| - 1].stalled && !Collapsed(run)
  {
    hide Collapsed, PublishedBy, Standby.Clocked, OutputStalled, OutputAge, Upto;
    StandbyIsCollapse(run, m, t);
    UptoListsFiring(Station(m, t), 20);
  }
}
