/**
 * Camera-unreachable standby: the sustained "stalled and not answering" clock, and the fast
 * path that keeps a collapsed station to one cheap ping per cycle.
 */
module Standby {
  import opened Sequences

  /**
   * One observed cycle, with the grace in force at the time: thresholds can be reloaded between
   * cycles, and the monitor restarted, which forgets all. `first` is the ping a station in
   * standby gets, `second` the ping a station whose output is stalled gets after a full
   * collection; None: undeterminable.
   */
  datatype Cycle = Cycle(now: real, grace: real, first: Option<bool>, stalled: bool, second: Option<bool>,
                         restarted: bool)

  /** What the published record says: in standby, and for how long unreachable. */
  datatype Published = Published(standby: bool, seconds: Option<real>)

  /** A station's share of the module state: in _STANDBY, and its entry in _UNREACHABLE. */
  datatype State = State(standby: bool, clock: Option<real>)

  class Tracker {
    var unreachable: map<string, real>
    var standby: set<string>

    constructor ()
      ensures unreachable == map[] && standby == {}
    {
      unreachable, standby := map[], {};
    }

    ghost function Of(sid: string): State
      reads this
    {
      State(sid in standby, if sid in unreachable then Some(unreachable[sid]) else None)
    }

    method TrackUnreachable(sid: string, stalled: bool, reachable: Option<bool>, now: real, grace: real)
      returns (collapsed: bool, seconds: Option<real>)
      modifies this`unreachable
      ensures stalled && reachable == Some(false) ==>
                var since := if sid in old(unreachable) then old(unreachable)[sid] else now;
                && unreachable == old(unreachable)[sid := since]
                && seconds == Some(now - since) && collapsed == (now - since >= grace)
      ensures !(stalled && reachable == Some(false)) ==>
                unreachable == old(unreachable) - {sid} && seconds == None && !collapsed
    {
      if stalled && reachable == Some(false) {
        if sid !in unreachable {
          unreachable := unreachable[sid := now];
        }
        var secs := now - unreachable[sid];
        assert sid in old(unreachable) ==> unreachable == old(unreachable)[sid := old(unreachable)[sid]];
        return secs >= grace, Some(secs);
      }
      unreachable := unreachable - {sid};
      return false, None;
    }

    /** The station's part of gather. Other stations keep their state; a new process has none. */
    method Gather(sid: string, c: Cycle) returns (p: Published)
      requires c.restarted ==> unreachable == map[] && standby == {}
      modifies this
      ensures Of(sid) == Step(old(Of(sid)), c)
      ensures p == Publishes(old(Of(sid)), c)
      ensures forall s :: s != sid ==> Of(s) == old(Of(s))
    {
      if sid in standby {
        if c.first == Some(false) {
          var _, secs := TrackUnreachable(sid, true, c.first, c.now, c.grace);
          return Published(true, secs);
        }
        standby := standby - {sid};
        var _, _ := TrackUnreachable(sid, false, c.first, c.now, c.grace);
      }
      var reachable := if c.stalled then c.second else None;
      var collapsed, secs := TrackUnreachable(sid, c.stalled, reachable, c.now, c.grace);
      if collapsed {
        standby := standby + {sid};
      }
      return Published(collapsed, secs);
    }
  }

  // ----- The same, as a function of one station's state -----

  /** In standby, and the cheap ping still goes unanswered. */
  predicate FastPath(s: State, c: Cycle) {
    !c.restarted && s.standby && c.first == Some(false)
  }

  /** The ping that decides the cycle came back with no answer. */
  predicate Unanswered(s: State, c: Cycle) {
    FastPath(s, c) || (c.stalled && c.second == Some(false))
  }

  /** The cycle carries the clock on: in standby still silent, or outside it stalled and silent. */
  predicate Unbroken(s: State, c: Cycle) {
    !c.restarted && if s.standby then c.first == Some(false) else c.stalled && c.second == Some(false)
  }

  function NextClock(s: State, c: Cycle): Option<real> {
    if !Unanswered(s, c) then None
    else if Unbroken(s, c) && s.clock.Some? then s.clock
    else Some(c.now)
  }

  function Step(s: State, c: Cycle): State {
    var clock := NextClock(s, c);
    State(FastPath(s, c) || (clock.Some? && c.now - clock.value >= c.grace), clock)
  }

  function Publishes(s: State, c: Cycle): Published {
    var clock := NextClock(s, c);
    Published(Step(s, c).standby, if clock.None? then None else Some(c.now - clock.value))
  }

  /**
   * What a cycle publishes and leaves, in pings: silence needs a definite no, on the cheap ping in
   * standby or with the output stalled outside it; anything else clears the clock.
   */
  lemma CycleInPings(s: State, c: Cycle)
    ensures var cheap := s.standby && !c.restarted && c.first == Some(false);
            var running := s.clock != None && !c.restarted && (cheap || !s.standby);
            if cheap || (c.stalled && c.second == Some(false)) then
              var since := if running then s.clock.value else c.now;
              && Publishes(s, c).seconds == Some(c.now - since) && Step(s, c).clock == Some(since)
              && (Publishes(s, c).standby <==> cheap || c.now - since >= c.grace)
              && Step(s, c).standby == Publishes(s, c).standby
            else Publishes(s, c) == Published(false, None) && Step(s, c) == State(false, None)
  {
  }

  // ----- Runs -----

  function After(run: seq<Cycle>): State {
    if run == [] then State(false, None)
    else Step(After(run[..|run| - 1]), run[|run| - 1])
  }

  /** The state cycle i was entered in. */
  function Before(run: seq<Cycle>, i: nat): State
    requires i <= |run|
  {
    After(run[..i])
  }

  ghost predicate Clocked(run: seq<Cycle>) {
    forall i, j :: 0 <= i <= j < |run| ==> run[i].now <= run[j].now
  }

  /** Cycle i ended without an answer and so did every later one, with no break between. */
  ghost predicate SilentFrom(run: seq<Cycle>, i: nat) {
    i < |run| && Unanswered(Before(run, i), run[i]) &&
    forall j :: i < j < |run| ==> Unbroken(Before(run, j), run[j])
  }

  /** Cycle e came at least its own grace after cycle i. */
  predicate Sustained(run: seq<Cycle>, i: nat, e: nat) {
    i <= e < |run| && run[e].now - run[i].now >= run[e].grace
  }

  /** A station in standby always has a running clock, however the run went. */
  lemma {:induction false} StandbyHasClock(run: seq<Cycle>)
    ensures After(run).standby ==> After(run).clock.Some?
  {
    if run != [] {
      StandbyHasClock(run[..|run| - 1]);
    }
  }

  /** The states of a run do not depend on its last cycle. */
  lemma BeforePrefix(run: seq<Cycle>)
    requires run != []
    ensures Before(run, |run| - 1) == After(run[..|run| - 1])
    ensures forall j: nat :: j < |run| - 1 ==> Before(run[..|run| - 1], j) == Before(run, j)
  {
    hide After;
    var init := run[..|run| - 1];
    forall j: nat | j < |run| - 1 ensures Before(init, j) == Before(run, j) {
      assert init[..j] == run[..j];
    }
  }

  lemma SilentPrefix(run: seq<Cycle>, i: nat)
    requires run != [] && i < |run| - 1
    ensures SilentFrom(run, i) <==>
            SilentFrom(run[..|run| - 1], i) && Unbroken(After(run[..|run| - 1]), run[|run| - 1])
  {
    hide Before, Unanswered, Unbroken, After;
    BeforePrefix(run);
    var init := run[..|run| - 1];
    assert forall j: nat :: j < |init| ==> init[j] == run[j];
  }

  /** The clock, when it runs, was started by a cycle since which no ping has been answered. */
  lemma {:induction false} ClockWitness(run: seq<Cycle>) returns (i: nat)
    requires After(run).clock.Some?
    ensures SilentFrom(run, i) && run[i].now == After(run).clock.value
  {
    hide Unanswered, Unbroken, Before;
    var init, last := run[..|run| - 1], run[|run| - 1];
    var s := After(init);
    BeforePrefix(run);
    if Unbroken(s, last) && s.clock.Some? {
      i := ClockWitness(init);
      SilentPrefix(run, i);
    } else {
      i := |run| - 1;
    }
  }

  /** A running clock started no later than any cycle since which all has been silent. */
  lemma {:induction false} ClockCoversSilence(run: seq<Cycle>, i: nat)
    requires Clocked(run) && SilentFrom(run, i)
    ensures After(run).clock.Some? && After(run).clock.value <= run[i].now
    decreases |run|
  {
    hide Before;
    var init, last := run[..|run| - 1], run[|run| - 1];
    BeforePrefix(run);
    if i < |run| - 1 {
      SilentPrefix(run, i);
      ClockCoversSilence(init, i);
    } else if After(init).clock.Some? {
      var k := ClockWitness(init);
      assert init[k] == run[k];
    }
  }

  /** Standby was entered by a cycle its own grace after the last break, and nothing has answered since. */
  lemma {:induction false} StandbyWitness(run: seq<Cycle>) returns (i: nat, e: nat)
    requires After(run).standby
    ensures SilentFrom(run, i) && Sustained(run, i, e)
  {
    hide Unanswered, Before;
    var init, last := run[..|run| - 1], run[|run| - 1];
    var s := After(init);
    BeforePrefix(run);
    if FastPath(s, last) {
      i, e := StandbyWitness(init);
      SilentPrefix(run, i);
    } else {
      i := ClockWitness(run);
      e := |run| - 1;
    }
  }

  lemma {:induction false} SustainedIsStandby(run: seq<Cycle>, i: nat, e: nat)
    requires Clocked(run) && SilentFrom(run, i) && Sustained(run, i, e)
    ensures After(run).standby
    decreases |run|
  {
    hide Unanswered, Before;
    var init, last := run[..|run| - 1], run[|run| - 1];
    if e < |run| - 1 {
      SilentPrefix(run, i);
      assert init[i] == run[i] && init[e] == run[e];
      SustainedIsStandby(init, i, e);
    } else {
      ClockCoversSilence(run, i);
    }
  }

  /**
   * What a published `camera_standby` means, exactly, whatever restarts there were and whatever
   * reloads did to the grace: since some cycle i, in one process, every observed cycle's deciding
   * ping has gone unanswered, with the output stalled or already in standby, and some cycle
   * since came at least its own grace after i.
   */
  lemma StandbyMeans(run: seq<Cycle>)
    requires Clocked(run)
    ensures After(run).standby <==> exists i: nat, e: nat :: SilentFrom(run, i) && Sustained(run, i, e)
    ensures forall i: nat, e: nat :: Sustained(run, i, e) <==>
              i <= e < |run| && run[e].now >= run[i].now + run[e].grace
  {
    hide After, SilentFrom;
    if After(run).standby {
      var i, e := StandbyWitness(run);
    }
    if i: nat, e: nat :| SilentFrom(run, i) && Sustained(run, i, e) {
      SustainedIsStandby(run, i, e);
    }
  }

  /** While the grace in force is the least there has been, the published span covers it. */
  lemma SpanCoversGrace(run: seq<Cycle>)
    requires Clocked(run) && After(run).standby
    requires forall e :: 0 <= e < |run| ==> run[e].grace >= run[|run| - 1].grace
    ensures After(run).clock.Some?
    ensures run[|run| - 1].now - After(run).clock.value >= run[|run| - 1].grace
  {
    var i, e := StandbyWitness(run);
    ClockCoversSilence(run, i);
  }

  /** The record published by the last cycle says standby exactly when the station is in it. */
  lemma PublishedIsState(run: seq<Cycle>)
    requires run != []
    ensures var p := Publishes(After(run[..|run| - 1]), run[|run| - 1]);
            p.standby == After(run).standby &&
            p.seconds == (match After(run).clock
                          case Some(t) => Some(run[|run| - 1].now - t)
                          case None => None)
  {
  }

  /**
   * Any answer, a ping that cannot tell, or a restart ends standby; re-entry then takes a full
   * grace counted from a cycle no earlier than that one.
   */
  lemma AnswerRestartsGrace(run: seq<Cycle>, k: nat)
    requires Clocked(run) && k < |run|
    requires run[k].restarted || (Before(run, k).standby && run[k].first != Some(false))
    requires After(run).standby
    ensures exists e: nat :: Sustained(run, k, e)
  {
    hide Unanswered, After;
    var i, e := StandbyWitness(run);
    assert !Unbroken(Before(run, k), run[k]);
    assert i >= k;
    assert Sustained(run, k, e);
  }
}
