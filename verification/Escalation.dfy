/**
 * Adaptive escalation: when unexplained drops are worth a heavy probe, and the doubling
 * backoff that keeps a camera that stays bad from being hammered.
 */
module Escalation {
  import opened Sequences
  import opened Attribution
  import opened Spacing

  /** The thresholds in force, which a reload can change between cycles. */
  datatype Policy = Policy(limits: Limits, minInterval: real, maxInterval: real)

  datatype Entry = Entry(nextT: real, interval: real)

  /**
   * One cycle of a station: what it measured, the policy and switch in force, when the decision
   * is made and when a probe would end, whether that probe would raise, and whether the monitor
   * has been restarted since the cycle before.
   */
  datatype Cycle = Cycle(signals: Signals, host: Option<HostSignals>, policy: Policy, enabled: bool,
                         now: real, noteAt: real, raises: bool, restarted: bool)

  /** Frames are dropping past the warning threshold; an unknown count reads as 0. */
  predicate Bad(c: Cycle) {
    (if c.signals.dropped.Some? then c.signals.dropped.value else 0) >= c.policy.limits.droppedWarn
  }

  function CauseOf(c: Cycle): Option<Cause> {
    match ClassifyDrops(c.signals, c.host, c.policy.limits)
    case Some(f) => Some(f.cause)
    case None => None
  }

  predicate Explained(c: Cycle) {
    CauseOf(c).Some? && HostExplained(CauseOf(c).value)
  }

  /** Unexplained drops, while probing is switched on. */
  predicate Suspicious(c: Cycle) {
    c.enabled && Bad(c) && !Explained(c)
  }

  /** The entry a cycle starts from: a new process has none. */
  function Entered(e: Option<Entry>, c: Cycle): Option<Entry> {
    if c.restarted then None else e
  }

  predicate Probes(e: Option<Entry>, c: Cycle) {
    Suspicious(c) && (Entered(e, c).None? || c.now >= e.value.nextT)
  }

  function Min(a: real, b: real): real { if a <= b then a else b }

  function Noted(e: Option<Entry>, at: real, p: Policy): Entry {
    var interval := if e.None? then p.minInterval else Min(e.value.interval * 2.0, p.maxInterval);
    Entry(at + interval, interval)
  }

  /** A station's backoff entry after one more cycle; recovery drops it, and a probe that raises leaves it. */
  function Next(e: Option<Entry>, c: Cycle): Option<Entry> {
    if c.enabled && !Bad(c) then None
    else if Probes(e, c) && !c.raises then Some(Noted(Entered(e, c), c.noteAt, c.policy))
    else Entered(e, c)
  }

  class Escalator {
    var entries: map<string, Entry>

    constructor ()
      ensures entries == map[]
    {
      entries := map[];
    }

    ghost function Of(sid: string): Option<Entry>
      reads this
    {
      if sid in entries then Some(entries[sid]) else None
    }

    method ShouldEscalate(sid: string, c: Cycle) returns (probe: bool)
      requires c.enabled && (c.restarted ==> entries == map[])
      modifies this
      ensures probe <==> Probes(old(Of(sid)), c)
      ensures entries == if Bad(c) then old(entries) else old(entries) - {sid}
    {
      var dropped := if c.signals.dropped.Some? then c.signals.dropped.value else 0;
      if dropped < c.policy.limits.droppedWarn {
        entries := entries - {sid};
        return false;
      }
      var finding := ClassifyDrops(c.signals, c.host, c.policy.limits);
      if finding.Some? && HostExplained(finding.value.cause) {
        return false;
      }
      if sid in entries && c.now < entries[sid].nextT {
        return false;
      }
      return true;
    }

    method NoteEscalation(sid: string, at: real, p: Policy)
      modifies this
      ensures entries == old(entries)[sid := Noted(old(Of(sid)), at, p)]
    {
      var interval := if sid in entries then Min(entries[sid].interval * 2.0, p.maxInterval) else p.minInterval;
      entries := entries[sid := Entry(at + interval, interval)];
    }

    /**
     * The station's part of a cycle: decide, probe, merge the results, note. Other stations keep
     * their entries. With probing switched off nothing is decided, so nothing is forgotten
     * either. The first cycle of a process finds the table empty.
     */
    method RunCycle(sid: string, c: Cycle, probe: Probe) returns (probed: bool, signals: Signals)
      requires c.restarted ==> entries == map[]
      modifies this
      ensures probed <==> Probes(old(Of(sid)), c)
      ensures Of(sid) == Next(old(Of(sid)), c)
      ensures signals == if probed && !c.raises then WithProbe(c.signals, probe) else c.signals
      ensures !c.enabled ==> entries == old(entries)
      ensures var dropped := if c.signals.dropped == None then 0 else c.signals.dropped.value;
              var bad := dropped >= c.policy.limits.droppedWarn;
              && (probed <==>
                    && c.enabled && bad && (sid !in old(entries) || c.now >= old(entries)[sid].nextT)
                    && match ClassifyDrops(c.signals, c.host, c.policy.limits)
                       case None => true
                       case Some(f) => f.cause == CameraBandwidth || f.cause == Uncertain)
              && (c.enabled && !bad ==> entries == old(entries) - {sid})
              && (bad && (probed ==> c.raises) ==> entries == old(entries))
      ensures probed && !c.raises ==>
                var next := if sid in old(entries) then old(entries)[sid].interval * 2.0 else c.policy.minInterval;
                var interval := if sid in old(entries) && next > c.policy.maxInterval
                                then c.policy.maxInterval else next;
                entries == old(entries)[sid := Entry(c.noteAt + interval, interval)]
      ensures forall s :: s != sid ==> Of(s) == old(Of(s))
    {
      probed, signals := false, c.signals;
      if c.enabled {
        probed := ShouldEscalate(sid, c);
      }
      if probed {
        if c.raises {
          return;
        }
        signals := WithProbe(signals, probe);
        NoteEscalation(sid, c.noteAt, c.policy);
      }
    }
  }

  // ----- Runs -----

  /** The entry after a run of cycles, across any number of processes. */
  function After(run: seq<Cycle>): Option<Entry> {
    if run == [] then None
    else Next(After(run[..|run| - 1]), run[|run| - 1])
  }

  /** The cycles of the run that probed. */
  function Probed(run: seq<Cycle>): seq<Cycle> {
    if run == [] then []
    else
      var before, c := run[..|run| - 1], run[|run| - 1];
      Probed(before) + (if Probes(After(before), c) then [c] else [])
  }

  /** The cycle forgets the backoff: a recovery, or a new process. */
  predicate Forgets(c: Cycle) {
    c.restarted || (c.enabled && !Bad(c))
  }

  /** One stretch of bad cycles in one process, no probe raising, the intervals of p in force. */
  ghost predicate Episode(run: seq<Cycle>, p: Policy) {
    forall i :: 0 <= i < |run| ==>
      !Forgets(run[i]) && !run[i].raises &&
      run[i].policy.minInterval == p.minInterval && run[i].policy.maxInterval == p.maxInterval
  }

  /** A probe takes time, never less than none. */
  ghost predicate ProbesTakeTime(run: seq<Cycle>) {
    forall i :: 0 <= i < |run| ==> run[i].noteAt >= run[i].now
  }

  function Pow2(k: nat): real {
    if k == 0 then 1.0 else 2.0 * Pow2(k - 1)
  }

  /** The k-th interval of an episode. */
  function Backoff(k: nat, p: Policy): real {
    if k == 0 then p.minInterval else Min(p.minInterval * Pow2(k), p.maxInterval)
  }

  /** Doubling the interval and capping it gives the next one. */
  lemma BackoffDoubles(k: nat, p: Policy)
    requires 0.0 <= p.minInterval && 0.0 <= p.maxInterval
    ensures Min(Backoff(k, p) * 2.0, p.maxInterval) == Backoff(k + 1, p)
  {
    assert Pow2(k + 1) == 2.0 * Pow2(k);
    assert p.minInterval * Pow2(k + 1) == (p.minInterval * Pow2(k)) * 2.0;
  }

  /**
   * The entry of an unbroken episode is a function of how many probes it has had: the k-th
   * probe waits min(minInterval * 2^k, maxInterval), counted from when it ended.
   */
  lemma {:induction false} EntryOfEpisode(run: seq<Cycle>, p: Policy)
    requires Episode(run, p) && 0.0 <= p.minInterval && 0.0 <= p.maxInterval
    ensures var done := Probed(run);
            After(run) ==
            if done == [] then None
            else Some(Entry(done[|done| - 1].noteAt + Backoff(|done| - 1, p), Backoff(|done| - 1, p)))
  {
    if run != [] {
      hide ClassifyDrops, Backoff;
      var before := run[..|run| - 1];
      EntryOfEpisode(before, p);
      if Probed(before) != [] {
        BackoffDoubles(|Probed(before)| - 1, p);
      }
      FirstInterval(p);
    }
  }

  lemma FirstInterval(p: Policy)
    ensures Backoff(0, p) == p.minInterval
  {
  }

  /** Within an episode, probe k + 1 starts no sooner than the k-th interval after probe k ended. */
  lemma {:induction false} ProbesKeepApart(run: seq<Cycle>, p: Policy, k: nat)
    requires Episode(run, p) && 0.0 <= p.minInterval && 0.0 <= p.maxInterval
    requires k + 1 < |Probed(run)|
    ensures Probed(run)[k + 1].now >= Probed(run)[k].noteAt + Backoff(k, p)
  {
    hide ClassifyDrops, Backoff, Next;
    var before := run[..|run| - 1];
    if k + 1 < |Probed(before)| {
      ProbesKeepApart(before, p, k);
    } else {
      EntryOfEpisode(before, p);
    }
  }

  lemma {:induction false} BackoffGrows(i: nat, j: nat, p: Policy)
    requires 0.0 <= p.minInterval <= p.maxInterval && i <= j
    ensures Backoff(i, p) <= Backoff(j, p)
  {
    if i < j {
      BackoffGrows(i, j - 1, p);
      BackoffDoubles(j - 1, p);
      BackoffBounded(j - 1, p);
    }
  }

  lemma {:induction false} BackoffBounded(k: nat, p: Policy)
    requires 0.0 <= p.minInterval <= p.maxInterval
    ensures 0.0 <= Backoff(k, p) <= p.maxInterval
  {
    if k > 0 {
      BackoffBounded(k - 1, p);
      BackoffDoubles(k - 1, p);
    }
  }

  lemma {:induction false} ProbedIsFromRun(run: seq<Cycle>)
    ensures forall c :: c in Probed(run) ==> c in run
  {
    if run != [] {
      ProbedIsFromRun(run[..|run| - 1]);
    }
  }

  /**
   * Probes i to j of an episode span at least (j - i) times the i-th interval. So any window
   * of length w holds at most w / minInterval + 1 probes, and fewer the longer the episode.
   */
  lemma {:induction false} ProbeRate(run: seq<Cycle>, p: Policy, i: nat, j: nat)
    requires Episode(run, p) && ProbesTakeTime(run) && 0.0 <= p.minInterval <= p.maxInterval
    requires i <= j < |Probed(run)|
    ensures Probed(run)[j].now - Probed(run)[i].now >= Times(j - i, Backoff(i, p))
    decreases j
  {
    hide Probed, Backoff, Episode, Times;
    OneMoreTime(0, Backoff(i, p));
    if i < j {
      var done := Probed(run);
      ProbeRate(run, p, i, j - 1);
      ProbesKeepApart(run, p, j - 1);
      BackoffGrows(i, j - 1, p);
      ProbedIsFromRun(run);
      assert done[j - 1] in done && done[j - 1] in run;
      assert done[j - 1].noteAt >= done[j - 1].now;
      OneMoreTime(j - 1 - i, Backoff(i, p));
    }
  }

  /** A probe is only spent on a camera or link suspect, or on drops nothing explains. */
  lemma EscalationCause(e: Option<Entry>, c: Cycle)
    requires Probes(e, c)
    ensures CauseOf(c) == None || CauseOf(c) == Some(CameraBandwidth) || CauseOf(c) == Some(Uncertain)
    ensures CauseOf(c) == None <==> c.signals.dropped.None? || c.signals.dropped.value == 0
    ensures CauseOf(c) == None ==> c.policy.limits.droppedWarn <= 0
  {
    hide ClassifyDrops;
    EliminationIsExact(c.signals, c.host, c.policy.limits);
  }

  /** A probe is worth its cost exactly when frames drop and no host signal is hot, camera symptoms or not. */
  lemma SuspicionOnSignals(c: Cycle)
    ensures var s, t := c.signals, c.policy.limits;
            Suspicious(c) <==>
            && c.enabled && (if s.dropped == None then 0 else s.dropped.value) >= t.droppedWarn
            && (s.dropped != None && s.dropped.value != 0 ==>
                  && !(s.leadupPeak != None && s.leadupPeak.value > t.fillSpike && s.reconnects == 0)
                  && !(s.pingLoss != None && s.pingLoss.value > t.pingLoss)
                  && (c.host != None ==>
                        && !(c.host.value.udpRate != None && c.host.value.udpRate.value > t.udpRate)
                        && !(c.host.value.nicRate != None && c.host.value.nicRate.value > t.nicRate)
                        && !(c.host.value.fragRate != None && c.host.value.fragRate.value > t.fragRate)))
  {
    hide ClassifyDrops;
    VerdictOnSignals(c.signals, c.host, c.policy.limits);
  }

  /** Recovery forgets the backoff: the next unexplained bad cycle probes at once, whatever the time. */
  lemma RecoveryForgets(run: seq<Cycle>, good: Cycle, next: Cycle)
    requires good.enabled && !Bad(good) && Suspicious(next)
    ensures After(run + [good]) == None
    ensures Probes(After(run + [good]), next)
  {
    assert (run + [good])[..|run|] == run;
  }

  /** Hence an episode after a recovery is like one from the beginning. */
  lemma {:induction false} FreshStart(before: seq<Cycle>, episode: seq<Cycle>)
    requires After(before) == None || (episode != [] && episode[0].restarted)
    ensures episode != [] || After(before) == None ==> After(before + episode) == After(episode)
    ensures Probed(before + episode) == Probed(before) + Probed(episode)
  {
    hide Next, Probes;
    if episode == [] {
      assert before + episode == before;
    } else {
      var init := episode[..|episode| - 1];
      assert (before + episode)[..|before + episode| - 1] == before + init;
      if init == [] {
        assert before + init == before;
        FirstOfProcess(After(before), episode[0]);
      } else {
        FreshStart(before, init);
      }
    }
  }

  /** A new process decides as if there had been none before. */
  lemma FirstOfProcess(e: Option<Entry>, c: Cycle)
    requires c.restarted || e == None
    ensures Next(e, c) == Next(None, c) && (Probes(e, c) <==> Probes(None, c))
  {
  }

  // ----- The documented spacing, over every run -----

  /** Cycle i of the run probes. */
  predicate ProbesAt(run: seq<Cycle>, i: nat) {
    i < |run| && Probes(After(run[..i]), run[i])
  }

  /** Each cycle is over, its probe included, before the next begins. */
  ghost predicate Clocked(run: seq<Cycle>) {
    (forall i :: 0 <= i < |run| ==> run[i].now <= run[i].noteAt) &&
    forall i, j :: 0 <= i < j < |run| ==> run[i].noteAt <= run[j].now
  }

  /** Every interval in force during the run is at least gap. */
  ghost predicate IntervalsAtLeast(run: seq<Cycle>, gap: real) {
    forall i :: 0 <= i < |run| ==> run[i].policy.minInterval >= gap && run[i].policy.maxInterval >= gap
  }

  /** No two probes start within gap of each other. */
  ghost predicate Spaced(run: seq<Cycle>, gap: real) {
    forall i: nat, j: nat :: i < j && ProbesAt(run, i) && ProbesAt(run, j) ==>
      run[j].now - run[i].now >= gap
  }

  predicate Suspect(run: seq<Cycle>, j: nat) {
    j < |run| && Suspicious(run[j])
  }

  /** By cycle j the timer of a probe at i is gone, or was never set: m is the cycle that saw to it. */
  predicate Released(run: seq<Cycle>, i: nat, m: nat, j: nat) {
    i <= m <= j < |run| && if m == i then run[i].raises else Forgets(run[m])
  }

  /** Unexplained drops at j, less than gap after a probe whose timer is gone. */
  ghost predicate QuickRelapse(run: seq<Cycle>, gap: real, i: nat, m: nat, j: nat) {
    i < j && ProbesAt(run, i) && Suspect(run, j) && Released(run, i, m, j) && run[j].now - run[i].now < gap
  }

  lemma AfterPrefix(run: seq<Cycle>, j: nat)
    requires 0 < j <= |run|
    ensures After(run[..j]) == Next(After(run[..j - 1]), run[j - 1])
  {
    assert run[..j][..j - 1] == run[..j - 1];
  }

  lemma NothingYet(run: seq<Cycle>)
    requires run == []
    ensures After(run) == None
  {
  }

  lemma {:induction false} IntervalNeverShort(run: seq<Cycle>, j: nat, gap: real)
    requires j <= |run| && IntervalsAtLeast(run, gap) && gap >= 0.0
    ensures After(run[..j]).Some? ==> After(run[..j]).value.interval >= gap
  {
    hide ClassifyDrops, After;
    if j > 0 {
      IntervalNeverShort(run, j - 1, gap);
      AfterPrefix(run, j);
    } else {
      NothingYet(run[..0]);
    }
  }

  // ----- The interval a probe notes -----

  /** The policies of the probes noted since the backoff was last forgotten. */
  function Streak(run: seq<Cycle>): seq<Policy> {
    if run == [] then []
    else
      var before, c := run[..|run| - 1], run[|run| - 1];
      var kept := if Forgets(c) then [] else Streak(before);
      if Probes(After(before), c) && !c.raises then kept + [c.policy] else kept
  }

  /** The interval such a streak ends with: the first minimum, doubled and capped from there on. */
  function Interval(ps: seq<Policy>): real {
    if ps == [] then 0.0
    else if |ps| == 1 then ps[0].minInterval
    else Min(Interval(ps[..|ps| - 1]) * 2.0, ps[|ps| - 1].maxInterval)
  }

  /** The backoff entry remembers no more than that. */
  lemma {:induction false} EntryIsStreak(run: seq<Cycle>)
    ensures After(run).None? <==> Streak(run) == []
    ensures After(run).Some? ==> After(run).value.interval == Interval(Streak(run))
  {
    if run != [] {
      hide ClassifyDrops, Interval, Bad, Explained;
      var before, c := run[..|run| - 1], run[|run| - 1];
      EntryIsStreak(before);
      IntervalSnoc(if Forgets(c) then [] else Streak(before), c.policy);
      ProbesAreBad(After(before), c);
    }
  }

  lemma ProbesAreBad(e: Option<Entry>, c: Cycle)
    ensures Probes(e, c) ==> c.enabled && Bad(c)
  {
  }

  lemma IntervalSnoc(ps: seq<Policy>, p: Policy)
    ensures Interval(ps + [p]) == if ps == [] then p.minInterval else Min(Interval(ps) * 2.0, p.maxInterval)
  {
    assert (ps + [p])[..|ps|] == ps;
  }

  /** The least a policy in a streak lets the last interval be, k doublings later. */
  function Allows(p: Policy, first: bool, k: nat): real {
    (if first then p.minInterval else p.maxInterval) * Pow2(k)
  }

  /**
   * The interval after any streak of reloads, in closed form: it reaches g exactly when the
   * first minimum and every later maximum do, each doubled once per probe since.
   */
  lemma {:induction false} IntervalReachesIff(ps: seq<Policy>, g: real)
    requires ps != []
    ensures Interval(ps) >= g <==> forall k :: 0 <= k < |ps| ==> Allows(ps[k], k == 0, |ps| - 1 - k) >= g
  {
    var init := ps[..|ps| - 1];
    if init != [] {
      IntervalReachesIff(init, g / 2.0);
      forall k | 0 <= k < |init|
        ensures Allows(ps[k], k == 0, |ps| - 1 - k) >= g <==> Allows(init[k], k == 0, |init| - 1 - k) >= g / 2.0
      {
        AllowsDoubles(ps[k], k == 0, |init| - 1 - k);
      }
      OwnAllowance(ps[|ps| - 1], false);
    } else {
      OwnAllowance(ps[0], true);
    }
  }

  lemma AllowsDoubles(p: Policy, first: bool, k: nat)
    ensures Allows(p, first, k + 1) == Allows(p, first, k) * 2.0
  {
    var x := if first then p.minInterval else p.maxInterval;
    assert x * Pow2(k + 1) == (x * Pow2(k)) * 2.0;
  }

  lemma OwnAllowance(p: Policy, first: bool)
    ensures Allows(p, first, 0) == if first then p.minInterval else p.maxInterval
  {
  }

  /** The interval that a probe at i notes. */
  function IntervalAt(run: seq<Cycle>, i: nat): real
    requires i < |run|
  {
    Interval(Streak(run[..i + 1]))
  }

  /** A probe that does not raise sets a timer that interval ahead, counted from its end. */
  lemma ProbeSetsTimer(run: seq<Cycle>, i: nat)
    requires ProbesAt(run, i) && !run[i].raises
    ensures After(run[..i + 1]) == Some(Entry(run[i].noteAt + IntervalAt(run, i), IntervalAt(run, i)))
  {
    hide ClassifyDrops, After, Streak, Interval;
    AfterPrefix(run, i + 1);
    EntryIsStreak(run[..i + 1]);
    ProbesAreBad(After(run[..i]), run[i]);
  }

  /** Until something forgets it, a timer stays or moves on; it moves only where a cycle probes. */
  lemma {:induction false} TimerHolds(run: seq<Cycle>, i: nat, j: nat)
    requires Clocked(run) && IntervalsAtLeast(run, 0.0)
    requires i < j <= |run| && After(run[..i + 1]).Some?
    requires forall m: nat :: i < m < j ==> !Forgets(run[m])
    ensures After(run[..j]).Some? && After(run[..j]).value.nextT >= After(run[..i + 1]).value.nextT
    ensures (forall k: nat :: i < k < j ==> !ProbesAt(run, k)) ==> After(run[..j]) == After(run[..i + 1])
    decreases j
  {
    hide ClassifyDrops, After;
    if j > i + 1 {
      TimerHolds(run, i, j - 1);
      AfterPrefix(run, j);
      IntervalNeverShort(run, j - 1, 0.0);
      assert run[j - 1].now <= run[j - 1].noteAt;
      assert (forall k: nat :: i < k < j ==> !ProbesAt(run, k)) ==> !ProbesAt(run, j - 1);
    }
  }

  /** Once forgotten, there is no timer up to the next unexplained bad cycle, nor after one that raises. */
  lemma {:induction false} NoTimer(run: seq<Cycle>, m: nat, k: nat)
    requires m < k <= |run| && Forgets(run[m]) && (Suspect(run, m) ==> run[m].raises)
    requires forall q: nat :: m < q < k ==> !Suspect(run, q)
    ensures After(run[..k]) == None
    decreases k
  {
    hide ClassifyDrops, After;
    AfterPrefix(run, k);
    if k > m + 1 {
      NoTimer(run, m, k - 1);
      assert !Suspect(run, k - 1);
    }
  }

  /** The first unexplained bad cycle once the backoff is forgotten probes. */
  lemma {:induction false} RelapseProbes(run: seq<Cycle>, m: nat, j: nat) returns (k: nat)
    requires m <= j && m < |run| && Forgets(run[m]) && Suspect(run, j)
    ensures m <= k <= j && ProbesAt(run, k)
    decreases j
  {
    hide ClassifyDrops, After;
    if q: nat :| m <= q < j && Suspect(run, q) {
      k := RelapseProbes(run, m, q);
    } else {
      k := j;
      if m < j {
        NoTimer(run, m, j);
      }
    }
  }

  /** A probe that raises is tried again by the next unexplained bad cycle. */
  lemma {:induction false} RaisedProbesAgain(run: seq<Cycle>, i: nat, j: nat) returns (k: nat)
    requires Clocked(run) && ProbesAt(run, i) && run[i].raises && i < j && Suspect(run, j)
    ensures i < k <= j && ProbesAt(run, k)
    decreases j
  {
    hide ClassifyDrops, After;
    if q: nat :| i < q < j && Suspect(run, q) {
      k := RaisedProbesAgain(run, i, q);
    } else if m: nat :| i < m <= j && Forgets(run[m]) {
      k := RelapseProbes(run, m, j);
    } else {
      k := j;
      NothingMoves(run, i, j);
    }
  }

  /** From a probe that raised, with neither suspicion nor forgetting since, the entry is what it was. */
  lemma {:induction false} NothingMoves(run: seq<Cycle>, i: nat, j: nat)
    requires ProbesAt(run, i) && run[i].raises && i < j <= |run|
    requires forall q: nat :: i < q < j ==> !Suspect(run, q) && !Forgets(run[q])
    ensures After(run[..j]).Some? ==> After(run[..j]).value.nextT <= run[i].now
    decreases j
  {
    hide ClassifyDrops, After;
    AfterPrefix(run, j);
    if j > i + 1 {
      NothingMoves(run, i, j - 1);
      assert !Suspect(run, j - 1);
    }
  }

  /**
   * When the next probe comes, exactly: some cycle up to j probes again exactly when some cycle
   * up to j has unexplained drops and either the timer of the probe at i is gone or the interval
   * noted there has passed since the probe ended.
   */
  lemma NextProbeIff(run: seq<Cycle>, i: nat, j: nat)
    requires Clocked(run) && IntervalsAtLeast(run, 0.0) && ProbesAt(run, i) && i < j < |run|
    ensures (exists k: nat :: i < k <= j && ProbesAt(run, k)) <==>
            exists k: nat :: i < k <= j && DueAgain(run, i, k)
  {
    hide After, Probes, Suspicious, Forgets, DueAgain;
    if k: nat :| i < k <= j && ProbesAt(run, k) {
      ProbeIsDue(run, i, k);
    }
    if k: nat :| i < k <= j && DueAgain(run, i, k) {
      var q := DueProbes(run, i, k);
    }
  }

  /** Unexplained drops at k, with the timer of a probe at i gone, or its interval over. */
  ghost predicate DueAgain(run: seq<Cycle>, i: nat, k: nat) {
    i < k && Suspect(run, k) &&
    ((exists m :: Released(run, i, m, k)) ||
     run[k].now >= run[i].noteAt + IntervalAt(run, i))
  }

  lemma ProbeIsDue(run: seq<Cycle>, i: nat, k: nat)
    requires Clocked(run) && IntervalsAtLeast(run, 0.0) && ProbesAt(run, i) && i < k && ProbesAt(run, k)
    ensures DueAgain(run, i, k)
  {
    hide After, Bad, Explained, Forgets;
    if forall m :: !Released(run, i, m, k) {
      assert !Released(run, i, i, k) && !Released(run, i, k, k);
      forall m: nat | i < m < k ensures !Forgets(run[m]) {
        assert !Released(run, i, m, k);
      }
      ProbeSetsTimer(run, i);
      TimerHolds(run, i, k);
      assert !Forgets(run[k]);
      NotForgetting(run[k]);
    }
  }

  lemma NotForgetting(c: Cycle)
    ensures !Forgets(c) ==> !c.restarted
  {
  }

  lemma DueProbes(run: seq<Cycle>, i: nat, k: nat) returns (q: nat)
    requires Clocked(run) && IntervalsAtLeast(run, 0.0) && ProbesAt(run, i) && DueAgain(run, i, k)
    ensures i < q <= k && ProbesAt(run, q)
  {
    hide After, Bad, Explained, Forgets;
    if m :| Released(run, i, m, k) {
      if m == i {
        q := RaisedProbesAgain(run, i, k);
      } else {
        q := RelapseProbes(run, m, k);
      }
    } else if q': nat :| i < q' < k && ProbesAt(run, q') {
      q := q';
    } else {
      forall m: nat | i < m < k ensures !Forgets(run[m]) {
        assert !Released(run, i, m, k);
      }
      assert !Released(run, i, i, k);
      ProbeSetsTimer(run, i);
      TimerHolds(run, i, k);
      q := k;
    }
  }

  /**
   * When probes keep a gap, over every run and every reload that keeps the intervals at least
   * that long: exactly when no unexplained drops come within the gap of a probe whose timer a
   * recovery, a restart of the monitor, or the failure of the probe itself has taken away.
   */
  lemma SpacedIff(run: seq<Cycle>, gap: real)
    requires Clocked(run) && gap >= 0.0 && IntervalsAtLeast(run, gap)
    ensures Spaced(run, gap) <==> !exists i: nat, m: nat, j: nat :: QuickRelapse(run, gap, i, m, j)
  {
    hide After, Probes, Forgets, Released, Suspicious, IntervalAt;
    assert IntervalsAtLeast(run, 0.0);
    if i: nat, m: nat, j: nat :| QuickRelapse(run, gap, i, m, j) {
      assert DueAgain(run, i, j);
      var k := DueProbes(run, i, j);
      assert run[k].now <= run[k].noteAt;
      assert k < j ==> run[k].noteAt <= run[j].now;
      assert run[k].now - run[i].now < gap;
    }
    if i: nat, j: nat :| i < j && ProbesAt(run, i) && ProbesAt(run, j) && run[j].now - run[i].now < gap {
      ProbeIsDue(run, i, j);
      var m := ReleaseBetween(run, i, j, gap);
      assert QuickRelapse(run, gap, i, m, j);
    }
  }

  lemma ReleaseBetween(run: seq<Cycle>, i: nat, j: nat, gap: real) returns (m: nat)
    requires Clocked(run) && IntervalsAtLeast(run, gap) && gap >= 0.0
    requires ProbesAt(run, i) && DueAgain(run, i, j) && run[j].now - run[i].now < gap
    ensures Released(run, i, m, j)
  {
    hide After, Probes, Forgets, Suspicious, IntervalAt;
    assert run[i].now <= run[i].noteAt;
    if run[i].raises {
      m := i;
    } else {
      ProbeSetsTimer(run, i);
      AfterPrefix(run, i + 1);
      IntervalNeverShort(run, i + 1, gap);
      m :| Released(run, i, m, j);
    }
  }

  /** Each probe keeps the minimum interval in force when it ran. */
  ghost predicate KeepsOwnMinimum(run: seq<Cycle>) {
    forall i: nat, j: nat :: i < j && ProbesAt(run, i) && ProbesAt(run, j) ==>
      run[j].now - run[i].now >= run[i].policy.minInterval
  }

  /**
   * Under reloads of any kind: exactly when no unexplained drops come within the minimum interval
   * in force at a probe with its timer gone or its noted interval over.
   */
  lemma OwnMinimumIff(run: seq<Cycle>)
    requires Clocked(run) && IntervalsAtLeast(run, 0.0)
    ensures KeepsOwnMinimum(run) <==>
            !exists i: nat, j: nat ::
              ProbesAt(run, i) && DueAgain(run, i, j) && run[j].now - run[i].now < run[i].policy.minInterval
  {
    hide After, Probes, Suspicious, Released, Forgets, IntervalAt;
    if i: nat, j: nat :| ProbesAt(run, i) && DueAgain(run, i, j) &&
                         run[j].now - run[i].now < run[i].policy.minInterval {
      var k := DueProbes(run, i, j);
      assert run[k].now <= run[k].noteAt;
      assert k < j ==> run[k].noteAt <= run[j].now;
      assert run[k].now - run[i].now < run[i].policy.minInterval;
    }
    if i: nat, j: nat :| i < j && ProbesAt(run, i) && ProbesAt(run, j) &&
                         run[j].now - run[i].now < run[i].policy.minInterval {
      ProbeIsDue(run, i, j);
    }
  }

  /**
   * While its timer is not taken away, a probe breaks its own minimum only because the interval
   * it noted is below it: some minimum or maximum since the backoff was last forgotten was, as
   * doubled since, too low.
   */
  lemma ShortIntervalBreaks(run: seq<Cycle>, i: nat, j: nat) returns (k: nat)
    requires Clocked(run) && IntervalsAtLeast(run, 0.0) && i < j && ProbesAt(run, i) && ProbesAt(run, j)
    requires run[j].now - run[i].now < run[i].policy.minInterval
    requires forall m :: !Released(run, i, m, j)
    ensures run[j].now - run[i].now >= IntervalAt(run, i) && IntervalAt(run, i) < run[i].policy.minInterval
    ensures var ps := Streak(run[..i + 1]);
            k < |ps| && Allows(ps[k], k == 0, |ps| - 1 - k) < run[i].policy.minInterval
  {
    hide After, Probes, Forgets, Suspicious, Streak, Interval, Allows;
    ProbeIsDue(run, i, j);
    assert run[i].now <= run[i].noteAt;
    assert !Released(run, i, i, j);
    ProbeSetsTimer(run, i);
    EntryIsStreak(run[..i + 1]);
    var ps := Streak(run[..i + 1]);
    IntervalReachesIff(ps, run[i].policy.minInterval);
    k :| 0 <= k < |ps| && Allows(ps[k], k == 0, |ps| - 1 - k) < run[i].policy.minInterval;
  }

  // ----- Runs that break it -----

  /** Drops that no host signal explains. */
  const SUSPECT := Signals(Some(50), None, 0, 0, None, None, false)
  const LIMITS := Limits(10, 30.0, 0.0, 0.0, 0.0, 1.0, 1)

  function Observed(signals: Signals, minInterval: real, now: real, restarted: bool): Cycle {
    Cycle(signals, None, Policy(LIMITS, minInterval, 3600.0), true, now, now, false, restarted)
  }

  lemma SuspectIsSuspicious(minInterval: real, now: real, restarted: bool)
    ensures Suspicious(Observed(SUSPECT, minInterval, now, restarted))
  {
  }

  /** Across a recovery, two probes two seconds apart, with a 600 s minimum interval. */
  lemma SpacingFailsAcrossRecovery()
    ensures var run := [Observed(SUSPECT, 600.0, 1.0, false),
                        Observed(SUSPECT.(dropped := Some(0)), 600.0, 2.0, false),
                        Observed(SUSPECT, 600.0, 3.0, false)];
            Clocked(run) && ProbesAt(run, 0) && ProbesAt(run, 2) && !Spaced(run, 600.0)
  {
    var run := [Observed(SUSPECT, 600.0, 1.0, false),
                Observed(SUSPECT.(dropped := Some(0)), 600.0, 2.0, false),
                Observed(SUSPECT, 600.0, 3.0, false)];
    assert run[..0] == [] && run[..2] == run[..1] + [run[1]];
    RecoveryForgets(run[..1], run[1], run[2]);
  }

  /** Across a restart of the monitor the same, with bad cycles only. */
  lemma SpacingFailsAcrossRestart()
    ensures var run := [Observed(SUSPECT, 600.0, 1.0, false), Observed(SUSPECT, 600.0, 3.0, true)];
            Clocked(run) && ProbesAt(run, 0) && ProbesAt(run, 1) && !Spaced(run, 600.0)
  {
    var run := [Observed(SUSPECT, 600.0, 1.0, false), Observed(SUSPECT, 600.0, 3.0, true)];
    assert run[..0] == [];
  }

  /**
   * A reload that raises the minimum mid-episode is not honoured by the next probe: the backoff
   * goes on from the old interval, and probes come 1200 s apart with a 3600 s minimum in force.
   */
  lemma RaisedMinimumLags()
    ensures var run := [Observed(SUSPECT, 600.0, 0.0, false), Observed(SUSPECT, 3600.0, 600.0, false),
                        Observed(SUSPECT, 3600.0, 1800.0, false)];
            Clocked(run) && ProbesAt(run, 1) && ProbesAt(run, 2) && !KeepsOwnMinimum(run) &&
            forall m :: 0 <= m < 3 ==> !Forgets(run[m]) && !run[m].raises
  {
    hide ClassifyDrops;
    var run := [Observed(SUSPECT, 600.0, 0.0, false), Observed(SUSPECT, 3600.0, 600.0, false),
                Observed(SUSPECT, 3600.0, 1800.0, false)];
    SuspectIsSuspicious(600.0, 0.0, false);
    SuspectIsSuspicious(3600.0, 600.0, false);
    SuspectIsSuspicious(3600.0, 1800.0, false);
    assert run[..0] == [];
    AfterPrefix(run, 1);
    AfterPrefix(run, 2);
  }
}
