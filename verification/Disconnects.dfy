/**
 * Scheduled camera reboots against real drops: classify_disconnects, its in-place burst
 * spreading, and the history of drops that survives restarts.
 */
module Disconnects {
  const DAY := 86400
  const SCHED_TOL := 1200
  const BURST := 600
  const HISTORY := 4 * DAY

  function Abs(x: int): nat { if x < 0 then -x else x }

  // ----- One drop against one earlier drop -----

  function Days(k: int): int { k * DAY }

  /** t fell at the same time of day as p, one or more whole days later. */
  ghost predicate SameTimeOfDay(t: int, p: int) {
    exists k :: k >= 1 && Abs(t - p - Days(k)) <= SCHED_TOL
  }

  /** The guard and the two-sided remainder test of the inner loop. */
  predicate PassesTest(t: int, p: int) {
    var gap := t - p;
    gap >= DAY - SCHED_TOL &&
    var off := gap % DAY;
    (if off < DAY - off then off else DAY - off) <= SCHED_TOL
  }

  lemma PassesTestIff(t: int, p: int)
    ensures PassesTest(t, p) <==> SameTimeOfDay(t, p)
  {
    var gap := t - p;
    var q, off := gap / DAY, gap % DAY;
    if PassesTest(t, p) {
      var k := if off <= SCHED_TOL then q else q + 1;
      assert Abs(t - p - Days(k)) <= SCHED_TOL;
    }
    if SameTimeOfDay(t, p) {
      var k :| k >= 1 && Abs(t - p - Days(k)) <= SCHED_TOL;
      assert gap == q * DAY + off;
      assert q == k || q == k - 1;
    }
  }

  /** Nothing less than 23 h 40 min back can vouch for a drop. */
  lemma VouchersAreOld(t: int, p: int)
    requires SameTimeOfDay(t, p)
    ensures t - p >= 85200
  {
    var k :| k >= 1 && Abs(t - p - Days(k)) <= SCHED_TOL;
  }

  /** In seconds: within 20 minutes of one or more whole days of 86400. */
  lemma SameTimeInSeconds(t: int, p: int)
    ensures SameTimeOfDay(t, p) <==> exists k: nat :: k >= 1 && -1200 <= t - p - TimesDay(k) <= 1200
  {
    if SameTimeOfDay(t, p) {
      var k :| k >= 1 && Abs(t - p - Days(k)) <= SCHED_TOL;
      assert TimesDay(k) == Days(k);
    }
    if k: nat :| k >= 1 && -1200 <= t - p - TimesDay(k) <= 1200 {
      assert Abs(t - p - Days(k)) <= SCHED_TOL;
    }
  }

  function TimesDay(k: nat): nat { 86400 * k }

  // ----- The set of scheduled drops -----

  ghost predicate Direct(s: seq<int>, h: seq<int>, i: nat)
    ensures Direct(s, h, i) ==> i < |s|
  {
    i < |s| && exists p :: p in h && SameTimeOfDay(s[i], p)
  }

  predicate Near(s: seq<int>, i: nat, j: nat) {
    i < |s| && j < |s| && Abs(s[i] - s[j]) <= BURST
  }

  /** A direct hit, or near a direct hit, or near an earlier member. */
  ghost predicate Member(s: seq<int>, h: seq<int>, i: nat)
    decreases i
  {
    i < |s| &&
    (Direct(s, h, i) ||
     (exists j: nat :: Direct(s, h, j) && Near(s, i, j)) ||
     (exists j: nat :: j < i && Near(s, i, j) && Member(s, h, j)))
  }

  ghost function Scheduled(s: seq<int>, h: seq<int>): set<nat> {
    set i: nat | i < |s| && Member(s, h, i)
  }

  /** In seconds, whatever the order of times: vouched for, or within 600 s of one that is or of an earlier one. */
  lemma VerdictInSeconds(s: seq<int>, h: seq<int>, i: nat)
    requires i < |s|
    ensures i in Scheduled(s, h) <==>
            || (exists p :: p in h && SameTimeOfDay(s[i], p))
            || (exists j: nat :: j < |s| && s[i] - 600 <= s[j] <= s[i] + 600 &&
                  exists p :: p in h && SameTimeOfDay(s[j], p))
            || (exists j: nat :: j < i && s[i] - 600 <= s[j] <= s[i] + 600 && j in Scheduled(s, h))
  {
    hide SameTimeOfDay;
    forall j: nat | j < |s| ensures Near(s, i, j) <==> s[i] - 600 <= s[j] <= s[i] + 600 {}
    forall j: nat | j < |s| ensures Direct(s, h, j) <==> exists p :: p in h && SameTimeOfDay(s[j], p) {}
  }

  /** The first loop: the drops vouched for by an earlier day. */
  method DirectHits(session: seq<int>, history: seq<int>) returns (sched: set<nat>)
    ensures forall k: nat :: k in sched <==> Direct(session, history, k)
  {
    hide SameTimeOfDay;
    sched := {};
    for i := 0 to |session|
      invariant forall k: nat :: k in sched <==> k < i && Direct(session, history, k)
    {
      var t := session[i];
      ghost var found := false;
      for j := 0 to |history|
        invariant !found
        invariant forall k: nat :: k in sched <==> k < i && Direct(session, history, k)
        invariant forall q :: 0 <= q < j ==> !SameTimeOfDay(t, history[q])
      {
        var p := history[j];
        PassesTestIff(t, p);
        var gap := t - p;
        if gap < DAY - SCHED_TOL {
          continue;
        }
        var off := gap % DAY;
        if (if off < DAY - off then off else DAY - off) <= SCHED_TOL {
          assert p in history;
          found := true;
          sched := sched + {i};
          break;
        }
      }
      assert !found ==> !Direct(session, history, i);
    }
  }

  /** The second loop, over a set that grows while it is consulted. */
  method Spread(session: seq<int>, ghost history: seq<int>, hits: set<nat>) returns (sched: set<nat>)
    requires forall k: nat :: k in hits <==> Direct(session, history, k)
    ensures sched == Scheduled(session, history)
  {
    hide Direct, SameTimeOfDay;
    sched := hits;
    for i := 0 to |session|
      invariant forall k: nat :: k in sched <==> k in hits || (k < i && Member(session, history, k))
    {
      if i !in sched && exists j :: j in sched && Near(session, i, j) {
        sched := sched + {i};
      }
      assert i in sched <==> Member(session, history, i);
    }
    assert forall k: nat :: k in hits ==> Member(session, history, k);
  }

  /** Every drop is one or the other; the in-place loops find exactly Scheduled. */
  method ClassifyDisconnects(session: seq<int>, history: seq<int>)
    returns (scheduled: nat, unplanned: nat)
    ensures scheduled == |Scheduled(session, history)|
    ensures scheduled + unplanned == |session|
  {
    var sched := DirectHits(session, history);
    sched := Spread(session, history, sched);
    CountWithin(sched, |session|);
    scheduled, unplanned := |sched|, |session| - |sched|;
  }

  lemma {:induction false} CountWithin(s: set<nat>, n: nat)
    requires forall i :: i in s ==> i < n
    ensures |s| <= n
  {
    if n > 0 {
      CountWithin(s - {n - 1}, n - 1);
    } else {
      assert s == {};
    }
  }

  /** A member is chained to a direct hit by hops of at most 600 s, in any order of times. */
  lemma {:induction false} MemberChain(s: seq<int>, h: seq<int>, i: nat) returns (path: seq<nat>)
    requires Member(s, h, i)
    ensures path != [] && path[0] == i && Direct(s, h, path[|path| - 1])
    ensures forall k :: 0 <= k < |path| - 1 ==> Near(s, path[k], path[k + 1])
    decreases i
  {
    if Direct(s, h, i) {
      path := [i];
    } else if j: nat :| Direct(s, h, j) && Near(s, i, j) {
      path := [i, j];
    } else {
      var j: nat :| j < i && Near(s, i, j) && Member(s, h, j);
      var rest := MemberChain(s, h, j);
      path := [i] + rest;
    }
  }

  /** More history never turns a scheduled drop into an unplanned one. */
  lemma {:induction false} GrowsWithHistory(s: seq<int>, h: seq<int>, h': seq<int>, i: nat)
    requires forall p :: p in h ==> p in h'
    requires Member(s, h, i)
    ensures Member(s, h', i)
    decreases i
  {
    forall j: nat | Direct(s, h, j) ensures Direct(s, h', j) {}
    forall j: nat | j < i && Member(s, h, j) ensures Member(s, h', j) {
      GrowsWithHistory(s, h, h', j);
    }
  }

  /** The verdicts depend on the history only as a set. */
  lemma SameVouchersSameVerdict(s: seq<int>, h: seq<int>, h': seq<int>)
    requires forall p :: p in h <==> p in h'
    ensures Scheduled(s, h) == Scheduled(s, h')
  {
    forall i: nat | i < |s| ensures Member(s, h, i) <==> Member(s, h', i) {
      if Member(s, h, i) { GrowsWithHistory(s, h, h', i); }
      if Member(s, h', i) { GrowsWithHistory(s, h', h, i); }
    }
  }

  // ----- Chronological sessions: the verdict per burst -----

  ghost predicate Chronological(s: seq<int>) {
    forall i, j :: 0 <= i <= j < |s| ==> s[i] <= s[j]
  }

  /** The first drop of the run of drops, each at most 600 s after the last, that holds i. */
  function BurstStart(s: seq<int>, i: nat): (b: nat)
    requires i < |s|
    ensures b <= i
  {
    if i > 0 && s[i] - s[i - 1] <= BURST then BurstStart(s, i - 1) else i
  }

  lemma {:induction false} NearSameBurst(s: seq<int>, i: nat, j: nat)
    requires Chronological(s) && i <= j < |s| && s[j] - s[i] <= BURST
    ensures BurstStart(s, i) == BurstStart(s, j)
    decreases j
  {
    if i < j {
      NearSameBurst(s, i, j - 1);
    }
  }

  /** d is a direct hit of i's burst, and i comes no more than 600 s before it. */
  ghost predicate Covers(s: seq<int>, h: seq<int>, d: nat, i: nat)
    requires i < |s|
  {
    Direct(s, h, d) && BurstStart(s, d) == BurstStart(s, i) && s[d] - s[i] <= BURST
  }

  lemma {:induction false} MemberIsCovered(s: seq<int>, h: seq<int>, i: nat) returns (d: nat)
    requires Chronological(s) && Member(s, h, i)
    ensures i < |s| && Direct(s, h, d) && Covers(s, h, d, i)
    decreases i
  {
    if Direct(s, h, i) {
      d := i;
    } else if j: nat :| Direct(s, h, j) && Near(s, i, j) {
      d := j;
      if i <= j { NearSameBurst(s, i, j); } else { NearSameBurst(s, j, i); }
    } else {
      var j: nat :| j < i && Near(s, i, j) && Member(s, h, j);
      d := MemberIsCovered(s, h, j);
      NearSameBurst(s, j, i);
    }
  }

  lemma {:induction false} LaterInBurst(s: seq<int>, h: seq<int>, d: nat, i: nat)
    requires Chronological(s) && d <= i < |s|
    requires Member(s, h, d) && BurstStart(s, d) == BurstStart(s, i)
    ensures Member(s, h, i)
    decreases i
  {
    if d < i {
      assert s[i] - s[i - 1] <= BURST;
      LaterInBurst(s, h, d, i - 1);
      assert Near(s, i, i - 1);
    }
  }

  /**
   * For a chronological session, a drop is scheduled iff its burst holds a direct hit that
   * it precedes by at most 600 s. Spreading is transitive forwards, one hop backwards.
   */
  lemma BurstVerdict(s: seq<int>, h: seq<int>, i: nat)
    requires Chronological(s) && i < |s|
    ensures Member(s, h, i) <==> exists d: nat :: Covers(s, h, d, i)
  {
    if Member(s, h, i) {
      var d := MemberIsCovered(s, h, i);
    }
    if d: nat :| Covers(s, h, d, i) {
      if d <= i {
        LaterInBurst(s, h, d, i);
      } else {
        assert Near(s, i, d);
      }
    }
  }

  /**
   * The same, in times alone: some drop d at the same time of day as a recorded one either comes
   * at most 600 s after drop i, or comes before it with no gap of more than 600 s from d to i.
   */
  lemma VerdictInTimes(s: seq<int>, h: seq<int>, i: nat)
    requires Chronological(s) && i < |s|
    ensures i in Scheduled(s, h) <==>
            exists d: nat :: d < |s| && (exists p :: p in h && SameTimeOfDay(s[d], p)) &&
              if d <= i then forall k :: d < k <= i ==> s[k] - s[k - 1] <= 600 else s[d] - s[i] <= 600
  {
    hide Member, SameTimeOfDay, BurstStart;
    BurstVerdict(s, h, i);
    if d: nat :| Covers(s, h, d, i) && d <= i {
      SameBurstGaps(s, d, i);
    }
    if d: nat :| d < |s| && (exists p :: p in h && SameTimeOfDay(s[d], p)) &&
                 if d <= i then forall k :: d < k <= i ==> s[k] - s[k - 1] <= 600 else s[d] - s[i] <= 600
    {
      if d <= i { GapsSameBurst(s, d, i); } else { NearSameBurst(s, i, d); }
      assert Covers(s, h, d, i);
    }
  }

  lemma {:induction false} GapsSameBurst(s: seq<int>, d: nat, i: nat)
    requires d <= i < |s| && forall k :: d < k <= i ==> s[k] - s[k - 1] <= 600
    ensures BurstStart(s, d) == BurstStart(s, i)
    decreases i
  {
    if d < i { GapsSameBurst(s, d, i - 1); }
  }

  lemma {:induction false} SameBurstGaps(s: seq<int>, d: nat, i: nat)
    requires d <= i < |s| && BurstStart(s, d) == BurstStart(s, i)
    ensures forall k :: d < k <= i ==> s[k] - s[k - 1] <= 600
    decreases i
  {
    if d < i {
      SameBurstGaps(s, d, i - 1);
    }
  }

  /** The documented promise: drops within 600 s of each other share their verdict. */
  ghost predicate SharesVerdict(s: seq<int>, h: seq<int>) {
    forall i: nat, j: nat :: Near(s, i, j) ==> (Member(s, h, i) <==> Member(s, h, j))
  }

  /** Every burst with a direct hit has one within 600 s of its first drop. */
  ghost predicate HitsLead(s: seq<int>, h: seq<int>) {
    forall d: nat :: Direct(s, h, d) ==> exists e: nat :: Covers(s, h, e, BurstStart(s, d))
  }

  lemma {:induction false} BackToBurstStart(s: seq<int>, h: seq<int>, i: nat)
    requires SharesVerdict(s, h) && Chronological(s) && Member(s, h, i)
    ensures Member(s, h, BurstStart(s, i))
    ensures BurstStart(s, BurstStart(s, i)) == BurstStart(s, i)
    decreases i
  {
    if i > 0 && s[i] - s[i - 1] <= BURST {
      assert Near(s, i, i - 1);
      BackToBurstStart(s, h, i - 1);
    }
  }

  lemma {:induction false} BurstStartIsStart(s: seq<int>, i: nat)
    requires i < |s|
    ensures BurstStart(s, BurstStart(s, i)) == BurstStart(s, i)
  {
    if i > 0 && s[i] - s[i - 1] <= BURST {
      BurstStartIsStart(s, i - 1);
    }
  }

  lemma HitsLeadWhenShared(s: seq<int>, h: seq<int>, d: nat) returns (e: nat)
    requires Chronological(s) && SharesVerdict(s, h) && Direct(s, h, d)
    ensures Covers(s, h, e, BurstStart(s, d))
  {
    BackToBurstStart(s, h, d);
    e := MemberIsCovered(s, h, BurstStart(s, d));
  }

  /** A direct hit covers a whole burst when it covers the first drop. */
  lemma {:induction false} CoversBurst(s: seq<int>, h: seq<int>, e: nat, d: nat, j: nat)
    requires Chronological(s) && d < |s| && j < |s| && BurstStart(s, d) == BurstStart(s, j)
    requires Covers(s, h, e, BurstStart(s, d))
    ensures Covers(s, h, e, j)
  {
    BurstStartIsStart(s, d);
  }

  /** Where direct hits lead their bursts, a drop near a scheduled one is scheduled. */
  lemma LedVerdict(s: seq<int>, h: seq<int>, i: nat, j: nat, d: nat, e: nat)
    requires Chronological(s) && Near(s, i, j)
    requires Covers(s, h, d, i) && d < |s| && Covers(s, h, e, BurstStart(s, d))
    ensures Member(s, h, j)
  {
    hide Member, BurstStart, SameTimeOfDay;
    if i <= j { NearSameBurst(s, i, j); } else { NearSameBurst(s, j, i); }
    CoversBurst(s, h, e, d, j);
    BurstVerdict(s, h, j);
  }

  /** The promise holds of a chronological session exactly when its direct hits lead their bursts. */
  lemma SharesVerdictIff(s: seq<int>, h: seq<int>)
    requires Chronological(s)
    ensures SharesVerdict(s, h) <==> HitsLead(s, h)
  {
    hide Member, Covers, BurstStart, Chronological;
    if SharesVerdict(s, h) {
      forall d: nat | Direct(s, h, d) ensures exists e: nat :: Covers(s, h, e, BurstStart(s, d)) {
        var e := HitsLeadWhenShared(s, h, d);
      }
    }
    if HitsLead(s, h) {
      forall i: nat, j: nat | Near(s, i, j) ensures Member(s, h, i) <==> Member(s, h, j) {
        assert Near(s, j, i);
        if Member(s, h, i) {
          var d := MemberIsCovered(s, h, i);
          var e: nat :| Covers(s, h, e, BurstStart(s, d));
          LedVerdict(s, h, i, j, d, e);
        }
        if Member(s, h, j) {
          var d := MemberIsCovered(s, h, j);
          var e: nat :| Covers(s, h, e, BurstStart(s, d));
          LedVerdict(s, h, j, i, d, e);
        }
      }
    }
  }

  /** It fails here: 0 is within 600 s of 500, which is scheduled, yet 0 is not. */
  lemma PromiseFails()
    ensures var s, h := [0, 500, 1000], [-84200];
            Near(s, 0, 1) && Member(s, h, 1) && !Member(s, h, 0)
  {
    var s, h := [0, 500, 1000], [-84200];
    PassesTestIff(0, -84200);
    PassesTestIff(500, -84200);
    PassesTestIff(1000, -84200);
    assert -84200 in h;
    assert Direct(s, h, 2) && Near(s, 1, 2);
    assert !Near(s, 0, 2);
  }
}
