/**
 * The tail scan of collect_logs: event counts gated by a time window whose clock is carried
 * forward from the last timestamp, and the peak buffer fill ahead of the last drop.
 */
module LogScan {
  import opened Sequences

  const SPIKE_WINDOW := 900
  const SPIKE_POINTS := 90

  datatype Buffer = Buffer(fill: real, dropped: nat, session: nat)

  /** `warning` is a WARNING-level line that no ignore pattern covers. */
  datatype Line = Line(
    ts: Option<int>,
    blank: bool,
    fatal: bool,
    traceback: bool,
    warning: bool,
    watchdog: bool,
    buffer: Option<Buffer>,
    rebuild: bool,
    decoder: bool,
    daytime: Option<bool>)

  // ----- The window gate -----

  predicate Stamped(l: Line) { l.ts.Some? }

  /** The latest timestamp at or before line i. */
  function StampAt(lines: seq<Line>, i: nat): (t: Option<int>)
    requires i < |lines|
  {
    var k := LastIndex(lines[..i + 1], Stamped);
    if k < 0 then None else lines[k].ts
  }

  /** No bound, no date, or a date inside the window. */
  predicate InWindow(cutoff: Option<real>, t: Option<int>) {
    cutoff.None? || t.None? || t.value as real >= cutoff.value
  }

  datatype Kind = Fatal | Warning | Watchdog | Rebuild | Decoder

  predicate Matches(kind: Kind, l: Line) {
    match kind
    case Fatal => l.fatal
    case Warning => l.warning && !l.fatal
    case Watchdog => l.watchdog
    case Rebuild => l.rebuild
    case Decoder => l.decoder && !l.rebuild
  }

  predicate IsHit(lines: seq<Line>, cutoff: Option<real>, kind: Kind, i: nat)
    requires i < |lines|
  {
    Matches(kind, lines[i]) && InWindow(cutoff, StampAt(lines, i))
  }

  /** The lines among the first n that count as an event of this kind. */
  function Hits(lines: seq<Line>, cutoff: Option<real>, kind: Kind, n: nat): set<nat>
    requires n <= |lines|
  {
    set i: nat | i < n && IsHit(lines, cutoff, kind, i)
  }

  function AllHits(lines: seq<Line>, cutoff: Option<real>, kind: Kind): set<nat> {
    Hits(lines, cutoff, kind, |lines|)
  }

  lemma HitsNext(lines: seq<Line>, cutoff: Option<real>, kind: Kind, n: nat)
    requires n < |lines|
    ensures var hit := if IsHit(lines, cutoff, kind, n) then {n} else {};
            Hits(lines, cutoff, kind, n + 1) == Hits(lines, cutoff, kind, n) + hit &&
            |Hits(lines, cutoff, kind, n + 1)| == |Hits(lines, cutoff, kind, n)| + |hit|
  {
    hide IsHit;
    var hit := if IsHit(lines, cutoff, kind, n) then {n} else {};
    assert Hits(lines, cutoff, kind, n + 1) == Hits(lines, cutoff, kind, n) + hit;
    assert Hits(lines, cutoff, kind, n) !! hit;
  }

  /** How a count and its last line change when line n is read. */
  lemma LastNext(lines: seq<Line>, cutoff: Option<real>, kind: Kind, n: nat, last: Option<nat>)
    requires n < |lines| && IsLastOf(Hits(lines, cutoff, kind, n), last)
    ensures var hit := Matches(kind, lines[n]) && InWindow(cutoff, StampAt(lines, n));
            IsLastOf(Hits(lines, cutoff, kind, n + 1), if hit then Some(n) else last)
  {
    hide StampAt, Matches, InWindow;
    HitsNext(lines, cutoff, kind, n);
  }

  lemma StampNext(lines: seq<Line>, i: nat)
    requires i < |lines|
    ensures StampAt(lines, i) ==
            if lines[i].ts.Some? then lines[i].ts else if i == 0 then None else StampAt(lines, i - 1)
  {
    assert lines[..i + 1] == lines[..i] + [lines[i]];
    LastIndexSnoc(lines[..i], lines[i], Stamped);
  }

  lemma CardinalityMonotone<T>(a: set<T>, b: set<T>)
    requires a <= b
    ensures |a| <= |b|
  {
    assert b == a + (b - a);
  }

  /** No line counts as both fatal and warning, nor as both a rebuild and a decoder fault. */
  lemma KindsDisjoint(lines: seq<Line>, cutoff: Option<real>)
    ensures AllHits(lines, cutoff, Fatal) !! AllHits(lines, cutoff, Warning)
    ensures AllHits(lines, cutoff, Rebuild) !! AllHits(lines, cutoff, Decoder)
    ensures |AllHits(lines, cutoff, Fatal)| + |AllHits(lines, cutoff, Warning)| <= |lines|
  {
    hide StampAt, InWindow;
    var f, w := AllHits(lines, cutoff, Fatal), AllHits(lines, cutoff, Warning);
    assert f !! w;
    CardinalityMonotone(f + w, Indices(|lines|));
  }

  function Indices(n: nat): (s: set<nat>)
    ensures |s| == n
    ensures forall i: nat :: i in s <==> i < n
  {
    if n == 0 then {} else Indices(n - 1) + {n - 1}
  }

  /** A wider window never lowers a count. */
  lemma WiderWindowCountsMore(lines: seq<Line>, cutoff: Option<real>, wider: Option<real>, kind: Kind)
    requires wider.None? || (cutoff.Some? && wider.value <= cutoff.value)
    ensures AllHits(lines, cutoff, kind) <= AllHits(lines, wider, kind)
    ensures |AllHits(lines, cutoff, kind)| <= |AllHits(lines, wider, kind)|
  {
    hide StampAt, Matches;
    CardinalityMonotone(AllHits(lines, cutoff, kind), AllHits(lines, wider, kind));
  }

  /** A count is zero exactly when every matching line is dated, and dated before the cutoff. */
  lemma CountsZeroIff(lines: seq<Line>, cutoff: real, kind: Kind)
    ensures |AllHits(lines, Some(cutoff), kind)| == 0 <==>
            forall i: nat :: i < |lines| && Matches(kind, lines[i]) ==>
              StampAt(lines, i).Some? && (StampAt(lines, i).value as real) < cutoff
  {
    hide StampAt, Matches;
    var hits := AllHits(lines, Some(cutoff), kind);
    assert |hits| == 0 <==> hits == {};
    forall i: nat | i < |lines| && Matches(kind, lines[i])
      ensures i in hits <==> StampAt(lines, i).None? || (StampAt(lines, i).value as real) >= cutoff
    {}
  }

  ghost predicate ChronologicalStamps(lines: seq<Line>) {
    forall i, j :: 0 <= i <= j < |lines| && lines[i].ts.Some? && lines[j].ts.Some? ==>
      lines[i].ts.value <= lines[j].ts.value
  }

  lemma StampsAscend(lines: seq<Line>, i: nat, j: nat)
    requires ChronologicalStamps(lines) && i <= j < |lines| && lines[0].ts.Some?
    ensures StampAt(lines, i).Some? && StampAt(lines, j).Some?
    ensures StampAt(lines, i).value <= StampAt(lines, j).value
  {
    hide LastIndex;
    var a, b := LastIndex(lines[..i + 1], Stamped), LastIndex(lines[..j + 1], Stamped);
    assert Stamped(lines[..i + 1][0]) && Stamped(lines[..j + 1][0]);
    assert lines[..i + 1][a] == lines[a] && lines[..j + 1][b] == lines[b];
    assert lines[..j + 1][a] == lines[a];
  }

  /**
   * When the tail opens with a dated line and the log is chronological, an alert clears at
   * one moment: as soon as the clock passes the last matching line's date plus the window,
   * however many lines have been logged since.
   */
  lemma ClearsOnTime(lines: seq<Line>, kind: Kind, m: nat, now: real, window: real)
    requires ChronologicalStamps(lines) && m < |lines| && lines[0].ts.Some?
    requires Matches(kind, lines[m]) && forall i :: m < i < |lines| ==> !Matches(kind, lines[i])
    ensures StampAt(lines, m).Some?
    ensures |AllHits(lines, Some(now - window), kind)| == 0 <==> now > StampAt(lines, m).value as real + window
  {
    hide StampAt, Matches;
    CountsZeroIff(lines, now - window, kind);
    StampsAscend(lines, m, m);
    forall i: nat | i < |lines| && Matches(kind, lines[i])
      ensures StampAt(lines, i).Some? && StampAt(lines, i).value <= StampAt(lines, m).value
    {
      StampsAscend(lines, i, m);
    }
  }

  // ----- The reported traceback line -----

  /** k is the last line of the traceback block that opens at idx. */
  ghost predicate EndsTraceback(lines: seq<Line>, idx: nat, k: nat) {
    && idx <= k < |lines|
    && (forall j :: idx < j <= k ==> !lines[j].blank && lines[j].ts.None?)
    && (k + 1 == |lines| || lines[k + 1].blank || lines[k + 1].ts.Some?)
  }

  lemma TracebackEndUnique(lines: seq<Line>, idx: nat, k: nat, k': nat)
    requires EndsTraceback(lines, idx, k) && EndsTraceback(lines, idx, k')
    ensures k == k'
  {
  }

  method ExtractTraceback(lines: seq<Line>, idx: nat) returns (k: nat)
    requires idx < |lines|
    ensures EndsTraceback(lines, idx, k)
  {
    var end := idx;
    while end < |lines|
      invariant idx <= end <= |lines|
      invariant forall j :: idx < j < end ==> !lines[j].blank && lines[j].ts.None?
      invariant end == idx ==> idx < |lines|
    {
      if end > idx && (lines[end].blank || lines[end].ts.Some?) {
        break;
      }
      end := end + 1;
    }
    k := end;
    while k > idx
      invariant idx <= k <= end
      invariant k == end || (k == idx && end == idx + 1)
    {
      k := k - 1;
      if !lines[k].blank {
        return;
      }
    }
  }

  // ----- Buffer-fill points -----

  /** `at` is the line the point was read from. */
  datatype Point = Point(ts: Option<int>, fill: real, session: nat, at: nat)

  /** The points of the first n lines. A point keeps its line's own timestamp, if it has one. */
  function Points(lines: seq<Line>, n: nat): (ps: seq<Point>)
    requires n <= |lines|
  {
    if n == 0 then []
    else
      var l := lines[n - 1];
      Points(lines, n - 1) +
      (if l.buffer.Some? then [Point(l.ts, l.buffer.value.fill, l.buffer.value.session, n - 1)] else [])
  }

  /** p was read from line p.at, one of the first n. */
  predicate ReadFrom(lines: seq<Line>, n: nat, p: Point)
    requires n <= |lines|
  {
    p.at < n && lines[p.at].buffer.Some? && p.ts == lines[p.at].ts &&
    p.fill == lines[p.at].buffer.value.fill && p.session == lines[p.at].buffer.value.session
  }

  /** Points are read from lines, in order. */
  lemma {:induction false} PointsFacts(lines: seq<Line>, n: nat)
    requires n <= |lines|
    ensures forall k :: 0 <= k < |Points(lines, n)| ==> ReadFrom(lines, n, Points(lines, n)[k])
    ensures forall j, k :: 0 <= j < k < |Points(lines, n)| ==> Points(lines, n)[j].at < Points(lines, n)[k].at
  {
    if n > 0 {
      PointsFacts(lines, n - 1);
    }
  }

  /** No buffer line is left out of the points. */
  lemma {:induction false} PointsComplete(lines: seq<Line>, n: nat, i: nat) returns (k: nat)
    requires i < n <= |lines| && lines[i].buffer.Some?
    ensures k < |Points(lines, n)| && Points(lines, n)[k].at == i
  {
    if i == n - 1 {
      k := |Points(lines, n)| - 1;
    } else {
      k := PointsComplete(lines, n - 1, i);
    }
  }

  predicate IsDrop(ps: seq<Point>, d: nat) {
    1 <= d < |ps| && ps[d].session > ps[d - 1].session
  }

  ghost predicate IsLastDrop(ps: seq<Point>, d: nat) {
    IsDrop(ps, d) && forall e: nat :: e > d ==> !IsDrop(ps, e)
  }

  ghost predicate TimedBefore(ps: seq<Point>, d: nat) {
    exists k :: 0 <= k < d && k < |ps| && ps[k].ts.Some?
  }

  /**
   * Point k belongs to the lead-up of a drop at d: strictly before it, and within 15 minutes
   * of it by timestamp, or among the 90 points before it when no comparison is possible.
   */
  ghost predicate InLeadup(ps: seq<Point>, d: nat, k: nat)
    requires d < |ps|
    ensures InLeadup(ps, d, k) ==> k < d
  {
    k < d &&
    if ps[d].ts.Some? && TimedBefore(ps, d)
    then ps[k].ts.Some? && 0 <= ps[d].ts.value - ps[k].ts.value <= SPIKE_WINDOW
    else k + SPIKE_POINTS >= d
  }

  /** r is the greatest fill over the lead-up of the last drop, if it has any. */
  ghost predicate IsLeadupPeak(ps: seq<Point>, r: Option<real>) {
    match r
    case None =>
      forall d: nat, k: nat :: IsLastDrop(ps, d) ==> !InLeadup(ps, d, k)
    case Some(v) =>
      exists d: nat, k: nat :: IsLastDrop(ps, d) && InLeadup(ps, d, k) && ps[k].fill == v &&
        forall j: nat :: InLeadup(ps, d, j) ==> ps[j].fill <= v
  }

  method LeadupPeak(ps: seq<Point>) returns (r: Option<real>)
    ensures IsLeadupPeak(ps, r)
  {
    var drop: Option<nat> := None;
    if |ps| == 0 {
      return None;
    }
    for i := 1 to |ps|
      invariant drop.None? ==> forall e: nat :: e < i ==> !IsDrop(ps, e)
      invariant drop.Some? ==> IsDrop(ps, drop.value) && forall e: nat :: drop.value < e < i ==> !IsDrop(ps, e)
    {
      if ps[i].session > ps[i - 1].session {
        drop := Some(i);
      }
    }
    if drop.None? {
      return None;
    }
    var d := drop.value;
    assert IsLastDrop(ps, d);
    var timed := false;
    for i := 0 to d
      invariant timed <==> TimedBefore(ps, i)
    {
      timed := timed || ps[i].ts.Some?;
    }
    r := None;
    for k := 0 to d
      invariant r.None? ==> forall j: nat :: j < k ==> !InLeadup(ps, d, j)
      invariant r.Some? ==> exists j: nat :: j < k && InLeadup(ps, d, j) && ps[j].fill == r.value
      invariant r.Some? ==> forall j: nat :: j < k && InLeadup(ps, d, j) ==> ps[j].fill <= r.value
    {
      var inLead :=
        if ps[d].ts.Some? && timed
        then ps[k].ts.Some? && 0 <= ps[d].ts.value - ps[k].ts.value <= SPIKE_WINDOW
        else k + SPIKE_POINTS >= d;
      assert inLead <==> InLeadup(ps, d, k);
      if inLead && (r.None? || ps[k].fill > r.value) {
        r := Some(ps[k].fill);
      }
    }
  }

  /** The specification allows one answer. */
  lemma LeadupPeakUnique(ps: seq<Point>, r: Option<real>, r': Option<real>)
    requires IsLeadupPeak(ps, r) && IsLeadupPeak(ps, r')
    ensures r == r'
  {
    hide InLeadup;
    if r.Some? {
      var d: nat, k: nat :| IsLastDrop(ps, d) && InLeadup(ps, d, k) && ps[k].fill == r.value &&
        forall j: nat :: InLeadup(ps, d, j) ==> ps[j].fill <= r.value;
      if r'.Some? {
        var d': nat, k': nat :| IsLastDrop(ps, d') && InLeadup(ps, d', k') && ps[k'].fill == r'.value &&
          forall j: nat :: InLeadup(ps, d', j) ==> ps[j].fill <= r'.value;
        assert d == d';
      }
    }
  }

  /** The fill at the drop line and at every later line has no effect on the peak. */
  lemma PeakIgnoresDropLine(ps: seq<Point>, qs: seq<Point>, d: nat, r: Option<real>)
    requires |ps| == |qs| && IsLastDrop(ps, d)
    requires forall k :: 0 <= k < |ps| ==> qs[k].ts == ps[k].ts && qs[k].session == ps[k].session
    requires forall k :: 0 <= k < d ==> qs[k].fill == ps[k].fill
    requires IsLeadupPeak(ps, r)
    ensures IsLeadupPeak(qs, r)
  {
    assert forall e: nat :: IsDrop(qs, e) <==> IsDrop(ps, e);
    assert IsLastDrop(qs, d);
    assert TimedBefore(qs, d) <==> TimedBefore(ps, d);
    assert forall k: nat :: InLeadup(qs, d, k) <==> InLeadup(ps, d, k);
  }

  // ----- The recent peak -----

  predicate Timed(p: Point) { p.ts.Some? }

  /**
   * Point k is recent: within 15 minutes of the last dated point, or among the last 90 points
   * when none is dated.
   */
  predicate IsRecent(ps: seq<Point>, k: nat) {
    k < |ps| &&
    var newest := LastIndex(ps, Timed);
    if newest >= 0 then ps[k].ts.Some? && 0 <= ps[newest].ts.value - ps[k].ts.value <= SPIKE_WINDOW
    else k + SPIKE_POINTS >= |ps|
  }

  /** r is the greatest recent fill, if there is any. */
  ghost predicate IsRecentPeak(ps: seq<Point>, r: Option<real>) {
    match r
    case None => forall k: nat :: !IsRecent(ps, k)
    case Some(v) =>
      (exists k: nat :: IsRecent(ps, k) && ps[k].fill == v) &&
      forall k: nat :: IsRecent(ps, k) ==> ps[k].fill <= v
  }

  method RecentPeak(ps: seq<Point>) returns (r: Option<real>)
    ensures IsRecentPeak(ps, r)
    ensures r.None? <==> ps == []
  {
    r := None;
    if |ps| == 0 {
      return;
    }
    var newest: Option<int> := None;
    ghost var at := -1;
    for i := 0 to |ps|
      invariant -1 <= at < i && (at >= 0 <==> newest.Some?)
      invariant at >= 0 ==> ps[at].ts == newest
      invariant forall j :: at < j < i ==> !Timed(ps[j])
    {
      if ps[i].ts.Some? {
        newest, at := ps[i].ts, i;
      }
    }
    LastIndexUnique(ps, Timed, at);
    for i := 0 to |ps|
      invariant r.None? ==> forall k: nat :: k < i ==> !IsRecent(ps, k)
      invariant r.Some? ==> exists k: nat :: k < i && IsRecent(ps, k) && ps[k].fill == r.value
      invariant r.Some? ==> forall k: nat :: k < i && IsRecent(ps, k) ==> ps[k].fill <= r.value
    {
      var recent :=
        if newest.Some? then ps[i].ts.Some? && 0 <= newest.value - ps[i].ts.value <= SPIKE_WINDOW
        else i + SPIKE_POINTS >= |ps|;
      assert recent <==> IsRecent(ps, i);
      if recent && (r.None? || ps[i].fill > r.value) {
        r := Some(ps[i].fill);
      }
    }
    assert IsRecent(ps, if at >= 0 then at else |ps| - 1);
  }

  /** While the newest reading is the drop itself and both are dated, the recent peak covers the lead-up. */
  lemma RecentCoversLeadup(ps: seq<Point>, d: nat, recent: Option<real>, leadup: Option<real>)
    requires IsLastDrop(ps, d) && d == |ps| - 1 && ps[d].ts.Some?
    requires IsRecentPeak(ps, recent) && IsLeadupPeak(ps, leadup) && leadup.Some?
    requires TimedBefore(ps, d)
    ensures recent.Some? && recent.value >= leadup.value && recent.value >= ps[d].fill
  {
    assert LastIndex(ps, Timed) == d;
    assert IsRecent(ps, d);
    var e: nat, k: nat :| IsLastDrop(ps, e) && InLeadup(ps, e, k) && ps[k].fill == leadup.value;
    assert e == d && IsRecent(ps, k);
  }

  // ----- The scan -----

  datatype Result = Result(
    fatals: nat,
    lastError: Option<nat>,
    warnings: nat,
    lastWarning: Option<nat>,
    lastWatchdog: Option<nat>,
    lastBuffer: Option<Buffer>,
    recentPeak: Option<real>,
    leadupPeak: Option<real>,
    rebuilds: nat,
    decoderErrors: nat,
    daytime: Option<bool>)

  /** i is the greatest element of s; None when s is empty. */
  ghost predicate IsLastOf(s: set<nat>, i: Option<nat>) {
    match i
    case None => s == {}
    case Some(k) => k in s && forall j :: j in s ==> j <= k
  }

  /** The line reported for a fatal match: the end of its traceback, or the line itself. */
  ghost predicate Reports(lines: seq<Line>, fatal: Option<nat>, reported: Option<nat>) {
    match (fatal, reported)
    case (None, None) => true
    case (Some(i), Some(k)) =>
      i < |lines| && if lines[i].traceback then EndsTraceback(lines, i, k) else k == i
    case _ => false
  }

  predicate HasBuffer(l: Line) { l.buffer.Some? }
  predicate HasMode(l: Line) { l.daytime.Some? }

  /** A window of None or 0 does not bound the scan. */
  function Cutoff(now: real, window: Option<real>): Option<real> {
    if window.None? || window.value == 0.0 then None else Some(now - window.value)
  }

  function StampBefore(lines: seq<Line>, n: nat): Option<int>
    requires n <= |lines|
  {
    if n == 0 then None else StampAt(lines, n - 1)
  }

  function LastBuffer(lines: seq<Line>): Option<Buffer> {
    var b := LastIndex(lines, HasBuffer);
    if b < 0 then None else lines[b].buffer
  }

  function LastMode(lines: seq<Line>): Option<bool> {
    var m := LastIndex(lines, HasMode);
    if m < 0 then None else lines[m].daytime
  }

  lemma NoneYet(lines: seq<Line>, cutoff: Option<real>)
    ensures forall kind :: Hits(lines, cutoff, kind, 0) == {}
    ensures Points(lines, 0) == []
    ensures LastBuffer(lines[..0]) == None && LastMode(lines[..0]) == None
  {
  }

  /** Everything line i changes. */
  lemma StepFacts(lines: seq<Line>, cutoff: Option<real>, i: nat,
                  fatal: Option<nat>, warning: Option<nat>, watchdog: Option<nat>)
    requires i < |lines|
    requires IsLastOf(Hits(lines, cutoff, Fatal, i), fatal)
    requires IsLastOf(Hits(lines, cutoff, Warning, i), warning)
    requires IsLastOf(Hits(lines, cutoff, Watchdog, i), watchdog)
    ensures StampBefore(lines, i + 1) == if lines[i].ts.Some? then lines[i].ts else StampBefore(lines, i)
    ensures var inWindow := InWindow(cutoff, StampBefore(lines, i + 1));
            && (forall kind :: |Hits(lines, cutoff, kind, i + 1)| ==
                  |Hits(lines, cutoff, kind, i)| + (if Matches(kind, lines[i]) && inWindow then 1 else 0))
            && IsLastOf(Hits(lines, cutoff, Fatal, i + 1),
                        if Matches(Fatal, lines[i]) && inWindow then Some(i) else fatal)
            && IsLastOf(Hits(lines, cutoff, Warning, i + 1),
                        if Matches(Warning, lines[i]) && inWindow then Some(i) else warning)
            && IsLastOf(Hits(lines, cutoff, Watchdog, i + 1),
                        if Matches(Watchdog, lines[i]) && inWindow then Some(i) else watchdog)
    ensures Points(lines, i + 1) == Points(lines, i) +
            (if lines[i].buffer.Some?
             then [Point(lines[i].ts, lines[i].buffer.value.fill, lines[i].buffer.value.session, i)] else [])
    ensures LastBuffer(lines[..i + 1]) ==
            if lines[i].buffer.Some? then lines[i].buffer else LastBuffer(lines[..i])
    ensures LastMode(lines[..i + 1]) ==
            if lines[i].daytime.Some? then lines[i].daytime else LastMode(lines[..i])
  {
    hide StampAt, Hits, InWindow, Matches, LastIndex, IsLastOf;
    StampNext(lines, i);
    forall kind ensures |Hits(lines, cutoff, kind, i + 1)| == |Hits(lines, cutoff, kind, i)| +
      (if Matches(kind, lines[i]) && InWindow(cutoff, StampBefore(lines, i + 1)) then 1 else 0)
    {
      HitsNext(lines, cutoff, kind, i);
    }
    LastNext(lines, cutoff, Fatal, i, fatal);
    LastNext(lines, cutoff, Warning, i, warning);
    LastNext(lines, cutoff, Watchdog, i, watchdog);
    assert lines[..i + 1] == lines[..i] + [lines[i]];
    LastIndexSnoc(lines[..i], lines[i], HasBuffer);
    LastIndexSnoc(lines[..i], lines[i], HasMode);
  }

  method ScanTail(lines: seq<Line>, now: real, window: Option<real>)
    returns (r: Result, ghost lastFatal: Option<nat>)
    ensures var cutoff := Cutoff(now, window);
            && r.fatals == |AllHits(lines, cutoff, Fatal)|
            && r.warnings == |AllHits(lines, cutoff, Warning)|
            && r.rebuilds == |AllHits(lines, cutoff, Rebuild)|
            && r.decoderErrors == |AllHits(lines, cutoff, Decoder)|
            && IsLastOf(AllHits(lines, cutoff, Fatal), lastFatal)
            && IsLastOf(AllHits(lines, cutoff, Warning), r.lastWarning)
            && IsLastOf(AllHits(lines, cutoff, Watchdog), r.lastWatchdog)
    ensures Reports(lines, lastFatal, r.lastError)
    ensures var warnings := AllHits(lines, Cutoff(now, window), Warning);
            && (r.lastWarning == None <==> warnings == {})
            && (r.lastWarning != None ==>
                  r.lastWarning.value in warnings && forall j :: j in warnings ==> j <= r.lastWarning.value)
    ensures var events := AllHits(lines, Cutoff(now, window), Watchdog);
            && (r.lastWatchdog == None <==> events == {})
            && (r.lastWatchdog != None ==>
                  r.lastWatchdog.value in events && forall j :: j in events ==> j <= r.lastWatchdog.value)
    ensures var fatals := AllHits(lines, Cutoff(now, window), Fatal);
            && (lastFatal == None <==> fatals == {})
            && (lastFatal != None ==> lastFatal.value in fatals && forall j :: j in fatals ==> j <= lastFatal.value)
    ensures IsRecentPeak(Points(lines, |lines|), r.recentPeak)
    ensures IsLeadupPeak(Points(lines, |lines|), r.leadupPeak)
    ensures r.lastBuffer == LastBuffer(lines) && r.daytime == LastMode(lines)
  {
    hide StampAt, InWindow, Hits, Points, LastIndex, IsLeadupPeak, IsRecentPeak, EndsTraceback;
    var cutoff := Cutoff(now, window);
    var fatals: nat, warnings: nat, rebuilds: nat, decoderErrors: nat := 0, 0, 0, 0;
    var lastError: Option<nat>, lastWarning: Option<nat>, lastWatchdog: Option<nat> := None, None, None;
    var buffer: Option<Buffer>, daytime: Option<bool> := None, None;
    var lastTs: Option<int> := None;
    var ps: seq<Point> := [];
    lastFatal := None;
    NoneYet(lines, cutoff);
    for i := 0 to |lines|
      invariant lastTs == StampBefore(lines, i)
      invariant fatals == |Hits(lines, cutoff, Fatal, i)| && warnings == |Hits(lines, cutoff, Warning, i)|
      invariant rebuilds == |Hits(lines, cutoff, Rebuild, i)|
      invariant decoderErrors == |Hits(lines, cutoff, Decoder, i)|
      invariant IsLastOf(Hits(lines, cutoff, Fatal, i), lastFatal) && Reports(lines, lastFatal, lastError)
      invariant IsLastOf(Hits(lines, cutoff, Warning, i), lastWarning)
      invariant IsLastOf(Hits(lines, cutoff, Watchdog, i), lastWatchdog)
      invariant ps == Points(lines, i)
      invariant buffer == LastBuffer(lines[..i]) && daytime == LastMode(lines[..i])
    {
      var line := lines[i];
      StepFacts(lines, cutoff, i, lastFatal, lastWarning, lastWatchdog);
      if line.ts.Some? {
        lastTs := line.ts;
      }
      var inWindow := InWindow(cutoff, lastTs);
      if line.fatal && inWindow {
        fatals := fatals + 1;
        lastFatal := Some(i);
        if line.traceback {
          var k := ExtractTraceback(lines, i);
          lastError := Some(k);
        } else {
          lastError := Some(i);
        }
      }
      if inWindow && !line.fatal && line.warning {
        warnings := warnings + 1;
        lastWarning := Some(i);
      }
      if inWindow && line.watchdog {
        lastWatchdog := Some(i);
      }
      if line.buffer.Some? {
        buffer := line.buffer;
        ps := ps + [Point(line.ts, line.buffer.value.fill, line.buffer.value.session, i)];
      }
      if inWindow {
        if line.rebuild {
          rebuilds := rebuilds + 1;
        } else if line.decoder {
          decoderErrors := decoderErrors + 1;
        }
      }
      if line.daytime.Some? {
        daytime := line.daytime;
      }
    }
    assert lines[..|lines|] == lines;
    var recent := RecentPeak(ps);
    var peak := LeadupPeak(ps);
    r := Result(fatals, lastError, warnings, lastWarning, lastWatchdog, buffer, recent, peak,
                rebuilds, decoderErrors, daytime);
  }

  // ----- The same, over the clock and the window of the scan -----

  /**
   * Which lines count: those that match and carry no date, or are dated, by the last timestamp k
   * at or before them, within the window. A window of None or 0 bounds nothing.
   */
  lemma HitOnLines(lines: seq<Line>, now: real, window: Option<real>, kind: Kind, i: nat, k: int)
    requires -1 <= k <= i < |lines| && (k >= 0 ==> lines[k].ts != None)
    requires forall j :: k < j <= i ==> lines[j].ts == None
    ensures i in AllHits(lines, Cutoff(now, window), kind) <==>
            && (match kind
                case Fatal => lines[i].fatal
                case Warning => lines[i].warning && !lines[i].fatal
                case Watchdog => lines[i].watchdog
                case Rebuild => lines[i].rebuild
                case Decoder => lines[i].decoder && !lines[i].rebuild)
            && (k < 0 || window == None || window == Some(0.0) || now - lines[k].ts.value as real <= window.value)
  {
    hide LastIndex;
    LastIndexUnique(lines[..i + 1], Stamped, k);
  }

  /** A longer window, or none, never lowers a count; nor does an earlier clock. */
  lemma WiderScanCountsMore(lines: seq<Line>, now: real, window: Option<real>,
                            earlier: real, wider: Option<real>, kind: Kind)
    requires earlier <= now
    requires wider == None || wider == Some(0.0) ||
             (window != None && window != Some(0.0) && window.value <= wider.value)
    ensures AllHits(lines, Cutoff(now, window), kind) <= AllHits(lines, Cutoff(earlier, wider), kind)
    ensures |AllHits(lines, Cutoff(now, window), kind)| <= |AllHits(lines, Cutoff(earlier, wider), kind)|
  {
    WiderWindowCountsMore(lines, Cutoff(now, window), Cutoff(earlier, wider), kind);
  }

  /**
   * When an alert clears: never without a window, else as soon as the clock passes the date k of
   * the last matching line m by the window.
   */
  lemma ScanClearsOnTime(lines: seq<Line>, kind: Kind, m: nat, k: nat, now: real, window: Option<real>)
    requires ChronologicalStamps(lines) && lines != [] && lines[0].ts != None
    requires k <= m < |lines| && lines[k].ts != None && forall j :: k < j <= m ==> lines[j].ts == None
    requires Matches(kind, lines[m]) && forall i :: m < i < |lines| ==> !Matches(kind, lines[i])
    ensures |AllHits(lines, Cutoff(now, window), kind)| == 0 <==>
            window != None && window != Some(0.0) && now > lines[k].ts.value as real + window.value
  {
    hide Matches, LastIndex;
    LastIndexUnique(lines[..m + 1], Stamped, k);
    if window == None || window == Some(0.0) {
      assert m in AllHits(lines, None, kind);
    } else {
      ClearsOnTime(lines, kind, m, now, window.value);
    }
  }

  // ----- The peaks, read off the lines -----

  /** k and j are consecutive buffer lines, and the session counter rises from k to j. */
  ghost predicate DropsAt(lines: seq<Line>, k: nat, j: nat) {
    && k < j < |lines| && lines[k].buffer.Some? && lines[j].buffer.Some?
    && (forall m :: k < m < j ==> lines[m].buffer.None?)
    && lines[k].buffer.value.session < lines[j].buffer.value.session
  }

  /** How many of the lines from i up to j carry a buffer reading. */
  function Readings(lines: seq<Line>, i: nat, j: nat): nat
    requires i <= j <= |lines|
  {
    if i == j then 0 else Readings(lines, i, j - 1) + (if lines[j - 1].buffer.Some? then 1 else 0)
  }

  lemma {:induction false} PointsCount(lines: seq<Line>, i: nat, j: nat)
    requires i <= j <= |lines|
    ensures |Points(lines, j)| == |Points(lines, i)| + Readings(lines, i, j)
    decreases j
  {
    if i < j { PointsCount(lines, i, j - 1); }
  }

  /** A point's index is the number of points before its line. */
  lemma {:induction false} PointsBefore(lines: seq<Line>, n: nat, k: nat)
    requires n <= |lines| && k < |Points(lines, n)|
    ensures var at := Points(lines, n)[k].at; at < n && |Points(lines, at)| == k
  {
    if k < |Points(lines, n - 1)| {
      PointsBefore(lines, n - 1, k);
    }
  }

  lemma ReadingsBetween(lines: seq<Line>, k: nat, d: nat)
    requires k <= d < |Points(lines, |lines|)|
    ensures var ps := Points(lines, |lines|);
            ps[k].at <= ps[d].at < |lines| && Readings(lines, ps[k].at, ps[d].at) == d - k
  {
    hide Points, Readings;
    var ps := Points(lines, |lines|);
    PointsFacts(lines, |lines|);
    PointsBefore(lines, |lines|, k);
    PointsBefore(lines, |lines|, d);
    PointsCount(lines, ps[k].at, ps[d].at);
  }

  lemma {:induction false} DropLines(lines: seq<Line>, d: nat)
    requires IsDrop(Points(lines, |lines|), d)
    ensures var ps := Points(lines, |lines|); DropsAt(lines, ps[d - 1].at, ps[d].at)
  {
    hide Points;
    var ps := Points(lines, |lines|);
    PointsFacts(lines, |lines|);
    forall m: nat | m < |lines| && lines[m].buffer.Some? ensures m <= ps[d - 1].at || m >= ps[d].at {
      var k := PointsComplete(lines, |lines|, m);
      assert if k <= d - 1 then ps[k].at <= ps[d - 1].at else ps[k].at >= ps[d].at;
    }
  }


  /** Where a reading stands among the points. */
  lemma PointOf(lines: seq<Line>, i: nat)
    requires i < |lines| && lines[i].buffer != None
    ensures var ps, k := Points(lines, |lines|), |Points(lines, i)|; k < |ps| && ps[k].at == i
  {
    hide Points;
    var k := PointsComplete(lines, |lines|, i);
    PointsBefore(lines, |lines|, k);
  }

  /** A reading i leads up to a drop at j: in the 15 minutes or, where dates fail, the 90 readings before it. */
  ghost predicate Leads(lines: seq<Line>, i: nat, j: nat) {
    i < j < |lines| && lines[i].buffer != None &&
    if lines[j].ts != None && (exists k :: 0 <= k < j && lines[k].buffer != None && lines[k].ts != None)
    then lines[i].ts != None && 0 <= lines[j].ts.value - lines[i].ts.value <= 900
    else Readings(lines, i, j) <= 90
  }

  lemma DatedBefore(lines: seq<Line>, d: nat)
    requires d < |Points(lines, |lines|)|
    ensures var ps := Points(lines, |lines|);
            TimedBefore(ps, d) <==>
            exists k :: 0 <= k < ps[d].at && k < |lines| && lines[k].buffer != None && lines[k].ts != None
  {
    hide Points;
    var ps := Points(lines, |lines|);
    PointsFacts(lines, |lines|);
    if TimedBefore(ps, d) {
      var q :| 0 <= q < d && q < |ps| && ps[q].ts.Some?;
      assert ReadFrom(lines, |lines|, ps[q]);
    }
    if k: nat :| k < ps[d].at && k < |lines| && lines[k].buffer != None && lines[k].ts != None {
      PointOf(lines, k);
      var q := |Points(lines, k)|;
      assert ReadFrom(lines, |lines|, ps[q]);
      assert q < d;
    }
  }

  lemma LeadsIff(lines: seq<Line>, k: nat, d: nat)
    requires k < |Points(lines, |lines|)| && d < |Points(lines, |lines|)|
    ensures var ps := Points(lines, |lines|); InLeadup(ps, d, k) <==> Leads(lines, ps[k].at, ps[d].at)
  {
    hide Points, Readings;
    var ps := Points(lines, |lines|);
    PointsFacts(lines, |lines|);
    assert ReadFrom(lines, |lines|, ps[k]) && ReadFrom(lines, |lines|, ps[d]);
    DatedBefore(lines, d);
    if k < d {
      ReadingsBetween(lines, k, d);
    } else if d < k {
      assert ps[d].at < ps[k].at;
    }
  }

  /** Consecutive readings are consecutive points. */
  lemma PointsBetween(lines: seq<Line>, p: nat, j: nat)
    requires p < j < |lines| && lines[p].buffer != None && forall m :: p < m < j ==> lines[m].buffer == None
    ensures |Points(lines, j)| == |Points(lines, p)| + 1
  {
    hide Points;
    PointsCount(lines, p, j);
    OneReading(lines, p, j);
  }

  lemma {:induction false} OneReading(lines: seq<Line>, p: nat, j: nat)
    requires p < j <= |lines| && lines[p].buffer != None && forall m :: p < m < j ==> lines[m].buffer == None
    ensures Readings(lines, p, j) == 1
    decreases j
  {
    if p < j - 1 {
      OneReading(lines, p, j - 1);
    } else {
      assert Readings(lines, p, p) == 0;
    }
  }

  lemma DropPoint(lines: seq<Line>, p: nat, j: nat)
    requires DropsAt(lines, p, j)
    ensures IsDrop(Points(lines, |lines|), |Points(lines, j)|)
  {
    hide Points, Readings;
    var ps, d := Points(lines, |lines|), |Points(lines, j)|;
    PointOf(lines, p);
    PointOf(lines, j);
    PointsFacts(lines, |lines|);
    var k := |Points(lines, p)|;
    assert ReadFrom(lines, |lines|, ps[k]) && ReadFrom(lines, |lines|, ps[d]);
    assert k < d;
    PointsBetween(lines, p, j);
  }

  lemma LastDropPoint(lines: seq<Line>, p: nat, j: nat)
    requires DropsAt(lines, p, j) && forall p': nat, j': nat :: j < j' ==> !DropsAt(lines, p', j')
    ensures j < |lines| && IsLastDrop(Points(lines, |lines|), |Points(lines, j)|)
  {
    hide Points, DropsAt;
    DropLine(lines, p, j);
    DropPoint(lines, p, j);
    var ps, d := Points(lines, |lines|), |Points(lines, j)|;
    PointOf(lines, j);
    forall e: nat | e > d ensures !IsDrop(ps, e) {
      if IsDrop(ps, e) {
        DropLines(lines, e);
        PointsFacts(lines, |lines|);
      }
    }
  }

  lemma DropLine(lines: seq<Line>, p: nat, j: nat)
    requires DropsAt(lines, p, j)
    ensures j < |lines| && lines[j].buffer != None
  {
  }

  /** The greatest fill among the readings that lead up to the last line at which the counter rises. */
  lemma LeadupOnLines(lines: seq<Line>, p: nat, j: nat, r: Option<real>)
    requires DropsAt(lines, p, j) && forall p': nat, j': nat :: j < j' ==> !DropsAt(lines, p', j')
    ensures IsLeadupPeak(Points(lines, |lines|), r) <==>
            match r
            case None => forall i: nat :: !Leads(lines, i, j)
            case Some(v) =>
              (exists i: nat :: Leads(lines, i, j) && lines[i].buffer.value.fill == v) &&
              forall i: nat :: Leads(lines, i, j) ==> lines[i].buffer.value.fill <= v
  {
    hide Points, DropsAt, InLeadup, Leads;
    DropLine(lines, p, j);
    LastDropPoint(lines, p, j);
    var ps, d := Points(lines, |lines|), |Points(lines, j)|;
    PointOf(lines, j);
    PointsFacts(lines, |lines|);
    forall k: nat | k < |ps|
      ensures InLeadup(ps, d, k) <==> Leads(lines, ps[k].at, j)
      ensures ps[k].fill == lines[ps[k].at].buffer.value.fill
    {
      LeadsIff(lines, k, d);
      assert ReadFrom(lines, |lines|, ps[k]);
    }
    forall i: nat | Leads(lines, i, j)
      ensures exists k: nat :: InLeadup(ps, d, k) && k < |ps| && ps[k].at == i
    {
      LeadsLine(lines, i, j);
      PointOf(lines, i);
      assert InLeadup(ps, d, |Points(lines, i)|);
    }
    LeadupAt(ps, d, r);
  }

  lemma LeadsLine(lines: seq<Line>, i: nat, j: nat)
    requires Leads(lines, i, j)
    ensures i < |lines| && lines[i].buffer != None
  {
  }

  lemma LeadupAt(ps: seq<Point>, d: nat, r: Option<real>)
    requires IsLastDrop(ps, d)
    ensures IsLeadupPeak(ps, r) <==>
            match r
            case None => forall k: nat :: !InLeadup(ps, d, k)
            case Some(v) => (exists k: nat :: InLeadup(ps, d, k) && ps[k].fill == v) &&
                            forall k: nat :: InLeadup(ps, d, k) ==> ps[k].fill <= v
  {
    hide InLeadup;
    assert forall e: nat :: IsLastDrop(ps, e) ==> e == d;
  }

  /** Where the counter never rises there is no peak. */
  lemma NoDropOnLines(lines: seq<Line>, r: Option<real>)
    requires forall p: nat, j: nat :: !DropsAt(lines, p, j)
    ensures IsLeadupPeak(Points(lines, |lines|), r) <==> r == None
  {
    hide Points, InLeadup, DropsAt;
    var ps := Points(lines, |lines|);
    forall d: nat | IsDrop(ps, d) ensures false {
      DropLines(lines, d);
    }
  }

  /** A reading is recent: in the 15 minutes up to the last dated reading t, or without one of the last 90. */
  ghost predicate RecentLine(lines: seq<Line>, t: int, i: nat)
    requires t < |lines| && (t >= 0 ==> lines[t].ts != None)
  {
    i < |lines| && lines[i].buffer != None &&
    if t >= 0 then lines[i].ts != None && 0 <= lines[t].ts.value - lines[i].ts.value <= 900
    else Readings(lines, i, |lines|) <= 90
  }

  ghost predicate LastDated(lines: seq<Line>, t: int) {
    -1 <= t < |lines| && (t >= 0 ==> lines[t].buffer != None && lines[t].ts != None) &&
    forall i :: t < i < |lines| ==> lines[i].buffer == None || lines[i].ts == None
  }

  lemma NewestPoint(lines: seq<Line>, t: int)
    requires LastDated(lines, t)
    ensures var ps := Points(lines, |lines|);
            LastIndex(ps, Timed) == if t < 0 then -1 else |Points(lines, t)|
  {
    hide Points;
    var ps := Points(lines, |lines|);
    PointsFacts(lines, |lines|);
    var q := if t < 0 then -1 else |Points(lines, t)|;
    if t >= 0 { PointOf(lines, t); }
    forall k | q < k < |ps| ensures !Timed(ps[k]) {
      assert ReadFrom(lines, |lines|, ps[k]);
      if t >= 0 { assert ps[q].at < ps[k].at; }
    }
    if t >= 0 { assert ReadFrom(lines, |lines|, ps[q]); }
    LastIndexUnique(ps, Timed, q);
  }

  lemma RecentIff(lines: seq<Line>, t: int, k: nat)
    requires LastDated(lines, t) && k < |Points(lines, |lines|)|
    ensures var ps := Points(lines, |lines|);
            && ReadFrom(lines, |lines|, ps[k])
            && (IsRecent(ps, k) <==> RecentLine(lines, t, ps[k].at))
  {
    hide Points, Readings, LastIndex;
    var ps := Points(lines, |lines|);
    PointsFacts(lines, |lines|);
    NewestPoint(lines, t);
    if t >= 0 {
      PointOf(lines, t);
      assert ReadFrom(lines, |lines|, ps[|Points(lines, t)|]);
    }
    PointsBefore(lines, |lines|, k);
    PointsCount(lines, ps[k].at, |lines|);
  }

  /** The greatest fill among the recent readings. */
  lemma RecentOnLines(lines: seq<Line>, t: int, r: Option<real>)
    requires LastDated(lines, t)
    ensures IsRecentPeak(Points(lines, |lines|), r) <==>
            match r
            case None => forall i: nat :: !RecentLine(lines, t, i)
            case Some(v) =>
              (exists i: nat :: RecentLine(lines, t, i) && lines[i].buffer.value.fill == v) &&
              forall i: nat :: RecentLine(lines, t, i) ==> lines[i].buffer.value.fill <= v
  {
    hide Points, IsRecent, RecentLine, LastDated;
    DatedLine(lines, t);
    var ps := Points(lines, |lines|);
    forall k: nat | k < |ps|
      ensures ReadFrom(lines, |lines|, ps[k]) && (IsRecent(ps, k) <==> RecentLine(lines, t, ps[k].at))
    {
      RecentIff(lines, t, k);
    }
    forall k: nat | IsRecent(ps, k) ensures k < |ps| {
      RecentPoint(ps, k);
    }
    forall i: nat | RecentLine(lines, t, i) ensures exists k: nat :: IsRecent(ps, k) && k < |ps| && ps[k].at == i {
      RecentReading(lines, t, i);
      PointOf(lines, i);
      assert IsRecent(ps, |Points(lines, i)|);
    }
  }

  lemma DatedLine(lines: seq<Line>, t: int)
    requires LastDated(lines, t)
    ensures -1 <= t < |lines| && (t >= 0 ==> lines[t].ts != None)
  {
  }

  lemma RecentPoint(ps: seq<Point>, k: nat)
    requires IsRecent(ps, k)
    ensures k < |ps|
  {
  }

  lemma RecentReading(lines: seq<Line>, t: int, i: nat)
    requires t < |lines| && (t >= 0 ==> lines[t].ts != None) && RecentLine(lines, t, i)
    ensures i < |lines| && lines[i].buffer != None
  {
  }

  /** The current buffer reading and mode are those of the last lines that carry one. */
  lemma LatestOnLines(lines: seq<Line>, b: int, m: int)
    requires -1 <= b < |lines| && (b >= 0 ==> lines[b].buffer != None)
    requires forall i :: b < i < |lines| ==> lines[i].buffer == None
    requires -1 <= m < |lines| && (m >= 0 ==> lines[m].daytime != None)
    requires forall i :: m < i < |lines| ==> lines[i].daytime == None
    ensures LastBuffer(lines) == (if b < 0 then None else lines[b].buffer)
    ensures LastMode(lines) == (if m < 0 then None else lines[m].daytime)
  {
    LastIndexUnique(lines, HasBuffer, b);
    LastIndexUnique(lines, HasMode, m);
  }

  /** The line reported for a fatal match i: itself, or the last line of the traceback it opens. */
  lemma ReportOnLines(lines: seq<Line>, i: nat, k: nat)
    requires i < |lines|
    ensures Reports(lines, Some(i), Some(k)) <==>
            if !lines[i].traceback then k == i
            else i <= k < |lines| &&
                 (forall j :: i < j <= k ==> !lines[j].blank && lines[j].ts == None) &&
                 (k + 1 == |lines| || lines[k + 1].blank || lines[k + 1].ts != None)
    ensures !Reports(lines, Some(i), None) && !Reports(lines, None, Some(k)) && Reports(lines, None, None)
  {
  }
}
