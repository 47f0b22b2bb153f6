/**
 * The whole-log pass of collect_capture_events: one loop over the lines with eleven
 * carried variables, against a specification that looks each answer up by position.
 */
module CaptureEvents {
  import opened Sequences

  /** What the patterns say about one line. A line may match several of them. */
  datatype Line = Line(
    ts: Option<int>,
    transition: bool,
    procEnd: bool,
    reprocess: Option<string>,
    dawn: bool,
    dataDir: Option<string>,
    gst: bool,
    cv2: bool,
    disconnect: bool,
    restart: Option<nat>,
    meteors: Option<nat>,
    overflow: Option<nat>,
    stars: Option<nat>)

  datatype Event =
    | Transition
    | ProcessingEnd
    | Reprocess(dir: string, ts: Option<int>)
    | Dawn(ts: Option<int>)
    | DataDir(dir: string)
    | BackendInit(backend: Backend)
    | Disconnect(ts: Option<int>)
    | Restart(n: nat)
    | Meteors(n: nat)
    | Overflow(cap: nat)
    | StarLine(n: nat)
    | Other

  datatype Backend = Gst | Cv2
  datatype Kind = DawnRun | ReprocessRun
  datatype Run = Run(kind: Kind, dir: Option<string>, ts: Option<int>)
  datatype StarReading = Exactly(n: nat) | MoreThan(cap: nat)

  /** The first pattern that matches decides what a line is. */
  function Classify(l: Line): Event {
    if l.transition then Transition
    else if l.procEnd then ProcessingEnd
    else if l.reprocess.Some? then Reprocess(l.reprocess.value, l.ts)
    else if l.dawn then Dawn(l.ts)
    else if l.dataDir.Some? then DataDir(l.dataDir.value)
    else if l.gst then BackendInit(Gst)
    else if l.cv2 then BackendInit(Cv2)
    else if l.disconnect then Disconnect(l.ts)
    else if l.restart.Some? then Restart(l.restart.value)
    else if l.meteors.Some? then Meteors(l.meteors.value)
    else if l.overflow.Some? then Overflow(l.overflow.value)
    else if l.stars.Some? then StarLine(l.stars.value)
    else Other
  }

  function Events(lines: seq<Line>): (es: seq<Event>)
    ensures |es| == |lines|
    ensures forall i :: 0 <= i < |lines| ==> es[i] == Classify(lines[i])
  {
    seq(|lines|, i requires 0 <= i < |lines| => Classify(lines[i]))
  }

  // ----- The specification: answers by position in the whole log -----

  predicate IsTransition(e: Event) { e.Transition? }
  predicate IsEnd(e: Event) { e.ProcessingEnd? }
  predicate IsDawn(e: Event) { e.Dawn? }
  predicate IsStart(e: Event) { e.Dawn? || e.Reprocess? }
  predicate IsEndOrReprocess(e: Event) { e.ProcessingEnd? || e.Reprocess? }
  predicate IsDataDir(e: Event) { e.DataDir? }
  predicate IsBackend(e: Event) { e.BackendInit? }
  predicate IsStarLine(e: Event) { e.StarLine? }
  predicate IsOverflow(e: Event) { e.Overflow? }

  /** The events after the last day/night transition. */
  function Session(es: seq<Event>): seq<Event> {
    es[LastIndex(es, IsTransition) + 1..]
  }

  function DisconnectCount(s: seq<Event>): nat {
    |set i | 0 <= i < |s| && s[i].Disconnect?|
  }

  /** Times of the dated disconnects, in log order. */
  function DisconnectTimes(s: seq<Event>): (ts: seq<int>)
    ensures |ts| <= |s|
  {
    if s == [] then []
    else
      var e := s[|s| - 1];
      DisconnectTimes(s[..|s| - 1]) +
      (if e.Disconnect? && e.ts.Some? then [e.ts.value] else [])
  }

  /** The highest restart number logged, 0 if none. */
  function HighestRestart(s: seq<Event>): (r: nat)
    ensures forall i :: 0 <= i < |s| && s[i].Restart? ==> s[i].n <= r
    ensures r == 0 || exists i :: 0 <= i < |s| && s[i] == Restart(r)
  {
    if s == [] then 0
    else
      var e := s[|s| - 1];
      var before := HighestRestart(s[..|s| - 1]);
      assert forall i :: 0 <= i < |s| - 1 ==> s[..|s| - 1][i] == s[i];
      if e.Restart? && e.n > before then e.n else before
  }

  function MeteorTotal(s: seq<Event>): nat {
    if s == [] then 0
    else (if s[|s| - 1].Meteors? then s[|s| - 1].n else 0) + MeteorTotal(s[..|s| - 1])
  }

  function LastBackend(es: seq<Event>): Option<Backend> {
    var b := LastIndex(es, IsBackend);
    if b < 0 then None else Some(es[b].backend)
  }

  function LastDataDir(es: seq<Event>): Option<string> {
    var d := LastIndex(es, IsDataDir);
    if d < 0 then None else Some(es[d].dir)
  }

  /** The cap of the last overflow line since the previous star line, if there is one. */
  function PendingCap(es: seq<Event>): Option<nat> {
    var o := LastIndex(es, IsOverflow);
    if o > LastIndex(es, IsStarLine) then Some(es[o].cap) else None
  }

  /** The newest star line; ">cap" when it reads 0 and a pending cap is nonzero. */
  function StarsRecent(es: seq<Event>): Option<StarReading> {
    var s := LastIndex(es, IsStarLine);
    if s < 0 then None
    else
      var cap := PendingCap(es[..s]);
      if es[s].n == 0 && cap.Some? && cap.value != 0 then Some(MoreThan(cap.value))
      else Some(Exactly(es[s].n))
  }

  /** The first dawn marker since the last end-or-reprocess marker, or |es|. */
  function RunStart(es: seq<Event>): (f: nat)
    ensures f <= |es|
    ensures f < |es| <==> LastIndex(es, IsDawn) > LastIndex(es, IsEndOrReprocess)
    ensures f < |es| ==> es[f].Dawn?
  {
    var b := LastIndex(es, IsEndOrReprocess) + 1;
    var d := LastIndex(es, IsDawn);
    assert d >= b ==> IsDawn(es[b..][d - b]);
    b + FirstIndex(es[b..], IsDawn)
  }

  /**
   * The post-processing run under way at the end of the log. It is active iff a start
   * marker follows the last end marker. A dawn run is dated and placed by the FIRST dawn
   * marker since the last end-or-reprocess marker.
   */
  function ProcessingRun(es: seq<Event>): Option<Run> {
    var start := LastIndex(es, IsStart);
    if start <= LastIndex(es, IsEnd) then None
    else if es[start].Reprocess? then Some(Run(ReprocessRun, Some(es[start].dir), es[start].ts))
    else
      var f := RunStart(es);
      if f < |es| then Some(Run(DawnRun, LastDataDir(es[..f]), es[f].ts)) else None
  }

  // ----- How each answer changes when one more line is read -----

  lemma SessionSnoc(es: seq<Event>, e: Event)
    ensures Session(es + [e]) == if e.Transition? then [] else Session(es) + [e]
  {
    LastIndexSnoc(es, e, IsTransition);
  }

  lemma CountsEmpty(s: seq<Event>)
    requires s == []
    ensures DisconnectCount(s) == 0 && DisconnectTimes(s) == []
    ensures HighestRestart(s) == 0 && MeteorTotal(s) == 0
  {
    assert (set i | 0 <= i < |s| && s[i].Disconnect?) == {};
  }

  lemma CountsSnoc(s: seq<Event>, e: Event)
    ensures DisconnectCount(s + [e]) == DisconnectCount(s) + (if e.Disconnect? then 1 else 0)
    ensures DisconnectTimes(s + [e]) ==
            DisconnectTimes(s) + (if e.Disconnect? && e.ts.Some? then [e.ts.value] else [])
    ensures MeteorTotal(s + [e]) == MeteorTotal(s) + (if e.Meteors? then e.n else 0)
    ensures HighestRestart(s + [e]) ==
            if e.Restart? && e.n > HighestRestart(s) then e.n else HighestRestart(s)
  {
    assert (s + [e])[..|s|] == s;
    var before := set i | 0 <= i < |s| && s[i].Disconnect?;
    var after := set i | 0 <= i < |s + [e]| && (s + [e])[i].Disconnect?;
    assert after == before + (if e.Disconnect? then {|s|} else {});
  }

  lemma TimesBounded(s: seq<Event>)
    ensures |DisconnectTimes(s)| <= DisconnectCount(s)
  {
    if s != [] {
      TimesBounded(s[..|s| - 1]);
      CountsSnoc(s[..|s| - 1], s[|s| - 1]);
      assert s[..|s| - 1] + [s[|s| - 1]] == s;
    }
  }

  lemma LastsSnoc(es: seq<Event>, e: Event)
    ensures LastBackend(es + [e]) == if e.BackendInit? then Some(e.backend) else LastBackend(es)
    ensures LastDataDir(es + [e]) == if e.DataDir? then Some(e.dir) else LastDataDir(es)
    ensures PendingCap(es + [e]) ==
            if e.Overflow? then Some(e.cap) else if e.StarLine? then None else PendingCap(es)
  {
    LastIndexSnoc(es, e, IsBackend);
    LastIndexSnoc(es, e, IsDataDir);
    LastIndexSnoc(es, e, IsOverflow);
    LastIndexSnoc(es, e, IsStarLine);
  }

  lemma {:induction false} StarsSnoc(es: seq<Event>, e: Event)
    ensures StarsRecent(es + [e]) ==
            if !e.StarLine? then StarsRecent(es)
            else if e.n == 0 && PendingCap(es).Some? && PendingCap(es).value != 0
            then Some(MoreThan(PendingCap(es).value)) else Some(Exactly(e.n))
  {
    LastIndexSnoc(es, e, IsStarLine);
    var s := LastIndex(es, IsStarLine);
    if e.StarLine? {
      assert (es + [e])[..|es|] == es;
    } else if s >= 0 {
      assert (es + [e])[..s] == es[..s];
    }
  }

  /** A run is under way iff a start marker follows the last end marker. */
  lemma RunUnderWay(es: seq<Event>)
    ensures ProcessingRun(es).Some? <==> LastIndex(es, IsStart) > LastIndex(es, IsEnd)
  {
    hide LastIndex, FirstIndex, LastDataDir;
    var start, b := LastIndex(es, IsStart), LastIndex(es, IsEndOrReprocess);
    if start > LastIndex(es, IsEnd) && es[start].Dawn? {
      assert IsDawn(es[start]);
      assert b >= 0 ==> IsStart(es[b]) || IsEnd(es[b]);
    }
  }

  /** It is a dawn run iff a dawn marker follows the last end-or-reprocess marker. */
  lemma DawnRunUnderWay(es: seq<Event>)
    ensures ProcessingRun(es).Some? && ProcessingRun(es).value.kind == DawnRun <==> RunStart(es) < |es|
  {
    hide LastIndex, FirstIndex, LastDataDir, RunStart;
    var d, start, end := LastIndex(es, IsDawn), LastIndex(es, IsStart), LastIndex(es, IsEnd);
    assert d >= 0 ==> IsStart(es[d]);
    assert end >= 0 ==> IsEndOrReprocess(es[end]);
    assert start >= 0 ==> IsDawn(es[start]) || IsEndOrReprocess(es[start]);
  }

  /** What determines the start of a run. */
  lemma RunStartAt(es: seq<Event>, b: int, f: nat)
    requires LastIndex(es, IsEndOrReprocess) == b < f <= |es| && (f < |es| ==> es[f].Dawn?)
    requires forall i :: b < i < f ==> !es[i].Dawn?
    ensures RunStart(es) == f
  {
    hide LastIndex, FirstIndex;
    FirstIndexAfter(es, IsDawn, b, f);
  }

  lemma NoDawnBefore(es: seq<Event>)
    ensures LastIndex(es, IsEndOrReprocess) < RunStart(es)
    ensures forall i :: LastIndex(es, IsEndOrReprocess) < i < RunStart(es) ==> !es[i].Dawn?
  {
    hide LastIndex, FirstIndex;
    var b := LastIndex(es, IsEndOrReprocess) + 1;
    forall i | b <= i < RunStart(es) ensures !es[i].Dawn? {
      assert !IsDawn(es[b..][i - b]);
    }
  }

  lemma RunStartSnoc(es: seq<Event>, e: Event)
    ensures e.ProcessingEnd? || e.Reprocess? ==> RunStart(es + [e]) == |es| + 1
    ensures !(e.ProcessingEnd? || e.Reprocess?) && (RunStart(es) < |es| || e.Dawn?) ==>
            RunStart(es + [e]) == RunStart(es)
    ensures !(e.ProcessingEnd? || e.Reprocess?) && RunStart(es) == |es| && !e.Dawn? ==>
            RunStart(es + [e]) == |es| + 1
  {
    hide LastIndex, FirstIndex, RunStart;
    LastIndexSnoc(es, e, IsEndOrReprocess);
    NoDawnBefore(es);
    var es', b, f := es + [e], LastIndex(es, IsEndOrReprocess), RunStart(es);
    if IsEndOrReprocess(e) {
      RunStartAt(es', |es|, |es| + 1);
    } else {
      RunStartAt(es', b, if f < |es| || e.Dawn? then f else f + 1);
    }
  }

  lemma ProcessingSnoc(es: seq<Event>, e: Event)
    ensures ProcessingRun(es + [e]) == NextRun(ProcessingRun(es), LastDataDir(es), e)
  {
    hide LastIndex, FirstIndex, RunStart, LastDataDir;
    LastIndexSnoc(es, e, IsStart);
    LastIndexSnoc(es, e, IsEnd);
    RunStartSnoc(es, e);
    DawnRunUnderWay(es);
    var f, es' := RunStart(es), es + [e];
    if e.Dawn? {
      assert es'[..f] == es[..f];
      assert es[..|es|] == es;
      RunUnderWay(es');
    } else if f < |es| {
      assert es'[..f] == es[..f];
    }
  }

  /** An end marker stops the run, a reprocess marker replaces it, a dawn marker only starts one. */
  function NextRun(run: Option<Run>, dataDir: Option<string>, e: Event): Option<Run> {
    match e
    case ProcessingEnd => None
    case Reprocess(dir, ts) => Some(Run(ReprocessRun, Some(dir), ts))
    case Dawn(ts) =>
      if run.Some? && run.value.kind == DawnRun then run else Some(Run(DawnRun, dataDir, ts))
    case _ => run
  }

  // ----- The loop -----

  datatype Scan = Scan(
    disconnects: nat,
    times: seq<int>,
    restarts: nat,
    meteors: nat,
    stars: Option<StarReading>,
    backend: Option<Backend>,
    run: Option<Run>)

  /** What the pass must return for a log. */
  function WholeLog(es: seq<Event>): (r: Scan)
    ensures |r.times| <= r.disconnects
  {
    TimesBounded(Session(es));
    Scan(DisconnectCount(Session(es)), DisconnectTimes(Session(es)),
         HighestRestart(Session(es)), MeteorTotal(Session(es)),
         StarsRecent(es), LastBackend(es), ProcessingRun(es))
  }

  /** The variables the loop carries. */
  datatype Carried = Carried(scan: Scan, overflowCap: Option<nat>, dataDir: Option<string>)

  ghost function CarriedAfter(es: seq<Event>): (c: Carried)
    ensures c.scan == WholeLog(es)
  {
    Carried(WholeLog(es), PendingCap(es), LastDataDir(es))
  }

  /** One more event changes the carried variables like this. */
  function Advance(c: Carried, e: Event): Carried {
    var s := c.scan;
    match e
    case Transition => c.(scan := s.(disconnects := 0, times := [], restarts := 0, meteors := 0))
    case ProcessingEnd => c.(scan := s.(run := NextRun(s.run, c.dataDir, e)))
    case Reprocess(_, _) => c.(scan := s.(run := NextRun(s.run, c.dataDir, e)))
    case Dawn(_) => c.(scan := s.(run := NextRun(s.run, c.dataDir, e)))
    case DataDir(dir) => c.(dataDir := Some(dir))
    case BackendInit(b) => c.(scan := s.(backend := Some(b)))
    case Disconnect(ts) =>
      c.(scan := s.(disconnects := s.disconnects + 1,
                    times := s.times + (if ts.Some? then [ts.value] else [])))
    case Restart(n) => c.(scan := s.(restarts := if n > s.restarts then n else s.restarts))
    case Meteors(n) => c.(scan := s.(meteors := s.meteors + n))
    case Overflow(cap) => c.(overflowCap := Some(cap))
    case StarLine(n) =>
      c.(overflowCap := None,
         scan := s.(stars := Some(if n == 0 && c.overflowCap.Some? && c.overflowCap.value != 0
                                  then MoreThan(c.overflowCap.value) else Exactly(n))))
    case Other => c
  }

  lemma CarriedInitially(es: seq<Event>)
    requires es == []
    ensures CarriedAfter(es) == Carried(Scan(0, [], 0, 0, None, None, None), None, None)
  {
    hide LastIndex, FirstIndex, DisconnectCount, DisconnectTimes, HighestRestart, MeteorTotal;
    CountsEmpty(Session(es));
  }

  lemma CarriedSnoc(es: seq<Event>, e: Event)
    ensures CarriedAfter(es + [e]) == Advance(CarriedAfter(es), e)
  {
    hide LastIndex, Session, DisconnectCount, DisconnectTimes, HighestRestart, MeteorTotal,
      StarsRecent, LastBackend, LastDataDir, PendingCap, ProcessingRun;
    SessionSnoc(es, e);
    if e.Transition? { CountsEmpty(Session(es + [e])); }
    CountsSnoc(Session(es), e);
    LastsSnoc(es, e);
    StarsSnoc(es, e);
    ProcessingSnoc(es, e);
  }

  method ScanLog(lines: seq<Line>) returns (r: Scan)
    ensures r == WholeLog(Events(lines))
    ensures |r.times| <= r.disconnects
  {
    ghost var es := Events(lines);
    hide CarriedAfter, WholeLog, PendingCap, LastDataDir, Session, LastIndex;
    var disc: nat, wd: nat, met: nat := 0, 0, 0;
    var stars: Option<StarReading>, backend: Option<Backend> := None, None;
    var discTs: seq<int> := [];
    var overflowCap: Option<nat> := None;
    var run: Option<Run> := None;
    var dataDir: Option<string> := None;
    CarriedInitially(es[..0]);
    for i := 0 to |lines|
      invariant Carried(Scan(disc, discTs, wd, met, stars, backend, run), overflowCap, dataDir) ==
                CarriedAfter(es[..i])
    {
      var line := lines[i];
      assert es[..i + 1] == es[..i] + [es[i]];
      CarriedSnoc(es[..i], es[i]);
      assert es[i] == Classify(line);
      if line.transition {
        disc, wd, met := 0, 0, 0;
        discTs := [];
        continue;
      }
      if line.procEnd {
        run := None;
        continue;
      }
      if line.reprocess.Some? {
        run := Some(Run(ReprocessRun, Some(line.reprocess.value), line.ts));
        continue;
      }
      if line.dawn {
        if run.None? || run.value.kind != DawnRun {
          run := Some(Run(DawnRun, dataDir, line.ts));
        }
        continue;
      }
      if line.dataDir.Some? {
        dataDir := Some(line.dataDir.value);
        continue;
      }
      if line.gst {
        backend := Some(Gst);
        continue;
      }
      if line.cv2 {
        backend := Some(Cv2);
        continue;
      }
      if line.disconnect {
        disc := disc + 1;
        if line.ts.Some? {
          discTs := discTs + [line.ts.value];
        }
        continue;
      }
      if line.restart.Some? {
        wd := if line.restart.value > wd then line.restart.value else wd;
        continue;
      }
      if line.meteors.Some? {
        met := met + line.meteors.value;
        continue;
      }
      if line.overflow.Some? {
        overflowCap := Some(line.overflow.value);
        continue;
      }
      if line.stars.Some? {
        var n := line.stars.value;
        stars := Some(if overflowCap.Some? && overflowCap.value != 0 && n == 0
                      then MoreThan(overflowCap.value) else Exactly(n));
        overflowCap := None;
      }
    }
    assert es[..|lines|] == es;
    r := Scan(disc, discTs, wd, met, stars, backend, run);
  }

  /** Nothing logged before the last day/night transition can reach the session's answers. */
  lemma CountersForgetEarlierSessions(before: seq<Event>, before': seq<Event>, session: seq<Event>)
    requires forall i :: 0 <= i < |session| ==> !session[i].Transition?
    ensures var r, r' := WholeLog(before + [Transition] + session), WholeLog(before' + [Transition] + session);
            r.disconnects == r'.disconnects && r.times == r'.times &&
            r.restarts == r'.restarts && r.meteors == r'.meteors
  {
    hide LastIndex, DisconnectCount, DisconnectTimes, HighestRestart, MeteorTotal, StarsRecent,
      LastBackend, ProcessingRun;
    SessionFrom(before, session);
    SessionFrom(before', session);
  }

  lemma SessionFrom(before: seq<Event>, session: seq<Event>)
    requires forall i :: 0 <= i < |session| ==> !session[i].Transition?
    ensures Session(before + [Transition] + session) == session
  {
    LastIndexUnique(before + [Transition] + session, IsTransition, |before|);
  }

  // ----- The same answers, read off the lines -----

  /** The line marks a boundary of a session or of a processing run, or names a directory. */
  predicate Boundary(l: Line) {
    l.transition || l.procEnd || l.reprocess != None || l.dawn || l.dataDir != None
  }

  /** The line is a boundary or names a backend; it is then nothing else. */
  predicate Marker(l: Line) {
    Boundary(l) || l.gst || l.cv2
  }

  /** Which pattern decides what a line is, when it matches several, and what is taken from it. */
  lemma PatternOrder(l: Line)
    ensures Classify(l).Transition? <==> l.transition
    ensures Classify(l).ProcessingEnd? <==> l.procEnd && !l.transition
    ensures Classify(l).Reprocess? <==> l.reprocess != None && !l.transition && !l.procEnd
    ensures Classify(l).Reprocess? ==> Classify(l) == Reprocess(l.reprocess.value, l.ts)
    ensures Classify(l).Dawn? <==> l.dawn && !l.transition && !l.procEnd && l.reprocess == None
    ensures Classify(l).Dawn? ==> Classify(l) == Dawn(l.ts)
    ensures Classify(l).DataDir? <==>
              l.dataDir != None && !l.transition && !l.procEnd && l.reprocess == None && !l.dawn
    ensures Classify(l).DataDir? ==> Classify(l) == DataDir(l.dataDir.value)
    ensures Classify(l).BackendInit? <==> (l.gst || l.cv2) && !Boundary(l)
    ensures Classify(l).BackendInit? ==> Classify(l) == BackendInit(if l.gst then Gst else Cv2)
    ensures Classify(l).Disconnect? <==> l.disconnect && !Marker(l)
    ensures Classify(l).Disconnect? ==> Classify(l) == Disconnect(l.ts)
    ensures Classify(l).Restart? <==> l.restart != None && !l.disconnect && !Marker(l)
    ensures Classify(l).Restart? ==> Classify(l) == Restart(l.restart.value)
    ensures Classify(l).Meteors? <==> l.meteors != None && l.restart == None && !l.disconnect && !Marker(l)
    ensures Classify(l).Meteors? ==> Classify(l) == Meteors(l.meteors.value)
    ensures Classify(l).Overflow? <==>
              l.overflow != None && l.meteors == None && l.restart == None && !l.disconnect && !Marker(l)
    ensures Classify(l).Overflow? ==> Classify(l) == Overflow(l.overflow.value)
    ensures Classify(l).StarLine? <==>
              l.stars != None && l.overflow == None && l.meteors == None && l.restart == None &&
              !l.disconnect && !Marker(l)
    ensures Classify(l).StarLine? ==> Classify(l) == StarLine(l.stars.value)
  {
  }

  lemma PatternOrders(lines: seq<Line>)
    ensures forall i :: 0 <= i < |lines| ==>
              var l, e := lines[i], Events(lines)[i];
              && (e.Transition? <==> l.transition) && (e.Disconnect? <==> l.disconnect && !Marker(l))
              && (e.Disconnect? ==> e.ts == l.ts)
              && (e.Restart? <==> l.restart != None && !l.disconnect && !Marker(l))
              && (e.Restart? ==> e.n == l.restart.value)
              && (e.Meteors? <==> l.meteors != None && l.restart == None && !l.disconnect && !Marker(l))
              && (e.Meteors? ==> e.n == l.meteors.value)
  {
    hide Classify, Marker;
    forall i | 0 <= i < |lines| { PatternOrder(lines[i]); }
  }

  /** b is the last line that p holds of; -1 if there is none. */
  ghost predicate IsLast(lines: seq<Line>, p: Line -> bool, b: int) {
    -1 <= b < |lines| && (b >= 0 ==> p(lines[b])) && forall i :: b < i < |lines| ==> !p(lines[i])
  }

  lemma LastEvent(lines: seq<Line>, p: Line -> bool, q: Event -> bool, b: int)
    requires IsLast(lines, p, b) && forall i :: 0 <= i < |lines| ==> (p(lines[i]) <==> q(Classify(lines[i])))
    ensures LastIndex(Events(lines), q) == b
    ensures b >= 0 ==> p(lines[b]) && Events(lines)[b] == Classify(lines[b])
  {
    hide Classify;
    LastIndexUnique(Events(lines), q, b);
  }

  lemma EventsTake(lines: seq<Line>, k: nat)
    requires k <= |lines|
    ensures Events(lines[..k]) == Events(lines)[..k] && Events(lines[k..]) == Events(lines)[k..]
  {
    hide Classify;
  }

  /** The backend is that of the last line naming one; GStreamer wins on a line that names both. */
  lemma BackendOnLines(lines: seq<Line>, b: int)
    requires IsLast(lines, (l: Line) => (l.gst || l.cv2) && !Boundary(l), b)
    ensures WholeLog(Events(lines)).backend == if b < 0 then None else Some(if lines[b].gst then Gst else Cv2)
  {
    hide Classify, Boundary;
    forall i | 0 <= i < |lines| { PatternOrder(lines[i]); }
    LastEvent(lines, (l: Line) => (l.gst || l.cv2) && !Boundary(l), IsBackend, b);
  }

  /** The session is the lines after the last day/night transition. */
  lemma SessionOnLines(lines: seq<Line>, t: int)
    requires -1 <= t < |lines| && (t >= 0 ==> lines[t].transition)
    requires forall i :: t < i < |lines| ==> !lines[i].transition
    ensures Session(Events(lines)) == Events(lines[t + 1..])
  {
    hide Classify;
    forall i | 0 <= i < |lines| { PatternOrder(lines[i]); }
    LastEvent(lines, (l: Line) => l.transition, IsTransition, t);
    EventsTake(lines, t + 1);
  }

  /** The drops among s: lines that say so, and that no marker claims. */
  ghost function Drops(s: seq<Line>): set<int> {
    set i | 0 <= i < |s| && s[i].disconnect && !Marker(s[i])
  }

  /** The session's drops. */
  lemma DropsOnLines(lines: seq<Line>, t: int)
    requires -1 <= t < |lines| && (t >= 0 ==> lines[t].transition)
    requires forall i :: t < i < |lines| ==> !lines[i].transition
    ensures WholeLog(Events(lines)).disconnects == |Drops(lines[t + 1..])|
  {
    hide Classify, Marker, LastIndex, Session, Events, Drops, DisconnectCount, DisconnectTimes, HighestRestart,
      MeteorTotal, StarsRecent, LastBackend, ProcessingRun;
    SessionOnLines(lines, t);
    DropsAmong(lines[t + 1..]);
  }

  lemma DropsAmong(s: seq<Line>)
    ensures DisconnectCount(Events(s)) == |Drops(s)|
  {
    hide Classify, Marker;
    PatternOrders(s);
    var es := Events(s);
    assert (set i | 0 <= i < |es| && es[i].Disconnect?) == Drops(s);
  }

  /** The highest number on a restart line of the session; 0 without one. */
  lemma RestartsOnLines(lines: seq<Line>, t: int)
    requires -1 <= t < |lines| && (t >= 0 ==> lines[t].transition)
    requires forall i :: t < i < |lines| ==> !lines[i].transition
    ensures var s, r := lines[t + 1..], WholeLog(Events(lines)).restarts;
            && (forall i :: 0 <= i < |s| && s[i].restart != None && !s[i].disconnect && !Marker(s[i]) ==>
                  s[i].restart.value <= r)
            && (r == 0 || exists i :: 0 <= i < |s| && s[i].restart == Some(r) && !s[i].disconnect && !Marker(s[i]))
  {
    hide Classify, Marker, LastIndex, HighestRestart, Session, DisconnectCount, DisconnectTimes, MeteorTotal,
      StarsRecent, LastBackend, ProcessingRun;
    var s := lines[t + 1..];
    SessionOnLines(lines, t);
    PatternOrders(s);
    var es := Events(s);
    var r := HighestRestart(es);
    if r != 0 {
      var i :| 0 <= i < |es| && es[i] == Restart(r);
      assert s[i].restart == Some(r);
    }
    forall i | 0 <= i < |s| && s[i].restart != None && !s[i].disconnect && !Marker(s[i])
      ensures s[i].restart.value <= r
    {
      assert es[i].Restart?;
    }
  }

  function Sum(ns: seq<nat>): nat {
    if ns == [] then 0 else Sum(ns[..|ns| - 1]) + ns[|ns| - 1]
  }

  /** The session's meteors: the sum of its meteor lines. */
  lemma MeteorsOnLines(lines: seq<Line>, t: int, ns: seq<nat>)
    requires -1 <= t < |lines| && (t >= 0 ==> lines[t].transition)
    requires forall i :: t < i < |lines| ==> !lines[i].transition
    ensures var s := lines[t + 1..];
            |ns| == |s| &&
            (forall i :: 0 <= i < |s| ==>
               ns[i] == if s[i].meteors != None && s[i].restart == None && !s[i].disconnect && !Marker(s[i])
                        then s[i].meteors.value else 0) ==>
              WholeLog(Events(lines)).meteors == Sum(ns)
  {
    hide Classify, Marker, Session, MeteorTotal, HighestRestart, DisconnectCount, DisconnectTimes,
      StarsRecent, LastBackend, ProcessingRun;
    var s := lines[t + 1..];
    SessionOnLines(lines, t);
    PatternOrders(s);
    if |ns| == |s| && forall i :: 0 <= i < |s| ==>
         ns[i] == if s[i].meteors != None && s[i].restart == None && !s[i].disconnect && !Marker(s[i])
                  then s[i].meteors.value else 0
    {
      MeteorSum(Events(s), ns);
    }
  }

  lemma {:induction false} MeteorSum(es: seq<Event>, ns: seq<nat>)
    requires |ns| == |es| && forall i :: 0 <= i < |es| ==> ns[i] == if es[i].Meteors? then es[i].n else 0
    ensures MeteorTotal(es) == Sum(ns)
  {
    if es != [] {
      MeteorSum(es[..|es| - 1], ns[..|es| - 1]);
    }
  }

  /** The session's dated drops, one after the other: the q-th of them is line i's. */
  lemma TimesOnLines(lines: seq<Line>, t: int)
    requires -1 <= t < |lines| && (t >= 0 ==> lines[t].transition)
    requires forall i :: t < i < |lines| ==> !lines[i].transition
    ensures var s, times := lines[t + 1..], WholeLog(Events(lines)).times;
            && |times| == |set k | 0 <= k < |s| && s[k].disconnect && s[k].ts != None && !Marker(s[k])|
            && forall i :: 0 <= i < |s| && s[i].disconnect && s[i].ts != None && !Marker(s[i]) ==>
                 var q := |set k | 0 <= k < i && s[k].disconnect && s[k].ts != None && !Marker(s[k])|;
                 q < |times| && times[q] == s[i].ts.value
  {
    hide LastIndex, DisconnectTimes, Classify, Marker, Session, HighestRestart, DisconnectCount, MeteorTotal,
      StarsRecent, LastBackend, ProcessingRun;
    var s := lines[t + 1..];
    SessionOnLines(lines, t);
    DatedTimes(s, |s|);
    assert s[..|s|] == s;
    forall i | 0 <= i < |s| && s[i].disconnect && s[i].ts != None && !Marker(s[i])
      ensures var q := |Dated(s, i)|; q < |DisconnectTimes(Events(s))| && DisconnectTimes(Events(s))[q] == s[i].ts.value
    {
      TimeOfDrop(s, i, |s|);
    }
  }

  ghost function Dated(s: seq<Line>, n: nat): set<int>
    requires n <= |s|
  {
    set k | 0 <= k < n && s[k].disconnect && s[k].ts != None && !Marker(s[k])
  }

  lemma DatedGrows(s: seq<Line>, n: nat)
    requires n < |s|
    ensures |Dated(s, n + 1)| ==
            |Dated(s, n)| + (if s[n].disconnect && s[n].ts != None && !Marker(s[n]) then 1 else 0)
  {
    hide Marker;
    var dated := s[n].disconnect && s[n].ts != None && !Marker(s[n]);
    assert Dated(s, n + 1) == Dated(s, n) + if dated then {n} else {};
  }

  lemma DatedNext(s: seq<Line>, n: nat)
    requires n < |s|
    ensures var dated := s[n].disconnect && s[n].ts != None && !Marker(s[n]);
            && |Dated(s, n + 1)| == |Dated(s, n)| + (if dated then 1 else 0)
            && DisconnectTimes(Events(s[..n + 1])) ==
               DisconnectTimes(Events(s[..n])) + (if dated then [s[n].ts.value] else [])
  {
    hide Classify, Marker, DisconnectTimes;
    PatternOrder(s[n]);
    DatedGrows(s, n);
    assert s[..n + 1] == s[..n] + [s[n]];
    assert Events(s[..n + 1]) == Events(s[..n]) + [Classify(s[n])];
    CountsSnoc(Events(s[..n]), Classify(s[n]));
  }

  lemma {:induction false} DatedTimes(s: seq<Line>, n: nat)
    requires n <= |s|
    ensures |DisconnectTimes(Events(s[..n]))| == |Dated(s, n)|
  {
    if n > 0 {
      DatedTimes(s, n - 1);
      DatedNext(s, n - 1);
    } else {
      assert Dated(s, 0) == {};
    }
  }

  lemma {:induction false} TimeOfDrop(s: seq<Line>, i: nat, n: nat)
    requires i < n <= |s| && s[i].disconnect && s[i].ts != None && !Marker(s[i])
    ensures |Dated(s, i)| < |DisconnectTimes(Events(s[..n]))|
    ensures DisconnectTimes(Events(s[..n]))[|Dated(s, i)|] == s[i].ts.value
  {
    hide DisconnectTimes, Events;
    DatedNext(s, n - 1);
    if i < n - 1 {
      TimeOfDrop(s, i, n - 1);
    } else {
      DatedTimes(s, i);
    }
  }

  /** The cap waiting at the end of x: of the last overflow line o, unless a star line has used it. */
  lemma CapOnLines(x: seq<Line>, o: int)
    requires IsLast(x, IsOverflowText, o)
    ensures PendingCap(Events(x)) ==
            if o >= 0 && (forall i :: o < i < |x| ==> !IsStarText(x[i])) then x[o].overflow else None
  {
    hide LastIndex, Classify, Marker;
    forall i | 0 <= i < |x| { PatternOrder(x[i]); }
    LastEvent(x, IsOverflowText, IsOverflow, o);
    var p := LastIndex(Events(x), IsStarLine);
    assert forall i :: 0 <= i < |x| ==> (IsStarText(x[i]) <==> IsStarLine(Events(x)[i]));
    if o >= 0 {
      assert Classify(x[o]).Overflow?;
    }
  }

  /**
   * The star reading is that of the last star line b; a 0 there is ">cap" when an overflow line o,
   * with no star line in between, gave a cap other than 0.
   */
  lemma StarsOnLines(lines: seq<Line>, b: int, o: int)
    requires IsLast(lines, IsStarText, b)
    requires b >= 0 ==> IsLast(lines[..b], IsOverflowText, o)
    ensures WholeLog(Events(lines)).stars ==
            if b < 0 then None
            else if lines[b].stars.value == 0 && o >= 0 && lines[o].overflow.value != 0 &&
                    (forall i :: o < i < b ==> !IsStarText(lines[i]))
            then Some(MoreThan(lines[o].overflow.value)) else Some(Exactly(lines[b].stars.value))
  {
    hide LastIndex, Classify, Marker, PendingCap;
    forall i | 0 <= i < |lines| { PatternOrder(lines[i]); }
    LastEvent(lines, IsStarText, IsStarLine, b);
    if b >= 0 {
      assert Classify(lines[b]).StarLine?;
      EventsTake(lines, b);
      CapOnLines(lines[..b], o);
      assert (forall i :: o < i < b ==> !IsStarText(lines[..b][i])) <==>
             (forall i :: o < i < b ==> !IsStarText(lines[i]));
    }
  }

  predicate IsOverflowText(l: Line) {
    l.overflow != None && l.meteors == None && l.restart == None && !l.disconnect && !Marker(l)
  }

  predicate IsStarText(l: Line) {
    l.stars != None && l.overflow == None && l.meteors == None && l.restart == None && !l.disconnect && !Marker(l)
  }

  /** A run is under way exactly when a start marker, dawn or reprocess, follows the last end marker. */
  lemma ProcessingOnLines(lines: seq<Line>, a: int, e: int)
    requires IsLast(lines, (l: Line) => (l.dawn || l.reprocess != None) && !l.transition && !l.procEnd, a)
    requires IsLast(lines, (l: Line) => l.procEnd && !l.transition, e)
    ensures WholeLog(Events(lines)).run.Some? <==> a > e
    ensures a > e && lines[a].reprocess != None ==>
              WholeLog(Events(lines)).run == Some(Run(ReprocessRun, lines[a].reprocess, lines[a].ts))
    ensures a > e && lines[a].reprocess == None ==> WholeLog(Events(lines)).run.value.kind == DawnRun
  {
    hide LastIndex, FirstIndex, RunStart, LastDataDir, Classify, Marker;
    forall i | 0 <= i < |lines| { PatternOrder(lines[i]); }
    LastEvent(lines, (l: Line) => (l.dawn || l.reprocess != None) && !l.transition && !l.procEnd, IsStart, a);
    LastEvent(lines, (l: Line) => l.procEnd && !l.transition, IsEnd, e);
    RunUnderWay(Events(lines));
  }

  /**
   * A dawn run is dated by the first dawn marker f after the last end or reprocess marker b, and
   * placed in the last directory named before that, at d.
   */
  lemma DawnOnLines(lines: seq<Line>, b: int, f: nat, d: int)
    requires WholeLog(Events(lines)).run.Some? && WholeLog(Events(lines)).run.value.kind == DawnRun
    requires -1 <= b < |lines|
    requires b >= 0 ==> (lines[b].procEnd || lines[b].reprocess != None) && !lines[b].transition
    requires forall i :: b < i < |lines| ==> (!lines[i].procEnd && lines[i].reprocess == None) || lines[i].transition
    requires b < f < |lines| && lines[f].dawn && !lines[f].transition && !lines[f].procEnd && lines[f].reprocess == None
    requires forall i :: b < i < f ==>
               !(lines[i].dawn && !lines[i].transition && !lines[i].procEnd && lines[i].reprocess == None)
    requires -1 <= d < f
    requires d >= 0 ==> lines[d].dataDir != None && !lines[d].transition && !lines[d].procEnd &&
                        lines[d].reprocess == None && !lines[d].dawn
    requires forall i :: d < i < f ==>
               !(lines[i].dataDir != None && !lines[i].transition && !lines[i].procEnd &&
                 lines[i].reprocess == None && !lines[i].dawn)
    ensures WholeLog(Events(lines)).run.value.ts == lines[f].ts
    ensures WholeLog(Events(lines)).run.value.dir == if d < 0 then None else lines[d].dataDir
  {
    hide LastIndex, FirstIndex, Classify, Marker, LastDataDir, RunStart;
    forall i | 0 <= i < |lines| { PatternOrder(lines[i]); }
    DawnStart(lines, b, f);
    DirBefore(lines, f, d);
    DawnRunUnderWay(Events(lines));
    EventsTake(lines, f);
  }

  lemma DawnStart(lines: seq<Line>, b: int, f: nat)
    requires -1 <= b < |lines|
    requires b >= 0 ==> (lines[b].procEnd || lines[b].reprocess != None) && !lines[b].transition
    requires forall i :: b < i < |lines| ==> (!lines[i].procEnd && lines[i].reprocess == None) || lines[i].transition
    requires b < f < |lines| && lines[f].dawn && !lines[f].transition && !lines[f].procEnd && lines[f].reprocess == None
    requires forall i :: b < i < f ==>
               !(lines[i].dawn && !lines[i].transition && !lines[i].procEnd && lines[i].reprocess == None)
    ensures RunStart(Events(lines)) == f && Events(lines)[f] == Dawn(lines[f].ts)
  {
    hide LastIndex, FirstIndex, Classify, Marker;
    forall i | 0 <= i < |lines| { PatternOrder(lines[i]); }
    LastEvent(lines, (l: Line) => (l.procEnd || l.reprocess != None) && !l.transition, IsEndOrReprocess, b);
    var es := Events(lines);
    assert forall i :: 0 <= i < |lines| ==>
        (lines[i].dawn && !lines[i].transition && !lines[i].procEnd && lines[i].reprocess == None <==> es[i].Dawn?);
    RunStartAt(es, b, f);
  }

  lemma DirBefore(lines: seq<Line>, f: nat, d: int)
    requires f <= |lines|
    requires -1 <= d < f
    requires d >= 0 ==> lines[d].dataDir != None && !lines[d].transition && !lines[d].procEnd &&
                        lines[d].reprocess == None && !lines[d].dawn
    requires forall i :: d < i < f ==>
               !(lines[i].dataDir != None && !lines[i].transition && !lines[i].procEnd &&
                 lines[i].reprocess == None && !lines[i].dawn)
    ensures LastDataDir(Events(lines[..f])) == if d < 0 then None else lines[d].dataDir
  {
    hide LastIndex, Classify, Marker;
    forall i | 0 <= i < f { PatternOrder(lines[i]); }
    LastEvent(lines[..f], (l: Line) => l.dataDir != None && !l.transition && !l.procEnd &&
                                       l.reprocess == None && !l.dawn, IsDataDir, d);
  }
}
