/**
 * The disconnect history kept on disk between scans, and what a drop's verdict means over
 * a whole run of scans. Times in the log are whole seconds; the clock is not.
 */
module DisconnectHistory {
  import opened Sequences
  import opened StateFiles
  import opened Disconnects

  const SAME_DROP := 60

  /** More than 60 s away from every drop of the session. */
  predicate Apart(session: seq<int>, x: int) {
    forall i :: 0 <= i < |session| ==> Abs(x - session[i]) > SAME_DROP
  }

  predicate Recent(x: int, now: real) {
    now - x as real <= HISTORY as real
  }

  function Earlier(hist: seq<int>, session: seq<int>): (r: seq<int>)
    ensures forall x :: x in r <==> x in hist && Apart(session, x)
  {
    if hist == [] then []
    else (if Apart(session, hist[0]) then [hist[0]] else []) + Earlier(hist[1..], session)
  }

  ghost predicate StrictlySorted(s: seq<int>) {
    forall i, j :: 0 <= i < j < |s| ==> s[i] < s[j]
  }

  function Insert(s: seq<int>, x: int): (r: seq<int>)
    requires StrictlySorted(s)
    ensures StrictlySorted(r)
    ensures forall y :: y in r <==> y == x || y in s
  {
    if s == [] || x < s[0] then [x] + s
    else if x == s[0] then s
    else
      var rest := Insert(s[1..], x);
      assert forall k :: 0 <= k < |rest| ==> rest[k] in rest && s[0] < rest[k];
      [s[0]] + rest
  }

  /** The recent times, sorted and without repeats. */
  function Merged(times: seq<int>, now: real): (r: seq<int>)
    ensures StrictlySorted(r)
    ensures forall x :: x in r <==> x in times && Recent(x, now)
  {
    if times == [] then []
    else
      var rest := Merged(times[1..], now);
      if Recent(times[0], now) then Insert(rest, times[0]) else rest
  }

  /** What a scan finds on disk; nothing when no candidate file is readable. */
  function Loaded(files: seq<Option<seq<int>>>): seq<int> {
    match FirstRecord(files)
    case Some(h) => h
    case None => []
  }

  /** Hand out the earlier drops and put this session's on record. */
  method RecordSession(store: StateFile<seq<int>>, session: seq<int>, now: real, writable: seq<bool>)
    returns (earlier: seq<int>)
    requires |writable| == |store.files|
    modifies store
    ensures earlier == Earlier(Loaded(old(store.files)), session)
    ensures forall x :: x in earlier <==>
              x in Loaded(old(store.files)) && forall t :: t in session ==> x < t - 60 || x > t + 60
    ensures store.files ==
            Stored(old(store.files), writable, Merged(Loaded(old(store.files)) + session, now))
  {
    var found := store.Read();
    var hist := if found.Some? then found.value else [];
    earlier := Earlier(hist, session);
    var merged := Merged(hist + session, now);
    var _ := store.Write(merged, writable);
    ApartInSeconds(session);
  }

  lemma ApartInSeconds(session: seq<int>)
    ensures forall x :: Apart(session, x) <==> forall t :: t in session ==> x < t - 60 || x > t + 60
  {
    forall x ensures Apart(session, x) <==> forall t :: t in session ==> x < t - 60 || x > t + 60 {
      if Apart(session, x) {
        forall t | t in session ensures x < t - 60 || x > t + 60 {
          var i :| 0 <= i < |session| && session[i] == t;
        }
      }
      assert forall i :: 0 <= i < |session| ==> session[i] in session;
    }
  }

  /** The disconnect part of the published record. */
  datatype Verdict = Verdict(disconnects: nat, scheduled: nat, unplanned: nat)

  /**
   * `disconnects` drops, of which those in `times` are dated. A station without an id keeps
   * no history.
   */
  method JudgeSession(store: StateFile<seq<int>>, hasId: bool, disconnects: nat, times: seq<int>,
                      now: real, writable: seq<bool>)
    returns (v: Verdict)
    requires |writable| == |store.files|
    requires |times| <= disconnects
    modifies store
    ensures v.disconnects == disconnects
    ensures v.scheduled + v.unplanned == disconnects
    ensures v.scheduled ==
            |Scheduled(times, if hasId then Earlier(Loaded(old(store.files)), times) else [])|
    ensures !hasId ==> store.files == old(store.files)
    ensures hasId ==>
              store.files ==
              Stored(old(store.files), writable, Merged(Loaded(old(store.files)) + times, now))
  {
    var earlier := [];
    if hasId {
      earlier := RecordSession(store, times, now, writable);
    }
    var sched, unpl := ClassifyDisconnects(times, earlier);
    // an undated drop cannot be judged: it stays unplanned
    v := Verdict(disconnects, sched, unpl + (disconnects - |times|));
  }

  // ----- Runs of scans -----

  datatype Scan = Scan(session: seq<int>, now: real)

  /** The list on disk after a run of scans, each write landing. */
  function HistoryAfter(run: seq<Scan>): seq<int> {
    if run == [] then []
    else
      var last := run[|run| - 1];
      Merged(HistoryAfter(run[..|run| - 1]) + last.session, last.now)
  }

  /** The list on disk follows the run as long as each write lands where readers look first. */
  lemma ScanExtendsRun(files: seq<Option<seq<int>>>, writable: seq<bool>, run: seq<Scan>, next: Scan)
    requires |writable| == |files| && Lands(files, writable)
    requires Loaded(files) == HistoryAfter(run)
    ensures Loaded(Stored(files, writable, Merged(Loaded(files) + next.session, next.now))) ==
            HistoryAfter(run + [next])
  {
    ReadBack(files, writable, Merged(Loaded(files) + next.session, next.now));
    assert (run + [next])[..|run|] == run;
  }

  ghost predicate Clocked(run: seq<Scan>) {
    forall i, j :: 0 <= i <= j < |run| ==> run[i].now <= run[j].now
  }

  /** Some scan of the run saw a drop at x. */
  ghost predicate Seen(run: seq<Scan>, x: int) {
    exists k :: 0 <= k < |run| && x in run[k].session
  }

  /**
   * After any run the list holds exactly the drops some scan has seen that are at most
   * four days old, once each and in order.
   */
  lemma {:induction false} HistoryIsWhatWasSeen(run: seq<Scan>)
    requires run != [] && Clocked(run)
    ensures StrictlySorted(HistoryAfter(run))
    ensures forall x :: x in HistoryAfter(run) <==> Seen(run, x) && Recent(x, run[|run| - 1].now)
    ensures forall x :: x in HistoryAfter(run) <==>
              (exists k :: 0 <= k < |run| && x in run[k].session) && run[|run| - 1].now - x as real <= 345600.0
  {
    var before, last := run[..|run| - 1], run[|run| - 1];
    if before != [] {
      HistoryIsWhatWasSeen(before);
      assert before[|before| - 1] == run[|before| - 1];
    }
    forall x ensures Seen(run, x) <==> Seen(before, x) || x in last.session {
      if Seen(before, x) {
        var k :| 0 <= k < |before| && x in before[k].session;
        assert x in run[k].session;
      }
      if k :| 0 <= k < |run| && x in run[k].session && k < |before| {
        assert x in before[k].session;
      }
    }
  }

  /** A drop seen by a scan before the last one, still on record, and no drop of the session itself. */
  ghost predicate Voucher(run: seq<Scan>, session: seq<int>, x: int)
    requires run != []
  {
    Seen(run, x) && Recent(x, run[|run| - 1].now) && Apart(session, x)
  }

  /**
   * The verdict over a whole run: after the scans of `run`, a drop of the next session is
   * vouched for iff some earlier scan saw a drop at the same time of day on an earlier day,
   * not yet forgotten and not part of this session.
   */
  lemma DirectOverRun(run: seq<Scan>, session: seq<int>, i: nat)
    requires run != [] && Clocked(run) && i < |session|
    ensures Direct(session, Earlier(HistoryAfter(run), session), i) <==>
            exists x :: Voucher(run, session, x) && SameTimeOfDay(session[i], x)
  {
    hide HistoryAfter, Earlier, SameTimeOfDay;
    HistoryIsWhatWasSeen(run);
    var h := Earlier(HistoryAfter(run), session);
    assert forall x :: x in h <==> Voucher(run, session, x);
  }

  // ----- Scanning an unchanged session again -----

  /** The list after scanning one session at each of the given times, starting from hist. */
  function Rescanned(hist: seq<int>, session: seq<int>, nows: seq<real>): seq<int>
    decreases |nows|
  {
    if nows == [] then hist
    else Rescanned(Merged(hist + session, nows[0]), session, nows[1..])
  }

  /** What the next scan will use: the same earlier drops, less those that have aged out. */
  lemma {:induction false} RescanForgetsExactly(hist: seq<int>, session: seq<int>, nows: seq<real>)
    ensures forall x :: x in Earlier(Rescanned(hist, session, nows), session) <==>
              x in Earlier(hist, session) && forall k :: 0 <= k < |nows| ==> Recent(x, nows[k])
    decreases |nows|
  {
    if nows != [] {
      var next := Merged(hist + session, nows[0]);
      RescanForgetsExactly(next, session, nows[1..]);
      forall x ensures x in Earlier(next, session) <==> x in Earlier(hist, session) && Recent(x, nows[0]) {
        if x in session {
          var i :| 0 <= i < |session| && session[i] == x;
          assert !Apart(session, x);
        }
      }
      assert forall k :: 0 < k < |nows| ==> nows[k] == nows[1..][k - 1];
    }
  }

  /** Rescanning changes no verdict while none of the earlier drops ages out. */
  lemma RescanKeepsVerdicts(hist: seq<int>, session: seq<int>, nows: seq<real>)
    requires forall x, k :: x in Earlier(hist, session) && 0 <= k < |nows| ==> Recent(x, nows[k])
    ensures Scheduled(session, Earlier(Rescanned(hist, session, nows), session)) ==
            Scheduled(session, Earlier(hist, session))
  {
    RescanForgetsExactly(hist, session, nows);
    SameVouchersSameVerdict(session, Earlier(Rescanned(hist, session, nows), session),
                            Earlier(hist, session));
  }
}
