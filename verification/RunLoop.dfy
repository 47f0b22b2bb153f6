/**
 * The collect-evaluate-publish loop against the broker: consent, one-shot tombstones over a
 * lossy link, and what the `cleared` set promises about what the broker retains.
 */
module RunLoop {
  import opened Sequences
  import opened Publishing

  /** A discovered station: does its operator consent, with a real station id? */
  datatype Station = Station(id: string, publishable: bool)

  /** Where an exception cuts a cycle short, if it does. */
  datatype Raise = Never | WhilePublishing(after: nat) | WhileWiping(after: nat)

  /**
   * One cycle: what the loop discovered, what run_once discovered again, once for the host's
   * record and once for the stations', and after how many records or opted-out stations an
   * exception struck.
   */
  datatype Cycle = Cycle(stations: seq<Station>, hostSeen: seq<Station>, seen: seq<Station>, raise: Raise)

  datatype Agent = Agent(world: World, connected: bool, cleared: set<string>)

  function Ids(stations: seq<Station>, publishable: bool): (r: seq<string>)
    ensures |r| <= |stations|
    ensures forall id :: id in r <==> Station(id, publishable) in stations
  {
    if stations == [] then []
    else
      var last := stations[|stations| - 1];
      assert forall s :: s in stations <==> s in stations[..|stations| - 1] || s == last;
      Ids(stations[..|stations| - 1], publishable) +
      (if last.publishable == publishable then [last.id] else [])
  }

  function AllIds(stations: seq<Station>): seq<string> {
    seq(|stations|, i requires 0 <= i < |stations| => stations[i].id)
  }

  /** The records of a cycle: the host's, unless no station consents, then each consenting station's. */
  function Records(uid: string, c: Cycle): seq<string> {
    (if Ids(c.hostSeen, true) == [] then [] else [uid]) + Ids(c.seen, true)
  }

  function FirstOf(ids: seq<string>, n: nat): seq<string> {
    if n <= |ids| then ids[..n] else ids
  }

  /** The records handed over before any exception. */
  function Handed(uid: string, c: Cycle): seq<string> {
    if c.raise.WhilePublishing? then FirstOf(Records(uid, c), c.raise.after) else Records(uid, c)
  }

  /** The opted-out stations passed over before any exception. */
  function Passed(c: Cycle): seq<string> {
    match c.raise
    case Never => Ids(c.stations, false)
    case WhilePublishing(_) => []
    case WhileWiping(n) => FirstOf(Ids(c.stations, false), n)
  }

  /** The loop over opted-out stations: a tombstone each, recorded only once it went out. */
  function Tombstoned(w: World, link: Link, cleared: set<string>, ids: seq<string>): (World, set<string>) {
    if ids == [] then (w, cleared)
    else
      var (before, done) := Tombstoned(w, link, cleared, ids[..|ids| - 1]);
      var id := ids[|ids| - 1];
      if id in done then (before, done)
      else
        var after := Published(before, link, Health(id), None);
        (after, if after.linked then done + {id} else done)
  }

  /** The world run_once starts from. */
  function Ready(a: Agent, link: Link): World {
    if a.connected then a.world else Connected(a.world, link)
  }

  /** One pass of the loop body. An exception skips what is left of the pass, re-arming included. */
  function Next(a: Agent, link: Link, uid: string, c: Cycle): Agent {
    if Ids(c.stations, true) != [] then
      var published := PublishedAll(Ready(a, link), link, Handed(uid, c), Some(Record));
      var (after, cleared) := Tombstoned(published, link, a.cleared, Passed(c));
      Agent(after, true,
            if c.raise.Never? then set id | id in cleared && Station(id, false) in c.stations else cleared)
    else if a.connected then
      Agent(Silenced(a.world, link, uid, AllIds(c.stations)), false, {})
    else a
  }

  // ----- The invariant -----

  /** Not connected, nothing is marked cleared; whatever is marked has no record on the broker. */
  ghost predicate Inv(a: Agent) {
    (!a.connected ==> a.cleared == {}) &&
    forall id :: id in a.cleared ==> Health(id) !in a.world.retained
  }

  /** A mark the cycle keeps: all of them when it raises, else those of stations still opted out. */
  predicate KeepsMark(a: Agent, c: Cycle, id: string) {
    id in a.cleared && (c.raise.Never? ==> Station(id, false) in c.stations)
  }

  /** No id whose mark the cycle keeps has a record accepted in it. */
  ghost predicate Harmless(a: Agent, link: Link, uid: string, c: Cycle) {
    Ids(c.stations, true) == [] ||
    forall id :: KeepsMark(a, c, id) ==> !Accepted(link, Ready(a, link).looks, Handed(uid, c), id)
  }

  /** What one pass over the opted-out stations does, for every id. */
  lemma {:induction false} AfterTombstones(w: World, link: Link, cleared: set<string>, ids: seq<string>, id: string)
    ensures var (r, done) := Tombstoned(w, link, cleared, ids);
            && cleared <= done
            && (id in done ==> id in cleared || (id in ids && Health(id) !in r.retained))
            && (id !in ids || id in cleared ==> (Health(id) in r.retained <==> Health(id) in w.retained))
            && (Health(id) in r.retained ==> Health(id) in w.retained)
            && w.looks <= r.looks
            && (Holds(link, w.looks, r.looks) && id in ids ==> id in done)
  {
    if ids != [] {
      var init, last := ids[..|ids| - 1], ids[|ids| - 1];
      AfterTombstones(w, link, cleared, init, id);
      var before := Tombstoned(w, link, cleared, init).0;
      var r := Tombstoned(w, link, cleared, ids).0;
      assert forall x :: x in ids <==> x in init || x == last;
      assert Holds(link, w.looks, r.looks) ==> Holds(link, w.looks, before.looks);
      assert Holds(link, w.looks, r.looks) && r.looks > before.looks ==> link(before.looks);
    }
  }

  lemma ReadyKeepsRecords(a: Agent, link: Link, id: string)
    ensures Health(id) in Ready(a, link).retained <==> Health(id) in a.world.retained
    ensures Ready(a, link).looks >= a.world.looks
  {
  }

  /**
   * For each id: it ends a cycle both marked and retained exactly when it began it marked,
   * kept its mark, and had a record accepted.
   */
  lemma MarkedAndRetainedIff(a: Agent, link: Link, uid: string, c: Cycle, id: string)
    requires Inv(a) && Ids(c.stations, true) != []
    ensures var next := Next(a, link, uid, c);
            id in next.cleared && Health(id) in next.world.retained <==>
            KeepsMark(a, c, id) && Accepted(link, Ready(a, link).looks, Handed(uid, c), id)
  {
    hide Tombstoned, PublishedAll, Connected, Ids, Handed, Accepted;
    ReadyKeepsRecords(a, link, id);
    RecordAfterAll(Ready(a, link), link, Handed(uid, c), Some(Record), id);
    AfterTombstones(PublishedAll(Ready(a, link), link, Handed(uid, c), Some(Record)), link, a.cleared,
                    Passed(c), id);
  }

  /** A cycle keeps the invariant exactly when it is harmless, raising or not, whatever the link does. */
  lemma CycleKeepsInv(a: Agent, link: Link, uid: string, c: Cycle)
    requires Inv(a)
    ensures Inv(Next(a, link, uid, c)) <==> Harmless(a, link, uid, c)
  {
    hide Tombstoned, PublishedAll, Connected, Silenced, Ids, Handed, Passed, Accepted, KeepsMark;
    if Ids(c.stations, true) != [] {
      forall id
        ensures id in Next(a, link, uid, c).cleared && Health(id) in Next(a, link, uid, c).world.retained <==>
                KeepsMark(a, c, id) && Accepted(link, Ready(a, link).looks, Handed(uid, c), id)
      {
        MarkedAndRetainedIff(a, link, uid, c, id);
      }
    }
  }

  /**
   * A completed cycle keeps it exactly when no record it gets accepted belongs to an id that
   * is marked and, at the same time, the id of an opted-out station.
   */
  lemma CompletedCycleKeepsInvIff(a: Agent, link: Link, uid: string, c: Cycle)
    requires Inv(a) && Ids(c.stations, true) != [] && c.raise == Never
    ensures Inv(Next(a, link, uid, c)) <==>
            forall i :: 0 <= i < |Records(uid, c)| && link(Ready(a, link).looks + i) &&
                        Station(Records(uid, c)[i], false) in c.stations ==>
              Records(uid, c)[i] !in a.cleared
  {
    hide Next, Records, Ids, Ready;
    CycleKeepsInv(a, link, uid, c);
    assert forall i :: 0 <= i < |Records(uid, c)| && link(Ready(a, link).looks + i) ==>
        Accepted(link, Ready(a, link).looks, Handed(uid, c), Records(uid, c)[i]);
    assert forall id :: KeepsMark(a, c, id) <==> id in a.cleared && Station(id, false) in c.stations;
  }

  /**
   * A cycle that raises while publishing skips the tombstones and the re-arming. It keeps the
   * invariant exactly when no id still marked had a record accepted before the exception.
   */
  lemma RaisedCycleKeepsInvIff(a: Agent, link: Link, uid: string, c: Cycle)
    requires Inv(a) && Ids(c.stations, true) != [] && c.raise.WhilePublishing?
    ensures Inv(Next(a, link, uid, c)) <==>
            forall i :: 0 <= i < |Records(uid, c)| && i < c.raise.after && link(Ready(a, link).looks + i) ==>
              Records(uid, c)[i] !in a.cleared
  {
    hide Next, Records, Ids, Ready;
    CycleKeepsInv(a, link, uid, c);
    var records, handed := Records(uid, c), Handed(uid, c);
    assert forall i :: 0 <= i < |handed| ==> handed[i] == records[i] && i < c.raise.after;
    assert forall i :: 0 <= i < |records| && i < c.raise.after ==> i < |handed| && handed[i] == records[i];
    assert forall i :: 0 <= i < |handed| && link(Ready(a, link).looks + i) ==>
        Accepted(link, Ready(a, link).looks, handed, handed[i]);
  }

  /** No opted-out id is also published: not by another station, not as the host's own. */
  ghost predicate Unambiguous(uid: string, c: Cycle) {
    forall id :: Station(id, false) in c.stations ==> Station(id, true) !in c.seen && id != uid
  }

  /** Distinct ids and no exception are enough. */
  lemma UnambiguousIsHarmless(a: Agent, link: Link, uid: string, c: Cycle)
    requires Unambiguous(uid, c) && c.raise == Never
    ensures Harmless(a, link, uid, c)
  {
    hide Ready, Ids;
    assert forall i :: 0 <= i < |Handed(uid, c)| ==> Handed(uid, c)[i] in Handed(uid, c);
  }

  /**
   * A completed cycle in which one station consents under the id another has opted out of
   * breaks the invariant at that id exactly when the id was marked and its record accepted.
   */
  lemma AmbiguousIdBreaks(a: Agent, link: Link, uid: string, c: Cycle, id: string)
    requires Inv(a) && c.raise == Never && Ids(c.stations, true) != []
    requires Station(id, true) in c.seen && Station(id, false) in c.stations
    ensures id in Next(a, link, uid, c).cleared && Health(id) in Next(a, link, uid, c).world.retained <==>
            id in a.cleared && Accepted(link, Ready(a, link).looks, Records(uid, c), id)
  {
    hide Next, Records, Ids, Ready, Accepted;
    MarkedAndRetainedIff(a, link, uid, c, id);
  }

  /** A harmless completed cycle with the link up throughout leaves no record of an opted-out station. */
  lemma UpCycleWipes(a: Agent, link: Link, uid: string, c: Cycle, id: string)
    requires Inv(a) && Harmless(a, link, uid, c) && c.raise == Never && Ids(c.stations, true) != []
    requires Holds(link, a.world.looks, Next(a, link, uid, c).world.looks)
    requires Station(id, false) in c.stations
    ensures id in Next(a, link, uid, c).cleared && Health(id) !in Next(a, link, uid, c).world.retained
  {
    hide Tombstoned, PublishedAll, Connected, Silenced, Ids, Handed;
    var published := PublishedAll(Ready(a, link), link, Handed(uid, c), Some(Record));
    CycleKeepsInv(a, link, uid, c);
    ReadyKeepsRecords(a, link, id);
    AfterTombstones(published, link, a.cleared, Passed(c), id);
    assert Holds(link, published.looks, Next(a, link, uid, c).world.looks);
  }

  /**
   * With distinct ids, such a cycle brings the broker into line with consent: no opted-out
   * station has a record, every consenting one and the host itself do.
   */
  lemma UpCycleMatchesConsent(a: Agent, link: Link, uid: string, c: Cycle)
    requires Inv(a) && Unambiguous(uid, c) && c.raise == Never && Ids(c.stations, true) != []
    requires Holds(link, a.world.looks, Next(a, link, uid, c).world.looks)
    ensures var next := Next(a, link, uid, c);
            && (forall id :: Station(id, false) in c.stations ==>
                  id in next.cleared && Health(id) !in next.world.retained)
            && (forall id :: id in Records(uid, c) ==> Health(id) in next.world.retained)
  {
    hide Tombstoned, PublishedAll, Connected, Silenced, Ids, Records;
    UnambiguousIsHarmless(a, link, uid, c);
    forall id | Station(id, false) in c.stations
      ensures id in Next(a, link, uid, c).cleared && Health(id) !in Next(a, link, uid, c).world.retained
    {
      UpCycleWipes(a, link, uid, c, id);
    }
    forall id | id in Records(uid, c) ensures Health(id) in Next(a, link, uid, c).world.retained {
      RecordStays(a, link, uid, c, id);
    }
  }

  lemma RecordStays(a: Agent, link: Link, uid: string, c: Cycle, id: string)
    requires Unambiguous(uid, c) && c.raise == Never && Ids(c.stations, true) != []
    requires Holds(link, a.world.looks, Next(a, link, uid, c).world.looks)
    requires id in Records(uid, c)
    ensures Health(id) in Next(a, link, uid, c).world.retained
  {
    hide Tombstoned, PublishedAll, Connected, Silenced, Ids;
    var w, records := Ready(a, link), Records(uid, c);
    var published := PublishedAll(w, link, records, Some(Record));
    ReadyKeepsRecords(a, link, id);
    RecordAfterAll(w, link, records, Some(Record), id);
    AfterTombstones(published, link, a.cleared, Passed(c), id);
    var i :| 0 <= i < |records| && records[i] == id;
    assert link(w.looks + i);
    assert Accepted(link, w.looks, records, id);
  }

  /** Once every opted-out station is marked, a pass over them sends nothing. */
  lemma {:induction false} NothingSentTwice(w: World, link: Link, cleared: set<string>, ids: seq<string>)
    requires forall id :: id in ids ==> id in cleared
    ensures Tombstoned(w, link, cleared, ids) == (w, cleared)
  {
    if ids != [] {
      NothingSentTwice(w, link, cleared, ids[..|ids| - 1]);
    }
  }

  // ----- Runs -----

  function AfterFrom(a: Agent, run: seq<Cycle>, link: Link, uid: string): Agent {
    if run == [] then a
    else Next(AfterFrom(a, run[..|run| - 1], link, uid), link, uid, run[|run| - 1])
  }

  /** A run of one process, on a broker as earlier processes and other hosts have left it. */
  function After(retained: Retained, run: seq<Cycle>, link: Link, uid: string): Agent {
    AfterFrom(Agent(World(retained, 0, false), false, {}), run, link, uid)
  }

  /** A process begins on the broker as it was left, and has marked nothing. */
  lemma RunBegins(retained: Retained, link: Link, uid: string)
    ensures After(retained, [], link, uid) == Agent(World(retained, 0, false), false, {})
    ensures Inv(After(retained, [], link, uid))
  {
  }

  ghost predicate InvAt(retained: Retained, run: seq<Cycle>, k: nat, link: Link, uid: string)
    requires k <= |run|
  {
    Inv(After(retained, run[..k], link, uid))
  }

  ghost predicate HarmlessAt(retained: Retained, run: seq<Cycle>, k: nat, link: Link, uid: string)
    requires k < |run|
  {
    Harmless(After(retained, run[..k], link, uid), link, uid, run[k])
  }

  ghost predicate HarmlessRun(retained: Retained, run: seq<Cycle>, link: Link, uid: string) {
    forall k :: 0 <= k < |run| ==> HarmlessAt(retained, run, k, link, uid)
  }

  lemma AfterPrefix(retained: Retained, run: seq<Cycle>, k: nat, link: Link, uid: string)
    requires k < |run|
    ensures After(retained, run[..k + 1], link, uid) ==
            Next(After(retained, run[..k], link, uid), link, uid, run[k])
  {
    hide Next;
    assert run[..k + 1][..k] == run[..k];
  }

  lemma {:induction false} HarmlessKeepsInv(retained: Retained, run: seq<Cycle>, k: nat, link: Link, uid: string)
    requires k <= |run| && forall j :: 0 <= j < k ==> HarmlessAt(retained, run, j, link, uid)
    ensures InvAt(retained, run, k, link, uid)
  {
    hide Next, Harmless;
    if k > 0 {
      HarmlessKeepsInv(retained, run, k - 1, link, uid);
      AfterPrefix(retained, run, k - 1, link, uid);
      assert HarmlessAt(retained, run, k - 1, link, uid);
      CycleKeepsInv(After(retained, run[..k - 1], link, uid), link, uid, run[k - 1]);
    }
  }

  /**
   * Over every run, raising cycles and shared ids included, however the link behaves and
   * whatever the broker held: the invariant holds after every cycle exactly when every cycle is
   * harmless where it happens.
   */
  lemma RunKeepsInv(retained: Retained, run: seq<Cycle>, link: Link, uid: string)
    ensures (forall k :: 0 <= k <= |run| ==> InvAt(retained, run, k, link, uid)) <==>
            HarmlessRun(retained, run, link, uid)
  {
    hide Next, Harmless, After, Inv;
    if HarmlessRun(retained, run, link, uid) {
      forall k | 0 <= k <= |run| ensures InvAt(retained, run, k, link, uid) {
        HarmlessKeepsInv(retained, run, k, link, uid);
      }
    }
    if forall k :: 0 <= k <= |run| ==> InvAt(retained, run, k, link, uid) {
      forall k | 0 <= k < |run| ensures HarmlessAt(retained, run, k, link, uid) {
        assert InvAt(retained, run, k, link, uid) && InvAt(retained, run, k + 1, link, uid);
        AfterPrefix(retained, run, k, link, uid);
        CycleKeepsInv(After(retained, run[..k], link, uid), link, uid, run[k]);
      }
    }
  }

  /** In particular whenever ids are distinct and no cycle raises. */
  lemma CleanRunIsHarmless(retained: Retained, run: seq<Cycle>, link: Link, uid: string)
    requires forall k :: 0 <= k < |run| ==> Unambiguous(uid, run[k]) && run[k].raise == Never
    ensures HarmlessRun(retained, run, link, uid)
  {
    hide Harmless, After, Unambiguous;
    forall k | 0 <= k < |run| ensures HarmlessAt(retained, run, k, link, uid) {
      UnambiguousIsHarmless(After(retained, run[..k], link, uid), link, uid, run[k]);
    }
  }

  /**
   * Tombstones dropped on the way are retried, and what earlier processes published is wiped:
   * after any harmless run, the first consenting cycle that completes with the link up leaves
   * no record of any opted-out station.
   */
  lemma UpCycleAfterAnyRun(retained: Retained, run: seq<Cycle>, c: Cycle,
                           link: Link, uid: string, id: string)
    requires HarmlessRun(retained, run + [c], link, uid)
    requires c.raise == Never && Ids(c.stations, true) != [] && Station(id, false) in c.stations
    requires Holds(link, After(retained, run, link, uid).world.looks,
                   After(retained, run + [c], link, uid).world.looks)
    ensures Health(id) !in After(retained, run + [c], link, uid).world.retained
  {
    hide Next, Harmless, After, Inv, Ids;
    var all := run + [c];
    assert all[..|run|] == run && all[..|all|] == all && all[|run|] == c;
    HarmlessKeepsInv(retained, all, |run|, link, uid);
    AfterPrefix(retained, all, |run|, link, uid);
    assert HarmlessAt(retained, all, |run|, link, uid);
    UpCycleWipes(After(retained, run, link, uid), link, uid, c, id);
  }

  /**
   * A restart: whatever earlier processes left, the first cycle of a new one, if it completes
   * with the link up and some station consents, leaves no record of an opted-out station, not
   * even of one whose id it has just published for another.
   */
  lemma RestartWipes(retained: Retained, c: Cycle, link: Link, uid: string, id: string)
    requires c.raise == Never && Ids(c.stations, true) != [] && Station(id, false) in c.stations
    requires Holds(link, 0, After(retained, [c], link, uid).world.looks)
    ensures Health(id) !in After(retained, [c], link, uid).world.retained
  {
    hide Next, Ids, Records;
    var run, start := [c], After(retained, [], link, uid);
    assert run[..0] == [] && run[..1] == run;
    AfterPrefix(retained, run, 0, link, uid);
    RunBegins(retained, link, uid);
    assert Harmless(start, link, uid, c);
    UpCycleWipes(start, link, uid, c, id);
  }

  // ----- One cycle, read off what was discovered -----

  /** Nothing of the host or of the stations is on the broker. */
  ghost predicate NothingOf(retained: Retained, uid: string, stations: seq<Station>) {
    HostStatus !in retained && Health(uid) !in retained && forall s :: s in stations ==> Health(s.id) !in retained
  }

  lemma ConsentIff(stations: seq<Station>)
    ensures Ids(stations, true) != [] <==> exists s :: s in stations && s.publishable
  {
    var ids := Ids(stations, true);
    if ids != [] {
      assert ids[0] in ids && Station(ids[0], true) in stations;
    }
    if s :| s in stations && s.publishable {
      assert s == Station(s.id, true) && s.id in ids;
    }
  }

  ghost function OfKind(stations: seq<Station>, n: nat, kind: bool): set<int>
    requires n <= |stations|
  {
    set i | 0 <= i < n && stations[i].publishable == kind
  }

  lemma OneMoreStation(stations: seq<Station>, n: nat, kind: bool)
    requires n < |stations|
    ensures Ids(stations[..n + 1], kind) ==
            Ids(stations[..n], kind) + (if stations[n].publishable == kind then [stations[n].id] else [])
    ensures |OfKind(stations, n + 1, kind)| ==
            |OfKind(stations, n, kind)| + (if stations[n].publishable == kind then 1 else 0)
  {
    assert stations[..n + 1][..n] == stations[..n];
    assert OfKind(stations, n + 1, kind) ==
           OfKind(stations, n, kind) + if stations[n].publishable == kind then {n} else {};
  }

  lemma {:induction false} IdsUpTo(stations: seq<Station>, n: nat, kind: bool)
    requires n <= |stations|
    ensures |Ids(stations[..n], kind)| == |OfKind(stations, n, kind)|
    ensures forall i :: 0 <= i < n && stations[i].publishable == kind ==>
              var q := |OfKind(stations, i, kind)|;
              q < |Ids(stations[..n], kind)| && Ids(stations[..n], kind)[q] == stations[i].id
  {
    hide Ids, OfKind;
    if n > 0 {
      IdsUpTo(stations, n - 1, kind);
      OneMoreStation(stations, n - 1, kind);
    } else {
      NoStations(stations, kind);
    }
  }

  lemma NoStations(stations: seq<Station>, kind: bool)
    ensures Ids(stations[..0], kind) == [] && OfKind(stations, 0, kind) == {}
  {
  }

  /** The ids of one kind, in the order of discovery, repeats included. */
  lemma IdsInOrder(stations: seq<Station>, kind: bool)
    ensures |Ids(stations, kind)| == |set i | 0 <= i < |stations| && stations[i].publishable == kind|
    ensures forall i :: 0 <= i < |stations| && stations[i].publishable == kind ==>
              var q := |set k | 0 <= k < i && stations[k].publishable == kind|;
              q < |Ids(stations, kind)| && Ids(stations, kind)[q] == stations[i].id
  {
    hide Ids;
    IdsUpTo(stations, |stations|, kind);
    assert stations[..|stations|] == stations;
    forall n: nat | n <= |stations|
      ensures OfKind(stations, n, kind) == set k | 0 <= k < n && stations[k].publishable == kind
    {
    }
  }

  /** The host's record goes first, if its own discovery found consent, then the stations'. */
  lemma RecordsInOrder(uid: string, c: Cycle)
    ensures Records(uid, c) ==
            if exists s :: s in c.hostSeen && s.publishable then [uid] + Ids(c.seen, true) else Ids(c.seen, true)
  {
    ConsentIff(c.hostSeen);
  }

  /**
   * A completed cycle under a link that holds, exactly: an opted-out station not yet marked has
   * no record; any other id has one if it had, or if it was published; and the marks are the
   * opted-out stations.
   */
  lemma UpCycleIsExact(a: Agent, link: Link, uid: string, c: Cycle, id: string)
    requires c.raise == Never && exists s :: s in c.stations && s.publishable
    requires Holds(link, a.world.looks, Next(a, link, uid, c).world.looks)
    ensures Health(id) in Next(a, link, uid, c).world.retained <==>
            && !(Station(id, false) in c.stations && id !in a.cleared)
            && (Health(id) in a.world.retained || Station(id, true) in c.seen ||
                (id == uid && exists s :: s in c.hostSeen && s.publishable))
    ensures id in Next(a, link, uid, c).cleared <==> Station(id, false) in c.stations
    ensures Next(a, link, uid, c).connected
  {
    hide Tombstoned, PublishedAll, Connected, Silenced, Ids, Records;
    ConsentIff(c.stations);
    RecordsInOrder(uid, c);
    var w, records := Ready(a, link), Records(uid, c);
    var published := PublishedAll(w, link, records, Some(Record));
    ReadyKeepsRecords(a, link, id);
    RecordAfterAll(w, link, records, Some(Record), id);
    AfterTombstones(published, link, a.cleared, Passed(c), id);
    if id in records {
      var i :| 0 <= i < |records| && records[i] == id;
      assert link(w.looks + i);
      assert Accepted(link, w.looks, records, id);
    }
    assert Holds(link, published.looks, Next(a, link, uid, c).world.looks);
  }

  /**
   * A cycle that raises after n records, under a link that holds: those n are on the broker, and
   * nothing else has changed, the marks included.
   */
  lemma RaisedCycleIsExact(a: Agent, link: Link, uid: string, c: Cycle, id: string)
    requires c.raise.WhilePublishing? && exists s :: s in c.stations && s.publishable
    requires Holds(link, a.world.looks, Next(a, link, uid, c).world.looks)
    ensures Health(id) in Next(a, link, uid, c).world.retained <==>
            Health(id) in a.world.retained ||
            exists i :: 0 <= i < |Records(uid, c)| && i < c.raise.after && Records(uid, c)[i] == id
    ensures Next(a, link, uid, c).cleared == a.cleared && Next(a, link, uid, c).connected
  {
    hide PublishedAll, Connected, Silenced, Ids, Records;
    ConsentIff(c.stations);
    var w, records, handed := Ready(a, link), Records(uid, c), Handed(uid, c);
    ReadyKeepsRecords(a, link, id);
    RecordAfterAll(w, link, handed, Some(Record), id);
    assert |handed| <= |records| && forall i :: 0 <= i < |handed| ==> handed[i] == records[i] && i < c.raise.after;
    if i :| 0 <= i < |records| && i < c.raise.after && records[i] == id {
      assert handed[i] == id && link(w.looks + i);
    }
  }

  /**
   * A cycle that raises after n opted-out stations, under a link that holds: everything was
   * published, the first n are wiped and marked, and no mark is dropped.
   */
  lemma WipingRaiseIsExact(a: Agent, link: Link, uid: string, c: Cycle, id: string)
    requires c.raise.WhileWiping? && exists s :: s in c.stations && s.publishable
    requires Holds(link, a.world.looks, Next(a, link, uid, c).world.looks)
    ensures var reached := exists i :: 0 <= i < |c.stations| && c.stations[i] == Station(id, false) &&
                             |OfKind(c.stations, i, false)| < c.raise.after;
            && (Health(id) in Next(a, link, uid, c).world.retained <==>
                  && !(reached && id !in a.cleared)
                  && (Health(id) in a.world.retained || Station(id, true) in c.seen ||
                      (id == uid && exists s :: s in c.hostSeen && s.publishable)))
            && (id in Next(a, link, uid, c).cleared <==> id in a.cleared || reached)
            && Next(a, link, uid, c).connected
  {
    hide Tombstoned, PublishedAll, Connected, Silenced, Ids, Records, OfKind, FirstOf;
    ConsentIff(c.stations);
    RecordsInOrder(uid, c);
    var w, records := Ready(a, link), Records(uid, c);
    var published := PublishedAll(w, link, records, Some(Record));
    ReadyKeepsRecords(a, link, id);
    RecordAfterAll(w, link, records, Some(Record), id);
    AfterTombstones(published, link, a.cleared, Passed(c), id);
    if id in records {
      var i :| 0 <= i < |records| && records[i] == id;
      assert link(w.looks + i);
    }
    assert Holds(link, published.looks, Next(a, link, uid, c).world.looks);
    FirstOptedOut(c.stations, c.raise.after, id);
  }

  /** The first n opted-out ids are those of the opted-out stations with fewer than n before them. */
  lemma FirstOptedOut(stations: seq<Station>, n: nat, id: string)
    ensures id in FirstOf(Ids(stations, false), n) <==>
            exists i :: 0 <= i < |stations| && stations[i] == Station(id, false) && |OfKind(stations, i, false)| < n
  {
    hide Ids, OfKind;
    var ids := Ids(stations, false);
    assert stations[..|stations|] == stations;
    IdsUpTo(stations, |stations|, false);
    if i :| 0 <= i < |stations| && stations[i] == Station(id, false) && |OfKind(stations, i, false)| < n {
      assert FirstOf(ids, n)[|OfKind(stations, i, false)|] == id;
    }
    if id in FirstOf(ids, n) {
      var q: nat :| q < |ids| && q < n && ids[q] == id;
      var i := StationAt(stations, |stations|, q);
    }
  }

  /** The opted-out station behind the q-th opted-out id. */
  lemma {:induction false} StationAt(stations: seq<Station>, n: nat, q: nat) returns (i: nat)
    requires n <= |stations| && q < |Ids(stations[..n], false)|
    ensures i < n && stations[i] == Station(Ids(stations[..n], false)[q], false)
    ensures |OfKind(stations, i, false)| == q
  {
    hide Ids, OfKind;
    NoStations(stations, false);
    OneMoreStation(stations, n - 1, false);
    IdsUpTo(stations, n - 1, false);
    if q < |Ids(stations[..n - 1], false)| {
      i := StationAt(stations, n - 1, q);
    } else {
      i := n - 1;
    }
  }

  /**
   * The cycle in which no station consents any more, exactly: nothing of the host or of any
   * discovered station is left iff the link holds through every tombstone, or nothing was there,
   * the host was not linked and the link stays down. A host that is silent already stays so.
   */
  lemma SilentCycleIff(a: Agent, link: Link, uid: string, c: Cycle)
    requires forall s :: s in c.stations ==> !s.publishable
    ensures !a.connected ==> Next(a, link, uid, c) == a
    ensures !Next(a, link, uid, c).connected
    ensures a.connected ==>
              Next(a, link, uid, c).cleared == {} && !Next(a, link, uid, c).world.linked &&
              (NothingOf(Next(a, link, uid, c).world.retained, uid, c.stations) <==>
                 || (forall j: nat :: a.world.looks <= j < a.world.looks + |c.stations| + 2 ==> link(j))
                 || (!a.world.linked && NothingOf(a.world.retained, uid, c.stations) &&
                     forall j: nat :: a.world.looks <= j < a.world.looks + |c.stations| + 2 ==> !link(j)))
  {
    hide Silenced, Ids;
    ConsentIff(c.stations);
    if a.connected {
      SilenceIff(a.world, link, uid, AllIds(c.stations));
      Disconnected(a.world, link, uid, AllIds(c.stations));
      NothingOfIff(Next(a, link, uid, c).world.retained, uid, c.stations);
      NothingOfIff(a.world.retained, uid, c.stations);
    }
  }

  lemma Disconnected(w: World, link: Link, uid: string, ids: seq<string>)
    ensures !Silenced(w, link, uid, ids).linked
  {
  }

  lemma NothingOfIff(retained: Retained, uid: string, stations: seq<Station>)
    ensures NothingOf(retained, uid, stations) <==> NothingLeft(retained, uid, AllIds(stations))
  {
    var ids := AllIds(stations);
    assert forall i :: 0 <= i < |stations| ==> stations[i] in stations && ids[i] in ids;
    if NothingOf(retained, uid, stations) {
      forall id | id in [uid] + ids ensures Health(id) !in retained {
        if id in ids {
          var i :| 0 <= i < |ids| && ids[i] == id;
        }
      }
    }
    if NothingLeft(retained, uid, ids) {
      forall s | s in stations ensures Health(s.id) !in retained {
        var i :| 0 <= i < |stations| && stations[i] == s;
        assert s.id in [uid] + ids;
      }
    }
  }

  /** Over runs: after any run that leaves the host connected, opting out with the link up leaves nothing. */
  lemma OptOutLeavesNothing(retained: Retained, run: seq<Cycle>, c: Cycle, link: Link, uid: string)
    requires After(retained, run, link, uid).connected && forall s :: s in c.stations ==> !s.publishable
    requires Holds(link, After(retained, run, link, uid).world.looks, After(retained, run + [c], link, uid).world.looks)
    ensures NothingOf(After(retained, run + [c], link, uid).world.retained, uid, c.stations)
    ensures !After(retained, run + [c], link, uid).connected
  {
    hide After, NothingOf, Silenced;
    var all, a := run + [c], After(retained, run, link, uid);
    assert all[..|run|] == run && all[..|all|] == all && all[|run|] == c;
    AfterPrefix(retained, all, |run|, link, uid);
    SilentCycleIff(a, link, uid, c);
    SilentLooks(a, link, uid, c);
  }

  lemma SilentLooks(a: Agent, link: Link, uid: string, c: Cycle)
    requires a.connected && forall s :: s in c.stations ==> !s.publishable
    ensures Next(a, link, uid, c).world.looks == a.world.looks + |c.stations| + 2
  {
    ConsentIff(c.stations);
  }

  lemma {:induction false} TombstonesKeepStatus(w: World, link: Link, cleared: set<string>, ids: seq<string>)
    requires TellsLink(w)
    ensures TellsLink(Tombstoned(w, link, cleared, ids).0)
  {
    if ids != [] {
      TombstonesKeepStatus(w, link, cleared, ids[..|ids| - 1]);
    }
  }

  /** While a station consents, the host's status tells how the link was last seen, cycle after cycle. */
  lemma CycleTellsLink(a: Agent, link: Link, uid: string, c: Cycle)
    requires exists s :: s in c.stations && s.publishable
    requires TellsLink(if a.connected then a.world else a.world.(linked := false))
    ensures TellsLink(Next(a, link, uid, c).world)
  {
    hide PublishedAll, Tombstoned, Ids, Handed, Passed;
    ConsentIff(c.stations);
    RecordsKeepStatus(Ready(a, link), link, Handed(uid, c), Some(Record));
    TombstonesKeepStatus(PublishedAll(Ready(a, link), link, Handed(uid, c), Some(Record)), link, a.cleared, Passed(c));
  }

  // ----- Where the marks do go wrong -----

  /** A cycle in which all three discoveries agree. */
  function Seeing(stations: seq<Station>, raise: Raise): Cycle {
    Cycle(stations, stations, stations, raise)
  }

  /** A first cycle that wipes "X": it is opted out, "Y" consents, the link is up. */
  function Wiping(): Cycle {
    Seeing([Station("X", false), Station("Y", true)], Never)
  }

  /** "X" consents again; the cycle publishes it and then raises. */
  function Raising(): Cycle {
    Seeing([Station("X", true), Station("Y", true)], WhilePublishing(2))
  }

  /** "X" is opted out, and a second station consents under the same id. */
  function Sharing(): Cycle {
    Seeing([Station("X", true), Station("X", false)], Never)
  }

  lemma FirstWipe(retained: Retained, link: Link, uid: string)
    requires uid != "X" && forall j: nat :: link(j)
    ensures var a := After(retained, [Wiping()], link, uid); Inv(a) && a.connected && "X" in a.cleared
  {
    var first := Wiping();
    var run := [first];
    assert run[..0] == [] && run[..1] == run;
    var start := After(retained, run[..0], link, uid);
    AfterPrefix(retained, run, 0, link, uid);
    assert Station("Y", true) == first.stations[1] && Station("X", false) == first.stations[0];
    UpCycleMatchesConsent(start, link, uid, first);
    CycleKeepsInv(start, link, uid, first);
    UnambiguousIsHarmless(start, link, uid, first);
  }

  /** Opted out and wiped, "X" is published by a cycle that raises: it ends marked and on the broker. */
  lemma RaisingRunBreaks(retained: Retained, link: Link, uid: string)
    requires uid != "X" && forall j: nat :: link(j)
    ensures Orphaned(After(retained, [Wiping(), Raising()], link, uid), "X")
  {
    FirstWipe(retained, link, uid);
    SecondStep(retained, link, uid, Wiping(), Raising());
    var a := After(retained, [Wiping()], link, uid);
    HandsOverX(uid, Raising());
    assert Accepted(link, Ready(a, link).looks, Handed(uid, Raising()), "X") by {
      assert Handed(uid, Raising())[1] == "X" && link(Ready(a, link).looks + 1);
    }
    MarkedAndRetainedIff(a, link, uid, Raising(), "X");
  }

  /** "X" opted out and wiped, another station consents under its id, and no cycle raises. */
  lemma SharedIdRunBreaks(retained: Retained, link: Link, uid: string)
    requires uid != "X" && forall j: nat :: link(j)
    ensures Orphaned(After(retained, [Wiping(), Sharing()], link, uid), "X")
  {
    FirstWipe(retained, link, uid);
    SecondStep(retained, link, uid, Wiping(), Sharing());
    var a := After(retained, [Wiping()], link, uid);
    HandsOverX(uid, Sharing());
    assert Station("X", false) == Sharing().stations[1];
    assert Accepted(link, Ready(a, link).looks, Handed(uid, Sharing()), "X") by {
      assert Handed(uid, Sharing())[1] == "X" && link(Ready(a, link).looks + 1);
    }
    MarkedAndRetainedIff(a, link, uid, Sharing(), "X");
  }

  lemma SecondStep(retained: Retained, link: Link, uid: string, first: Cycle, second: Cycle)
    ensures After(retained, [first, second], link, uid) ==
            Next(After(retained, [first], link, uid), link, uid, second)
  {
    hide Next;
    var run := [first, second];
    assert run[..1] == [first] && run[..2] == run;
    AfterPrefix(retained, run, 1, link, uid);
  }

  /** Records start with the host's, then the first consenting station's. */
  lemma HandsOverX(uid: string, c: Cycle)
    requires |c.seen| == 2 && c.seen[0] == Station("X", true) && c.stations == c.seen && c.hostSeen == c.seen
    requires c.raise == Never || c.raise == WhilePublishing(2)
    ensures Ids(c.stations, true) != [] && |Handed(uid, c)| >= 2 && Handed(uid, c)[1] == "X"
  {
    var one := c.seen[..1];
    assert one[..0] == [];
    assert Ids(one, true) == ["X"];
    assert Ids(c.seen, true)[0] == "X";
  }

  /** The station is marked as wiped, and its record is on the broker. */
  predicate Orphaned(a: Agent, id: string) {
    id in a.cleared && Health(id) in a.world.retained
  }

  /** While the station is opted out and another one consents, no cycle of the process mends that. */
  lemma {:induction false} OrphanStays(a: Agent, more: seq<Cycle>, link: Link, uid: string, id: string)
    requires Orphaned(a, id)
    requires forall i :: 0 <= i < |more| ==>
               Ids(more[i].stations, true) != [] && Station(id, false) in more[i].stations
    ensures Orphaned(AfterFrom(a, more, link, uid), id)
  {
    if more != [] {
      hide Next;
      var init := more[..|more| - 1];
      OrphanStays(a, init, link, uid, id);
      OrphanStep(AfterFrom(a, init, link, uid), link, uid, more[|more| - 1], id);
    }
  }

  lemma OrphanStep(a: Agent, link: Link, uid: string, c: Cycle, id: string)
    requires Orphaned(a, id) && Ids(c.stations, true) != [] && Station(id, false) in c.stations
    ensures Orphaned(Next(a, link, uid, c), id)
  {
    hide Tombstoned, PublishedAll, Connected, Ids, Handed, Passed;
    ReadyKeepsRecords(a, link, id);
    RecordAfterAll(Ready(a, link), link, Handed(uid, c), Some(Record), id);
    AfterTombstones(PublishedAll(Ready(a, link), link, Handed(uid, c), Some(Record)), link, a.cleared,
                    Passed(c), id);
  }

  /**
   * What a raising cycle can cost: "X" opts out again before any cycle has completed since, and
   * its record stays on the broker for as long as it is opted out, the link up all the while.
   */
  lemma OptOutIgnored(retained: Retained, more: seq<Cycle>, link: Link, uid: string)
    requires uid != "X" && forall j: nat :: link(j)
    requires forall i :: 0 <= i < |more| ==>
               Ids(more[i].stations, true) != [] && Station("X", false) in more[i].stations
    ensures Health("X") in After(retained, [Wiping(), Raising()] + more, link, uid).world.retained
  {
    hide Next, Ids;
    RaisingRunBreaks(retained, link, uid);
    AfterConcat(retained, [Wiping(), Raising()], more, link, uid);
    OrphanStays(After(retained, [Wiping(), Raising()], link, uid), more, link, uid, "X");
  }

  lemma {:induction false} AfterConcat(retained: Retained, run: seq<Cycle>, more: seq<Cycle>,
                                       link: Link, uid: string)
    ensures After(retained, run + more, link, uid) == AfterFrom(After(retained, run, link, uid), more, link, uid)
  {
    hide Next;
    if more == [] {
      assert run + more == run;
    } else {
      assert (run + more)[..|run + more| - 1] == run + more[..|more| - 1];
      AfterConcat(retained, run, more[..|more| - 1], link, uid);
    }
  }

  // ----- Consent over runs -----

  /** One cycle, completed or not, creates no record but those of consenting stations and the host. */
  lemma OnlyConsentIsPublished(a: Agent, link: Link, uid: string, c: Cycle, id: string)
    requires Station(id, true) !in c.seen && id != uid
    ensures Health(id) in Next(a, link, uid, c).world.retained ==> Health(id) in a.world.retained
  {
    hide Tombstoned, PublishedAll, Connected, Ids;
    ReadyKeepsRecords(a, link, id);
    if Ids(c.stations, true) != [] {
      var w, handed := Ready(a, link), Handed(uid, c);
      assert id !in handed;
      RecordAfterAll(w, link, handed, Some(Record), id);
      AfterTombstones(PublishedAll(w, link, handed, Some(Record)), link, a.cleared, Passed(c), id);
    } else if a.connected {
      RecordAfterAll(Published(a.world, link, HostStatus, None), link, [uid] + AllIds(c.stations), None, id);
    }
  }

  /**
   * Nothing is ever sent of a station that does not consent: over every run, raising cycles
   * included, the broker holds no record of it that it did not hold before.
   */
  lemma {:induction false} NeverConsentedNeverPublished(retained: Retained, run: seq<Cycle>,
                                                        link: Link, uid: string, id: string)
    requires id != uid && forall i :: 0 <= i < |run| ==> Station(id, true) !in run[i].seen
    ensures Health(id) in After(retained, run, link, uid).world.retained ==> Health(id) in retained
  {
    if run != [] {
      hide Next;
      var init := run[..|run| - 1];
      NeverConsentedNeverPublished(retained, init, link, uid, id);
      OnlyConsentIsPublished(After(retained, init, link, uid), link, uid, run[|run| - 1], id);
    }
  }

  /** A host gone silent touches nothing until a station consents again: what was dropped stays. */
  lemma {:induction false} SilentChangesNothing(a: Agent, run: seq<Cycle>, link: Link, uid: string)
    requires !a.connected && forall i :: 0 <= i < |run| ==> Ids(run[i].stations, true) == []
    ensures AfterFrom(a, run, link, uid) == a
  {
    if run != [] {
      SilentChangesNothing(a, run[..|run| - 1], link, uid);
    }
  }

  /**
   * Silence that is not: "Y" is published, then opts out just as the link goes down. Every
   * tombstone is dropped, and the record stays however long the host is silent, link or no link.
   */
  lemma SilenceLeaks(more: seq<Cycle>, link: Link, uid: string)
    requires uid != "Y" && link(0) && link(1) && link(2) && !link(3) && !link(4) && !link(5)
    requires forall i :: 0 <= i < |more| ==> Ids(more[i].stations, true) == []
    ensures var consents, optedOut := Seeing([Station("Y", true)], Never), Seeing([Station("Y", false)], Never);
            var a := After(map[], [consents, optedOut] + more, link, uid);
            !a.connected && Health("Y") in a.world.retained
  {
    var consents, optedOut := Seeing([Station("Y", true)], Never), Seeing([Station("Y", false)], Never);
    var published := PublishesY(consents, link, uid);
    SecondStep(map[], link, uid, consents, optedOut);
    var a := After(map[], [consents, optedOut], link, uid);
    SilencedTooLate(published, optedOut, link, uid);
    AfterConcat(map[], [consents, optedOut], more, link, uid);
    SilentChangesNothing(a, more, link, uid);
  }

  lemma OnlyY(stations: seq<Station>)
    requires stations == [Station("Y", true)]
    ensures Ids(stations, true) == ["Y"] && Ids(stations, false) == []
  {
    assert stations[..0] == [];
  }

  lemma PublishesY(c: Cycle, link: Link, uid: string) returns (a: Agent)
    requires c == Seeing([Station("Y", true)], Never) && link(0) && link(1) && link(2)
    ensures a == After(map[], [c], link, uid)
    ensures a.connected && a.world.looks == 3 && a.world.linked && Health("Y") in a.world.retained
  {
    hide Ids, Tombstoned;
    var run, start := [c], Agent(World(map[], 0, false), false, {});
    assert run[..0] == [] && run[..1] == run;
    AfterPrefix(map[], run, 0, link, uid);
    OnlyY(c.stations);
    NothingSentTwice(PublishedAll(Ready(start, link), link, [uid, "Y"], Some(Record)), link, {}, []);
    var records := Handed(uid, c);
    assert records == [uid, "Y"];
    a := Next(start, link, uid, c);
    RecordAfterAll(Ready(start, link), link, records, Some(Record), "Y");
    assert Accepted(link, 1, records, "Y") by { assert records[1] == "Y" && link(1 + 1); }
    LinkedAfterAll(Ready(start, link), link, records);
  }

  lemma LinkedAfterAll(w: World, link: Link, ids: seq<string>)
    requires ids != [] && link(w.looks + |ids| - 1)
    ensures PublishedAll(w, link, ids, Some(Record)).linked
  {
  }

  lemma SilencedTooLate(a: Agent, c: Cycle, link: Link, uid: string)
    requires c == Seeing([Station("Y", false)], Never) && a.connected && a.world.looks == 3
    requires Health("Y") in a.world.retained && !link(3) && !link(4) && !link(5)
    ensures !Next(a, link, uid, c).connected && Health("Y") in Next(a, link, uid, c).world.retained
  {
    hide PublishedAll;
    assert Ids(c.stations, true) == [] by { assert c.stations[..0] == []; }
    var status, ids := Published(a.world, link, HostStatus, None), [uid] + AllIds(c.stations);
    RecordAfterAll(status, link, ids, None, "Y");
    assert Down(link, status.looks, status.looks + |ids|);
  }

  // ----- The loop itself -----

  class Loop {
    const pub: Publisher
    var connected: bool
    var cleared: set<string>

    constructor (pub: Publisher)
      ensures this.pub == pub && State() == Agent(pub.Now(), false, {})
      ensures pub.Now() == World(pub.retained, 0, false) ==>
                State() == After(pub.retained, [], pub.link, pub.uid)
    {
      this.pub, connected, cleared := pub, false, {};
    }

    ghost function State(): Agent
      reads this, pub
    {
      Agent(pub.Now(), connected, cleared)
    }

    /** Hand over the records in order, up to the point where an exception strikes. */
    method RunOnce(records: seq<string>, raise: Raise) returns (completed: bool)
      modifies pub
      ensures completed <==> !raise.WhilePublishing?
      ensures pub.Now() ==
              PublishedAll(old(pub.Now()), pub.link,
                           if raise.WhilePublishing? then FirstOf(records, raise.after) else records,
                           Some(Record))
    {
      for i := 0 to |records|
        invariant pub.Now() == PublishedAll(old(pub.Now()), pub.link, records[..i], Some(Record))
        invariant raise.WhilePublishing? ==> raise.after >= i
      {
        if raise == WhilePublishing(i) {
          return false;
        }
        assert records[..i + 1] == records[..i] + [records[i]];
        OneMore(old(pub.Now()), pub.link, records[..i], records[i], Some(Record));
        var _ := pub.Publish(Health(records[i]), Some(Record));
      }
      assert records[..|records|] == records;
      if raise.WhilePublishing? {
        return false;
      }
      pub.Flush();
      return true;
    }

    method WipeOptedOut(optedOut: seq<string>, raise: Raise) returns (completed: bool)
      modifies this`cleared, pub
      ensures completed <==> !raise.WhileWiping?
      ensures (pub.Now(), cleared) ==
              Tombstoned(old(pub.Now()), pub.link, old(cleared),
                         if raise.WhileWiping? then FirstOf(optedOut, raise.after) else optedOut)
    {
      for i := 0 to |optedOut|
        invariant (pub.Now(), cleared) == Tombstoned(old(pub.Now()), pub.link, old(cleared), optedOut[..i])
        invariant raise.WhileWiping? ==> raise.after >= i
      {
        if raise == WhileWiping(i) {
          return false;
        }
        var id := optedOut[i];
        assert optedOut[..i + 1][..i] == optedOut[..i];
        if id !in cleared {
          var sent := pub.ClearStation(id);
          if sent {
            cleared := cleared + {id};
          }
        }
      }
      assert optedOut[..|optedOut|] == optedOut;
      return !raise.WhileWiping?;
    }

    method RunCycle(c: Cycle)
      modifies this, pub
      ensures State() == Next(old(State()), pub.link, pub.uid, c)
    {
      hide PublishedAll, Connected, Silenced, Ids;
      var consenting, optedOut := Ids(c.stations, true), Ids(c.stations, false);
      if consenting != [] {
        if !connected {
          pub.Connect();
          connected := true;
        }
        var published := RunOnce(Records(pub.uid, c), c.raise);
        if published {
          var wiped := WipeOptedOut(optedOut, c.raise);
          if wiped {
            // a mark does not outlive the opt-out it stands for
            cleared := set id | id in cleared && id in optedOut;
          }
        }
      } else if connected {
        pub.GoSilent(AllIds(c.stations));
        connected := false;
        cleared := {};
      }
    }
  }
}
