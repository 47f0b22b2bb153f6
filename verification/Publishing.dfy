/**
 * The publisher over a link that comes and goes: what the broker retains after each publish,
 * tombstone, and last-will message.
 */
module Publishing {
  import opened Sequences

  /** Host and station records share one topic scheme, keyed by id. */
  datatype Topic = Health(id: string) | HostStatus

  datatype Payload = Record | Online | Offline

  /** What the broker retains. */
  type Retained = map<Topic, Payload>

  /** Whether the broker can be reached, at each successive look at the connection. */
  type Link = nat -> bool

  /** What the broker retains, how often the connection has been looked at, and what was seen last. */
  datatype World = World(retained: Retained, looks: nat, linked: bool)

  /** An empty retained payload deletes the entry (section 3.3.1.3 of MQTT Version 3.1.1). */
  function Put(retained: Retained, topic: Topic, payload: Option<Payload>): Retained {
    if payload.None? then retained - {topic} else retained[topic := payload.value]
  }

  /**
   * One look at the connection. A link that came back has announced the host; one that broke
   * has triggered the last will.
   */
  function Look(w: World, link: Link): World {
    var up := link(w.looks);
    World(if up && !w.linked then w.retained[HostStatus := Online]
          else if !up && w.linked then w.retained[HostStatus := Offline]
          else w.retained,
          w.looks + 1, up)
  }

  /** A publish is dropped, not queued, while the link is down. */
  function Published(w: World, link: Link, topic: Topic, payload: Option<Payload>): World {
    var seen := Look(w, link);
    if seen.linked then seen.(retained := Put(seen.retained, topic, payload)) else seen
  }

  /** The records of ids, published in order. */
  function PublishedAll(w: World, link: Link, ids: seq<string>, payload: Option<Payload>): (r: World)
    ensures r.looks == w.looks + |ids|
  {
    if ids == [] then w
    else Published(PublishedAll(w, link, ids[..|ids| - 1], payload), link, Health(ids[|ids| - 1]), payload)
  }

  /** A new client starts disconnected, and is looked at once it has been given time to connect. */
  function Connected(w: World, link: Link): World {
    Look(w.(linked := false), link)
  }

  /** Tombstones for the host and the given stations, then a clean disconnect. */
  function Silenced(w: World, link: Link, uid: string, ids: seq<string>): World {
    var status := Published(w, link, HostStatus, None);
    PublishedAll(status, link, [uid] + ids, None).(linked := false)
  }

  lemma RecordAfterOne(w: World, link: Link, sent: string, payload: Option<Payload>, id: string)
    ensures var r := Published(w, link, Health(sent), payload);
            Health(id) in r.retained <==>
            if sent == id && link(w.looks) then payload.Some? else Health(id) in w.retained
  {
  }

  /** Some publish of id, in a batch that starts at look `from`, finds the link up. */
  ghost predicate Accepted(link: Link, from: nat, ids: seq<string>, id: string) {
    exists i :: 0 <= i < |ids| && ids[i] == id && link(from + i)
  }

  /** Health(id) after a batch: an accepted publish of that id decides. */
  lemma {:induction false} RecordAfterAll(w: World, link: Link, ids: seq<string>, payload: Option<Payload>, id: string)
    ensures Health(id) in PublishedAll(w, link, ids, payload).retained <==>
            if exists i :: 0 <= i < |ids| && ids[i] == id && link(w.looks + i) then payload != None
            else Health(id) in w.retained
    ensures Accepted(link, w.looks, ids, id) <==> exists i :: 0 <= i < |ids| && ids[i] == id && link(w.looks + i)
  {
    hide Published;
    if ids != [] {
      var last := |ids| - 1;
      RecordAfterAll(w, link, ids[..last], payload, id);
      RecordAfterOne(PublishedAll(w, link, ids[..last], payload), link, ids[last], payload, id);
      AcceptedSplit(link, w.looks, ids, id);
    }
  }

  lemma AcceptedSplit(link: Link, from: nat, ids: seq<string>, id: string)
    requires ids != []
    ensures var last := |ids| - 1;
            Accepted(link, from, ids, id) <==>
            (ids[last] == id && link(from + last)) || Accepted(link, from, ids[..last], id)
  {
    var last := |ids| - 1;
    if Accepted(link, from, ids[..last], id) {
      var i :| 0 <= i < last && ids[..last][i] == id && link(from + i);
      assert ids[i] == id;
    }
    if i :| 0 <= i < |ids| && ids[i] == id && link(from + i) {
      assert i < last ==> ids[..last][i] == id;
    }
  }

  /** Every look from the one numbered `from` up to the one before `to` finds the link up. */
  ghost predicate Holds(link: Link, from: nat, to: nat) {
    forall j: nat :: from <= j < to ==> link(j)
  }

  /** Every such look finds it down. */
  ghost predicate Down(link: Link, from: nat, to: nat) {
    forall j: nat :: from <= j < to ==> !link(j)
  }

  /** The status topic after a batch: untouched while the link holds, present once it has changed. */
  lemma {:induction false} StatusAfterAll(w: World, link: Link, ids: seq<string>, payload: Option<Payload>)
    ensures var r := PublishedAll(w, link, ids, payload);
            && (Holds(link, w.looks, r.looks) && w.linked ==>
                  r.linked && (HostStatus in r.retained <==> HostStatus in w.retained))
            && (HostStatus in w.retained ==> HostStatus in r.retained)
            && (w.linked && !Holds(link, w.looks, r.looks) ==> HostStatus in r.retained)
            && (!w.linked && !Down(link, w.looks, r.looks) ==> HostStatus in r.retained)
            && (!w.linked && Down(link, w.looks, r.looks) ==> !r.linked && r.retained == w.retained)
  {
    if ids != [] {
      var init := ids[..|ids| - 1];
      StatusAfterAll(w, link, init, payload);
      var before := PublishedAll(w, link, init, payload);
      assert Holds(link, w.looks, before.looks + 1) <==> Holds(link, w.looks, before.looks) && link(before.looks);
      assert Down(link, w.looks, before.looks + 1) <==> Down(link, w.looks, before.looks) && !link(before.looks);
    }
  }

  /** One look announces a host whose link came back, and has the broker post the last will of one whose link broke. */
  lemma LookTells(w: World, link: Link)
    ensures link(w.looks) && !w.linked ==> Look(w, link).retained == w.retained[HostStatus := Online]
    ensures !link(w.looks) && w.linked ==> Look(w, link).retained == w.retained[HostStatus := Offline]
    ensures link(w.looks) == w.linked ==> Look(w, link).retained == w.retained
    ensures Look(w, link).linked == link(w.looks) && Look(w, link).looks == w.looks + 1
  {
  }

  /** The status tells how the link was last seen: Online while it is up, never Online once it was seen down. */
  ghost predicate TellsLink(w: World) {
    if w.linked then HostStatus in w.retained && w.retained[HostStatus] == Online
    else HostStatus in w.retained ==> w.retained[HostStatus] == Offline
  }

  /** Publishing and clearing records keeps that so, however the link flaps. */
  lemma {:induction false} RecordsKeepStatus(w: World, link: Link, ids: seq<string>, payload: Option<Payload>)
    requires TellsLink(w)
    ensures TellsLink(PublishedAll(w, link, ids, payload))
  {
    if ids != [] {
      RecordsKeepStatus(w, link, ids[..|ids| - 1], payload);
    }
  }

  /** Nothing of this host or of the given stations is left on the broker. */
  ghost predicate NothingLeft(retained: Retained, uid: string, ids: seq<string>) {
    HostStatus !in retained && forall id :: id in [uid] + ids ==> Health(id) !in retained
  }

  /**
   * Going silent leaves nothing exactly when the link holds through every one of its
   * tombstones, or when there was nothing to begin with and no look in between, finding the
   * link up, has the host announced anew. None of the tombstones is ever sent again.
   */
  lemma SilenceIff(w: World, link: Link, uid: string, ids: seq<string>)
    ensures NothingLeft(Silenced(w, link, uid, ids).retained, uid, ids) <==>
            Holds(link, w.looks, w.looks + |ids| + 2) ||
            (!w.linked && NothingLeft(w.retained, uid, ids) && Down(link, w.looks, w.looks + |ids| + 2))
  {
    hide PublishedAll;
    var status, all := Published(w, link, HostStatus, None), [uid] + ids;
    var r := PublishedAll(status, link, all, None);
    StatusAfterAll(status, link, all, None);
    assert r.looks == w.looks + |ids| + 2;
    if Holds(link, w.looks, r.looks) {
      assert Holds(link, status.looks, r.looks);
      forall id | id in all ensures Health(id) !in r.retained {
        var i :| 0 <= i < |all| && all[i] == id;
        RecordAfterAll(status, link, all, None, id);
        assert link(status.looks + i);
      }
    } else if link(w.looks) {
      assert !Holds(link, status.looks, r.looks);
    } else {
      assert Down(link, w.looks, r.looks) <==> Down(link, status.looks, r.looks);
    }
  }

  class Publisher {
    const uid: string
    const link: Link
    var looks: nat
    var linked: bool
    var retained: Retained    // on the broker
    var pending: seq<Topic>              // handed over, not yet flushed
    var droppedOffline: nat

    /** A new process; earlier ones may have left records on the broker. */
    constructor (uid: string, link: Link, retained: Retained)
      ensures this.uid == uid && this.link == link
      ensures Now() == World(retained, 0, false) && pending == [] && droppedOffline == 0
    {
      this.uid, this.link, this.retained := uid, link, retained;
      looks, linked, pending, droppedOffline := 0, false, [], 0;
    }

    ghost function Now(): World
      reads this
    {
      World(retained, looks, linked)
    }

    method IsConnected() returns (up: bool)
      modifies this`looks, this`linked, this`retained
      ensures Now() == Look(old(Now()), link) && up == linked
    {
      up := link(looks);
      looks := looks + 1;
      if up && !linked {
        retained := retained[HostStatus := Online];
      } else if !up && linked {
        retained := retained[HostStatus := Offline];
      }
      linked := up;
    }

    /** Every publish is accounted for: handed over, or dropped and counted. */
    method Publish(topic: Topic, payload: Option<Payload>) returns (sent: bool)
      modifies this
      ensures Now() == Published(old(Now()), link, topic, payload) && sent == linked
      ensures looks == old(looks) + 1 && linked == link(old(looks))
      ensures sent ==> if payload == None then topic !in retained
                       else topic in retained && retained[topic] == payload.value
      ensures forall t :: t != HostStatus && (t != topic || !sent) ==>
                (t in retained <==> t in old(retained)) && (t in retained ==> retained[t] == old(retained)[t])
      ensures pending == if sent then old(pending) + [topic] else old(pending)
      ensures droppedOffline == if sent then old(droppedOffline) else old(droppedOffline) + 1
    {
      var up := IsConnected();
      if !up {
        droppedOffline := droppedOffline + 1;
        return false;
      }
      if payload.None? {
        retained := retained - {topic};
      } else {
        retained := retained[topic := payload.value];
      }
      pending := pending + [topic];
      return true;
    }

    method Flush()
      modifies this`pending
      ensures pending == []
    {
      pending := [];
    }

    method Connect()
      modifies this
      ensures Now() == Connected(old(Now()), link)
      ensures pending == old(pending) && droppedOffline == old(droppedOffline)
    {
      linked := false;
      var _ := IsConnected();
    }

    /** True only if the tombstone went out. */
    method ClearStation(id: string) returns (sent: bool)
      modifies this
      ensures Now() == Published(old(Now()), link, Health(id), None) && sent == linked && pending == []
      ensures sent ==> Health(id) !in retained
    {
      sent := Publish(Health(id), None);
      Flush();
    }

    method GoSilent(ids: seq<string>)
      modifies this
      ensures Now() == Silenced(old(Now()), link, uid, ids) && pending == []
    {
      var _ := Publish(HostStatus, None);
      ghost var start := Now();
      var _ := Publish(Health(uid), None);
      OneMore(start, link, [], uid, None);
      for i := 0 to |ids|
        invariant Now() == PublishedAll(start, link, [uid] + ids[..i], None)
      {
        assert [uid] + ids[..i + 1] == ([uid] + ids[..i]) + [ids[i]];
        OneMore(start, link, [uid] + ids[..i], ids[i], None);
        var _ := Publish(Health(ids[i]), None);
      }
      assert ids[..|ids|] == ids;
      Flush();
      linked := false;
    }
  }

  lemma OneMore(w: World, link: Link, ids: seq<string>, id: string, payload: Option<Payload>)
    ensures PublishedAll(w, link, ids + [id], payload) ==
            Published(PublishedAll(w, link, ids, payload), link, Health(id), payload)
  {
    assert (ids + [id])[..|ids|] == ids;
  }
}
