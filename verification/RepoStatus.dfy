/**
 * rms_repo_status: for how long a checkout has been behind its remote. The clock is stamped
 * by polling, cached, and persisted across restarts.
 */
module RepoStatus {
  import opened Sequences

  const UPTODATE_TTL := 1800.0
  const DAY := 86400.0

  /** One poll: the commit checked out, whether it was found up to date (None: no answer), when. */
  datatype Obs = Obs(head: string, up: Option<bool>, now: real)

  // ----- The clock as a function of every poll so far -----

  function AnotherHead(head: string): Obs -> bool {
    (o: Obs) => o.head != head
  }

  predicate UpToDate(o: Obs) { o.up == Some(true) }
  predicate Behind(o: Obs) { o.up == Some(false) }

  /** The later of the last poll at another commit and the last "up to date"; -1 if neither. */
  function LastReset(obs: seq<Obs>): (r: int)
    requires obs != []
    ensures -1 <= r < |obs|
  {
    var h := LastIndex(obs, AnotherHead(obs[|obs| - 1].head));
    var u := LastIndex(obs, UpToDate);
    if h > u then h else u
  }

  /** The time of the first "behind" poll after the last reset. */
  function BehindSince(obs: seq<Obs>): Option<real>
    requires obs != []
  {
    var b := LastReset(obs) + 1;
    var f := FirstIndex(obs[b..], Behind);
    if b + f < |obs| then Some(obs[b + f].now) else None
  }

  lemma LastResetSnoc(obs: seq<Obs>, o: Obs)
    requires obs != []
    ensures LastReset(obs + [o]) ==
            if o.up == Some(true) then |obs|
            else if obs[|obs| - 1].head != o.head then |obs| - 1
            else LastReset(obs)
  {
    hide LastIndex;
    LastIndexSnoc(obs, o, UpToDate);
    LastIndexSnoc(obs, o, AnotherHead(o.head));
    if obs[|obs| - 1].head != o.head {
      LastIndexUnique(obs, AnotherHead(o.head), |obs| - 1);
    }
  }

  /** How one more poll moves the clock. */
  lemma ClockStep(obs: seq<Obs>, o: Obs)
    requires obs != []
    ensures BehindSince(obs + [o]) ==
            var kept := if obs[|obs| - 1].head == o.head then BehindSince(obs) else None;
            match o.up
            case Some(true) => None
            case Some(false) => if kept.Some? then kept else Some(o.now)
            case None => kept
  {
    hide LastIndex, FirstIndex, LastReset;
    LastResetSnoc(obs, o);
    var all, b := obs + [o], LastReset(obs + [o]) + 1;
    var f := FirstIndex(all[b..], Behind);
    if b < |obs| {
      var g := FirstIndex(obs[b..], Behind);
      assert all[b..] == obs[b..] + [o];
      FirstIndexUnique(all[b..], Behind, if b + g < |obs| || Behind(o) then g else g + 1);
    } else if b == |obs| {
      assert all[b..] == [o];
      FirstIndexUnique(all[b..], Behind, if Behind(o) then 0 else 1);
      ResetAtEnd(obs);
    }
  }

  lemma ResetAtEnd(obs: seq<Obs>)
    requires obs != []
    ensures LastReset(obs) == |obs| - 1 ==> BehindSince(obs) == None
  {
  }

  lemma FirstPoll(o: Obs)
    ensures BehindSince([o]) == if o.up == Some(false) then Some(o.now) else None
  {
    hide LastIndex, FirstIndex;
    LastIndexUnique([o], AnotherHead(o.head), -1);
    LastIndexUnique([o], UpToDate, if UpToDate(o) then 0 else -1);
    if !UpToDate(o) {
      assert [o][0..] == [o];
      FirstIndexUnique([o][0..], Behind, if Behind(o) then 0 else 1);
    }
  }

  /** Polls that cannot tell, on the same commit, never move the clock, however many. */
  lemma {:induction false} SilenceKeepsClock(obs: seq<Obs>, more: seq<Obs>)
    requires obs != []
    requires forall i :: 0 <= i < |more| ==> more[i].up == None && more[i].head == obs[|obs| - 1].head
    ensures BehindSince(obs + more) == BehindSince(obs)
  {
    hide BehindSince, LastReset;
    if more == [] {
      assert obs + more == obs;
    } else {
      var init, last := more[..|more| - 1], more[|more| - 1];
      SilenceKeepsClock(obs, init);
      assert obs + more == (obs + init) + [last];
      ClockStep(obs + init, last);
    }
  }

  /** Days behind at `now`; 0 when the clock is stopped. */
  function LagDays(since: Option<real>, now: real): real {
    if since.None? then 0.0 else if now < since.value then 0.0 else (now - since.value) / DAY
  }

  /** The lag is the time since the stamp in days of 86400 s; 0 without a stamp or with the clock stepped back. */
  lemma LagOnClock(since: Option<real>, now: real)
    ensures since == None ==> LagDays(since, now) == 0.0
    ensures since != None && now < since.value ==> LagDays(since, now) == 0.0
    ensures since != None && now >= since.value ==> since.value + LagDays(since, now) * 86400.0 == now
  {
  }

  /**
   * The clock, read off the polls: with b the last poll at another commit than the present one
   * or found up to date, it is the time of the first poll f after b that was found behind.
   */
  lemma ClockOnPolls(obs: seq<Obs>, b: int, f: nat)
    requires obs != [] && -1 <= b < |obs|
    requires b >= 0 ==> obs[b].head != obs[|obs| - 1].head || obs[b].up == Some(true)
    requires forall i :: b < i < |obs| ==> obs[i].head == obs[|obs| - 1].head && obs[i].up != Some(true)
    requires b < f <= |obs| && (f < |obs| ==> obs[f].up == Some(false))
    requires forall i :: b < i < f ==> obs[i].up != Some(false)
    ensures BehindSince(obs) == if f < |obs| then Some(obs[f].now) else None
  {
    hide LastIndex, FirstIndex, LastReset;
    ResetOnPolls(obs, b);
    FirstIndexAfter(obs, Behind, b, f);
  }

  lemma ResetOnPolls(obs: seq<Obs>, b: int)
    requires obs != [] && -1 <= b < |obs|
    requires b >= 0 ==> obs[b].head != obs[|obs| - 1].head || obs[b].up == Some(true)
    requires forall i :: b < i < |obs| ==> obs[i].head == obs[|obs| - 1].head && obs[i].up != Some(true)
    ensures LastReset(obs) == b
  {
    hide LastIndex;
    var other := AnotherHead(obs[|obs| - 1].head);
    var h, u := LastIndex(obs, other), LastIndex(obs, UpToDate);
    assert b >= 0 ==> other(obs[b]) || UpToDate(obs[b]);
    assert h >= 0 ==> other(obs[h]);
    assert u >= 0 ==> UpToDate(obs[u]);
  }

  /** While the commit stays behind, the stamp stays and the reported lag never falls. */
  lemma {:induction false} LagNeverFalls(obs: seq<Obs>, more: seq<Obs>, now: real, later: real)
    requires obs != [] && BehindSince(obs).Some? && now <= later
    requires forall i :: 0 <= i < |more| ==> more[i].up != Some(true) && more[i].head == obs[|obs| - 1].head
    ensures BehindSince(obs + more) == BehindSince(obs)
    ensures LagDays(BehindSince(obs), now) <= LagDays(BehindSince(obs + more), later)
  {
    hide BehindSince, LastReset;
    if more == [] {
      assert obs + more == obs;
    } else {
      var init, last := more[..|more| - 1], more[|more| - 1];
      LagNeverFalls(obs, init, now, later);
      assert obs + more == (obs + init) + [last];
      ClockStep(obs + init, last);
    }
  }

  // ----- The poller -----

  datatype Entry = Entry(head: string, since: Option<real>)
  datatype Cached = Cached(at: real, up: Option<bool>, sig: Option<real>)
  datatype Status = NoRepo | Status(up: Option<bool>, days: Option<real>)

  /** The table holds, per checkout, the last commit polled and the clock of all its polls. */
  ghost predicate Records(table: map<string, Entry>, history: map<string, seq<Obs>>) {
    table.Keys == history.Keys &&
    forall k :: k in history ==>
      history[k] != [] &&
      table[k] == Entry(history[k][|history[k]| - 1].head, BehindSince(history[k]))
  }

  /** The polls known to the file are the first ones of all there were. */
  ghost predicate Prefixes(saved: map<string, seq<Obs>>, history: map<string, seq<Obs>>) {
    forall k :: k in saved ==> k in history && saved[k] <= history[k]
  }

  ghost function Extended(history: map<string, seq<Obs>>, key: string, o: Obs): map<string, seq<Obs>> {
    history[key := (if key in history then history[key] else []) + [o]]
  }

  function NextEntry(entry: Option<Entry>, o: Obs): Entry {
    var since := if entry.Some? && entry.value.head == o.head then entry.value.since else None;
    Entry(o.head,
          match o.up
          case Some(true) => None
          case Some(false) => if since.Some? then since else Some(o.now)
          case None => since)
  }

  lemma RecordsExtend(table: map<string, Entry>, history: map<string, seq<Obs>>, key: string, o: Obs)
    requires Records(table, history)
    ensures var entry := if key in table then Some(table[key]) else None;
            Records(table[key := NextEntry(entry, o)], Extended(history, key, o))
  {
    hide BehindSince, NextEntry;
    var entry := if key in table then Some(table[key]) else None;
    EntryExtends(entry, if key in history then history[key] else [], o);
  }

  /** The entry of one checkout after one more poll. */
  lemma EntryExtends(entry: Option<Entry>, obs: seq<Obs>, o: Obs)
    requires entry == if obs == [] then None else Some(Entry(obs[|obs| - 1].head, BehindSince(obs)))
    ensures NextEntry(entry, o) == Entry(o.head, BehindSince(obs + [o]))
  {
    hide BehindSince;
    if obs == [] {
      FirstPoll(o);
      assert obs + [o] == [o];
    } else {
      ClockStep(obs, o);
    }
  }

  lemma PrefixesExtend(saved: map<string, seq<Obs>>, history: map<string, seq<Obs>>, key: string, o: Obs)
    requires Prefixes(saved, history)
    ensures Prefixes(saved, Extended(history, key, o))
    ensures Prefixes(Extended(history, key, o), Extended(history, key, o))
  {
  }

  method AdvanceEntry(previous: Option<Entry>, head: string, up: Option<bool>, now: real)
    returns (entry: Entry, changed: bool)
    ensures entry == NextEntry(previous, Obs(head, up, now))
    ensures changed <==> previous != Some(entry)
  {
    entry := if previous.Some? then previous.value else Entry("", None);
    changed := false;
    if previous.None? || entry.head != head {
      entry := Entry(head, None);
      changed := true;
    }
    if up == Some(true) && entry.since.Some? {
      entry := entry.(since := None);
      changed := true;
    } else if up == Some(false) && entry.since.None? {
      entry := entry.(since := Some(now));
      changed := true;
    }
  }

  class Poller {
    var mem: Option<map<string, Entry>>
    var disk: map<string, Entry>
    var cache: map<string, Cached>
    ghost var history: map<string, seq<Obs>>   // every poll that still counts
    ghost var saved: map<string, seq<Obs>>     // the polls a restart would still know about

    ghost predicate Valid()
      reads this
    {
      Records(disk, saved) && Prefixes(saved, history) &&
      match mem
      case Some(table) => Records(table, history)
      case None => saved == history
    }

    ghost predicate Synced()
      reads this
    {
      mem.Some? ==> mem.value == disk
    }

    constructor ()
      ensures Valid() && Synced() && history == map[]
    {
      mem, disk, cache := None, map[], map[];
      history, saved := map[], map[];
    }

    /** A new process: memory is gone, the file is not. */
    method Restart()
      requires Valid()
      modifies this
      ensures Valid() && Synced() && disk == old(disk)
      ensures history == old(saved) && saved == old(saved)
    {
      mem, cache := None, map[];
      history := saved;
    }

    /** The answer used: the cached one while it is fresh and HEAD has not visibly moved. */
    ghost function Answer(dir: string, sig: Option<real>, check: Option<bool>, mono: real): Option<bool>
      reads this
    {
      if dir in cache && mono - cache[dir].at < UPTODATE_TTL && sig == cache[dir].sig
      then cache[dir].up else check
    }

    /** Only a stale or missing answer costs a query, which then replaces it. */
    method Ask(dir: string, sig: Option<real>, check: Option<bool>, mono: real) returns (up: Option<bool>)
      modifies this`cache
      ensures up == old(Answer(dir, sig, check, mono))
      ensures dir in cache && cache[dir].up == up
      ensures up == if dir in old(cache) && mono < old(cache)[dir].at + 1800.0 && sig == old(cache)[dir].sig
                    then old(cache)[dir].up else check
      ensures !(dir in old(cache) && mono < old(cache)[dir].at + 1800.0 && sig == old(cache)[dir].sig) ==>
                cache[dir] == Cached(mono, check, sig)
      ensures forall d :: d != dir ==> (d in cache <==> d in old(cache)) && (d in cache ==> cache[d] == old(cache)[d])
    {
      if dir in cache && mono - cache[dir].at < UPTODATE_TTL && sig == cache[dir].sig {
        up := cache[dir].up;
      } else {
        up := check;
        cache := cache[dir := Cached(mono, up, sig)];
      }
    }

    method Poll(dir: string, key: string, head: Option<string>, sig: Option<real>, check: Option<bool>,
                mono: real, now: real, saveOk: bool)
      returns (status: Status)
      requires Valid()
      modifies this
      ensures Valid()
      ensures head.None? ==>
                status == NoRepo && history == old(history) && saved == old(saved) &&
                mem == old(mem) && disk == old(disk) && cache == old(cache)
      ensures head.Some? ==>
                var o := Obs(head.value, old(Answer(dir, sig, check, mono)), now);
                && history == Extended(old(history), key, o)
                && status == Status(o.up, if o.up.None? then None
                                          else Some(LagDays(BehindSince(history[key]), now)))
      ensures head.Some? && saveOk && old(Synced()) ==> Synced() && saved == history
      ensures head.Some? ==>
                var before := if old(mem).Some? then old(mem).value else old(disk);
                && mem.Some? && key in mem.value
                && (mem.value == before ==> disk == old(disk) && (saved == old(saved) || saved == history))
                && (mem.value != before && saveOk ==> disk == mem.value && saved == history)
                && (mem.value != before && !saveOk ==> disk == old(disk) && saved == old(saved))
    {
      hide Records, Prefixes, BehindSince, NextEntry, LagDays, LastReset, LastIndex, FirstIndex, Extended;
      if head.None? {
        return NoRepo;
      }
      var up := Ask(dir, sig, check, mono);
      if mem.None? {
        mem := Some(disk);
      }
      ghost var o := Obs(head.value, up, now);
      ghost var table := mem.value;
      RecordsExtend(table, history, key, o);
      PrefixesExtend(saved, history, key, o);
      var entry, changed := AdvanceEntry(if key in mem.value then Some(mem.value[key]) else None,
                                         head.value, up, now);
      history := Extended(history, key, o);
      if changed {
        mem := Some(mem.value[key := entry]);
        if saveOk {
          disk := mem.value;
          saved := history;
        }
      } else {
        assert table[key := entry] == table;
        assert mem.value == table;
        if disk == mem.value {
          saved := history;
        }
      }
      RecordedClock(mem.value, history, key);
      status := Status(up, if up.None? then None else Some(LagDays(entry.since, now)));
    }
  }

  /** A restart would find the checkout as the process knows it: the same commit on the same clock. */
  ghost predicate Survives(history: map<string, seq<Obs>>, saved: map<string, seq<Obs>>, key: string)
    requires key in history && history[key] != [] && (key in saved ==> saved[key] != [])
  {
    key in saved &&
    saved[key][|saved[key]| - 1].head == history[key][|history[key]| - 1].head &&
    BehindSince(saved[key]) == BehindSince(history[key])
  }

  /** It does so exactly when the entry on file is the one in memory, whichever polls were saved. */
  lemma SurvivesIff(mem: map<string, Entry>, disk: map<string, Entry>,
                    history: map<string, seq<Obs>>, saved: map<string, seq<Obs>>, key: string)
    requires Records(mem, history) && Records(disk, saved) && key in history
    ensures Survives(history, saved, key) <==> key in disk && disk[key] == mem[key]
  {
    hide BehindSince;
  }

  // ----- What a restart keeps, as a law over the polls -----

  /** Time moves on from poll to poll. */
  ghost predicate Ticking(obs: seq<Obs>) {
    forall i, j :: 0 <= i < j < |obs| ==> obs[i].now < obs[j].now
  }

  /**
   * The polls after the first k have not moved the clock for good: a running one saw neither
   * another commit nor an "up to date"; a stopped one may have run meanwhile, but the commit is
   * the same again and no poll since the last reset found it behind.
   */
  ghost predicate Unmoved(obs: seq<Obs>, k: nat)
    requires 0 < k <= |obs|
  {
    if BehindSince(obs[..k]).Some?
    then forall i :: k <= i < |obs| ==> obs[i].head == obs[k - 1].head && obs[i].up != Some(true)
    else obs[|obs| - 1].head == obs[k - 1].head &&
         forall i :: LastReset(obs) < i < |obs| ==> obs[i].up != Some(false)
  }

  /** The stamp is the time of a poll after the last reset, the first there that found it behind. */
  lemma StampAt(obs: seq<Obs>) returns (m: nat)
    requires obs != [] && BehindSince(obs).Some?
    ensures LastReset(obs) < m < |obs| && obs[m].now == BehindSince(obs).value && obs[m].up == Some(false)
  {
    hide LastReset;
    var b := LastReset(obs) + 1;
    m := b + FirstIndex(obs[b..], Behind);
  }

  lemma StoppedIff(obs: seq<Obs>)
    requires obs != []
    ensures BehindSince(obs).None? <==> forall i :: LastReset(obs) < i < |obs| ==> obs[i].up != Some(false)
  {
    hide LastReset;
    var b := LastReset(obs) + 1;
    var f := FirstIndex(obs[b..], Behind);
    if b + f == |obs| {
      forall i | b <= i < |obs| ensures obs[i].up != Some(false) {
        assert !Behind(obs[b..][i - b]);
      }
    }
  }

  lemma NoResetAfter(obs: seq<Obs>, i: nat)
    requires obs != [] && LastReset(obs) < i < |obs|
    ensures obs[i].up != Some(true) && obs[i].head == obs[|obs| - 1].head
  {
    assert !UpToDate(obs[i]) && !AnotherHead(obs[|obs| - 1].head)(obs[i]);
  }

  /**
   * What a restart keeps, over any polls and whichever saves failed: the file, which knows the
   * first k polls, has this commit and its clock exactly when the rest have not moved the clock.
   */
  lemma RestartKeepsIff(history: map<string, seq<Obs>>, saved: map<string, seq<Obs>>, key: string)
    requires Prefixes(saved, history) && key in saved && saved[key] != [] && Ticking(history[key])
    ensures Survives(history, saved, key) <==> Unmoved(history[key], |saved[key]|)
  {
    hide BehindSince, LastReset;
    var obs, k := history[key], |saved[key]|;
    var known, last := obs[..k], |obs| - 1;
    assert known == saved[key];
    if BehindSince(known).None? {
      StoppedIff(obs);
    } else {
      var m := StampAt(known);
      if Survives(history, saved, key) {
        var n := StampAt(obs);
        assert n == m;
        forall i | k <= i < |obs| ensures obs[i].head == obs[k - 1].head && obs[i].up != Some(true) {
          NoResetAfter(obs, i);
        }
      }
      if Unmoved(obs, k) {
        var more := obs[k..];
        assert known + more == obs;
        LagNeverFalls(known, more, 0.0, 0.0);
      }
    }
  }

  lemma RecordedClock(table: map<string, Entry>, history: map<string, seq<Obs>>, key: string)
    requires Records(table, history) && key in table
    ensures key in history && history[key] != [] && table[key].since == BehindSince(history[key])
  {
  }
}
