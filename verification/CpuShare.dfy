/**
 * The CPU percentage of a capture tree: the growth of its cumulative tick count over the time
 * between two samples, with one sample carried per station.
 */
module CpuShare {
  import opened Sequences

  datatype Sample = Sample(ticks: nat, at: real)

  /** One cycle of a station: is there a capture tree, its total ticks, and the monotonic time. */
  datatype Cycle = Cycle(alive: bool, ticks: nat, now: real)

  function Next(c: Cycle): Option<Sample> {
    if c.alive then Some(Sample(c.ticks, c.now)) else None
  }

  /** A share needs a sample to compare with, time since it, and a count that has not fallen. */
  predicate Comparable(last: Option<Sample>, c: Cycle) {
    c.alive && last.Some? && c.now > last.value.at && c.ticks >= last.value.ticks
  }

  /** Percent of one CPU since the last sample; hz ticks make a second. */
  function Share(last: Option<Sample>, c: Cycle, hz: real): Option<real>
    requires hz > 0.0
  {
    if !Comparable(last, c) then None
    else Some((c.ticks - last.value.ticks) as real / hz / (c.now - last.value.at) * 100.0)
  }

  class Meter {
    const hz: real
    var last: map<string, Sample>

    constructor (hz: real)
      ensures this.hz == hz && last == map[]
    {
      this.hz, last := hz, map[];
    }

    ghost function Of(sid: string): Option<Sample>
      reads this
    {
      if sid in last then Some(last[sid]) else None
    }

    method Measure(sid: string, c: Cycle) returns (percent: Option<real>)
      requires hz > 0.0
      modifies this
      ensures percent == Share(old(Of(sid)), c, hz)
      ensures percent != None <==>
                c.alive && sid in old(last) && old(last)[sid].at < c.now && old(last)[sid].ticks <= c.ticks
      ensures sid in last <==> c.alive
      ensures c.alive ==> last[sid] == Sample(c.ticks, c.now)
      ensures Of(sid) == Next(c)
      ensures forall s :: s != sid ==> Of(s) == old(Of(s))
    {
      percent := None;
      if c.alive && sid in last && c.now > last[sid].at && c.ticks >= last[sid].ticks {
        var secs := (c.ticks - last[sid].ticks) as real / hz;
        percent := Some(secs / (c.now - last[sid].at) * 100.0);
      }
      if c.alive {
        last := last[sid := Sample(c.ticks, c.now)];
      } else {
        last := last - {sid};
      }
    }
  }

  // ----- What the shares add up to -----

  function Before(run: seq<Cycle>): Option<Sample>
    requires run != []
  {
    if |run| == 1 then None else Next(run[|run| - 2])
  }

  /** CPU seconds the published percentages of a run stand for. */
  function Charged(run: seq<Cycle>, hz: real): real
    requires hz > 0.0
  {
    if run == [] then 0.0
    else
      var c, last := run[|run| - 1], Before(run);
      Charged(run[..|run| - 1], hz) +
      (if Comparable(last, c) then Share(last, c, hz).value / 100.0 * (c.now - last.value.at) else 0.0)
  }

  /** Ticks that vanished with processes that ended between samples. */
  function Lost(run: seq<Cycle>): nat {
    if |run| <= 1 then 0
    else
      var earlier, later := run[|run| - 2].ticks, run[|run| - 1].ticks;
      Lost(run[..|run| - 1]) + (if later < earlier then earlier - later else 0)
  }

  /** A stretch of cycles with a live tree and an advancing clock. */
  ghost predicate Alive(run: seq<Cycle>) {
    (forall i :: 0 <= i < |run| ==> run[i].alive) &&
    forall i :: 0 < i < |run| ==> run[i - 1].now < run[i].now
  }

  lemma ShareOfInterval(ticks: real, hz: real, span: real)
    requires hz > 0.0 && span > 0.0
    ensures ticks / hz / span * 100.0 / 100.0 * span == ticks / hz
  {
    var secs := ticks / hz;
    assert secs / span * span == secs;
  }

  lemma ChargeAdds(a: real, b: real, hz: real)
    requires hz > 0.0
    ensures a / hz + b / hz == (a + b) / hz
  {
  }

  /**
   * Over a stretch of life the published shares account for every tick once: they add up to
   * the growth of the count from first sample to last, plus what ended processes took away.
   */
  lemma {:induction false} SharesAddUp(run: seq<Cycle>, hz: real)
    requires Alive(run) && run != [] && hz > 0.0
    ensures Charged(run, hz) == (run[|run| - 1].ticks - run[0].ticks + Lost(run)) as real / hz
  {
    var init, c := run[..|run| - 1], run[|run| - 1];
    if init == [] {
      assert Charged(init, hz) == 0.0;
    } else {
      SharesAddUp(init, hz);
      var last := run[|run| - 2];
      var grown := (last.ticks - run[0].ticks + Lost(init)) as real;
      if c.ticks >= last.ticks {
        ShareOfInterval((c.ticks - last.ticks) as real, hz, c.now - last.now);
        ChargeAdds(grown, (c.ticks - last.ticks) as real, hz);
      }
    }
  }
}
