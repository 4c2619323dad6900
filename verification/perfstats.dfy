/**
 * src/perfstats.rs: a counter of received packets and of the heartbeats among them.
 */
module PerfStatsCounter {
  import opened Packets

  /** One `update`, on the counters as values. */
  function Record(s: Stats, p: Packet): (t: Stats)
    ensures t.total == s.total + 1
    ensures t.numHb == if p.packetType == Heartbeat then s.numHb + 1 else s.numHb
  {
    Stats(s.total + 1, if p.packetType == Heartbeat then s.numHb + 1 else s.numHb)
  }

  /** The number of heartbeats in a sequence of packets. */
  function Heartbeats(ps: seq<Packet>): (n: nat)
    ensures n <= |ps|
  {
    if ps == [] then 0
    else Heartbeats(ps[..|ps| - 1]) + if ps[|ps| - 1].packetType == Heartbeat then 1 else 0
  }

  /** The counters after recording every packet of `ps`, in order. */
  function RecordAll(s: Stats, ps: seq<Packet>): (t: Stats)
    ensures t.total == s.total + |ps|
    ensures t.numHb <= s.numHb + |ps|
  {
    if ps == [] then s else Record(RecordAll(s, ps[..|ps| - 1]), ps[|ps| - 1])
  }

  /** From fresh counters, `total` counts the packets and `num_hb` the heartbeats among them. */
  lemma {:induction false} RecordAllCounts(ps: seq<Packet>)
    ensures RecordAll(Stats(0, 0), ps) == Stats(|ps|, Heartbeats(ps))
  {
    if ps != [] {
      RecordAllCounts(ps[..|ps| - 1]);
    }
  }

  /** `num_hb <= total` holds of fresh counters and every `update` keeps it. */
  lemma RecordKeepsBound(s: Stats, p: Packet)
    requires s.numHb <= s.total
    ensures Record(s, p).numHb <= Record(s, p).total
  {
  }

  class PerfStats {
    var total: nat
    var numHb: nat

    /** `PerfStats::new`. */
    constructor()
      ensures total == 0 && numHb == 0
      ensures Valid()
    {
      total := 0;
      numHb := 0;
    }

    function Snapshot(): Stats
      reads this
    {
      Stats(total, numHb)
    }

    predicate Valid()
      reads this
    {
      numHb <= total
    }

    /** `PerfStats::update`. */
    method Update(p: Packet)
      modifies this
      ensures Snapshot() == Record(old(Snapshot()), p)
      ensures old(Valid()) ==> Valid()
    {
      total := total + 1;
      if p.packetType == Heartbeat {
        numHb := numHb + 1;
      }
    }
  }
}
