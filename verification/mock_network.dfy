/**
 * src/mock_network.rs: a stand-in for the network used when debugging. What the application
 * sends is queued in an outbox the test reads with `mock_get`; what the test injects with
 * `mock_send` goes straight to the application's callback.
 *
 * Payloads are the JSON text serde makes of them; the application's callback is recorded as the
 * list of `(sender, payload)` calls it received.
 */
module MockNetworks {
  import opened Basics
  import opened Packets

  /** What the wrapped callback does with one incoming packet. */
  datatype Forwarded =
    | Ignored
    | Delivered(sender: string, payload: string)
      /** A workload packet without content: `unwrap` panics. */
    | Panicked

  /** The wrapper `MockNetwork::new` puts around the application's callback: workload packets only. */
  function Forward(sender: string, p: Packet): (f: Forwarded)
    ensures !IsWorkload(p) <==> f == Ignored
    ensures f.Delivered? <==> IsWorkload(p) && p.content.Some?
    ensures f.Delivered? ==> f.sender == sender && f.payload == p.content.value
  {
    if !IsWorkload(p) then Ignored
    else if p.content.None? then Panicked
    else Delivered(sender, p.content.value)
  }

  /** Whatever the test injects through `mock_send` reaches the application unchanged, under the given name. */
  lemma InjectedIsDelivered(source: string, payload: string, now: nat)
    ensures Forward(source, New(payload, now)) == Delivered(source, payload)
  {
  }

  /** Heartbeats and echoes never reach the application. */
  lemma ControlPacketsIgnored(sender: string, p: Packet)
    requires p.packetType != Message
    ensures Forward(sender, p) == Ignored
  {
  }

  class MockNetwork {
    /** The channel from `send` to `mock_get`, oldest first. */
    var outbox: seq<(Option<string>, Packet)>
    /** The calls the application's callback has received, oldest first. */
    var delivered: seq<(string, string)>
    var perfStats: Stats

    /** `MockNetwork::new`: the port and the remote addresses are not used. */
    constructor(port: nat, remoteIps: seq<string>)
      ensures outbox == [] && delivered == [] && perfStats == Stats(0, 0)
    {
      outbox := [];
      delivered := [];
      perfStats := Stats(0, 0);
    }

    /** `get_subscribers`: always the single name `mock`. */
    function GetSubscribers(): (names: seq<string>)
      ensures names == ["mock"]
    {
      ["mock"]
    }

    /** `send`: queue one workload packet carrying the payload; the channel never refuses it. */
    method Send(dest: Option<string>, payload: string, now: nat) returns (ok: bool)
      modifies this
      ensures ok
      ensures outbox == old(outbox) + [(dest, New(payload, now))]
      ensures delivered == old(delivered) && perfStats == old(perfStats)
    {
      outbox := outbox + [(dest, New(payload, now))];
      ok := true;
    }

    /** `mock_get`: the oldest queued packet, or `None` (`TryRecvError::Empty`) when there is none. */
    method MockGet() returns (r: Option<(Option<string>, Packet)>)
      modifies this
      ensures old(outbox) == [] ==> r.None? && outbox == []
      ensures old(outbox) != [] ==> r == Some(old(outbox)[0]) && outbox == old(outbox)[1..]
      ensures delivered == old(delivered) && perfStats == old(perfStats)
    {
      if outbox == [] {
        return None;
      }
      r := Some(outbox[0]);
      outbox := outbox[1..];
    }

    /** `mock_send`: hand a fresh workload packet to the wrapped callback; the outbox is untouched. */
    method MockSend(source: string, payload: string, now: nat)
      modifies this
      ensures delivered == old(delivered) + [(source, payload)]
      ensures outbox == old(outbox) && perfStats == old(perfStats)
    {
      var f := Forward(source, New(payload, now));
      if f.Delivered? {
        delivered := delivered + [(f.sender, f.payload)];
      }
    }
  }

  /** FIFO: after two sends, `mock_get` returns the first packet, then the second, then nothing. */
  method SendTwiceThenDrain(a: string, b: string, now: nat)
    returns (first: Option<(Option<string>, Packet)>, second: Option<(Option<string>, Packet)>,
             third: Option<(Option<string>, Packet)>)
    ensures first == Some((None, New(a, now)))
    ensures second == Some((Some("peer"), New(b, now + 1)))
    ensures third.None?
  {
    var net := new MockNetwork(8000, []);
    var ok1 := net.Send(None, a, now);
    var ok2 := net.Send(Some("peer"), b, now + 1);
    first := net.MockGet();
    second := net.MockGet();
    third := net.MockGet();
  }
}
