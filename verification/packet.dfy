/**
 * src/packet.rs: the envelope every message travels in, the receipt rules (which packets are
 * echoed and with which type) and the heartbeat payload. `SystemTime` is a count of
 * microseconds, passed in as `now`.
 */
module Packets {
  import opened Basics
  import opened Text

  datatype PacketType = Message | Echo | Heartbeat | HeartbeatEcho

  datatype Packet = Packet(content: Option<string>, sentTime: nat, receiveTime: Option<nat>, packetType: PacketType)

  /** The counters of perfstats.rs as they travel in a heartbeat. */
  datatype Stats = Stats(total: nat, numHb: nat)

  const TotalKey: string := "{\"total\":"
  const NumHbKey: string := ",\"num_hb\":"
  const Close: string := "}"

  /** The JSON text of the counters: `{"total":T,"num_hb":H}`. */
  function EncodeStats(s: Stats): string {
    TotalKey + NatToString(s.total) + NumHbKey + NatToString(s.numHb) + Close
  }

  /**
   * Reads the layout `EncodeStats` writes; `None` where deserialisation fails. As in JSON, a
   * number with a leading zero is refused.
   */
  function DecodeStats(t: string): (r: Option<Stats>) {
    if |t| < |TotalKey| || t[..|TotalKey|] != TotalKey then None
    else
      var a := t[|TotalKey|..];
      var i := DigitRun(a);
      var b := a[i..];
      if !Canonical(a[..i]) || |b| < |NumHbKey| || b[..|NumHbKey|] != NumHbKey then None
      else
        var c := b[|NumHbKey|..];
        var j := DigitRun(c);
        if !Canonical(c[..j]) || c[j..] != Close then None
        else Some(Stats(DigitsValue(a[..i]), DigitsValue(c[..j])))
  }

  /** A text cut into five consecutive pieces is their concatenation. */
  lemma Unsplit(t: string, p: string, x: string, q: string, y: string, r: string)
    requires |p| <= |t| && t[..|p|] == p
    requires |x| <= |t| - |p| && t[|p|..][..|x|] == x
    requires |q| <= |t| - |p| - |x| && t[|p|..][|x|..][..|q|] == q
    requires t[|p|..][|x|..][|q|..] == y + r
    ensures t == p + x + q + y + r
  {
    var a := t[|p|..];
    var b := a[|x|..];
    assert b == q + (y + r) by {
      assert b == b[..|q|] + b[|q|..];
    }
    assert a == x + b by {
      assert a == a[..|x|] + a[|x|..];
    }
    assert t == p + a by {
      assert t == t[..|p|] + t[|p|..];
    }
    AppendAssoc(p + x, q, y, r);
  }

  /** The decoder accepts only what the encoder writes: a decoded text is the encoding of its counters. */
  lemma DecodeOnlyEncoded(t: string)
    requires DecodeStats(t).Some?
    ensures EncodeStats(DecodeStats(t).value) == t
  {
    var a := t[|TotalKey|..];
    var i := DigitRun(a);
    var x, b := a[..i], a[i..];
    var c := b[|NumHbKey|..];
    var j := DigitRun(c);
    var y := c[..j];
    assert c == y + Close by {
      assert c == c[..j] + c[j..];
    }
    Unsplit(t, TotalKey, x, NumHbKey, y, Close);
    NatToStringOfDigits(x);
    NatToStringOfDigits(y);
  }

  /** Round trip: a heartbeat's payload decodes to the counters it was made from. */
  lemma DecodeEncodeStats(s: Stats)
    ensures DecodeStats(EncodeStats(s)) == Some(s)
  {
    var x, y := NatToString(s.total), NatToString(s.numHb);
    var t := EncodeStats(s);
    assert t[..|TotalKey|] == TotalKey;
    var a := t[|TotalKey|..];
    assert a == x + (NumHbKey + y + Close);
    DigitRunOfDigits(x, NumHbKey + y + Close);
    assert a[..|x|] == x;
    var b := a[|x|..];
    assert b == NumHbKey + (y + Close);
    assert b[..|NumHbKey|] == NumHbKey;
    var c := b[|NumHbKey|..];
    assert c == y + Close;
    DigitRunOfDigits(y, Close);
    assert c[..|y|] == y;
    DigitsValueOfNatToString(s.total);
    DigitsValueOfNatToString(s.numHb);
  }

  /** `Packet::new`: a workload packet carrying `msg`, not yet received. */
  function New(msg: string, now: nat): (p: Packet)
    ensures p.packetType == Message && p.content == Some(msg)
    ensures p.sentTime == now && p.receiveTime.None?
  {
    Packet(Some(msg), now, None, Message)
  }

  /** `Packet::get_hb`: a heartbeat carrying the serialised counters. */
  function GetHb(stats: Stats, now: nat): (p: Packet)
    ensures p.packetType == Heartbeat && p.content == Some(EncodeStats(stats))
    ensures p.sentTime == now && p.receiveTime.None?
  {
    Packet(Some(EncodeStats(stats)), now, None, Heartbeat)
  }

  /** `Packet::get_hb_workload`: the counters of a heartbeat; `None` where the assertion or an unwrap panics. */
  function GetHbWorkload(p: Packet): (r: Option<Stats>)
    ensures p.packetType != Heartbeat ==> r.None?
    ensures p.content.None? ==> r.None?
  {
    if p.packetType != Heartbeat || p.content.None? then None else DecodeStats(p.content.value)
  }

  /** `Packet::mark_received`: only the receive time changes. */
  function MarkReceived(p: Packet, now: nat): (q: Packet)
    ensures q.receiveTime == Some(now)
    ensures q.content == p.content && q.sentTime == p.sentTime && q.packetType == p.packetType
  {
    p.(receiveTime := Some(now))
  }

  /** `Packet::is_workload`. */
  predicate IsWorkload(p: Packet) {
    p.packetType == Message
  }

  /** `Packet::get_receipt`: workload and heartbeat packets are echoed, echoes are not. */
  function GetReceipt(p: Packet): (r: Option<Packet>)
    ensures r.Some? <==> p.packetType == Message || p.packetType == Heartbeat
    ensures r.Some? ==> r.value.content.None?
    ensures r.Some? ==> r.value.sentTime == p.sentTime && r.value.receiveTime == p.receiveTime
    ensures r.Some? ==> (r.value.packetType == Echo <==> IsWorkload(p))
    ensures r.Some? ==> (r.value.packetType == HeartbeatEcho <==> p.packetType == Heartbeat)
  {
    if !IsWorkload(p) && p.packetType != Heartbeat then None
    else
      var echoType := if IsWorkload(p) then Echo else HeartbeatEcho;
      Some(Packet(None, p.sentTime, p.receiveTime, echoType))
  }

  /** `Packet::get_duration`: receive time minus send time; `None` where an unwrap panics. */
  function GetDuration(p: Packet): (d: Option<nat>)
    ensures d.Some? <==> p.receiveTime.Some? && p.receiveTime.value >= p.sentTime
    ensures d.Some? ==> p.sentTime + d.value == p.receiveTime.value
  {
    if p.receiveTime.None? || p.receiveTime.value < p.sentTime then None
    else Some(p.receiveTime.value - p.sentTime)
  }

  /** A heartbeat carries its counters intact to the receiver. */
  lemma HeartbeatRoundTrip(stats: Stats, sent: nat, received: nat)
    ensures GetHbWorkload(MarkReceived(GetHb(stats, sent), received)) == Some(stats)
  {
    DecodeEncodeStats(stats);
  }

  /** Receipts are never echoed again, so an echo exchange ends after one round. */
  lemma ReceiptOfReceipt(p: Packet)
    requires GetReceipt(p).Some?
    ensures GetReceipt(GetReceipt(p).value).None?
  {
  }

  /** The receipt reports the same round-trip duration as the packet it answers. */
  lemma ReceiptKeepsDuration(p: Packet)
    requires GetReceipt(p).Some?
    ensures GetDuration(GetReceipt(p).value) == GetDuration(p)
  {
  }

  /** A packet marked on arrival no earlier than it was sent has a duration of exactly the gap. */
  lemma DurationAfterMark(p: Packet, now: nat)
    requires now >= p.sentTime
    ensures GetDuration(MarkReceived(p, now)) == Some(now - p.sentTime)
  {
  }
}
