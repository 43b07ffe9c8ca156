/** The queue's Message object, used by one goroutine at a time. */
module Message {
  import opened Bytes

  /** What Ack and Nack return: nil, no callback installed, or the callback's error. */
  datatype Reply = Nil | NotSupported | CallbackError

  /** The contents of a message; `settled` is the acknowledged flag. */
  datatype Msg = Msg(
    id: string,
    topic: string,
    payload: seq<byte>,
    headers: map<string, string>,
    key: string,
    delay: int,
    timestamp: int,
    attempts: int,
    raw: nat,        // which object of the broker it came from, 0 for none
    settled: bool)

  /** The flag and the reply of one uninterrupted Ack or Nack whose callback succeeds or fails. */
  function Settle(settled: bool, installed: bool, works: bool): (r: (bool, Reply))
    ensures r.0 <==> r.1 == Nil
    ensures r.1 == NotSupported <==> !settled && !installed
    ensures r.1 == CallbackError <==> !settled && installed && !works
  {
    if settled then (true, Nil)
    else if !installed then (false, NotSupported)
    else if works then (true, Nil)
    else (false, CallbackError)
  }

  class Message {
    var id: string
    var topic: string
    var payload: array<byte>
    var headers: map<string, string>
    var key: string
    var delay: int
    var timestamp: int
    var attempts: int
    var raw: nat
    var acknowledged: bool
    var hasAck: bool   // ackFn is set
    var hasNack: bool  // nackFn is set

    ghost function View(): Msg
      reads this, payload
    {
      Msg(id, topic, payload[..], headers, key, delay, timestamp, attempts, raw, acknowledged)
    }

    constructor (m: Msg, payload: array<byte>, hasAck: bool, hasNack: bool)
      requires payload[..] == m.payload
      ensures View() == m && this.payload == payload
      ensures this.hasAck == hasAck && this.hasNack == hasNack
    {
      id, topic, key := m.id, m.topic, m.key;
      this.payload := payload;
      headers := m.headers;
      delay, timestamp, attempts, raw := m.delay, m.timestamp, m.attempts, m.raw;
      acknowledged := m.settled;
      this.hasAck, this.hasNack := hasAck, hasNack;
    }

    /** `works` is the callback's outcome, `called` whether it ran. */
    method Ack(works: bool) returns (r: Reply, called: bool)
      modifies this`acknowledged
      ensures (acknowledged, r) == Settle(old(acknowledged), hasAck, works)
      ensures called <==> !old(acknowledged) && hasAck
    {
      called := false;
      if acknowledged {
        return Nil, false;
      }
      if !hasAck {
        return NotSupported, false;
      }
      acknowledged := true;
      called := true;
      if !works {
        acknowledged := false;
        return CallbackError, true;
      }
      r := Nil;
    }

    method Nack(works: bool) returns (r: Reply, called: bool)
      modifies this`acknowledged
      ensures (acknowledged, r) == Settle(old(acknowledged), hasNack, works)
      ensures called <==> !old(acknowledged) && hasNack
    {
      called := false;
      if acknowledged {
        return Nil, false;
      }
      if !hasNack {
        return NotSupported, false;
      }
      acknowledged := true;
      called := true;
      if !works {
        acknowledged := false;
        return CallbackError, true;
      }
      r := Nil;
    }

    /** A copy in fresh storage that inherits the settled flag and the callbacks. */
    method Clone() returns (c: Message)
      ensures fresh(c) && fresh(c.payload)
      ensures c.View() == View()
      ensures c.hasAck == hasAck && c.hasNack == hasNack
    {
      var hs: map<string, string> := map[];
      var todo := headers.Keys;
      while todo != {}
        invariant todo <= headers.Keys
        invariant hs == map k | k in headers && k !in todo :: headers[k]
        decreases todo
      {
        var k :| k in todo;
        hs := hs[k := headers[k]];
        todo := todo - {k};
      }
      assert hs == headers;
      var data := new byte[payload.Length];
      for i := 0 to payload.Length
        invariant data[..i] == payload[..i]
      {
        data[i] := payload[i];
      }
      assert data[..] == payload[..];
      c := new Message(Msg(id, topic, data[..], hs, key, delay, timestamp, attempts, raw, acknowledged),
                       data, hasAck, hasNack);
    }
  }
}
