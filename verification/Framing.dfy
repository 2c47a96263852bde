/** Messages between the server and a host: every message ends with the byte 30. */
module Framing {
  import opened Bytes

  type Message = seq<Byte>

  const SEPARATOR: Byte := 30

  /** What `send_message` writes. */
  function Encode(messages: seq<Message>): seq<Byte> {
    if messages == [] then [] else messages[0] + [SEPARATOR] + Encode(messages[1..])
  }

  predicate Plain(message: Message) {
    SEPARATOR !in message
  }

  predicate AllPlain(messages: seq<Message>) {
    forall k :: 0 <= k < |messages| ==> Plain(messages[k])
  }

  /** The messages that have arrived completely, and the bytes after the last of them. */
  ghost predicate Splits(bytes: seq<Byte>, messages: seq<Message>, leftover: seq<Byte>) {
    bytes == Encode(messages) + leftover && AllPlain(messages) && Plain(leftover)
  }

  lemma {:induction false} EncodeConcat(a: seq<Message>, b: seq<Message>)
    ensures Encode(a + b) == Encode(a) + Encode(b)
  {
    if a == [] {
      assert a + b == b;
    } else {
      assert (a + b)[1..] == a[1..] + b;
      EncodeConcat(a[1..], b);
    }
  }

  lemma EncodeOne(m: Message)
    ensures Encode([m]) == m + [SEPARATOR]
  {
    var rest: seq<Message> := [m][1..];
    assert rest == [];
    assert m + [SEPARATOR] + [] == m + [SEPARATOR];
  }

  lemma SeparatorMeansMessage(bytes: seq<Byte>, messages: seq<Message>, leftover: seq<Byte>)
    requires Splits(bytes, messages, leftover)
    ensures SEPARATOR in bytes <==> messages != []
  {
    if messages == [] {
      assert bytes == leftover;
    } else {
      assert bytes[|messages[0]|] == SEPARATOR;
    }
  }

  /** A stream splits in only one way. */
  lemma {:induction false} SplitsOnce(bytes: seq<Byte>, m1: seq<Message>, l1: seq<Byte>, m2: seq<Message>,
                                      l2: seq<Byte>)
    requires Splits(bytes, m1, l1) && Splits(bytes, m2, l2)
    ensures m1 == m2 && l1 == l2
    decreases |m1|
  {
    SeparatorMeansMessage(bytes, m1, l1);
    SeparatorMeansMessage(bytes, m2, l2);
    if m1 == [] {
      assert Encode([]) + l1 == l1 && Encode([]) + l2 == l2;
    } else {
      FirstSplit(bytes, m1, l1);
      FirstSplit(bytes, m2, l2);
      SameFirst(bytes, m1[0], m2[0]);
      SplitsOnce(bytes[|m1[0]| + 1..], m1[1..], l1, m2[1..], l2);
      assert m1 == [m1[0]] + m1[1..] && m2 == [m2[0]] + m2[1..];
    }
  }

  ghost predicate Begins(bytes: seq<Byte>, m: Message) {
    |m| < |bytes| && bytes[..|m|] == m && bytes[|m|] == SEPARATOR && Plain(m)
  }

  lemma FirstSplit(bytes: seq<Byte>, messages: seq<Message>, leftover: seq<Byte>)
    requires Splits(bytes, messages, leftover) && messages != []
    ensures Begins(bytes, messages[0]) && Splits(bytes[|messages[0]| + 1..], messages[1..], leftover)
  {
    var rest := Encode(messages[1..]) + leftover;
    assert bytes == messages[0] + [SEPARATOR] + rest;
    assert bytes[|messages[0]| + 1..] == rest;
  }

  lemma SameFirst(bytes: seq<Byte>, a: Message, b: Message)
    requires Begins(bytes, a) && Begins(bytes, b)
    ensures a == b
  {
    assert forall k :: 0 <= k < |a| ==> bytes[k] == a[k] && a[k] in a;
    assert forall k :: 0 <= k < |b| ==> bytes[k] == b[k] && b[k] in b;
  }

  /** More bytes behind the leftover split on from there. */
  lemma SplitsOn(bytes: seq<Byte>, m1: seq<Message>, l1: seq<Byte>, more: seq<Byte>, m2: seq<Message>, l2: seq<Byte>)
    requires Splits(bytes, m1, l1) && Splits(l1 + more, m2, l2)
    ensures Splits(bytes + more, m1 + m2, l2)
  {
    EncodeConcat(m1, m2);
    assert bytes + more == Encode(m1) + (l1 + more);
    forall k | 0 <= k < |m1 + m2| ensures Plain((m1 + m2)[k]) {
      if k >= |m1| { assert (m1 + m2)[k] == m2[k - |m1|]; }
    }
  }

  /** `bytes` are the taken messages and then what is still in the buffer. */
  ghost predicate Cut(bytes: seq<Byte>, taken: seq<Message>, buffer: seq<Byte>) {
    bytes == Encode(taken) + buffer && AllPlain(taken)
  }

  lemma CutIsSplit(bytes: seq<Byte>, taken: seq<Message>, buffer: seq<Byte>)
    requires Cut(bytes, taken, buffer) && SEPARATOR !in buffer
    ensures Splits(bytes, taken, buffer)
  {
  }

  lemma NothingTaken(bytes: seq<Byte>)
    ensures Cut(bytes, [], bytes)
  {
    assert Encode([]) + bytes == bytes;
  }

  lemma TakeOne(bytes: seq<Byte>, taken: seq<Message>, buffer: seq<Byte>, p: nat)
    requires Cut(bytes, taken, buffer) && p < |buffer| && buffer[p] == SEPARATOR && SEPARATOR !in buffer[..p]
    ensures Cut(bytes, taken + [buffer[..p]], buffer[p + 1..])
  {
    hide Encode;
    var o := buffer[..p];
    assert buffer == o + [SEPARATOR] + buffer[p + 1..];
    EncodeConcat(taken, [o]);
    EncodeOne(o);
    assert Encode(taken) + (o + [SEPARATOR] + buffer[p + 1..]) == Encode(taken) + (o + [SEPARATOR]) + buffer[p + 1..];
  }

  /** The receiving side of one connection. */
  class Receiver {
    var buffer: seq<Byte>
    var handled: seq<Message>
    /** Everything read on this connection. */
    ghost var received: seq<Byte>

    constructor ()
      ensures Valid() && buffer == [] && handled == [] && received == []
    {
      buffer, handled, received := [], [], [];
    }

    /** What was handled and what is buffered is what was received, cut at every separator. */
    ghost predicate Valid()
      reads this
    {
      Splits(received, handled, buffer)
    }

    /** One read, then the loop that takes every complete message out of the buffer; it looks for
        the separator only in the new bytes first. */
    method Read(data: seq<Byte>)
      requires Valid()
      modifies this
      ensures Valid() && received == old(received) + data
    {
      var start := |buffer|;
      assert SEPARATOR !in buffer;
      hide Splits, Cut;
      ghost var bytes := buffer + data;
      assert bytes[..start] == buffer;
      buffer := buffer + data;
      received := received + data;
      ghost var taken: seq<Message> := [];
      NothingTaken(bytes);
      while true
        invariant 0 <= start <= |buffer| && SEPARATOR !in buffer[..start]
        invariant Cut(bytes, taken, buffer) && handled == old(handled) + taken
        invariant received == old(received) + data
        decreases |buffer|
      {
        var p := Position(buffer, start);
        if p == |buffer| { break; }
        var o := buffer[..p];
        TakeOne(bytes, taken, buffer, p);
        buffer := buffer[p + 1..];
        start := 0;
        handled := handled + [o];
        taken := taken + [o];
      }
      assert buffer[..|buffer|] == buffer;
      CutIsSplit(bytes, taken, buffer);
      SplitsOn(old(received), old(handled), old(buffer), data, taken, buffer);
    }

    /** The next separator at or after `start`, or the length of the buffer. */
    static method Position(bytes: seq<Byte>, start: nat) returns (p: nat)
      requires start <= |bytes| && SEPARATOR !in bytes[..start]
      ensures start <= p <= |bytes| && SEPARATOR !in bytes[..p]
      ensures p < |bytes| ==> bytes[p] == SEPARATOR
    {
      p := start;
      while p < |bytes| && bytes[p] != SEPARATOR
        invariant start <= p <= |bytes| && SEPARATOR !in bytes[..p]
      {
        assert bytes[..p + 1] == bytes[..p] + [bytes[p]];
        p := p + 1;
      }
    }
  }

  /** A whole connection: the reads one after the other. */
  method Receive(chunks: seq<seq<Byte>>) returns (handled: seq<Message>, leftover: seq<Byte>)
    ensures Splits(Concat(chunks), handled, leftover)
  {
    var r := new Receiver();
    var i := 0;
    while i < |chunks|
      invariant 0 <= i <= |chunks| && r.Valid()
      invariant fresh(r)
      invariant r.received + Concat(chunks[i..]) == Concat(chunks)
    {
      assert chunks[i..][1..] == chunks[i + 1..];
      r.Read(chunks[i]);
      i := i + 1;
    }
    assert chunks[i..] == [];
    assert r.received + [] == r.received;
    return r.handled, r.buffer;
  }

  /** Whatever the cuts between the reads, exactly the sent messages are handled, in order, and
      the bytes of the one still under way stay buffered. */
  lemma FramesSurviveChunking(messages: seq<Message>, partial: seq<Byte>, chunks: seq<seq<Byte>>, handled: seq<Message>,
                              leftover: seq<Byte>)
    requires AllPlain(messages) && Plain(partial) && Concat(chunks) == Encode(messages) + partial
    ensures Splits(Concat(chunks), handled, leftover) <==> handled == messages && leftover == partial
  {
    assert Splits(Concat(chunks), messages, partial);
    if Splits(Concat(chunks), handled, leftover) {
      SplitsOnce(Concat(chunks), handled, leftover, messages, partial);
    }
  }
}
