/** app/app.go: the inbox queue, a slice of an array changed in place, and the messenger's
    sequence counters. */
module Inboxes {
  import opened Results
  import opened Bytes
  import opened Frames
  import opened AppMessages
  import opened Slices

  /** The messages of one channel, in order. */
  function OnChannel(ms: seq<Message>, channel: u32): seq<Message> {
    if ms == [] then [] else IfOn(ms[0], channel) + OnChannel(ms[1..], channel)
  }

  function IfOn(m: Message, channel: u32): seq<Message> {
    if m.channelId == channel then [m] else []
  }

  lemma {:induction false} OnChannelSum(a: seq<Message>, b: seq<Message>, channel: u32)
    ensures OnChannel(a + b, channel) == OnChannel(a, channel) + OnChannel(b, channel)
  {
    if a == [] {
      assert a + b == b;
    } else {
      hide IfOn;
      assert (a + b)[1..] == a[1..] + b && (a + b)[0] == a[0];
      OnChannelSum(a[1..], b, channel);
    }
  }

  lemma OnChannelOfOne(m: Message, channel: u32)
    ensures OnChannel([m], channel) == IfOn(m, channel)
  {
    assert [m][1..] == [];
  }

  lemma {:induction false} NoneOnChannel(ms: seq<Message>, channel: u32)
    ensures OnChannel(ms, channel) == [] <==> forall m | m in ms :: m.channelId != channel
  {
    if ms != [] {
      assert ms == [ms[0]] + ms[1..];
      NoneOnChannel(ms[1..], channel);
    }
  }

  /** Taking out the first message of a channel removes the head of that channel's queue and
      leaves every other channel's queue as it was. */
  lemma TakesHead(queue: seq<Message>, idx: nat, channel: u32)
    requires idx < |queue| && forall m | m in queue[..idx] :: m.channelId != queue[idx].channelId
    ensures OnChannel(queue, channel)
         == IfOn(queue[idx], channel) + OnChannel(queue[..idx] + queue[idx + 1..], channel)
  {
    hide OnChannel;
    var m, before, after := queue[idx], queue[..idx], queue[idx + 1..];
    assert queue == before + ([m] + after);
    OnChannelSum(before, [m] + after, channel);
    OnChannelSum([m], after, channel);
    OnChannelSum(before, after, channel);
    OnChannelOfOne(m, channel);
    if channel == m.channelId {
      NoneOnChannel(before, channel);
    }
  }

  /** Equal on every channel, in order, is equal as collections. */
  lemma {:induction false} ChannelsDetermineContents(a: seq<Message>, b: seq<Message>)
    requires forall channel :: OnChannel(a, channel) == OnChannel(b, channel)
    ensures multiset(a) == multiset(b)
  {
    forall m: Message
      ensures multiset(a)[m] == multiset(b)[m]
    {
      CountOnChannel(a, m);
      CountOnChannel(b, m);
    }
  }

  lemma {:induction false} CountOnChannel(ms: seq<Message>, m: Message)
    ensures multiset(OnChannel(ms, m.channelId))[m] == multiset(ms)[m]
  {
    if ms != [] {
      assert ms == [ms[0]] + ms[1..];
      CountOnChannel(ms[1..], m);
    }
  }

  /** One first-in-first-out queue per channel: what came out of a channel, followed by what
      is queued for it, is what was pushed to it, in order. */
  ghost predicate Refines(pushed: seq<Message>, popped: seq<Message>, queue: seq<Message>) {
    forall channel: u32 ::
      OnChannel(pushed, channel) == OnChannel(popped, channel) + OnChannel(queue, channel)
  }

  lemma RefinesPush(pushed: seq<Message>, popped: seq<Message>, queue: seq<Message>, m: Message)
    requires Refines(pushed, popped, queue)
    ensures Refines(pushed + [m], popped, queue + [m])
  {
    hide OnChannel;
    forall channel: u32
      ensures OnChannel(pushed + [m], channel) == OnChannel(popped, channel) + OnChannel(queue + [m], channel)
    {
      OnChannelSum(pushed, [m], channel);
      OnChannelSum(queue, [m], channel);
    }
  }

  /** Taking the first message of its channel out of the middle of the queue. */
  lemma RefinesTake(pushed: seq<Message>, popped: seq<Message>, queue: seq<Message>, idx: nat)
    requires Refines(pushed, popped, queue)
    requires idx < |queue| && forall m | m in queue[..idx] :: m.channelId != queue[idx].channelId
    ensures Refines(pushed, popped + [queue[idx]], queue[..idx] + queue[idx + 1..])
  {
    hide OnChannel, IfOn;
    var m, rest := queue[idx], queue[..idx] + queue[idx + 1..];
    forall channel: u32
      ensures OnChannel(pushed, channel) == OnChannel(popped + [m], channel) + OnChannel(rest, channel)
    {
      TakesHead(queue, idx, channel);
      OnChannelSum(popped, [m], channel);
      OnChannelOfOne(m, channel);
    }
  }

  /** `append(s[:at], s[at+1:]...)` within one array: the elements after `at` move down by one,
      and the last place keeps what it held. */
  method CutOut(data: array<Message>, at: nat, end: nat)
    requires at < end <= data.Length
    modifies data
    ensures forall i | 0 <= i < data.Length ::
              data[i] == old(data[if at <= i < end - 1 then i + 1 else i])
  {
    for k := at to end - 1
      invariant forall i | 0 <= i < data.Length ::
                  data[i] == old(data[if at <= i < k then i + 1 else i])
    {
      data[k] := data[k + 1];
    }
  }

  /** The queue is a slice: `count` messages of an array, from `start` on. */
  class Inbox {
    var data: array<Message>
    var start: nat
    var count: nat
    ghost var pushed: seq<Message>  // all messages ever pushed, in order
    ghost var popped: seq<Message>  // all messages ever popped, in order

    ghost predicate Valid()
      reads this, data
    {
      start + count <= data.Length && Refines(pushed, popped, data[start..start + count])
    }

    ghost function Queue(): seq<Message>
      reads this, data
      requires Valid()
    {
      data[start..start + count]
    }

    constructor ()
      ensures Valid() && fresh(data) && Queue() == [] && pushed == [] && popped == []
    {
      data := new Message[0];
      start, count, pushed, popped := 0, 0, [], [];
    }

    /** append: in place when there is room, else into a new array. */
    method Push(m: Message)
      requires Valid()
      modifies this, data
      ensures Valid() && (data == old(data) || fresh(data))
      ensures Queue() == old(Queue()) + [m] && pushed == old(pushed) + [m] && popped == old(popped)
    {
      hide OnChannel, Refines;
      RefinesPush(pushed, popped, Queue(), m);
      ghost var queue := Queue();
      if start + count < data.Length {
        data[start + count] := m;
      } else {
        data := Grow(data, start, count, m);
        start := 0;
      }
      count := count + 1;
      pushed := pushed + [m];
      assert data[start..start + count] == queue + [m];
    }

    /** The slice moves one place on in its array. */
    method Pop() returns (r: Option<Message>)
      requires Valid()
      modifies this
      ensures Valid() && data == old(data) && pushed == old(pushed)
      ensures if old(Queue()) == [] then r == None && Queue() == [] && popped == old(popped)
              else r == Some(old(Queue())[0]) && Queue() == old(Queue())[1..]
                   && popped == old(popped) + [old(Queue())[0]]
    {
      if count == 0 {
        return None;
      }
      hide OnChannel, Refines;
      ghost var queue := Queue();
      RefinesTake(pushed, popped, queue, 0);
      r := Some(data[start]);
      popped := popped + [data[start]];
      start, count := start + 1, count - 1;
      assert data[start..start + count] == queue[..0] + queue[1..];
    }

    /** Cuts message `idx`, the first of its channel, out of the array in place. */
    method TakeAt(idx: nat) returns (m: Message)
      requires Valid() && idx < count
      requires forall m | m in Queue()[..idx] :: m.channelId != Queue()[idx].channelId
      modifies this`count, this`popped, data
      ensures Valid()
      ensures m == old(Queue())[idx] && Queue() == old(Queue())[..idx] + old(Queue())[idx + 1..]
      ensures popped == old(popped) + [m]
    {
      hide Refines, OnChannel;
      RefinesTake(pushed, popped, Queue(), idx);
      m := data[start + idx];
      CutOut(data, start + idx, start + count);
      CutsQueue(old(data[..]), data[..], start, count, idx);
      count := count - 1;
      popped := popped + [m];
    }

    /** The oldest message of the channel comes out of the middle of the queue. */
    method PopChannel(channel: u32) returns (r: Option<Message>)
      requires Valid()
      modifies this, data
      ensures Valid() && data == old(data) && start == old(start) && pushed == old(pushed)
      ensures r.None? <==> OnChannel(old(Queue()), channel) == []
      ensures r.None? ==> Queue() == old(Queue()) && popped == old(popped)
      ensures r.Some? ==>
                && OnChannel(old(Queue()), channel) == [r.value] + OnChannel(Queue(), channel)
                && popped == old(popped) + [r.value]
                && (forall other: u32 | other != channel :: OnChannel(Queue(), other) == OnChannel(old(Queue()), other))
                && exists idx | 0 <= idx < |old(Queue())| ::
                     r.value == old(Queue())[idx] && Queue() == old(Queue())[..idx] + old(Queue())[idx + 1..]
    {
      hide Refines, OnChannel;
      ghost var queue := Queue();
      for idx := 0 to count
        invariant unchanged(this) && unchanged(data)
        invariant forall m | m in queue[..idx] :: m.channelId != channel
      {
        if data[start + idx].channelId == channel {
          var m := TakeAt(idx);
          forall other: u32
            ensures OnChannel(queue, other) == IfOn(m, other) + OnChannel(Queue(), other)
          {
            TakesHead(queue, idx, other);
          }
          return Some(m);
        }
      }
      NoneOnChannel(queue, channel);
      return None;
    }

    /** Nothing is lost or invented: pushed messages are those popped and those still queued. */
    lemma Conserves()
      requires Valid()
      ensures multiset(pushed) == multiset(popped) + multiset(Queue())
    {
      forall channel: u32
        ensures OnChannel(pushed, channel) == OnChannel(popped + Queue(), channel)
      {
        OnChannelSum(popped, Queue(), channel);
      }
      ChannelsDetermineContents(pushed, popped + Queue());
    }
  }

  /** What cutting one message out of the array does to the slice. */
  lemma CutsQueue(before: seq<Message>, after: seq<Message>, start: nat, count: nat, idx: nat)
    requires idx < count && start + count <= |before| == |after|
    requires forall i | start <= i < start + count - 1 :: after[i] == before[if i < start + idx then i else i + 1]
    ensures var queue := before[start..start + count];
            after[start..start + count - 1] == queue[..idx] + queue[idx + 1..]
  {}

  // ---- Messenger ----

  /** The frame built for a message under a sequence number. */
  function Built(channel: u32, seqNo: u32, msgType: u16, payload: Bytes): Frame {
    MessageToFrame(Message(channel, seqNo, msgType, payload))
  }

  function CountOf(channels: seq<u32>, channel: u32): nat {
    if channels == [] then 0
    else CountOf(channels[..|channels| - 1], channel)
         + if channels[|channels| - 1] == channel then 1 else 0
  }

  lemma CountOfNext(channels: seq<u32>, channel: u32)
    ensures CountOf(channels + [channel], channel) == CountOf(channels, channel) + 1
    ensures forall other: u32 | other != channel :: CountOf(channels + [channel], other) == CountOf(channels, other)
  {
    assert (channels + [channel])[..|channels|] == channels;
  }

  class Messenger {
    var nextSeq: map<u32, u32>
    const inbox: Inbox
    ghost var used: seq<u32>  // the channel of every frame built, in order

    /** The next number of a channel is the count of its frames, modulo 2^32. */
    ghost predicate Valid()
      reads this
    {
      forall channel: u32 ::
        (if channel in nextSeq then nextSeq[channel] else 0) == CountOf(used, channel) % TWO_32
    }

    constructor (inbox: Inbox)
      ensures Valid() && used == [] && this.inbox == inbox
    {
      nextSeq := map[];
      this.inbox := inbox;
      used := [];
    }

    method AllocSeq(channel: u32) returns (seqNo: u32)
      requires Valid()
      modifies this
      ensures Valid() && used == old(used) + [channel]
      ensures seqNo == CountOf(old(used), channel) % TWO_32
    {
      hide CountOf;
      seqNo := if channel in nextSeq then nextSeq[channel] else 0;
      nextSeq := nextSeq[channel := (seqNo + 1) % TWO_32];
      used := used + [channel];
      CountOfNext(old(used), channel);
    }

    /** The k-th frame built on a channel carries k modulo 2^32, whatever was built on others. */
    method BuildFrame(channel: u32, msgType: u16, payload: Bytes) returns (seqNo: u32, f: Frame)
      requires Valid()
      modifies this
      ensures Valid() && used == old(used) + [channel]
      ensures seqNo == CountOf(old(used), channel) % TWO_32
      ensures f == Built(channel, seqNo, msgType, payload)
    {
      seqNo := AllocSeq(channel);
      f := MessageToFrame(Message(channel, seqNo, msgType, payload));
    }
  }

  /** Consecutive frames of one channel carry consecutive numbers, modulo 2^32, whatever frames
      of other channels are built between them. */
  lemma {:induction false} ConsecutiveNumbers(used: seq<u32>, channel: u32, between: seq<u32>)
    requires channel !in between
    ensures CountOf(used + [channel] + between, channel) % TWO_32
         == (CountOf(used, channel) % TWO_32 + 1) % TWO_32
  {
    if between == [] {
      assert used + [channel] + between == used + [channel];
      assert (used + [channel])[..|used|] == used;
    } else {
      var k := |between| - 1;
      var all := used + [channel] + between;
      assert all[..|all| - 1] == used + [channel] + between[..k];
      assert between[k] in between;
      ConsecutiveNumbers(used, channel, between[..k]);
    }
  }
}
