/**
 The message dispatcher of `ces-mq`, the `select!` macro over its receivers,
 and the per-block driver in `cestory`. Channels are shared objects: the
 dispatcher holds their sending ends, the consumer their receiving ends.
 */
module Dispatcher {
  import opened Common
  import opened Merge
  import opened Mpsc

  type Receiver = Channel<Item>

  class MessageDispatcher {
    var subscribers: map<Path, seq<Receiver>>
    var localIndex: nat

    /** No channel is subscribed twice. */
    ghost predicate Valid()
      reads this
    {
      && (forall p :: p in subscribers ==> Distinct(subscribers[p]))
      && (forall p, p', c :: p in subscribers && p' in subscribers && c in subscribers[p] && c in subscribers[p'] ==> p == p')
    }

    ghost function Channels(): set<Receiver>
      reads this
    {
      set p, c | p in subscribers && c in subscribers[p] :: c
    }

    constructor ()
      ensures subscribers == map[] && localIndex == 0 && Valid()
    {
      subscribers, localIndex := map[], 0;
    }

    method Subscribe(path: Path) returns (rx: Receiver)
      requires Valid()
      modifies this`subscribers
      ensures Valid() && fresh(rx)
      ensures rx.deque == [] && rx.senderCount == 1 && rx.receiverCount == 1
      ensures subscribers == old(subscribers)[path := Subscribed(old(subscribers), path) + [rx]]
    {
      rx := new Channel<Item>();
      var entry := Subscribed(subscribers, path);
      subscribers := subscribers[path := entry + [rx]];
    }

    /** Number the message and hand it to every subscriber of its topic that still has a receiver. */
    method Dispatch(message: Message) returns (count: nat)
      requires Valid()
      modifies this, set c | c in Subscribed(subscribers, message.destination)
      ensures Valid()
      ensures localIndex == old(localIndex) + 1
      ensures forall c: Receiver :: c in Subscribed(old(subscribers), message.destination) ==>
        && c.receiverCount == old(c.receiverCount) && c.senderCount == old(c.senderCount)
        && c.deque == if c.receiverCount == 0 then old(c.deque) else old(c.deque) + [Item(old(localIndex), message)]
      ensures subscribers.Keys == old(subscribers).Keys
      ensures forall p :: p in subscribers && p != message.destination ==> subscribers[p] == old(subscribers)[p]
      ensures Subscribed(subscribers, message.destination) == Alive(Subscribed(old(subscribers), message.destination))
      ensures forall c: Receiver :: c in Subscribed(subscribers, message.destination) <==>
        c in Subscribed(old(subscribers), message.destination) && c.receiverCount > 0
      ensures count == |Subscribed(subscribers, message.destination)|
    {
      count := 0;
      var sn := localIndex;
      localIndex := localIndex + 1;
      var path := message.destination;
      if path in subscribers {
        var kept := SendAll(subscribers[path], Item(sn, message));
        subscribers := subscribers[path := kept];
        count := |kept|;
      }
    }

    method ResetLocalIndex()
      modifies this`localIndex
      ensures localIndex == 0
    {
      localIndex := 0;
    }

    ghost function Lengths(): map<Receiver, nat>
      reads this, Channels()
    {
      map c | c in Channels() :: |c.deque|
    }

    /** Drop everything that no receiver has taken, and say how much that was. */
    method Clear() returns (count: nat)
      modifies Channels()`deque
      ensures forall c :: c in Channels() ==> c.deque == []
      ensures count == |Waiting(old(Lengths()), Channels())|
    {
      count := 0;
      ghost var lengths, done := Lengths(), {};
      var todo := subscribers.Keys;
      while todo != {}
        invariant todo <= subscribers.Keys && done <= Channels()
        invariant forall p, c: Receiver :: p in subscribers && p !in todo && c in subscribers[p] ==> c in done
        invariant forall c: Receiver :: c in Channels() ==> if c in done then c.deque == [] else |c.deque| == lengths[c]
        invariant count == |Waiting(lengths, done)|
        decreases |todo|
      {
        var p :| p in todo;
        assert forall c :: c in subscribers[p] ==> c in Channels();
        var n := ClearAll(subscribers[p], lengths, done);
        count := count + n;
        done := done + (set c | c in subscribers[p]);
        todo := todo - {p};
      }
      assert done == Channels();
    }
  }

  /** The messages waiting in the given channels: each by its channel and its place. */
  ghost function Waiting(lengths: map<Receiver, nat>, channels: set<Receiver>): set<(Receiver, nat)>
  {
    set c, j | c in channels && c in lengths && 0 <= j < lengths[c] :: (c, j)
  }

  ghost function Places(c: Receiver, n: nat): set<(Receiver, nat)>
  {
    set j | 0 <= j < n :: (c, j)
  }

  lemma {:induction false} PlacesCount(c: Receiver, n: nat)
    ensures |Places(c, n)| == n
  {
    if n > 0 {
      PlacesCount(c, n - 1);
      assert Places(c, n) == Places(c, n - 1) + {(c, n - 1)};
    }
  }

  lemma WaitingAdds(lengths: map<Receiver, nat>, channels: set<Receiver>, c: Receiver)
    requires c in lengths
    ensures |Waiting(lengths, channels + {c})| == |Waiting(lengths, channels)| + if c in channels then 0 else lengths[c]
  {
    if c in channels {
      assert channels + {c} == channels;
    } else {
      PlacesCount(c, lengths[c]);
      assert Waiting(lengths, channels + {c}) == Waiting(lengths, channels) + Places(c, lengths[c]);
    }
  }

  /** Empty the queues of one topic, of which some may have been emptied already. */
  method ClearAll(receivers: seq<Receiver>, ghost lengths: map<Receiver, nat>, ghost done: set<Receiver>) returns (count: nat)
    requires forall c: Receiver :: c in receivers ==>
      c in lengths && if c in done then c.deque == [] else |c.deque| == lengths[c]
    modifies (set c | c in receivers)`deque
    ensures forall c: Receiver :: c in receivers ==> c.deque == []
    ensures |Waiting(lengths, done + (set c | c in receivers))| == |Waiting(lengths, done)| + count
  {
    count := 0;
    ghost var all := done;
    for i := 0 to |receivers|
      invariant all == done + (set c | c in receivers[..i])
      invariant forall c: Receiver :: c in receivers ==> if c in all then c.deque == [] else |c.deque| == lengths[c]
      invariant |Waiting(lengths, all)| == |Waiting(lengths, done)| + count
    {
      var c := receivers[i];
      assert c in receivers;
      assert receivers[..i + 1] == receivers[..i] + [c];
      WaitingAdds(lengths, all, c);
      var n := c.Clear();
      count := count + n;
      all := all + {c};
    }
    assert receivers[..|receivers|] == receivers;
  }

  function Subscribed(subscribers: map<Path, seq<Receiver>>, path: Path): seq<Receiver>
  {
    if path in subscribers then subscribers[path] else []
  }

  /** Those whose receivers are not gone, in order. */
  ghost function Alive(receivers: seq<Receiver>): seq<Receiver>
    reads (set c | c in receivers)`receiverCount
  {
    if receivers == [] then []
    else
      var init, last := receivers[..|receivers| - 1], receivers[|receivers| - 1];
      if last.receiverCount > 0 then Alive(init) + [last] else Alive(init)
  }

  lemma {:induction false} AliveMembers(receivers: seq<Receiver>)
    ensures forall c: Receiver :: c in Alive(receivers) <==> c in receivers && c.receiverCount > 0
    ensures Distinct(receivers) ==> Distinct(Alive(receivers))
  {
    if receivers != [] {
      var init, last := receivers[..|receivers| - 1], receivers[|receivers| - 1];
      AliveMembers(init);
      assert receivers == init + [last];
      assert Distinct(receivers) ==> last !in init;
    }
  }

  lemma NoneAlive()
    ensures Alive([]) == []
  {
  }

  lemma AliveStep(receivers: seq<Receiver>, i: nat)
    requires i < |receivers|
    ensures Alive(receivers[..i + 1]) ==
            if receivers[i].receiverCount > 0 then Alive(receivers[..i]) + [receivers[i]] else Alive(receivers[..i])
  {
    assert receivers[..i + 1][..i] == receivers[..i];
  }

  /** Send to each; keep those whose receivers are not gone. */
  method SendAll(receivers: seq<Receiver>, item: Item) returns (kept: seq<Receiver>)
    requires Distinct(receivers)
    modifies (set c | c in receivers)`deque
    ensures Distinct(kept) && kept == Alive(receivers)
    ensures forall c: Receiver :: c in kept <==> c in receivers && c.receiverCount > 0
    ensures forall c: Receiver :: c in receivers ==>
      c.deque == if c.receiverCount == 0 then old(c.deque) else old(c.deque) + [item]
  {
    hide Alive;
    NoneAlive();
    kept := [];
    for i := 0 to |receivers|
      invariant kept == Alive(receivers[..i])
      invariant forall j :: i <= j < |receivers| ==> receivers[j].deque == old(receivers[j].deque)
      invariant forall j :: 0 <= j < i ==>
        receivers[j].deque == old(receivers[j].deque) + if receivers[j].receiverCount == 0 then [] else [item]
    {
      var c := receivers[i];
      assert c in receivers;
      var ok := c.Send(item);
      AliveStep(receivers, i);
      if ok {
        kept := kept + [c];
      }
    }
    assert receivers[..|receivers|] == receivers;
    AliveMembers(receivers);
  }

  /** A subscriber that drops its last receiver is unsubscribed by the next message of its topic; one that keeps a clone gets it. */
  method DropReceiverThenDispatch(d: MessageDispatcher, rx: Receiver, cloned: bool, message: Message)
    requires d.Valid() && rx in Subscribed(d.subscribers, message.destination) && rx.receiverCount > 0
    modifies d, d.Channels()
    ensures d.Valid()
    ensures rx in Subscribed(d.subscribers, message.destination) <==> cloned || old(rx.receiverCount) > 1
    ensures rx.deque == if cloned || old(rx.receiverCount) > 1 then old(rx.deque) + [Item(old(d.localIndex), message)]
                        else old(rx.deque)
  {
    assert rx in d.Channels();
    if cloned {
      rx.CloneReceiver();
    }
    rx.DropReceiver();
    var count := d.Dispatch(message);
  }

  // ---- Selecting over receivers ----

  ghost function Queues(rs: seq<Receiver>): (queues: seq<seq<Item>>)
    reads rs
    ensures |queues| == |rs| && forall i :: 0 <= i < |rs| ==> queues[i] == rs[i].deque
  {
    if rs == [] then [] else Queues(rs[..|rs| - 1]) + [rs[|rs| - 1].deque]
  }

  ghost predicate Lost(rs: seq<Receiver>, i: nat)
    requires i < |rs|
    reads rs
  {
    rs[i].deque == [] && rs[i].senderCount == 0
  }

  /** Some receiver among the first n is empty and has no sender left. */
  ghost predicate AnyLost(rs: seq<Receiver>, n: nat)
    requires n <= |rs|
    reads rs
  {
    n > 0 && (Lost(rs, n - 1) || AnyLost(rs, n - 1))
  }

  /** The macro's first pass: where the smallest front is, unless some receiver lost its senders. */
  method FindFront(rs: seq<Receiver>) returns (min: Option<nat>, minInd: nat, ghost gone: bool)
    ensures gone == AnyLost(rs, |rs|)
    ensures gone ==> min.Some? && minInd < |rs| && Lost(rs, minInd)
    ensures !gone ==> Scan(Queues(rs), |rs|) == if min.None? then None else Some(minInd)
  {
    min, minInd, gone := None, 0, false;
    ghost var queues := Queues(rs);
    for ind := 0 to |rs|
      invariant gone == AnyLost(rs, ind)
      invariant gone ==> min == Some(0) && minInd < ind && Lost(rs, minInd)
      invariant !gone ==> Scan(queues, ind) == if min.None? then None else Some(minInd)
      invariant !gone && min.Some? ==> minInd < ind && queues[minInd][0].sn == min.value
    {
      var front := rs[ind].Peek();
      match front {
        case Value(item) =>
          if min.None? || item.sn < min.value {
            min, minInd := Some(item.sn), ind;
          }
        case SenderGone =>
          min, minInd, gone := Some(0), ind, true;
        case Empty =>
      }
    }
  }

  /** One round of the macro: a receiver that lost its senders wins, else the first smallest front. */
  method Select(rs: seq<Receiver>) returns (r: Received<Item>)
    requires Distinct(rs)
    modifies (set c | c in rs)`deque
    ensures r.SenderGone? <==> old(AnyLost(rs, |rs|))
    ensures r.SenderGone? ==> Queues(rs) == old(Queues(rs))
    ensures !r.SenderGone? ==> Queues(rs) == TakeFront(old(Queues(rs))).0
    ensures !r.SenderGone? ==> r == Taken(TakeFront(old(Queues(rs))).1)
  {
    ghost var queues := Queues(rs);
    var min, minInd, gone := FindFront(rs);
    if min.None? {
      return Empty;
    }
    assert rs[minInd] in rs;
    r := rs[minInd].TryNext();
    forall i | 0 <= i < |rs| && i != minInd
      ensures rs[i].deque == queues[i]
    {
      assert rs[i] != rs[minInd];
    }
    if gone {
      assert Queues(rs) == queues;
    } else {
      assert Queues(rs) == queues[minInd := queues[minInd][1..]];
    }
  }

  lemma {:induction false} AnyLostMeans(rs: seq<Receiver>, n: nat)
    requires n <= |rs|
    ensures AnyLost(rs, n) <==> exists i :: 0 <= i < n && Lost(rs, i)
  {
    if n > 0 {
      AnyLostMeans(rs, n - 1);
    }
  }

  /** With no sender lost before, dropping one is reported exactly if it was the last of a receiver with nothing waiting. */
  method DropSenderThenSelect(rs: seq<Receiver>, i: nat, cloned: bool) returns (r: Received<Item>)
    requires Distinct(rs) && i < |rs| && rs[i].senderCount > 0 && !AnyLost(rs, |rs|)
    modifies set c | c in rs
    ensures r.SenderGone? <==> !cloned && old(rs[i].senderCount) == 1 && old(rs[i].deque) == []
  {
    hide AnyLost, TakeFront, Queues;
    AnyLostMeans(rs, |rs|);
    assert rs[i] in rs && forall j :: 0 <= j < |rs| ==> !Lost(rs, j);
    if cloned {
      rs[i].CloneSender();
    }
    rs[i].DropSender();
    forall j | 0 <= j < |rs| && j != i
      ensures !Lost(rs, j)
    {
      assert rs[j] != rs[i] && old(!Lost(rs, j));
    }
    AnyLostMeans(rs, |rs|);
    assert Lost(rs, i) <==> !cloned && old(rs[i].senderCount) == 1 && old(rs[i].deque) == [];
    r := Select(rs);
  }

  function Taken(item: Option<Item>): Received<Item>
  {
    if item.Some? then Value(item.value) else Empty
  }

  // ---- The per-block driver ----

  /** One live receiver for each of several different topics. */
  ghost predicate Listening(d: MessageDispatcher, rs: seq<Receiver>, topics: seq<Path>)
    reads d, rs
  {
    && |rs| == |topics| && Distinct(topics)
    && (forall j :: 0 <= j < |rs| ==> rs[j] in Subscribed(d.subscribers, topics[j]))
    && (forall j :: 0 <= j < |rs| ==> rs[j].receiverCount > 0 && rs[j].senderCount > 0)
  }

  ghost predicate AllEmpty(d: MessageDispatcher)
    reads d, d.Channels()
  {
    forall c :: c in d.Channels() ==> c.deque == []
  }

  lemma ListeningDistinct(d: MessageDispatcher, rs: seq<Receiver>, topics: seq<Path>)
    requires d.Valid() && Listening(d, rs, topics)
    ensures Distinct(rs) && forall j :: 0 <= j < |rs| ==> rs[j] in d.Channels()
  {
    forall i, j | 0 <= i < j < |rs|
      ensures rs[i] != rs[j]
    {
      assert topics[i] != topics[j];
    }
  }

  lemma {:induction false} NoneLost(rs: seq<Receiver>, n: nat)
    requires n <= |rs| && forall j :: 0 <= j < |rs| ==> rs[j].senderCount > 0
    ensures !AnyLost(rs, n)
  {
    if n > 0 {
      NoneLost(rs, n - 1);
    }
  }

  /** Dispatching through the dispatcher does to the receivers what dispatching does to the queues as values. */
  method DispatchTo(d: MessageDispatcher, rs: seq<Receiver>, ghost topics: seq<Path>, message: Message)
    requires d.Valid() && Listening(d, rs, topics)
    modifies d, d.Channels()
    ensures d.Valid() && Listening(d, rs, topics)
    ensures d.Channels() <= old(d.Channels())
    ensures Bus(d.localIndex, Queues(rs)) == Dispatched(old(Bus(d.localIndex, Queues(rs))), topics, message)
  {
    ghost var before := Bus(d.localIndex, Queues(rs));
    var n := d.Dispatch(message);
    forall j | 0 <= j < |rs|
      ensures rs[j] in Subscribed(d.subscribers, topics[j])
      ensures rs[j].receiverCount > 0 && rs[j].senderCount > 0
      ensures rs[j].deque == Dispatched(before, topics, message).queues[j]
    {
      if topics[j] != message.destination {
        assert rs[j] !in old(Subscribed(d.subscribers, message.destination));
      }
    }
    assert Queues(rs) == Dispatched(before, topics, message).queues;
  }

  /** Take messages until none is left: all of them come out, oldest first. */
  method ProcessMessages(rs: seq<Receiver>, ghost topics: seq<Path>, ghost messages: seq<Message>, ghost before: seq<Item>)
    returns (taken: seq<Item>)
    requires Distinct(rs) && Distinct(topics) && forall j :: 0 <= j < |rs| ==> rs[j].senderCount > 0
    requires InStep(Bus(|messages|, Queues(rs)), topics, messages, before)
    modifies (set c | c in rs)`deque
    ensures InStep(Bus(|messages|, Queues(rs)), topics, messages, before + taken)
    ensures before + taken == Relevant(messages, topics)
  {
    taken := [];
    assert before + taken == before;
    while true
      invariant InStep(Bus(|messages|, Queues(rs)), topics, messages, before + taken)
      decreases |Relevant(messages, topics)| - |taken|
    {
      NoneLost(rs, |rs|);
      SelectInStep(Bus(|messages|, Queues(rs)), topics, messages, before + taken);
      var r := Select(rs);
      if !r.Value? {
        return;
      }
      assert before + (taken + [r.value]) == (before + taken) + [r.value];
      taken := taken + [r.value];
    }
  }

  /** Processing messages leaves the subscriptions as they are. */
  method TakeAll(d: MessageDispatcher, rs: seq<Receiver>, ghost topics: seq<Path>, ghost messages: seq<Message>,
                 ghost before: seq<Item>)
    returns (taken: seq<Item>)
    requires d.Valid() && Listening(d, rs, topics) && d.localIndex == |messages|
    requires InStep(Bus(d.localIndex, Queues(rs)), topics, messages, before)
    modifies d.Channels()
    ensures d.Valid() && Listening(d, rs, topics) && unchanged(d)
    ensures InStep(Bus(d.localIndex, Queues(rs)), topics, messages, before + taken)
    ensures before + taken == Relevant(messages, topics)
  {
    hide InStep, Relevant, Queues;
    ListeningDistinct(d, rs, topics);
    taken := ProcessMessages(rs, topics, messages, before);
  }

  /** Dropping what is left leaves the subscriptions as they are. */
  method DropUnhandled(d: MessageDispatcher, rs: seq<Receiver>, ghost topics: seq<Path>)
    requires d.Valid() && Listening(d, rs, topics)
    modifies d.Channels()
    ensures d.Valid() && Listening(d, rs, topics) && unchanged(d) && AllEmpty(d)
  {
    var count := d.Clear();
  }

  /** The index was just reset and nothing is queued: the block starts in step. */
  lemma StartsInStep(d: MessageDispatcher, rs: seq<Receiver>, topics: seq<Path>)
    requires d.Valid() && Listening(d, rs, topics) && AllEmpty(d) && d.localIndex == 0
    ensures InStep(Bus(d.localIndex, Queues(rs)), topics, [], [])
  {
    ListeningDistinct(d, rs, topics);
  }

  /** Dispatch one message and let the consumer take everything that is waiting. */
  method HandleMessage(d: MessageDispatcher, rs: seq<Receiver>, ghost topics: seq<Path>, ghost earlier: seq<Message>,
                       message: Message, ghost before: seq<Item>)
    returns (taken: seq<Item>)
    requires d.Valid() && Listening(d, rs, topics)
    requires InStep(Bus(d.localIndex, Queues(rs)), topics, earlier, before)
    modifies d, d.Channels()
    ensures d.Valid() && Listening(d, rs, topics) && d.Channels() <= old(d.Channels())
    ensures InStep(Bus(d.localIndex, Queues(rs)), topics, earlier + [message], before + taken)
    ensures before + taken == Relevant(earlier + [message], topics)
  {
    hide InStep, Relevant, Dispatched, MessageDispatcher.Valid, MessageDispatcher.Channels, Listening;
    DispatchInStep(Bus(d.localIndex, Queues(rs)), topics, earlier, before, message);
    DispatchTo(d, rs, topics, message);
    InStepIndex(Bus(d.localIndex, Queues(rs)), topics, earlier + [message], before);
    taken := TakeAll(d, rs, topics, earlier + [message], before);
  }

  lemma InStepIndex(b: Bus, topics: seq<Path>, messages: seq<Message>, taken: seq<Item>)
    requires InStep(b, topics, messages, taken)
    ensures b.index == |messages|
  {
  }

  method ResetIndex(d: MessageDispatcher, rs: seq<Receiver>, ghost topics: seq<Path>)
    requires d.Valid() && Listening(d, rs, topics) && AllEmpty(d)
    modifies d`localIndex
    ensures d.Valid() && Listening(d, rs, topics) && AllEmpty(d)
    ensures d.localIndex == 0 && d.Channels() == old(d.Channels())
  {
    d.ResetLocalIndex();
  }

  /** One block: reset, dispatch and process each message, drop what is left. */
  method HandleInboundMessages(d: MessageDispatcher, rs: seq<Receiver>, ghost topics: seq<Path>, messages: seq<Message>)
    returns (taken: seq<Item>)
    requires d.Valid() && Listening(d, rs, topics) && AllEmpty(d)
    modifies d, d.Channels()
    ensures d.Valid() && Listening(d, rs, topics) && AllEmpty(d)
    ensures d.Channels() <= old(d.Channels())
    ensures taken == Relevant(messages, topics)
  {
    hide InStep, MessageDispatcher.Channels, MessageDispatcher.Valid, Listening, Queues;
    ResetIndex(d, rs, topics);
    taken := [];
    StartsInStep(d, rs, topics);
    for i := 0 to |messages|
      invariant d.Valid() && Listening(d, rs, topics) && d.Channels() <= old(d.Channels())
      invariant InStep(Bus(d.localIndex, Queues(rs)), topics, messages[..i], taken)
      invariant taken == Relevant(messages[..i], topics)
    {
      assert messages[..i + 1] == messages[..i] + [messages[i]];
      var more := HandleMessage(d, rs, topics, messages[..i], messages[i], taken);
      taken := taken + more;
    }
    assert messages[..|messages|] == messages;
    DropUnhandled(d, rs, topics);
  }

  /** Any number of blocks: each hands over exactly its messages, in order. */
  method HandleBlocks(d: MessageDispatcher, rs: seq<Receiver>, ghost topics: seq<Path>, blocks: seq<seq<Message>>)
    returns (taken: seq<seq<Item>>)
    requires d.Valid() && Listening(d, rs, topics) && AllEmpty(d)
    modifies d, d.Channels()
    ensures d.Valid() && Listening(d, rs, topics) && AllEmpty(d)
    ensures |taken| == |blocks|
    ensures forall b :: 0 <= b < |blocks| ==> taken[b] == Relevant(blocks[b], topics)
  {
    taken := [];
    for b := 0 to |blocks|
      invariant d.Valid() && Listening(d, rs, topics) && AllEmpty(d) && d.Channels() <= old(d.Channels())
      invariant |taken| == b && forall k :: 0 <= k < b ==> taken[k] == Relevant(blocks[k], topics)
    {
      var items := HandleInboundMessages(d, rs, topics, blocks[b]);
      taken := taken + [items];
    }
  }
}
