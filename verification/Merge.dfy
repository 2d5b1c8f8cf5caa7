/**
 The order of messages taken by `select!`: numbering each dispatched message
 and always taking the smallest number in front restores the dispatch order
 that splitting the messages over per-topic queues destroyed.
 */
module Merge {
  import opened Common

  type Path = string

  datatype Message = Message(sender: string, destination: Path, payload: string)

  /** A message with its number within the block. */
  datatype Item = Item(sn: nat, message: Message)

  ghost predicate Distinct<T>(s: seq<T>)
  {
    forall i, j :: 0 <= i < j < |s| ==> s[i] != s[j]
  }

  function OnTopic(items: seq<Item>, topic: Path): seq<Item>
  {
    if items == [] then []
    else if items[0].message.destination == topic then [items[0]] + OnTopic(items[1..], topic)
    else OnTopic(items[1..], topic)
  }

  ghost predicate Ordered(items: seq<Item>)
  {
    forall i, j :: 0 <= i < j < |items| ==> items[i].sn < items[j].sn
  }

  ghost predicate ForTopics(items: seq<Item>, topics: seq<Path>)
  {
    forall i :: 0 <= i < |items| ==> items[i].message.destination in topics
  }

  /** Every queue holds exactly its topic's share of the items not yet taken, in order. */
  ghost predicate Split(queues: seq<seq<Item>>, topics: seq<Path>, items: seq<Item>)
  {
    && |queues| == |topics|
    && forall j :: 0 <= j < |topics| ==> queues[j] == OnTopic(items, topics[j])
  }

  /** The front of queue j has the smallest number of all fronts, and the first such queue is taken. */
  ghost predicate Smallest(queues: seq<seq<Item>>, j: nat)
  {
    && j < |queues| && queues[j] != []
    && (forall i :: 0 <= i < |queues| && queues[i] != [] ==> queues[j][0].sn <= queues[i][0].sn)
    && (forall i :: 0 <= i < j && queues[i] != [] ==> queues[j][0].sn < queues[i][0].sn)
  }

  // ---- The two operations on the split ----

  lemma {:induction false} OnTopicAppend(items: seq<Item>, x: Item, topic: Path)
    ensures OnTopic(items + [x], topic)
         == if x.message.destination == topic then OnTopic(items, topic) + [x] else OnTopic(items, topic)
  {
    if items == [] {
      assert [] + [x] == [x] && [x][1..] == [];
    } else {
      assert (items + [x])[1..] == items[1..] + [x];
      OnTopicAppend(items[1..], x, topic);
    }
  }

  lemma {:induction false} OnTopicMembers(items: seq<Item>, topic: Path)
    ensures forall x :: x in OnTopic(items, topic) <==> x in items && x.message.destination == topic
  {
    if items != [] {
      OnTopicMembers(items[1..], topic);
      assert items == [items[0]] + items[1..];
    }
  }

  /** The smallest front is the oldest message of all. */
  lemma OldestIsInFront(queues: seq<seq<Item>>, topics: seq<Path>, items: seq<Item>, j: nat)
    requires Split(queues, topics, items) && ForTopics(items, topics) && Ordered(items) && Smallest(queues, j)
    ensures items != [] && queues[j][0] == items[0]
  {
    OnTopicMembers(items, topics[j]);
    assert queues[j][0] in queues[j];
    var p :| 0 <= p < |items| && items[p] == queues[j][0];
    var i :| 0 <= i < |topics| && topics[i] == items[0].message.destination;
    assert queues[i][0] == items[0];
  }

  /** Taking the oldest message leaves the rest split as before. */
  lemma TakeKeepsSplit(queues: seq<seq<Item>>, topics: seq<Path>, items: seq<Item>, j: nat)
    requires Split(queues, topics, items) && Distinct(topics)
    requires items != [] && j < |queues| && queues[j] != [] && queues[j][0] == items[0]
    ensures Split(queues[j := queues[j][1..]], topics, items[1..])
  {
    OnTopicMembers(items, topics[j]);
    assert queues[j][0] in queues[j];
    assert items[0].message.destination == topics[j];
  }

  /** While anything is left, some queue has a front. */
  lemma SomethingInFront(queues: seq<seq<Item>>, topics: seq<Path>, items: seq<Item>)
    requires Split(queues, topics, items) && ForTopics(items, topics) && items != []
    ensures exists j :: 0 <= j < |queues| && queues[j] != []
  {
    var i :| 0 <= i < |topics| && topics[i] == items[0].message.destination;
    assert queues[i][0] == items[0];
  }

  // ---- Blocks as a state machine ----

  datatype Event = Dispatch(message: Message) | Select

  /** The receivers of one `select!` as values: the next number and one queue per topic. */
  datatype Bus = Bus(index: nat, queues: seq<seq<Item>>)

  function Dispatched(b: Bus, topics: seq<Path>, m: Message): Bus
    requires |b.queues| == |topics|
  {
    Bus(b.index + 1,
        seq(|topics|, j requires 0 <= j < |topics| =>
          if topics[j] == m.destination then b.queues[j] + [Item(b.index, m)] else b.queues[j]))
  }

  /** The scan of the macro over the first n receivers: the first smallest front. */
  function Scan(queues: seq<seq<Item>>, n: nat): (best: Option<nat>)
    requires n <= |queues|
    ensures best.Some? ==> best.value < n && queues[best.value] != []
  {
    if n == 0 then None
    else
      var best := Scan(queues, n - 1);
      if queues[n - 1] == [] then best
      else if best.Some? && queues[best.value][0].sn <= queues[n - 1][0].sn then best
      else Some(n - 1)
  }

  lemma {:induction false} ScanIsSmallest(queues: seq<seq<Item>>, n: nat)
    requires n <= |queues|
    ensures Scan(queues, n).None? ==> forall i :: 0 <= i < n ==> queues[i] == []
    ensures Scan(queues, n).Some? ==> Scan(queues, n).value < n && Smallest(queues[..n], Scan(queues, n).value)
  {
    if n > 0 {
      ScanIsSmallest(queues, n - 1);
      assert forall i :: 0 <= i < n - 1 ==> queues[..n][i] == queues[..n - 1][i];
    }
  }

  /** One round of `select!` on receivers that all have live senders. */
  function TakeFront(queues: seq<seq<Item>>): (seq<seq<Item>>, Option<Item>)
  {
    match Scan(queues, |queues|)
    case None => (queues, None)
    case Some(j) => (queues[j := queues[j][1..]], Some(queues[j][0]))
  }

  function Selected(b: Bus): (Bus, Option<Item>)
  {
    var (queues, item) := TakeFront(b.queues);
    (b.(queues := queues), item)
  }

  /** State after the events of a block, with the items taken so far. */
  function BlockRun(b: Bus, topics: seq<Path>, events: seq<Event>): (r: (Bus, seq<Item>))
    requires |b.queues| == |topics|
    ensures |r.0.queues| == |topics|
  {
    if events == [] then (b, [])
    else
      var (b1, taken) := BlockRun(b, topics, events[..|events| - 1]);
      match events[|events| - 1]
      case Dispatch(m) => (Dispatched(b1, topics, m), taken)
      case Select =>
        var (b2, item) := Selected(b1);
        (b2, if item.Some? then taken + [item.value] else taken)
  }

  /** The messages of the block for these topics, numbered by position among all dispatched messages. */
  function Relevant(messages: seq<Message>, topics: seq<Path>): seq<Item>
  {
    if messages == [] then []
    else
      var init, last := Relevant(messages[..|messages| - 1], topics), messages[|messages| - 1];
      if last.destination in topics then init + [Item(|messages| - 1, last)] else init
  }

  function MessagesOf(events: seq<Event>): seq<Message>
  {
    if events == [] then []
    else
      var init, last := MessagesOf(events[..|events| - 1]), events[|events| - 1];
      if last.Dispatch? then init + [last.message] else init
  }

  lemma {:induction false} RelevantOrdered(messages: seq<Message>, topics: seq<Path>)
    ensures Ordered(Relevant(messages, topics)) && ForTopics(Relevant(messages, topics), topics)
    ensures forall i :: 0 <= i < |Relevant(messages, topics)| ==> Relevant(messages, topics)[i].sn < |messages|
  {
    if messages != [] {
      RelevantOrdered(messages[..|messages| - 1], topics);
    }
  }

  /** Numbers start at zero, queues hold the untaken rest, taken items are the oldest ones. */
  ghost predicate InStep(b: Bus, topics: seq<Path>, messages: seq<Message>, taken: seq<Item>)
  {
    var all := Relevant(messages, topics);
    && b.index == |messages|
    && |taken| <= |all| && taken == all[..|taken|]
    && Split(b.queues, topics, all[|taken|..])
  }

  lemma DispatchInStep(b: Bus, topics: seq<Path>, messages: seq<Message>, taken: seq<Item>, m: Message)
    requires InStep(b, topics, messages, taken)
    ensures InStep(Dispatched(b, topics, m), topics, messages + [m], taken)
  {
    var all, x := Relevant(messages, topics), Item(|messages|, m);
    assert (messages + [m])[..|messages + [m]| - 1] == messages;
    var more := Relevant(messages + [m], topics);
    var rest := all[|taken|..];
    if m.destination in topics {
      assert more == all + [x] && more[|taken|..] == rest + [x];
      forall j | 0 <= j < |topics|
        ensures Dispatched(b, topics, m).queues[j] == OnTopic(more[|taken|..], topics[j])
      {
        OnTopicAppend(rest, x, topics[j]);
      }
    }
  }

  lemma SelectInStep(b: Bus, topics: seq<Path>, messages: seq<Message>, taken: seq<Item>)
    requires InStep(b, topics, messages, taken) && Distinct(topics)
    ensures var (b', item) := Selected(b);
            && InStep(b', topics, messages, if item.Some? then taken + [item.value] else taken)
            && (item.None? ==> taken == Relevant(messages, topics))
  {
    var all := Relevant(messages, topics);
    var rest := all[|taken|..];
    RelevantOrdered(messages, topics);
    ScanIsSmallest(b.queues, |b.queues|);
    assert b.queues[..|b.queues|] == b.queues;
    match Scan(b.queues, |b.queues|) {
      case None =>
        if rest != [] {
          SomethingInFront(b.queues, topics, rest);
        }
      case Some(j) =>
        OldestIsInFront(b.queues, topics, rest, j);
        TakeKeepsSplit(b.queues, topics, rest, j);
        assert rest[1..] == all[|taken| + 1..];
        assert all[..|taken| + 1] == taken + [rest[0]];
    }
  }

  /** However dispatches and selects interleave, what was taken is a prefix of the dispatch order. */
  lemma {:induction false} TakenInDispatchOrder(topics: seq<Path>, events: seq<Event>)
    requires Distinct(topics)
    ensures var (b, taken) := BlockRun(Fresh(topics), topics, events);
            InStep(b, topics, MessagesOf(events), taken)
  {
    if events != [] {
      var init, last := events[..|events| - 1], events[|events| - 1];
      TakenInDispatchOrder(topics, init);
      var (b, taken) := BlockRun(Fresh(topics), topics, init);
      match last {
        case Dispatch(m) => DispatchInStep(b, topics, MessagesOf(init), taken, m);
        case Select => SelectInStep(b, topics, MessagesOf(init), taken);
      }
    }
  }

  /** Index reset and all queues empty: how every block starts. */
  function Fresh(topics: seq<Path>): Bus
  {
    Bus(0, seq(|topics|, _ => []))
  }

  /** Resetting the index on a queue that is not empty lets a later message overtake. */
  lemma ResetNeedsEmptyQueues(m: Message, m': Message)
    requires m.destination != m'.destination
    ensures var topics := [m.destination, m'.destination];
            var (left, taken) := BlockRun(Fresh(topics), topics, [Dispatch(m'), Dispatch(m), Select]);
            && taken == [Item(0, m')] && left.queues[0] == [Item(1, m)]
            && Selected(Dispatched(left.(index := 0), topics, m')).1 == Some(Item(0, m'))
  {
    var topics := [m.destination, m'.destination];
    var events := [Dispatch(m'), Dispatch(m), Select];
    var two: seq<Event> := [Dispatch(m'), Dispatch(m)];
    var one: seq<Event> := [Dispatch(m')];
    assert events[..2] == two && two[..1] == one && one[..0] == [];
    var b0 := Fresh(topics);
    var b1 := Dispatched(b0, topics, m');
    assert b1.queues[0] == [] && b1.queues[1] == [Item(0, m')];
    var b2 := Dispatched(b1, topics, m);
    assert b2.queues[0] == [Item(1, m)] && b2.queues[1] == [Item(0, m')];
    assert BlockRun(b0, topics, one) == (b1, []);
    assert BlockRun(b0, topics, two) == (b2, []);
    assert Scan(b2.queues, 1) == Some(0) && Scan(b2.queues, 2) == Some(1);
    var b3 := Selected(b2).0;
    assert b3.queues[0] == [Item(1, m)] && b3.queues[1] == [];
    assert BlockRun(b0, topics, events) == (b3, [] + [Item(0, m')]);
    var b4 := Dispatched(b3.(index := 0), topics, m');
    assert b4.queues[0] == [Item(1, m)] && b4.queues[1] == [Item(0, m')];
    assert Scan(b4.queues, 1) == Some(0) && Scan(b4.queues, 2) == Some(1);
  }
}
