/**
 The dispatcher over many blocks: resets and clears between and within them. The
 split queues with numbered messages behave like one queue for all topics, as long
 as the numbering restarts on empty queues only, which clearing at the end of every
 block sees to.
 */
module MergeRuns {
  import opened Common
  import opened Merge

  datatype Op = Reset | Clear | Do(event: Event)

  function Emptied(b: Bus): Bus { b.(queues := seq(|b.queues|, _ => [])) }

  function BusRun(topics: seq<Path>, ops: seq<Op>): (r: (Bus, seq<Item>))
    ensures |r.0.queues| == |topics|
  {
    if ops == [] then (Fresh(topics), [])
    else
      var (b, taken) := BusRun(topics, ops[..|ops| - 1]);
      match ops[|ops| - 1]
      case Reset => (b.(index := 0), taken)
      case Clear => (Emptied(b), taken)
      case Do(Dispatch(m)) => (Dispatched(b, topics, m), taken)
      case Do(Select) =>
        var (b', item) := Selected(b);
        (b', if item.Some? then taken + [item.value] else taken)
  }

  // ---- One queue ----

  /** The reference: one queue for all topics. */
  datatype Fifo = Fifo(index: nat, items: seq<Item>)

  function FifoRun(topics: seq<Path>, ops: seq<Op>): (Fifo, seq<Item>)
  {
    if ops == [] then (Fifo(0, []), [])
    else
      var (f, taken) := FifoRun(topics, ops[..|ops| - 1]);
      match ops[|ops| - 1]
      case Reset => (f.(index := 0), taken)
      case Clear => (f.(items := []), taken)
      case Do(Dispatch(m)) =>
        (Fifo(f.index + 1, if m.destination in topics then f.items + [Item(f.index, m)] else f.items), taken)
      case Do(Select) =>
        if f.items == [] then (f, taken) else (f.(items := f.items[1..]), taken + [f.items[0]])
  }

  /** The numbering restarts on an empty queue only. */
  ghost predicate ResetsWhenEmpty(topics: seq<Path>, ops: seq<Op>)
  {
    forall i :: 0 <= i < |ops| && ops[i].Reset? ==> FifoRun(topics, ops[..i]).0.items == []
  }

  ghost predicate Matches(b: Bus, f: Fifo, topics: seq<Path>)
  {
    && b.index == f.index && Split(b.queues, topics, f.items)
    && Ordered(f.items) && ForTopics(f.items, topics)
    && forall i :: 0 <= i < |f.items| ==> f.items[i].sn < f.index
  }

  lemma DispatchMatches(b: Bus, f: Fifo, topics: seq<Path>, m: Message)
    requires Matches(b, f, topics)
    ensures var items := if m.destination in topics then f.items + [Item(f.index, m)] else f.items;
            Matches(Dispatched(b, topics, m), Fifo(f.index + 1, items), topics)
  {
    forall j | 0 <= j < |topics|
      ensures OnTopic(f.items + [Item(f.index, m)], topics[j])
           == if m.destination == topics[j] then OnTopic(f.items, topics[j]) + [Item(f.index, m)] else OnTopic(f.items, topics[j])
    {
      OnTopicAppend(f.items, Item(f.index, m), topics[j]);
    }
  }

  lemma SelectMatches(b: Bus, f: Fifo, topics: seq<Path>)
    requires Matches(b, f, topics) && Distinct(topics)
    ensures var (b', item) := Selected(b);
            && item == (if f.items == [] then None else Some(f.items[0]))
            && Matches(b', f.(items := if f.items == [] then [] else f.items[1..]), topics)
  {
    ScanIsSmallest(b.queues, |b.queues|);
    assert b.queues[..|b.queues|] == b.queues;
    match Scan(b.queues, |b.queues|) {
      case None =>
        if f.items != [] {
          SomethingInFront(b.queues, topics, f.items);
        }
      case Some(j) =>
        OldestIsInFront(b.queues, topics, f.items, j);
        TakeKeepsSplit(b.queues, topics, f.items, j);
    }
  }

  /** The prefix of a sequence of operations resets when empty too. */
  lemma PrefixResets(topics: seq<Path>, ops: seq<Op>)
    requires ops != [] && ResetsWhenEmpty(topics, ops)
    ensures ResetsWhenEmpty(topics, ops[..|ops| - 1])
  {
    hide FifoRun;
    var init := ops[..|ops| - 1];
    assert forall i :: 0 <= i < |init| ==> init[..i] == ops[..i];
  }

  /** However resets, dispatches, selects and clears interleave, the messages come out as from one queue. */
  lemma {:induction false} MergeIsFifo(topics: seq<Path>, ops: seq<Op>)
    requires Distinct(topics) && ResetsWhenEmpty(topics, ops)
    ensures Matches(BusRun(topics, ops).0, FifoRun(topics, ops).0, topics)
    ensures BusRun(topics, ops).1 == FifoRun(topics, ops).1
  {
    hide Matches, ResetsWhenEmpty, Dispatched, Selected;
    if ops == [] {
      FreshMatches(topics);
    } else {
      var init, last := ops[..|ops| - 1], ops[|ops| - 1];
      PrefixResets(topics, ops);
      MergeIsFifo(topics, init);
      var b, f := BusRun(topics, init).0, FifoRun(topics, init).0;
      match last {
        case Reset => ResetMatches(b, f, topics, ops);
        case Clear => ClearMatches(b, f, topics);
        case Do(Dispatch(m)) => DispatchMatches(b, f, topics, m);
        case Do(Select) => SelectMatches(b, f, topics);
      }
    }
  }

  lemma FreshMatches(topics: seq<Path>)
    ensures Matches(Fresh(topics), Fifo(0, []), topics)
  {
  }

  lemma ClearMatches(b: Bus, f: Fifo, topics: seq<Path>)
    requires Matches(b, f, topics)
    ensures Matches(Emptied(b), f.(items := []), topics)
  {
  }

  lemma ResetMatches(b: Bus, f: Fifo, topics: seq<Path>, ops: seq<Op>)
    requires ops != [] && ops[|ops| - 1].Reset? && ResetsWhenEmpty(topics, ops)
    requires Matches(b, f, topics) && f == FifoRun(topics, ops[..|ops| - 1]).0
    ensures Matches(b.(index := 0), f.(index := 0), topics)
  {
    assert f.items == [];
  }

  // ---- Blocks ----

  /** A block resets, runs its events, and clears what is left. */
  function BlockOps(events: seq<Event>): seq<Op>
  {
    [Reset] + seq(|events|, i requires 0 <= i < |events| => Do(events[i])) + [Clear]
  }

  function AllOps(blocks: seq<seq<Event>>): seq<Op>
  {
    if blocks == [] then [] else AllOps(blocks[..|blocks| - 1]) + BlockOps(blocks[|blocks| - 1])
  }

  function AllTaken(topics: seq<Path>, blocks: seq<seq<Event>>): seq<Item>
  {
    if blocks == [] then []
    else AllTaken(topics, blocks[..|blocks| - 1]) + BlockRun(Fresh(topics), topics, blocks[|blocks| - 1]).1
  }

  /** The events of a block, after anything that left every queue empty. */
  lemma {:induction false} BlockAfter(topics: seq<Path>, before: seq<Op>, events: seq<Event>)
    requires Emptied(BusRun(topics, before).0) == BusRun(topics, before).0
    ensures var ops := before + [Reset] + seq(|events|, i requires 0 <= i < |events| => Do(events[i]));
            var (b, taken) := BlockRun(Fresh(topics), topics, events);
            BusRun(topics, ops) == (b, BusRun(topics, before).1 + taken)
    decreases |events|
  {
    hide Dispatched, Selected;
    var start := before + [Reset];
    var ops := start + seq(|events|, i requires 0 <= i < |events| => Do(events[i]));
    if events == [] {
      assert ops == start && start[..|start| - 1] == before;
      assert BusRun(topics, before).0.(index := 0) == Fresh(topics);
      assert BusRun(topics, before).1 + [] == BusRun(topics, before).1;
    } else {
      var init := events[..|events| - 1];
      BlockAfter(topics, before, init);
      assert ops[..|ops| - 1] == start + seq(|init|, i requires 0 <= i < |init| => Do(init[i]));
      var (b, taken) := BlockRun(Fresh(topics), topics, init);
      var earlier, item := BusRun(topics, before).1, Selected(b).1;
      assert item.Some? ==> (earlier + taken) + [item.value] == earlier + (taken + [item.value]);
    }
  }

  /** Over any number of blocks each one hands over what it would on its own, and leaves every queue empty. */
  lemma {:induction false} BlocksAreSeparate(topics: seq<Path>, blocks: seq<seq<Event>>)
    ensures var (b, taken) := BusRun(topics, AllOps(blocks));
            taken == AllTaken(topics, blocks) && Emptied(b) == b
  {
    if blocks != [] {
      var init, events := blocks[..|blocks| - 1], blocks[|blocks| - 1];
      BlocksAreSeparate(topics, init);
      BlockAfter(topics, AllOps(init), events);
      var body := AllOps(init) + [Reset] + seq(|events|, i requires 0 <= i < |events| => Do(events[i]));
      assert AllOps(blocks) == body + [Clear] && AllOps(blocks)[..|AllOps(blocks)| - 1] == body;
    }
  }

  /** Which is a prefix of its messages in dispatch order. */
  lemma EveryBlockInOrder(topics: seq<Path>, blocks: seq<seq<Event>>, k: nat)
    requires Distinct(topics) && k < |blocks|
    ensures var taken, all := BlockRun(Fresh(topics), topics, blocks[k]).1, Relevant(MessagesOf(blocks[k]), topics);
            |taken| <= |all| && taken == all[..|taken|]
  {
    TakenInDispatchOrder(topics, blocks[k]);
  }
}
