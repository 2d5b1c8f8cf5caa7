/**
 The egress queue of `ces-mq`: per-sender numbered messages, dropped when the
 chain acknowledges them. In dummy mode a number is spent but no message kept.
 */
module SendQueue {

  type SenderId = string

  datatype SignedMessage = SignedMessage(payload: string, sequence: nat)

  /** Builds the message that carries the given number. */
  type Constructor = nat -> SignedMessage

  datatype Channel = Channel(sequence: nat, messages: seq<SignedMessage>, dummy: bool)

  type Queues = map<SenderId, Channel>

  const NEW_CHANNEL := Channel(0, [], false)

  function Entry(q: Queues, sender: SenderId): Channel
  {
    if sender in q then q[sender] else NEW_CHANNEL
  }

  function Enqueued(q: Queues, sender: SenderId, construct: Constructor): Queues
  {
    var c := Entry(q, sender);
    var messages := if c.dummy then c.messages else c.messages + [construct(c.sequence)];
    q[sender := c.(messages := messages, sequence := c.sequence + 1)]
  }

  function DummySet(q: Queues, sender: SenderId, dummy: bool): Queues
  {
    q[sender := Entry(q, sender).(dummy := dummy)]
  }

  /** The messages numbered from `from` on, in order. */
  function Retained(messages: seq<SignedMessage>, from: nat): seq<SignedMessage>
  {
    if messages == [] then []
    else
      var init, last := Retained(messages[..|messages| - 1], from), messages[|messages| - 1];
      if last.sequence >= from then init + [last] else init
  }

  function Purged(q: Queues, next: SenderId -> nat): Queues
  {
    map k | k in q :: q[k].(messages := Retained(q[k].messages, next(k)))
  }

  class MessageSendQueue {
    var inner: Queues

    constructor ()
      ensures inner == map[]
    {
      inner := map[];
    }

    method EnqueueMessage(sender: SenderId, construct: Constructor)
      modifies this
      ensures inner == Enqueued(old(inner), sender, construct)
    {
      var entry := if sender in inner then inner[sender] else NEW_CHANNEL;
      if !entry.dummy {
        entry := entry.(messages := entry.messages + [construct(entry.sequence)]);
      }
      entry := entry.(sequence := entry.sequence + 1);
      inner := inner[sender := entry];
    }

    method SetDummyMode(sender: SenderId, dummy: bool)
      modifies this
      ensures inner == DummySet(old(inner), sender, dummy)
    {
      var entry := if sender in inner then inner[sender] else NEW_CHANNEL;
      inner := inner[sender := entry.(dummy := dummy)];
    }

    method Purge(next: SenderId -> nat)
      modifies this
      ensures inner == Purged(old(inner), next)
    {
      ghost var before := inner;
      var todo := inner.Keys;
      while todo != {}
        invariant todo <= inner.Keys == before.Keys
        invariant forall k :: k in before ==>
          inner[k] == if k in todo then before[k] else Purged(before, next)[k]
        decreases |todo|
      {
        var k :| k in todo;
        var seqNo := next(k);
        var kept := Retain(inner[k].messages, seqNo);
        inner := inner[k := inner[k].(messages := kept)];
        todo := todo - {k};
      }
    }

    method Messages(sender: SenderId) returns (messages: seq<SignedMessage>)
      ensures messages == Entry(inner, sender).messages
    {
      messages := if sender in inner then inner[sender].messages else [];
    }
  }

  method Retain(messages: seq<SignedMessage>, from: nat) returns (kept: seq<SignedMessage>)
    ensures kept == Retained(messages, from)
  {
    kept := [];
    for i := 0 to |messages|
      invariant kept == Retained(messages[..i], from)
    {
      assert messages[..i + 1][..i] == messages[..i];
      if messages[i].sequence >= from {
        kept := kept + [messages[i]];
      }
    }
    assert messages[..|messages|] == messages;
  }

  // ---- Histories ----

  datatype Event =
    | Enqueue(sender: SenderId, construct: Constructor)
    | SetDummy(sender: SenderId, dummy: bool)
    | Purge(next: SenderId -> nat)

  function After(h: seq<Event>): Queues
  {
    if h == [] then map[]
    else
      var q := After(h[..|h| - 1]);
      match h[|h| - 1]
      case Enqueue(sender, construct) => Enqueued(q, sender, construct)
      case SetDummy(sender, dummy) => DummySet(q, sender, dummy)
      case Purge(next) => Purged(q, next)
  }

  /** How many messages the sender has enqueued, kept or not. */
  function Enqueues(h: seq<Event>, k: SenderId): nat
  {
    if h == [] then 0
    else Enqueues(h[..|h| - 1], k) + if IsEnqueue(h[|h| - 1], k) then 1 else 0
  }

  predicate IsEnqueue(e: Event, k: SenderId) { e.Enqueue? && e.sender == k }

  function InDummy(h: seq<Event>, k: SenderId): bool
  {
    if h == [] then false
    else
      var e := h[|h| - 1];
      if e.SetDummy? && e.sender == k then e.dummy else InDummy(h[..|h| - 1], k)
  }

  /** Everything the sender sent outside dummy mode, each with its number. */
  function Sent(h: seq<Event>, k: SenderId): seq<SignedMessage>
  {
    if h == [] then []
    else
      var init, e := h[..|h| - 1], h[|h| - 1];
      if IsEnqueue(e, k) && !InDummy(init, k) then Sent(init, k) + [e.construct(Enqueues(init, k))]
      else Sent(init, k)
  }

  function LastAck(h: seq<Event>, k: SenderId): nat
  {
    if h == [] then 0
    else if h[|h| - 1].Purge? then h[|h| - 1].next(k)
    else LastAck(h[..|h| - 1], k)
  }

  /** Constructors put the number they are given into the message. */
  ghost predicate Numbering(h: seq<Event>)
  {
    forall i, n :: 0 <= i < |h| && h[i].Enqueue? ==> h[i].construct(n).sequence == n
  }

  /** Acknowledgements never go down and never pass the sender's counter. */
  ghost predicate HonestAcks(h: seq<Event>, k: SenderId)
  {
    forall i :: 0 <= i < |h| && h[i].Purge? ==>
      LastAck(h[..i], k) <= h[i].next(k) <= Enqueues(h[..i], k)
  }

  lemma PrefixHonest(h: seq<Event>, k: SenderId)
    requires h != [] && Numbering(h) && HonestAcks(h, k)
    ensures Numbering(h[..|h| - 1]) && HonestAcks(h[..|h| - 1], k)
  {
    var init := h[..|h| - 1];
    forall i | 0 <= i < |init| && init[i].Purge?
      ensures LastAck(init[..i], k) <= init[i].next(k) <= Enqueues(init[..i], k)
    {
      assert init[..i] == h[..i];
    }
  }

  ghost predicate Increasing(messages: seq<SignedMessage>)
  {
    forall i, j :: 0 <= i < j < |messages| ==> messages[i].sequence < messages[j].sequence
  }

  lemma {:induction false} RetainTwice(messages: seq<SignedMessage>, a: nat, b: nat)
    requires a <= b
    ensures Retained(Retained(messages, a), b) == Retained(messages, b)
  {
    if messages != [] {
      var init, last := messages[..|messages| - 1], messages[|messages| - 1];
      RetainTwice(init, a, b);
      if last.sequence >= a {
        assert (Retained(init, a) + [last])[..|Retained(init, a)|] == Retained(init, a);
      }
    }
  }

  lemma RetainAppend(messages: seq<SignedMessage>, m: SignedMessage, from: nat)
    ensures Retained(messages + [m], from)
         == if m.sequence >= from then Retained(messages, from) + [m] else Retained(messages, from)
  {
    assert (messages + [m])[..|messages|] == messages;
  }

  /** Counter and mode follow the history. */
  lemma {:induction false} ChannelFollows(h: seq<Event>, k: SenderId)
    ensures Entry(After(h), k).sequence == Enqueues(h, k)
    ensures Entry(After(h), k).dummy == InDummy(h, k)
  {
    if h != [] {
      ChannelFollows(h[..|h| - 1], k);
    }
  }

  /** An honest acknowledgement stays within the counter. */
  lemma {:induction false} AckWithinCounter(h: seq<Event>, k: SenderId)
    requires Numbering(h) && HonestAcks(h, k)
    ensures LastAck(h, k) <= Enqueues(h, k)
  {
    if h != [] {
      PrefixHonest(h, k);
      AckWithinCounter(h[..|h| - 1], k);
    }
  }

  /** Each queue holds exactly the messages numbered from the last acknowledgement on, in order. */
  lemma {:induction false} QueueHoldsUnacknowledged(h: seq<Event>, k: SenderId)
    requires Numbering(h) && HonestAcks(h, k)
    ensures Entry(After(h), k).messages == Retained(Sent(h, k), LastAck(h, k))
  {
    if h != [] {
      var init, e := h[..|h| - 1], h[|h| - 1];
      PrefixHonest(h, k);
      QueueHoldsUnacknowledged(init, k);
      ChannelFollows(init, k);
      AckWithinCounter(init, k);
      match e {
        case Enqueue(_, _) =>
          if IsEnqueue(e, k) && !InDummy(init, k) {
            RetainAppend(Sent(init, k), e.construct(Enqueues(init, k)), LastAck(h, k));
          }
        case SetDummy(_, _) =>
        case Purge(next) =>
          RetainTwice(Sent(init, k), LastAck(init, k), next(k));
      }
    }
  }

  /** One number per enqueue, none reused: numbers of sent messages strictly increase below the counter. */
  lemma {:induction false} NumbersNeverReused(h: seq<Event>, k: SenderId)
    requires Numbering(h)
    ensures Increasing(Sent(h, k))
    ensures forall m :: m in Sent(h, k) ==> m.sequence < Enqueues(h, k)
  {
    if h != [] {
      var init := h[..|h| - 1];
      assert Numbering(init);
      NumbersNeverReused(init, k);
      assert forall j :: 0 <= j < |Sent(init, k)| ==> Sent(init, k)[j] in Sent(init, k);
    }
  }

  /** Outside dummy mode no number is skipped either: a sender never in dummy mode sends 0, 1, 2, ... */
  lemma {:induction false} NumbersWithoutGaps(h: seq<Event>, k: SenderId)
    requires Numbering(h) && forall i :: 0 <= i < |h| ==> !(h[i].SetDummy? && h[i].sender == k)
    ensures !InDummy(h, k) && |Sent(h, k)| == Enqueues(h, k)
    ensures forall j :: 0 <= j < |Sent(h, k)| ==> Sent(h, k)[j].sequence == j
  {
    if h != [] {
      var init := h[..|h| - 1];
      assert Numbering(init);
      NumbersWithoutGaps(init, k);
    }
  }

  /** No purge that came after message n was numbered asked for a later number. */
  ghost predicate Survives(h: seq<Event>, k: SenderId, n: nat)
  {
    forall i :: 0 <= i < |h| && h[i].Purge? && Enqueues(h[..i], k) > n ==> h[i].next(k) <= n
  }

  lemma {:induction false} EnqueuesGrow(h: seq<Event>, k: SenderId, i: nat)
    requires i <= |h|
    ensures Enqueues(h[..i], k) <= Enqueues(h, k)
  {
    if i == |h| {
      assert h[..i] == h;
    } else {
      var init := h[..|h| - 1];
      EnqueuesGrow(init, k, i);
      assert init[..i] == h[..i];
    }
  }

  lemma SurvivesExtended(h: seq<Event>, k: SenderId, n: nat)
    requires h != []
    ensures var init, e := h[..|h| - 1], h[|h| - 1];
            Survives(h, k, n) <==>
              (Survives(init, k, n) && (e.Purge? && Enqueues(init, k) > n ==> e.next(k) <= n))
  {
    var init := h[..|h| - 1];
    forall i | 0 <= i < |init|
      ensures Enqueues(init[..i], k) == Enqueues(h[..i], k) && init[i] == h[i]
    {
      assert init[..i] == h[..i];
    }
  }

  lemma {:induction false} InRetained(messages: seq<SignedMessage>, from: nat, m: SignedMessage)
    ensures m in Retained(messages, from) <==> m in messages && m.sequence >= from
  {
    if messages != [] {
      var init, last := messages[..|messages| - 1], messages[|messages| - 1];
      InRetained(init, from, m);
      assert messages == init + [last];
    }
  }

  /** The messages that no later purge covered, in order. */
  ghost function Surviving(messages: seq<SignedMessage>, h: seq<Event>, k: SenderId): seq<SignedMessage>
  {
    if messages == [] then []
    else
      var init, last := Surviving(messages[..|messages| - 1], h, k), messages[|messages| - 1];
      if Survives(h, k, last.sequence) then init + [last] else init
  }

  lemma {:induction false} InSurviving(messages: seq<SignedMessage>, h: seq<Event>, k: SenderId, m: SignedMessage)
    ensures m in Surviving(messages, h, k) <==> m in messages && Survives(h, k, m.sequence)
  {
    hide Survives;
    if messages != [] {
      var init, last := messages[..|messages| - 1], messages[|messages| - 1];
      InSurviving(init, h, k, m);
      assert messages == init + [last];
    }
  }

  /** Purging the survivors of a history leaves the survivors of the longer one. */
  lemma {:induction false} PurgeSurvivors(messages: seq<SignedMessage>, h: seq<Event>, h': seq<Event>, k: SenderId, from: nat)
    requires forall m :: m in messages ==> (Survives(h', k, m.sequence) <==> Survives(h, k, m.sequence) && m.sequence >= from)
    ensures Retained(Surviving(messages, h, k), from) == Surviving(messages, h', k)
  {
    hide Survives;
    if messages != [] {
      var init, last := messages[..|messages| - 1], messages[|messages| - 1];
      assert last in messages && forall m :: m in init ==> m in messages;
      PurgeSurvivors(init, h, h', k, from);
      if Survives(h, k, last.sequence) {
        RetainAppend(Surviving(init, h, k), last, from);
      }
    }
  }

  lemma {:induction false} SameSurvivors(messages: seq<SignedMessage>, h: seq<Event>, h': seq<Event>, k: SenderId)
    requires forall m :: m in messages ==> (Survives(h', k, m.sequence) <==> Survives(h, k, m.sequence))
    ensures Surviving(messages, h, k) == Surviving(messages, h', k)
  {
    hide Survives;
    if messages != [] {
      var init, last := messages[..|messages| - 1], messages[|messages| - 1];
      assert last in messages && forall m :: m in init ==> m in messages;
      SameSurvivors(init, h, h', k);
    }
  }

  /** A message that has just been numbered has met no purge. */
  lemma NewSurvives(h: seq<Event>, k: SenderId, n: nat)
    requires Enqueues(h, k) <= n
    ensures Survives(h, k, n)
  {
    forall i | 0 <= i < |h|
      ensures Enqueues(h[..i], k) <= n
    {
      EnqueuesGrow(h, k, i);
    }
  }

  /** Whatever is acknowledged and when: a queue holds exactly the sent messages that no later purge covered, in order. */
  lemma {:induction false} QueueHoldsSurvivors(h: seq<Event>, k: SenderId)
    requires Numbering(h)
    ensures Entry(After(h), k).messages == Surviving(Sent(h, k), h, k)
  {
    hide Survives, Enqueues, InDummy, Retained;
    if h != [] {
      var init, e := h[..|h| - 1], h[|h| - 1];
      assert Numbering(init);
      QueueHoldsSurvivors(init, k);
      NumbersNeverReused(init, k);
      forall n
        ensures Survives(h, k, n) <==> Survives(init, k, n) && (e.Purge? && Enqueues(init, k) > n ==> e.next(k) <= n)
      {
        SurvivesExtended(h, k, n);
      }
      ChannelFollows(init, k);
      assert h == init + [e];
      SurvivorsAfter(init, e, h, k);
    }
  }

  lemma SurvivorsAfter(init: seq<Event>, e: Event, h: seq<Event>, k: SenderId)
    requires h == init + [e] && Numbering(h)
    requires Entry(After(init), k).messages == Surviving(Sent(init, k), init, k)
    requires Entry(After(init), k).sequence == Enqueues(init, k) && Entry(After(init), k).dummy == InDummy(init, k)
    requires forall m :: m in Sent(init, k) ==> m.sequence < Enqueues(init, k)
    requires forall n :: Survives(h, k, n) <==> Survives(init, k, n) && (e.Purge? && Enqueues(init, k) > n ==> e.next(k) <= n)
    ensures Entry(After(h), k).messages == Surviving(Sent(h, k), h, k)
  {
    hide Survives;
    assert h[..|h| - 1] == init && h[|h| - 1] == e;
    if e.Purge? {
      PurgeSurvivors(Sent(init, k), init, h, k, e.next(k));
    } else {
      SameSurvivors(Sent(init, k), init, h, k);
      if IsEnqueue(e, k) && !InDummy(init, k) {
        var m := e.construct(Enqueues(init, k));
        NewSurvives(init, k, m.sequence);
        assert (Sent(init, k) + [m])[..|Sent(init, k)|] == Sent(init, k);
      }
    }
  }

  /**
   The queue is what was sent from the last acknowledgement on exactly if the purges a message
   met and the last acknowledgement agree about every sent message.
   */
  lemma QueueIsUnacknowledgedExactly(h: seq<Event>, k: SenderId)
    requires Numbering(h)
    ensures Entry(After(h), k).messages == Retained(Sent(h, k), LastAck(h, k)) <==>
            forall m :: m in Sent(h, k) ==> (Survives(h, k, m.sequence) <==> m.sequence >= LastAck(h, k))
  {
    hide Survives;
    var sent, ack := Sent(h, k), LastAck(h, k);
    QueueHoldsSurvivors(h, k);
    forall m
      ensures m in Surviving(sent, h, k) <==> m in sent && Survives(h, k, m.sequence)
      ensures m in Retained(sent, ack) <==> m in sent && m.sequence >= ack
    {
      InSurviving(sent, h, k, m);
      InRetained(sent, ack, m);
    }
    if forall m :: m in sent ==> (Survives(h, k, m.sequence) <==> m.sequence >= ack) {
      SurvivingIsRetained(sent, h, k, ack);
    }
  }

  lemma {:induction false} SurvivingIsRetained(messages: seq<SignedMessage>, h: seq<Event>, k: SenderId, from: nat)
    requires forall m :: m in messages ==> (Survives(h, k, m.sequence) <==> m.sequence >= from)
    ensures Surviving(messages, h, k) == Retained(messages, from)
  {
    hide Survives;
    if messages != [] {
      var init, last := messages[..|messages| - 1], messages[|messages| - 1];
      assert last in messages && forall m :: m in init ==> m in messages;
      SurvivingIsRetained(init, h, k, from);
    }
  }

  // ---- Acknowledgements that break the rule ----

  /** One more event. */
  lemma Append(h: seq<Event>, e: Event, k: SenderId)
    ensures Enqueues(h + [e], k) == Enqueues(h, k) + if IsEnqueue(e, k) then 1 else 0
    ensures InDummy(h + [e], k) == if e.SetDummy? && e.sender == k then e.dummy else InDummy(h, k)
    ensures Sent(h + [e], k) ==
            if IsEnqueue(e, k) && !InDummy(h, k) then Sent(h, k) + [e.construct(Enqueues(h, k))] else Sent(h, k)
    ensures LastAck(h + [e], k) == if e.Purge? then e.next(k) else LastAck(h, k)
  {
    assert (h + [e])[..|h|] == h;
  }

  lemma AppendQueue(h: seq<Event>, e: Event, k: SenderId)
    ensures e.Enqueue? && e.sender == k && !Entry(After(h), k).dummy ==>
            Entry(After(h + [e]), k).messages == Entry(After(h), k).messages + [e.construct(Entry(After(h), k).sequence)]
    ensures e.Purge? ==> Entry(After(h + [e]), k).messages == Retained(Entry(After(h), k).messages, e.next(k))
  {
    hide Retained;
    assert (h + [e])[..|h|] == h;
    if e.Purge? && k !in After(h) {
      RetainedNothing(e.next(k));
    }
  }

  lemma RetainedNothing(from: nat)
    ensures Retained([], from) == []
  {
  }

  lemma Nothing(k: SenderId)
    ensures Enqueues([], k) == 0 && !InDummy([], k) && Sent([], k) == [] && LastAck([], k) == 0 && After([]) == map[]
  {
  }

  lemma OneRetained(m: SignedMessage, from: nat)
    ensures Retained([m], from) == if m.sequence >= from then [m] else []
  {
    assert [] + [m] == [m];
    RetainedNothing(from);
    RetainAppend([], m, from);
  }

  /** Acknowledged beyond its counter, a queue keeps later messages that the acknowledgement already covers. */
  lemma EarlyAckLeavesMessages(construct: Constructor, k: SenderId)
    requires forall n :: construct(n).sequence == n
    ensures var h := [Purge(_ => 1), Enqueue(k, construct)];
            && Numbering(h) && !HonestAcks(h, k)
            && Entry(After(h), k).messages == [construct(0)]
            && Retained(Sent(h, k), LastAck(h, k)) == []
  {
    hide Enqueues, InDummy, Sent, LastAck, After, Retained;
    var p, e := Purge(_ => 1), Enqueue(k, construct);
    var h := [p, e];
    assert [] + [p] == [p] && [p] + [e] == h && h[..0] == [];
    Nothing(k);
    Append([], p, k);
    Append([p], e, k);
    RetainedNothing(1);
    AppendQueue([], p, k);
    ChannelFollows([p], k);
    AppendQueue([p], e, k);
    OneRetained(construct(0), 1);
    assert [] + [construct(0)] == [construct(0)];
    assert h[0].Purge? && h[0].next(k) == 1;
  }

  /** Acknowledged downwards, a queue has lost messages that the last acknowledgement asks for. */
  lemma FallingAckLosesMessages(construct: Constructor, k: SenderId)
    requires forall n :: construct(n).sequence == n
    ensures var h := [Enqueue(k, construct), Purge(_ => 1), Purge(_ => 0)];
            && Numbering(h) && !HonestAcks(h, k)
            && Entry(After(h), k).messages == []
            && Retained(Sent(h, k), LastAck(h, k)) == [construct(0)]
  {
    hide Enqueues, InDummy, Sent, LastAck, After, Retained;
    var e, p, q := Enqueue(k, construct), Purge(_ => 1), Purge(_ => 0);
    var h := [e, p, q];
    assert [] + [e] == [e] && [e] + [p] == [e, p] && [e, p] + [q] == h && h[..2] == [e, p];
    Nothing(k);
    Append([], e, k);
    Append([e], p, k);
    Append([e, p], q, k);
    AppendQueue([], e, k);
    AppendQueue([e], p, k);
    AppendQueue([e, p], q, k);
    assert [] + [construct(0)] == [construct(0)];
    OneRetained(construct(0), 1);
    OneRetained(construct(0), 0);
    RetainedNothing(0);
    assert h[2].Purge? && h[2].next(k) == 0;
  }
}
