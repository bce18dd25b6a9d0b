/** A RabbitMQ consumer against a broker that redelivers, over any number of subscriptions.

    Consume may be called again whenever it has returned; on a consumer that was closed such a call ends at once.

    What is taken from the environment: the broker delivers a ready message to one subscription at a time; an
    acknowledgement it is still sent may be lost with the subscription; a subscription that is gone has all its
    unacknowledged messages put back, in any order. */
module RabbitConsumer {
  import opened Wrappers
  import opened Messages
  import Events
  import Runs

  /** Messages are told apart by the order of their publication, deliveries by the order they were made in. */
  type Id = nat
  type Tag = nat

  /** One handing over of a message to a subscription. */
  datatype Delivery = Delivery(id: Id, sub: nat)

  datatype Broker = Broker(
    ready: seq<Id>,
    unacked: set<Tag>,
    acked: set<Id>,
    dropped: set<Id>)

  /** An ack, or a nack that does or does not ask for another delivery. */
  datatype Reply = AckReply | NackReply(requeue: bool)

  /** An answer on its way to the broker. */
  datatype Answer = Answer(tag: Tag, reply: Reply)

  function ReplyTo(d: Disposition, dropOnError: bool): Reply {
    if d == Ack then AckReply else NackReply(!dropOnError)
  }

  datatype Place = Dialing | Waiting | Handling(tag: Tag) | Deciding(tag: Tag) | Ended

  datatype State = State(
    decodable: seq<bool>,            // every message ever published: whether its payload is an event
    broker: Broker,
    deliveries: seq<Delivery>,       // every delivery ever made
    verdicts: map<Tag, Disposition>, // what processing a delivery came to
    accepted: set<Tag>,              // the deliveries whose handler returned nil
    place: Place,
    sub: nat,                        // the subscription the consumer reads from
    buffer: seq<Tag>,                // deliveries that have reached the client
    answers: seq<Answer>)            // answers that have not reached the broker

  datatype Step =
    | Publish(decodable: bool)
    | Deliver(sub: nat)
    | Lose(sub: nat, back: seq<Tag>)
    | Dial
    | NextDelivery
    | NextFails
    | Handle(accepts: bool)
    | SendAnswer
    | AnswerFails
    | AnswerArrives
    | AnswerLost
    | Shutdown
    | ConsumeAgain

  const INIT: State := State([], Broker([], {}, {}, {}), [], map[], {}, Dialing, 0, [], [])

  /** The messages of some deliveries. */
  function IdsOf(deliveries: seq<Delivery>, tags: seq<Tag>): (ids: seq<Id>)
    requires forall i :: 0 <= i < |tags| ==> tags[i] < |deliveries|
    ensures |ids| == |tags| && forall i :: 0 <= i < |tags| ==> ids[i] == deliveries[tags[i]].id
  {
    seq(|tags|, i requires 0 <= i < |tags| => deliveries[tags[i]].id)
  }

  function Tags(tags: seq<Tag>): set<Tag> {
    set t | t in tags
  }

  ghost predicate Distinct(xs: seq<nat>) {
    forall i, j :: 0 <= i < j < |xs| ==> xs[i] != xs[j]
  }

  /** The unacknowledged deliveries of a subscription, each once, in some order. */
  ghost predicate IsBacklog(s: State, sub: nat, back: seq<Tag>) {
    && Distinct(back)
    && (forall i :: 0 <= i < |back| ==> back[i] < |s.deliveries|)
    && (forall t :: t in back <==> t in s.broker.unacked && t < |s.deliveries| && s.deliveries[t].sub == sub)
  }

  /** What the broker does with an answer. One for a delivery it no longer waits for is void. */
  function Apply(b: Broker, id: Id, a: Answer): Broker {
    if a.tag !in b.unacked then b
    else
      match a.reply
      case AckReply => b.(unacked := b.unacked - {a.tag}, acked := b.acked + {id})
      case NackReply(requeue) =>
        if requeue then b.(unacked := b.unacked - {a.tag}, ready := [id] + b.ready)
        else b.(unacked := b.unacked - {a.tag}, dropped := b.dropped + {id})
  }

  ghost function BrokerStep(s: State, step: Step): Option<State> {
    var b := s.broker;
    match step
    case Publish(decodable) =>
      Some(s.(decodable := s.decodable + [decodable], broker := b.(ready := b.ready + [|s.decodable|])))
    case Deliver(sub) =>
      if b.ready == [] then None
      else
        var tag := |s.deliveries|;
        Some(s.(deliveries := s.deliveries + [Delivery(b.ready[0], sub)],
                broker := b.(ready := b.ready[1..], unacked := b.unacked + {tag}),
                buffer := if sub == s.sub then s.buffer + [tag] else s.buffer))
    case Lose(sub, back) =>
      if !IsBacklog(s, sub, back) then None
      else
        Some(s.(broker := b.(ready := IdsOf(s.deliveries, back) + b.ready,
                             unacked := b.unacked - Tags(back))))
    case AnswerArrives =>
      if s.answers == [] || s.answers[0].tag >= |s.deliveries| then None
      else
        var id := s.deliveries[s.answers[0].tag].id;
        Some(s.(broker := Apply(b, id, s.answers[0]), answers := s.answers[1..]))
    case AnswerLost =>
      if s.answers == [] then None else Some(s.(answers := s.answers[1..]))
    case _ => None
  }

  function ConsumerStep(s: State, step: Step, dropOnError: bool): Option<State> {
    match (step, s.place)
    case (Dial, Dialing) =>
      Some(s.(place := Waiting, sub := s.sub + 1, buffer := []))
    case (NextDelivery, Waiting) =>
      if s.buffer == [] then None
      else Some(s.(place := Handling(s.buffer[0]), buffer := s.buffer[1..]))
    case (NextFails, Waiting) =>
      Some(s.(place := Dialing))
    case (Handle(accepts), Handling(tag)) =>
      if tag >= |s.deliveries| || s.deliveries[tag].id >= |s.decodable| then None
      else
        var decodable := s.decodable[s.deliveries[tag].id];
        Some(s.(verdicts := s.verdicts[tag := if !decodable || accepts then Ack else Retry],
                accepted := if decodable && accepts then s.accepted + {tag} else s.accepted,
                place := Deciding(tag)))
    case (SendAnswer, Deciding(tag)) =>
      if tag !in s.verdicts then None
      else Some(s.(answers := s.answers + [Answer(tag, ReplyTo(s.verdicts[tag], dropOnError))], place := Waiting))
    case (AnswerFails, Deciding(_)) =>
      Some(s.(place := Ended))
    case (Shutdown, Dialing) => Some(s.(place := Ended))
    case (Shutdown, Waiting) => Some(s.(place := Ended))
    case (ConsumeAgain, Ended) => Some(s.(place := Dialing))
    case _ => None
  }

  ghost function Next(s: State, step: Step, dropOnError: bool): Option<State> {
    match step
    case Publish(_) | Deliver(_) | Lose(_, _) | AnswerArrives | AnswerLost => BrokerStep(s, step)
    case _ => ConsumerStep(s, step, dropOnError)
  }

  // ---------------------------------------------------------------------------------------------------
  // The invariant

  /** The last delivery of a message, if it was ever delivered. */
  function LastTag(deliveries: seq<Delivery>, id: Id): (t: Option<Tag>)
    ensures t.Some? ==> t.value < |deliveries| && deliveries[t.value].id == id
  {
    if deliveries == [] then None
    else if deliveries[|deliveries| - 1].id == id then Some(|deliveries| - 1)
    else LastTag(deliveries[..|deliveries| - 1], id)
  }

  lemma LastTagOne(deliveries: seq<Delivery>, d: Delivery, id: Id)
    ensures LastTag(deliveries + [d], id) == if d.id == id then Some(|deliveries|) else LastTag(deliveries, id)
  {
    assert (deliveries + [d])[..|deliveries + [d]| - 1] == deliveries;
  }

  /** It is the last: no later delivery is of the same message, and if there is any delivery there is a last. */
  lemma {:induction false} LastTagIsLast(deliveries: seq<Delivery>, id: Id, u: Tag)
    requires u < |deliveries| && deliveries[u].id == id
    ensures LastTag(deliveries, id).Some? && u <= LastTag(deliveries, id).value
  {
    if deliveries[|deliveries| - 1].id != id {
      LastTagIsLast(deliveries[..|deliveries| - 1], id, u);
    }
  }

  predicate IsUnacked(b: Broker, last: Option<Tag>) {
    last.Some? && last.value in b.unacked
  }

  /** A message is in exactly one place. */
  predicate Placed(b: Broker, last: Option<Tag>, id: Id) {
    && (id in b.ready || IsUnacked(b, last) || id in b.acked || id in b.dropped)
    && !(id in b.ready && IsUnacked(b, last))
    && (id in b.acked || id in b.dropped ==> id !in b.ready && !IsUnacked(b, last))
    && !(id in b.acked && id in b.dropped)
  }

  /** The broker holds published messages only, each of them once, and waits for last deliveries only. */
  ghost predicate Conserved(b: Broker, deliveries: seq<Delivery>, published: nat) {
    && Distinct(b.ready)
    && (forall i :: 0 <= i < |b.ready| ==> b.ready[i] < published)
    && (forall t :: 0 <= t < |deliveries| ==> deliveries[t].id < published)
    && (forall t :: t in b.unacked ==> t < |deliveries| && LastTag(deliveries, deliveries[t].id) == Some(t))
    && (forall id :: id in b.acked || id in b.dropped ==> id < published)
    && (forall id: Id :: id < published ==> Placed(b, LastTag(deliveries, id), id))
  }

  predicate LastVerdict(deliveries: seq<Delivery>, verdicts: map<Tag, Disposition>, id: Id, d: Disposition) {
    var t := LastTag(deliveries, id);
    t.Some? && t.value in verdicts && verdicts[t.value] == d
  }

  /** What was acknowledged, or dropped, was so for its last delivery. */
  ghost predicate Justified(b: Broker, deliveries: seq<Delivery>, verdicts: map<Tag, Disposition>) {
    && (forall id :: id in b.acked ==> LastVerdict(deliveries, verdicts, id, Ack))
    && (forall id :: id in b.dropped ==> LastVerdict(deliveries, verdicts, id, Retry))
  }

  /** What the consumer has in hand are deliveries, and it answers what it decided. */
  ghost predicate Honest(s: State, dropOnError: bool) {
    && (forall i :: 0 <= i < |s.answers| ==>
          && s.answers[i].tag in s.verdicts
          && (s.answers[i].reply == AckReply <==> s.verdicts[s.answers[i].tag] == Ack)
          && (s.answers[i].reply.NackReply? ==> s.answers[i].reply.requeue == !dropOnError))
    && (forall t :: t in s.verdicts ==> t < |s.deliveries| && s.deliveries[t].id < |s.decodable|)
    && (forall t :: t in s.verdicts ==>
          (s.verdicts[t] == Ack <==> !s.decodable[s.deliveries[t].id] || t in s.accepted))
    // a delivery is processed once
    && Distinct(s.buffer)
    && (forall i :: 0 <= i < |s.buffer| ==> s.buffer[i] < |s.deliveries| && s.buffer[i] !in s.verdicts)
    && (s.place.Handling? ==> s.place.tag !in s.verdicts && s.place.tag < |s.deliveries| && s.place.tag !in s.buffer)
    && (forall t :: t in s.accepted ==> t in s.verdicts)
  }

  ghost predicate Inv(s: State, dropOnError: bool) {
    && Conserved(s.broker, s.deliveries, |s.decodable|)
    && Justified(s.broker, s.deliveries, s.verdicts)
    && Honest(s, dropOnError)
    && (!dropOnError ==> s.broker.dropped == {})
  }

  lemma PublishConserves(b: Broker, deliveries: seq<Delivery>, published: nat)
    requires Conserved(b, deliveries, published)
    ensures Conserved(b.(ready := b.ready + [published]), deliveries, published + 1)
  {
    var b' := b.(ready := b.ready + [published]);
    forall id: Id | id < published + 1
      ensures Placed(b', LastTag(deliveries, id), id)
    {
      assert id < published ==> Placed(b, LastTag(deliveries, id), id);
    }
  }

  lemma DeliverConserves(b: Broker, deliveries: seq<Delivery>, published: nat, sub: nat)
    requires Conserved(b, deliveries, published) && b.ready != []
    ensures Conserved(b.(ready := b.ready[1..], unacked := b.unacked + {|deliveries|}),
                      deliveries + [Delivery(b.ready[0], sub)], published)
  {
    var d := Delivery(b.ready[0], sub);
    var deliveries' := deliveries + [d];
    var b' := b.(ready := b.ready[1..], unacked := b.unacked + {|deliveries|});
    assert b.ready == [d.id] + b'.ready;
    forall id: Id | id < published
      ensures Placed(b', LastTag(deliveries', id), id)
    {
      LastTagOne(deliveries, d, id);
      assert Placed(b, LastTag(deliveries, id), id);
    }
    forall t | t in b'.unacked
      ensures t < |deliveries'| && LastTag(deliveries', deliveries'[t].id) == Some(t)
    {
      LastTagOne(deliveries, d, deliveries'[t].id);
      assert Placed(b, LastTag(deliveries, d.id), d.id);
    }
  }

  lemma DeliverJustifies(s: State, d: Delivery)
    requires Conserved(s.broker, s.deliveries, |s.decodable|) && Justified(s.broker, s.deliveries, s.verdicts)
    requires d.id in s.broker.ready && d.id < |s.decodable|
    ensures Justified(s.broker, s.deliveries + [d], s.verdicts)
  {
    forall id | id in s.broker.acked || id in s.broker.dropped
      ensures LastTag(s.deliveries + [d], id) == LastTag(s.deliveries, id)
    {
      LastTagOne(s.deliveries, d, id);
      assert Placed(s.broker, LastTag(s.deliveries, id), id);
    }
  }

  /** Everything a lost subscription had not acknowledged is ready again, and nothing else has moved. */
  lemma LoseConserves(s: State, sub: nat, back: seq<Tag>)
    requires Conserved(s.broker, s.deliveries, |s.decodable|) && IsBacklog(s, sub, back)
    ensures Conserved(
      s.broker.(ready := IdsOf(s.deliveries, back) + s.broker.ready, unacked := s.broker.unacked - Tags(back)),
      s.deliveries, |s.decodable|)
  {
    var b, ids := s.broker, IdsOf(s.deliveries, back);
    var b' := b.(ready := ids + b.ready, unacked := b.unacked - Tags(back));
    forall i | 0 <= i < |back|
      ensures ids[i] !in b.ready && LastTag(s.deliveries, ids[i]) == Some(back[i])
    {
      assert back[i] in back;
      assert Placed(b, LastTag(s.deliveries, ids[i]), ids[i]);
    }
    assert Distinct(b'.ready);
    forall id: Id | id < |s.decodable|
      ensures Placed(b', LastTag(s.deliveries, id), id)
    {
      var last := LastTag(s.deliveries, id);
      assert Placed(b, last, id);
      if last.Some? && last.value in back {
        var i :| 0 <= i < |back| && back[i] == last.value;
        assert b'.ready[i] == id;
      }
    }
  }

  lemma AnswerConserves(b: Broker, deliveries: seq<Delivery>, published: nat, a: Answer)
    requires Conserved(b, deliveries, published) && a.tag < |deliveries|
    ensures Conserved(Apply(b, deliveries[a.tag].id, a), deliveries, published)
  {
    var id := deliveries[a.tag].id;
    var b' := Apply(b, id, a);
    assert Placed(b, LastTag(deliveries, id), id);
    forall i: Id | i < published
      ensures Placed(b', LastTag(deliveries, i), i)
    {
      assert Placed(b, LastTag(deliveries, i), i);
    }
  }

  lemma DeliverKeeps(s: State, sub: nat, drop: bool)
    requires Inv(s, drop) && BrokerStep(s, Deliver(sub)).Some?
    ensures Inv(BrokerStep(s, Deliver(sub)).value, drop)
  {
    DeliverConserves(s.broker, s.deliveries, |s.decodable|, sub);
    DeliverJustifies(s, Delivery(s.broker.ready[0], sub));
  }

  lemma BrokerKeeps(s: State, step: Step, drop: bool)
    requires Inv(s, drop) && BrokerStep(s, step).Some?
    ensures Inv(BrokerStep(s, step).value, drop)
  {
    match step
    case Publish(_) => PublishConserves(s.broker, s.deliveries, |s.decodable|);
    case Deliver(sub) => DeliverKeeps(s, sub, drop);
    case Lose(sub, back) => LoseConserves(s, sub, back);
    case AnswerArrives => AnswerConserves(s.broker, s.deliveries, |s.decodable|, s.answers[0]);
    case AnswerLost =>
  }

  lemma ConsumerIsHonest(s: State, step: Step, drop: bool)
    requires Honest(s, drop) && ConsumerStep(s, step, drop).Some?
    ensures Honest(ConsumerStep(s, step, drop).value, drop)
  {
  }

  /** Verdicts are only added to, and for deliveries that have none. */
  lemma VerdictsStay(s: State, step: Step, drop: bool)
    requires Honest(s, drop) && ConsumerStep(s, step, drop).Some?
    ensures var s' := ConsumerStep(s, step, drop).value;
            && s'.broker == s.broker && s'.deliveries == s.deliveries && s'.decodable == s.decodable
            && forall t :: t in s.verdicts ==> t in s'.verdicts && s'.verdicts[t] == s.verdicts[t]
  {
  }

  lemma ConsumerKeeps(s: State, step: Step, drop: bool)
    requires Inv(s, drop) && ConsumerStep(s, step, drop).Some?
    ensures Inv(ConsumerStep(s, step, drop).value, drop)
  {
    ConsumerIsHonest(s, step, drop);
    VerdictsStay(s, step, drop);
  }

  lemma NextKeeps(s: State, step: Step, drop: bool)
    requires Inv(s, drop) && Next(s, step, drop).Some?
    ensures Inv(Next(s, step, drop).value, drop)
  {
    if BrokerStep(s, step).Some? {
      BrokerKeeps(s, step, drop);
    } else {
      ConsumerKeeps(s, step, drop);
    }
  }

  // ---------------------------------------------------------------------------------------------------
  // What every run satisfies

  ghost function System(dropOnError: bool): (State, Step) -> Option<State> {
    (s: State, step: Step) => Next(s, step, dropOnError)
  }

  ghost predicate Reachable(s: State, dropOnError: bool) {
    exists steps :: Runs.After(System(dropOnError), INIT, steps) == Some(s)
  }

  lemma ReachableInv(s: State, dropOnError: bool)
    requires Reachable(s, dropOnError)
    ensures Inv(s, dropOnError)
  {
    var next, inv := System(dropOnError), (t: State) => Inv(t, dropOnError);
    var steps :| Runs.After(next, INIT, steps) == Some(s);
    forall t, step | inv(t) && next(t, step).Some?
      ensures inv(next(t, step).value)
    {
      NextKeeps(t, step, dropOnError);
    }
    Runs.RunKeeps(next, inv, INIT, steps);
  }

  /** The message waits for the answer to one of its deliveries. */
  ghost predicate Outstanding(s: State, id: Id) {
    exists t :: t in s.broker.unacked && t < |s.deliveries| && s.deliveries[t].id == id
  }

  predicate SameMessage(s: State, t: Tag, u: Tag) {
    t < |s.deliveries| && u < |s.deliveries| && s.deliveries[t].id == s.deliveries[u].id
  }

  /** Conservation: over any run with redeliveries, lost answers and new subscriptions, every published message
      is ready once, or outstanding for one delivery, or acknowledged, or dropped, and only one of these; none is
      ever dropped unless the consumer was told to. */
  lemma NothingIsLost(s: State, dropOnError: bool, id: Id)
    requires Reachable(s, dropOnError) && id < |s.decodable|
    ensures id in s.broker.ready || Outstanding(s, id) || id in s.broker.acked || id in s.broker.dropped
    ensures id in s.broker.ready ==> !Outstanding(s, id) && id !in s.broker.acked && id !in s.broker.dropped
    ensures Outstanding(s, id) ==> id !in s.broker.acked && id !in s.broker.dropped
    ensures id in s.broker.acked ==> id !in s.broker.dropped
    ensures forall i, j :: 0 <= i < j < |s.broker.ready| ==> s.broker.ready[i] != s.broker.ready[j]
    ensures forall t, u :: t in s.broker.unacked && u in s.broker.unacked && SameMessage(s, t, u) ==> t == u
    ensures !dropOnError ==> s.broker.dropped == {}
  {
    ReachableInv(s, dropOnError);
    var last := LastTag(s.deliveries, id);
    assert Placed(s.broker, last, id);
  }

  /** A message is acknowledged only if it is not an event, or the handler accepted it the last time it was
      delivered; it is dropped only if it is an event the handler rejected that time. */
  lemma AckedOnlyIfHandled(s: State, dropOnError: bool, id: Id)
    requires Reachable(s, dropOnError) && (id in s.broker.acked || id in s.broker.dropped)
    ensures id < |s.decodable| && LastTag(s.deliveries, id).Some?
    ensures forall u: Tag :: u < |s.deliveries| && s.deliveries[u].id == id ==> u <= LastTag(s.deliveries, id).value
    ensures id in s.broker.acked ==> !s.decodable[id] || LastTag(s.deliveries, id).value in s.accepted
    ensures id in s.broker.dropped ==> s.decodable[id] && LastTag(s.deliveries, id).value !in s.accepted
  {
    ReachableInv(s, dropOnError);
    forall u: Tag | u < |s.deliveries| && s.deliveries[u].id == id
      ensures u <= LastTag(s.deliveries, id).value
    {
      LastTagIsLast(s.deliveries, id, u);
    }
  }

  // ---------------------------------------------------------------------------------------------------
  // What becomes of a message

  lemma OneMore(s: State, steps: seq<Step>, t: State, step: Step, dropOnError: bool) returns (more: seq<Step>, u: State)
    requires Runs.After(System(dropOnError), s, steps) == Some(t) && Next(t, step, dropOnError).Some?
    ensures Next(t, step, dropOnError) == Some(u) && Runs.After(System(dropOnError), s, more) == Some(u)
    ensures more == steps + [step]
  {
    Runs.Extend(System(dropOnError), s, steps, step);
    more, u := steps + [step], Next(t, step, dropOnError).value;
  }

  /** What the broker holds when a message has been settled. */
  function SettledAs(b: Broker, tag: Tag, id: Id, done: bool, dropOnError: bool): Broker {
    if done then b.(unacked := b.unacked - {tag}, acked := b.acked + {id})
    else if dropOnError then b.(unacked := b.unacked - {tag}, dropped := b.dropped + {id})
    else b.(unacked := b.unacked - {tag}, ready := [id] + b.ready)
  }

  lemma HandleIsDecided(s: State, dropOnError: bool, accepts: bool) returns (s': State)
    requires s.place.Handling? && s.place.tag < |s.deliveries| && s.deliveries[s.place.tag].id < |s.decodable|
    ensures Next(s, Handle(accepts), dropOnError) == Some(s') && s'.place == Deciding(s.place.tag)
    ensures s'.broker == s.broker && s'.answers == s.answers && s'.deliveries == s.deliveries
    ensures s.place.tag in s'.verdicts
    ensures s'.verdicts[s.place.tag] ==
      if s.decodable[s.deliveries[s.place.tag].id] && !accepts then Retry else Ack
  {
    s' := ConsumerStep(s, Handle(accepts), dropOnError).value;
  }

  lemma DecidedIsAnswered(s: State, dropOnError: bool) returns (s': State)
    requires s.place.Deciding? && s.place.tag in s.verdicts && s.answers == []
    ensures Next(s, SendAnswer, dropOnError) == Some(s')
    ensures s'.broker == s.broker && s'.deliveries == s.deliveries && |s'.answers| == 1
    ensures s'.answers[0].tag == s.place.tag
    ensures s'.answers[0].reply == if s.verdicts[s.place.tag] == Ack then AckReply else NackReply(!dropOnError)
  {
    s' := ConsumerStep(s, SendAnswer, dropOnError).value;
  }

  lemma AnswerIsApplied(s: State, dropOnError: bool, done: bool) returns (s': State)
    requires |s.answers| == 1 && s.answers[0].tag < |s.deliveries| && s.answers[0].tag in s.broker.unacked
    requires s.answers[0].reply == if done then AckReply else NackReply(!dropOnError)
    ensures Next(s, AnswerArrives, dropOnError) == Some(s')
    ensures var tag := s.answers[0].tag;
            s'.broker == SettledAs(s.broker, tag, s.deliveries[tag].id, done, dropOnError)
  {
    s' := BrokerStep(s, AnswerArrives).value;
  }

  /** A message in the handler's hands that the broker still waits for is acknowledged when it is not an event, or is
      accepted; otherwise it is delivered again, or dropped if errors are dropped. */
  lemma HandledIsSettled(s: State, dropOnError: bool, accepts: bool) returns (steps: seq<Step>, s': State)
    requires Reachable(s, dropOnError) && s.place.Handling? && s.place.tag in s.broker.unacked && s.answers == []
    ensures s.place.tag < |s.deliveries| && s.deliveries[s.place.tag].id < |s.decodable|
    ensures Runs.After(System(dropOnError), s, steps) == Some(s')
    ensures
      var tag := s.place.tag;
      var id := s.deliveries[tag].id;
      s'.broker == SettledAs(s.broker, tag, id, !s.decodable[id] || accepts, dropOnError)
  {
    HandledIsKnown(s, dropOnError);
    var done := !s.decodable[s.deliveries[s.place.tag].id] || accepts;
    var s1 := HandleIsDecided(s, dropOnError, accepts);
    var s2 := DecidedIsAnswered(s1, dropOnError);
    var s3 := AnswerIsApplied(s2, dropOnError, done);
    steps, s' := OneMore(s, [], s, Handle(accepts), dropOnError);
    steps, s' := OneMore(s, steps, s1, SendAnswer, dropOnError);
    steps, s' := OneMore(s, steps, s2, AnswerArrives, dropOnError);
  }

  lemma HandledIsKnown(s: State, dropOnError: bool)
    requires Reachable(s, dropOnError) && s.place.Handling?
    ensures s.place.tag < |s.deliveries| && s.deliveries[s.place.tag].id < |s.decodable|
  {
    ReachableInv(s, dropOnError);
  }

  lemma DialThenDeliver(s: State, dropOnError: bool) returns (s1: State, s2: State, s3: State)
    requires s.broker.ready != [] && s.place.Dialing?
    ensures Next(s, Dial, dropOnError) == Some(s1) && s1.sub == s.sub + 1
    ensures Next(s1, Deliver(s.sub + 1), dropOnError) == Some(s2)
    ensures Next(s2, NextDelivery, dropOnError) == Some(s3)
    ensures s3.place == Handling(|s.deliveries|) && s3.sub == s.sub + 1
    ensures s3.deliveries == s.deliveries + [Delivery(s.broker.ready[0], s.sub + 1)]
    ensures s3.broker == s.broker.(ready := s.broker.ready[1..], unacked := s.broker.unacked + {|s.deliveries|})
  {
    s1 := ConsumerStep(s, Dial, dropOnError).value;
    s2 := BrokerStep(s1, Deliver(s.sub + 1)).value;
    assert s2.buffer == [|s.deliveries|];
    s3 := ConsumerStep(s2, NextDelivery, dropOnError).value;
  }

  lemma DialingIsHandled(s: State, dropOnError: bool) returns (steps: seq<Step>, s': State)
    requires s.broker.ready != [] && s.place.Dialing?
    ensures Runs.After(System(dropOnError), s, steps) == Some(s') && ConsumeAgain !in steps
    ensures s'.place == Handling(|s.deliveries|) && s'.sub == s.sub + 1
    ensures s'.deliveries == s.deliveries + [Delivery(s.broker.ready[0], s.sub + 1)]
    ensures s'.broker == s.broker.(ready := s.broker.ready[1..], unacked := s.broker.unacked + {|s.deliveries|})
  {
    var s1, s2, s3 := DialThenDeliver(s, dropOnError);
    var one, two;
    one, s' := OneMore(s, [], s, Dial, dropOnError);
    two, s' := OneMore(s, one, s1, Deliver(s.sub + 1), dropOnError);
    steps, s' := OneMore(s, two, s2, NextDelivery, dropOnError);
  }

  /** A ready message gets to the handler: a consumer that is dialing, or has ended and is run again, subscribes, and
      the broker delivers. */
  lemma ReadyIsHandled(s: State, dropOnError: bool) returns (steps: seq<Step>, s': State)
    requires s.broker.ready != [] && (s.place.Dialing? || s.place.Ended?)
    ensures Runs.After(System(dropOnError), s, steps) == Some(s')
    ensures ConsumeAgain in steps <==> s.place.Ended?
    ensures s'.place == Handling(|s.deliveries|) && s'.sub == s.sub + 1
    ensures s'.deliveries == s.deliveries + [Delivery(s.broker.ready[0], s.sub + 1)]
    ensures s'.broker == s.broker.(ready := s.broker.ready[1..], unacked := s.broker.unacked + {|s.deliveries|})
  {
    if s.place.Dialing? {
      steps, s' := DialingIsHandled(s, dropOnError);
    } else {
      var begin := s.(place := Dialing);
      assert Next(s, ConsumeAgain, dropOnError) == Some(begin);
      var later;
      later, s' := DialingIsHandled(begin, dropOnError);
      Runs.Prepend(System(dropOnError), s, ConsumeAgain, later);
      steps := [ConsumeAgain] + later;
    }
  }

  lemma LossIsNoticed(s: State, dropOnError: bool, back: seq<Tag>) returns (s1: State, s2: State)
    requires s.place == Waiting && IsBacklog(s, s.sub, back)
    ensures Next(s, Lose(s.sub, back), dropOnError) == Some(s1) && Next(s1, NextFails, dropOnError) == Some(s2)
    ensures s2.place == Dialing && s2.sub == s.sub && s2.deliveries == s.deliveries
    ensures s2.broker.ready == IdsOf(s.deliveries, back) + s.broker.ready
  {
    s1 := BrokerStep(s, Lose(s.sub, back)).value;
    s2 := ConsumerStep(s1, NextFails, dropOnError).value;
  }

  /** What a lost subscription had not acknowledged is handled again: it is all ready, and a consumer that waits for
      deliveries learns of the loss, subscribes anew in the same call of Consume and gets the first of it. */
  lemma LostIsHandledAgain(s: State, dropOnError: bool, back: seq<Tag>) returns (steps: seq<Step>, s': State)
    requires s.place == Waiting && IsBacklog(s, s.sub, back) && back != []
    ensures Runs.After(System(dropOnError), s, steps) == Some(s')
    ensures ConsumeAgain !in steps
    ensures s'.place == Handling(|s.deliveries|) && s'.sub == s.sub + 1
    ensures s'.deliveries == s.deliveries + [Delivery(s.deliveries[back[0]].id, s.sub + 1)]
    ensures s'.broker.ready == IdsOf(s.deliveries, back)[1..] + s.broker.ready
  {
    var s1, s2 := LossIsNoticed(s, dropOnError, back);
    var later;
    later, s' := DialingIsHandled(s2, dropOnError);
    Runs.Prepend(System(dropOnError), s1, NextFails, later);
    Runs.Prepend(System(dropOnError), s, Lose(s.sub, back), [NextFails] + later);
    steps := [Lose(s.sub, back)] + ([NextFails] + later);
    var ids := IdsOf(s.deliveries, back);
    assert (ids + s.broker.ready)[1..] == ids[1..] + s.broker.ready;
  }

  /** A consumer that waits, or is about to dial, can be told to end; so it does when an answer cannot be sent. Either
      way it settles nothing by that. */
  lemma EndSettlesNothing(s: State, dropOnError: bool)
    requires s.place.Dialing? || s.place.Waiting? || s.place.Deciding?
    ensures Next(s, if s.place.Deciding? then AnswerFails else Shutdown, dropOnError) == Some(s.(place := Ended))
  {
  }

  // ---------------------------------------------------------------------------------------------------
  // The loops of the consumer

  /** Whether Close is called, and whether the context ends, in some stretch of time. */
  datatype Signals = Signals(closes: bool, ends: bool)

  /** What one subscription has to offer before it ends, by itself or because it was closed: its messages, what the
      handler says to each event in them, whether answer i can be sent, and what happens meanwhile. */
  datatype Subscription = Subscription(
    payloads: seq<Payload>,
    accepts: Events.Event -> bool,
    answerable: nat -> bool,
    meanwhile: Signals)

  /** What a consumer meets: what happens before each look at whether to go on, and what each dial gives. */
  datatype World = World(before: nat -> Signals, dial: nat -> Option<Subscription>)

  const QUIET: Signals := Signals(false, false)

  datatype Outcome = Stopped | ContextEnded | DialFailed | AnswerFailed

  /** Every answer a subscription asks for can be sent. */
  ghost predicate Answerable(sub: Subscription) {
    forall i: nat :: i < |sub.payloads| ==> sub.answerable(i)
  }

  /** Subscription k is one the loop goes on after: it was dialed, and ended by itself. */
  ghost predicate GoesOn(w: World, k: nat) {
    && w.before(k) == QUIET
    && w.dial(k).Some? && w.dial(k).value.meanwhile == QUIET && Answerable(w.dial(k).value)
  }

  class Consumer {
    const dropOnError: bool
    var closed: bool

    constructor (dropOnError: bool)
      ensures !closed && this.dropOnError == dropOnError
    {
      this.dropOnError := dropOnError;
      closed := false;
    }

    method Close()
      modifies `closed
      ensures closed
    {
      closed := true;
    }

    /** The replies to a subscription: every message in turn, up to the first reply that cannot be sent. An ack says
        that the message is done with, and a nack asks for another delivery unless errors are dropped. `failed` says
        that the last one could not. */
    ghost predicate Answered(decode: Decoder, sub: Subscription, failed: bool, replies: seq<Reply>) {
      && |replies| <= |sub.payloads|
      && (forall i :: 0 <= i < |replies| ==>
            && (replies[i] == AckReply <==> IsDone(decode, sub.accepts, sub.payloads[i]))
            && (replies[i].NackReply? ==> replies[i].requeue == !dropOnError))
      && (forall i :: 0 <= i < |replies| - 1 ==> sub.answerable(i))
      && (if failed then replies != [] && !sub.answerable(|replies| - 1)
          else Answerable(sub) && |replies| == |sub.payloads|)
    }

    /** Reads one subscription until it ends, or a message cannot be answered. */
    method ConsumeOne(decode: Decoder, sub: Subscription) returns (failed: bool, replies: seq<Reply>)
      ensures Answered(decode, sub, failed, replies)
    {
      replies := [];
      while |replies| < |sub.payloads|
        invariant |replies| <= |sub.payloads|
        invariant forall i :: 0 <= i < |replies| ==>
          && sub.answerable(i)
          && (replies[i] == AckReply <==> IsDone(decode, sub.accepts, sub.payloads[i]))
          && (replies[i].NackReply? ==> replies[i].requeue == !dropOnError)
        decreases |sub.payloads| - |replies|
      {
        var i := |replies|;
        replies := replies + [ReplyTo(ProcessMessage(decode, sub.accepts, sub.payloads[i]), dropOnError)];
        if !sub.answerable(i) {
          return true, replies;
        }
      }
      failed := false;
    }

    /** Subscribes again and again, as long as nothing happens and a subscription ends only because the broker
        ended it. `patience` is a subscription after which it does not go on, and without one it never returns;
        `log` holds the replies to each subscription. */
    method Consume(decode: Decoder, w: World, ghost patience: nat) returns (outcome: Outcome, log: seq<seq<Reply>>)
      requires !GoesOn(w, patience)
      modifies `closed
      ensures forall k :: 0 <= k < |log| ==> w.dial(k).Some? && w.before(k) == QUIET
      ensures forall k :: 0 <= k < |log| - 1 ==> GoesOn(w, k) && Answered(decode, w.dial(k).value, false, log[k])
      ensures closed <==> outcome == Stopped
      ensures old(closed) ==> outcome == Stopped && log == []
      ensures
        var n := |log|;
        // it ends before a subscription, or at the end of one
        || (&& (n > 0 ==> GoesOn(w, n - 1) && Answered(decode, w.dial(n - 1).value, false, log[n - 1]))
            && match outcome
               case Stopped => (n == 0 && old(closed)) || w.before(n).closes
               case ContextEnded => w.before(n).ends && !w.before(n).closes
               case DialFailed => w.before(n) == QUIET && w.dial(n).None?
               case AnswerFailed => false)
        || (&& n > 0
            && var sub := w.dial(n - 1).value;
               && (Answered(decode, sub, false, log[n - 1]) || Answered(decode, sub, true, log[n - 1]))
               && match outcome
                  case Stopped => sub.meanwhile.closes
                  case ContextEnded => sub.meanwhile.ends && !sub.meanwhile.closes
                  case DialFailed => false
                  case AnswerFailed => sub.meanwhile == QUIET && Answered(decode, sub, true, log[n - 1]))
    {
      log := [];
      while true
        invariant |log| <= patience
        invariant forall k :: 0 <= k < |log| ==> w.dial(k).Some? && w.before(k) == QUIET
        invariant forall k :: 0 <= k < |log| ==> GoesOn(w, k) && Answered(decode, w.dial(k).value, false, log[k])
        invariant closed == old(closed) && (log != [] ==> !closed)
        decreases patience - |log|
      {
        var n := |log|;
        if w.before(n).closes {
          Close();
        }
        if closed {
          return Stopped, log;
        }
        if w.before(n).ends {
          return ContextEnded, log;
        }
        var sub := w.dial(n);
        if sub.None? {
          return DialFailed, log;
        }
        var failed, replies := ConsumeOne(decode, sub.value);
        log := log + [replies];
        if sub.value.meanwhile.closes {
          Close();
        }
        if closed {
          return Stopped, log;
        }
        if sub.value.meanwhile.ends {
          return ContextEnded, log;
        }
        if failed {
          return AnswerFailed, log;
        }
      }
    }
  }
}
