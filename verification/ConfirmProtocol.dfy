/** Any number of publishers, one dispatcher and the broker, on one channel in confirm mode.

    The state is everything they share: the bookkeeping and its lock, the waiters' slots, the frames the
    connection's reader has queued, and what the broker was given and has said. A step is what one of them
    does without being interrupted; a run is any interleaving of such steps.

    What is taken from the environment:
    - the broker numbers the messages of a channel 1, 2, 3, ... in the order they were written, and confirms
      a number at most once (publisher confirms, the RabbitMQ extension of AMQP 0-9-1);
    - a basic.return is queued before the confirmation of the same message (basic.return and the confirm
      extension), and any other return on the channel has a message id that is not a number;
    - a publish that reports an error wrote nothing;
    - fewer than 2^64 messages are written on one channel. */
module ConfirmProtocol {
  import opened Wrappers
  import opened Decimal
  import opened PublisherConfirms
  import opened Runs

  /** Where a call of publish is. A tag of 0 means the call never reached the wire. */
  datatype Progress =
    | Called
    | Checked
    | Writing
    | Waiting(tag: nat)
    | Returned(tag: nat, reply: Reply)

  datatype Message = Message(id: string, call: Call)

  /** Where the dispatcher is. */
  datatype Hand =
    | Idle
    | Marking(id: string, pending: Option<Confirmation>)
    | Draining(conf: Confirmation)
    | Settling(conf: Confirmation)
    | Answering(tag: nat, call: Call, reply: Reply)
    | Stopping(rest: map<nat, Call>, cause: Error)
    | Ended

  /** The publishers and their waiters. */
  datatype Publishers = Publishers(
    calls: map<Call, Progress>,
    slots: map<Call, Reply>,         // answers put in a waiter and not taken out yet
    answers: map<Call, Reply>)       // every answer ever put in a waiter

  /** The client: what the lock guards, who holds it across a write, and where the dispatcher is. */
  datatype Client = Client(book: Book, lock: Option<Call>, hand: Hand, done: bool)

  /** The channel: what was written, what the broker said, and what is queued for the dispatcher. */
  datatype Channel = Channel(
    open: bool,                      // the channel does not report itself closed
    wire: seq<Message>,              // the message with delivery tag t is wire[t - 1]
    sentBack: set<nat>,              // tags the broker returned
    confirmed: map<nat, bool>,       // tags the broker confirmed: true for an ack
    returnQueue: seq<string>,        // queued returns, by message id
    confirmQueue: seq<Confirmation>) // queued confirmations

  datatype State = State(pubs: Publishers, client: Client, channel: Channel)

  datatype Step =
    // a publisher
    | Call(call: Call)
    | Check(call: Call)
    | Lock(call: Call)
    | WriteOk(call: Call)
    | WriteFails(call: Call)
    | Wake(call: Call)
    | WakeDone(call: Call)
    | GiveUp(call: Call)
    // the broker and the connection
    | SendBack(tag: nat)
    | SendBackForeign(id: string)
    | Confirm(tag: nat, ack: bool)
    | CloseChannel
    // the dispatcher
    | TakeReturn
    | MarkReturned
    | TakeConfirm
    | DrainOne
    | DrainEnds
    | Settle
    | Answer
    | Stop(reason: string)
    | StopAnswer(tag: nat)
    | StopEnds

  const INIT: State := State(
    Publishers(map[], map[], map[]),
    Client(EMPTY_BOOK, None, Idle, false),
    Channel(true, [], {}, map[], [], []))

  /** Why the client can no longer be used, if it cannot. */
  function ClientError(k: Client, open: bool): Option<Error> {
    if k.done then
      if k.book.dead.Some? then k.book.dead else Some(ChannelClosed("the channel is closed"))
    else if !open then Some(ChannelClosed("the channel is closed"))
    else None
  }

  function Move(p: Publishers, call: Call, progress: Progress): Publishers {
    p.(calls := p.calls[call := progress])
  }

  predicate At(p: Publishers, call: Call, progress: Progress) { call in p.calls && p.calls[call] == progress }

  predicate IsWaiting(p: Publishers, call: Call) { call in p.calls && p.calls[call].Waiting? }

  /** What a publisher does on its own: entering, looking at the client, and waiting. */
  function PublisherStep(p: Publishers, k: Client, open: bool, step: Step): Option<Publishers> {
    match step
    case Call(c) =>
      if c in p.calls then None else Some(Move(p, c, Called))
    case Check(c) =>
      if !At(p, c, Called) then None
      else if ClientError(k, open).Some? then Some(Move(p, c, Returned(0, Failed(ClientError(k, open).value))))
      else Some(Move(p, c, Checked))
    case Wake(c) =>
      if !IsWaiting(p, c) || c !in p.slots then None
      else Some(Move(p, c, Returned(p.calls[c].tag, p.slots[c])).(slots := p.slots - {c}))
    case WakeDone(c) =>
      if !IsWaiting(p, c) || !k.done || k.lock.Some? then None
      else
        var reply := if ClientError(k, open).Some? then Failed(ClientError(k, open).value) else Delivered;
        Some(Move(p, c, Returned(p.calls[c].tag, reply)))
    case GiveUp(c) =>
      if !IsWaiting(p, c) then None
      else Some(Move(p, c, Returned(p.calls[c].tag, Failed(ContextEnded))))
    case _ => None
  }

  /** Taking the lock and the next number, unless the client has died. */
  function LockStep(s: State, c: Call): Option<State> {
    if !At(s.pubs, c, Checked) || s.client.lock.Some? || s.client.book.seqNo + 1 >= LIMIT then None
    else if s.client.book.dead.Some? then
      Some(s.(pubs := Move(s.pubs, c, Returned(0, Failed(s.client.book.dead.value)))))
    else
      Some(s.(pubs := Move(s.pubs, c, Writing),
              client := s.client.(lock := Some(c), book := Register(s.client.book, c))))
  }

  /** The write, and giving the lock back. */
  function WriteOkStep(s: State, c: Call): Option<State> {
    if !At(s.pubs, c, Writing) then None
    else
      var tag := s.client.book.seqNo;
      Some(State(Move(s.pubs, c, Waiting(tag)),
                 s.client.(lock := None),
                 s.channel.(wire := s.channel.wire + [Message(FormatUint(tag), c)])))
  }

  /** A failed write, which hands the number back before it gives the lock back. */
  function WriteFailsStep(s: State, c: Call): Option<State> {
    if !At(s.pubs, c, Writing) || s.client.book.seqNo == 0 then None
    else
      Some(s.(pubs := Move(s.pubs, c, Returned(0, Failed(PublishFailed))),
              client := s.client.(lock := None, book := HandBack(s.client.book))))
  }

  function BrokerStep(n: Channel, step: Step): Option<Channel> {
    match step
    case SendBack(tag) =>
      if !(1 <= tag <= |n.wire|) || tag in n.confirmed then None
      else Some(n.(sentBack := n.sentBack + {tag}, returnQueue := n.returnQueue + [n.wire[tag - 1].id]))
    case SendBackForeign(id) =>
      if ParseUint(id).Some? then None else Some(n.(returnQueue := n.returnQueue + [id]))
    case Confirm(tag, ack) =>
      if !(1 <= tag <= |n.wire|) || tag in n.confirmed then None
      else Some(n.(confirmed := n.confirmed[tag := ack], confirmQueue := n.confirmQueue + [Confirmation(tag, ack)]))
    case CloseChannel => Some(n.(open := false))
    case _ => None
  }

  /** Taking frames off the queues. The queue of returns is drained before a confirmation is settled. */
  function TakeStep(hand: Hand, n: Channel, step: Step): Option<(Hand, Channel)> {
    match step
    case TakeReturn =>
      if hand != Idle || n.returnQueue == [] then None
      else Some((Marking(n.returnQueue[0], None), n.(returnQueue := n.returnQueue[1..])))
    case TakeConfirm =>
      if hand != Idle || n.confirmQueue == [] then None
      else Some((Draining(n.confirmQueue[0]), n.(confirmQueue := n.confirmQueue[1..])))
    case DrainOne =>
      if !hand.Draining? || n.returnQueue == [] then None
      else Some((Marking(n.returnQueue[0], Some(hand.conf)), n.(returnQueue := n.returnQueue[1..])))
    case DrainEnds =>
      if !hand.Draining? || n.returnQueue != [] then None
      else Some((Settling(hand.conf), n))
    case _ => None
  }

  /** The dispatcher's own critical sections, and its end. */
  function BookStep(k: Client, step: Step): Option<Client> {
    match step
    case MarkReturned =>
      if !k.hand.Marking? || k.lock.Some? then None
      else Some(k.(book := Mark(k.book, k.hand.id),
                   hand := if k.hand.pending.Some? then Draining(k.hand.pending.value) else Idle))
    case Settle =>
      if !k.hand.Settling? || k.lock.Some? then None
      else
        var conf := k.hand.conf;
        Some(k.(book := Settled(k.book, conf.tag),
                hand := if conf.tag in k.book.waiters
                        then Answering(conf.tag, k.book.waiters[conf.tag], Verdict(k.book, conf))
                        else Idle))
    case Stop(reason) =>
      if k.hand != Idle || k.lock.Some? then None
      else Some(k.(hand := Stopping(k.book.waiters, ChannelClosed(reason)),
                   book := Stopped(k.book, ChannelClosed(reason))))
    case StopEnds =>
      if !k.hand.Stopping? || k.hand.rest != map[] then None
      else Some(k.(hand := Ended, done := true))
    case _ => None
  }

  /** Puts an answer in a waiter. The slot holds one, so a second one would have to wait. */
  function Tell(p: Publishers, call: Call, reply: Reply): Publishers {
    p.(slots := p.slots[call := reply], answers := p.answers[call := reply])
  }

  /** Handing the answers over, outside the lock. */
  function TellStep(p: Publishers, hand: Hand, step: Step): Option<(Publishers, Hand)> {
    match step
    case Answer =>
      if !hand.Answering? || hand.call in p.slots then None
      else Some((Tell(p, hand.call, hand.reply), Idle))
    case StopAnswer(tag) =>
      if !hand.Stopping? || tag !in hand.rest || hand.rest[tag] in p.slots then None
      else Some((Tell(p, hand.rest[tag], Failed(hand.cause)), Stopping(hand.rest - {tag}, hand.cause)))
    case _ => None
  }

  function Next(s: State, step: Step): Option<State> {
    match step
    case Call(_) | Check(_) | Wake(_) | WakeDone(_) | GiveUp(_) =>
      var p := PublisherStep(s.pubs, s.client, s.channel.open, step);
      if p.None? then None else Some(s.(pubs := p.value))
    case Lock(c) => LockStep(s, c)
    case WriteOk(c) => WriteOkStep(s, c)
    case WriteFails(c) => WriteFailsStep(s, c)
    case SendBack(_) | SendBackForeign(_) | Confirm(_, _) | CloseChannel =>
      var n := BrokerStep(s.channel, step);
      if n.None? then None else Some(s.(channel := n.value))
    case TakeReturn | TakeConfirm | DrainOne | DrainEnds =>
      var t := TakeStep(s.client.hand, s.channel, step);
      if t.None? then None else Some(s.(client := s.client.(hand := t.value.0), channel := t.value.1))
    case MarkReturned | Settle | Stop(_) | StopEnds =>
      var k := BookStep(s.client, step);
      if k.None? then None else Some(s.(client := k.value))
    case Answer | StopAnswer(_) =>
      var t := TellStep(s.pubs, s.client.hand, step);
      if t.None? then None else Some(s.(pubs := t.value.0, client := s.client.(hand := t.value.1)))
  }

  // ---------------------------------------------------------------------------------------------------
  // The invariant, piece by piece. Each piece names the parts of the state it is about.

  /** The call a number was given to, whether its message is on the wire or still being written. */
  function Owner(wire: seq<Message>, lock: Option<Call>, tag: nat): Option<Call> {
    if 1 <= tag <= |wire| then Some(wire[tag - 1].call) else lock
  }

  /** The number of the message a call has written, or 0 while it has written none. */
  function TagOf(calls: map<Call, Progress>, call: Call): nat {
    if call !in calls then 0
    else match calls[call]
         case Waiting(tag) => tag
         case Returned(tag, _) => tag
         case _ => 0
  }

  /** Numbers and messages stay in step, whatever writes fail. */
  ghost predicate Numbered(book: Book, lock: Option<Call>, calls: map<Call, Progress>, wire: seq<Message>) {
    && book.seqNo < LIMIT
    && book.seqNo == |wire| + (if lock.Some? then 1 else 0)
    && (lock.Some? ==> book.dead.None? && book.seqNo in book.waiters)
    && (forall c: Call :: c in calls && calls[c] == Writing <==> lock == Some(c))
    && (forall t :: 1 <= t <= |wire| ==> wire[t - 1].id == FormatUint(t))
  }

  /** A message belongs to the call that wrote it, and that call wrote no other. */
  ghost predicate Attributed(calls: map<Call, Progress>, wire: seq<Message>) {
    && (forall t {:trigger wire[t - 1]} :: 1 <= t <= |wire| ==> TagOf(calls, wire[t - 1].call) == t)
    && (forall c: Call :: TagOf(calls, c) > 0 ==>
          TagOf(calls, c) <= |wire| && wire[TagOf(calls, c) - 1].call == c)
    && (forall c :: c in calls && calls[c].Waiting? ==> calls[c].tag > 0)
  }

  /** The maps and the dispatcher's hand hold only numbers of this channel, under their owner. */
  ghost predicate Registered(book: Book, lock: Option<Call>, hand: Hand, done: bool, wire: seq<Message>) {
    && (forall t :: t in book.waiters ==> 1 <= t <= book.seqNo && Owner(wire, lock, t) == Some(book.waiters[t]))
    && (forall t :: t in book.returned ==> t in book.waiters)
    && (hand.Answering? ==> 1 <= hand.tag <= |wire| && hand.call == wire[hand.tag - 1].call)
    && (hand.Stopping? ==> forall t :: t in hand.rest ==>
          1 <= t <= |wire| && hand.rest[t] == wire[t - 1].call)
    && (book.dead.Some? <==> hand.Stopping? || hand.Ended?)
    && (book.dead.Some? ==> book.waiters == map[] && book.returned == map[] && book.dead.value.ChannelClosed?)
    && (hand.Stopping? ==> book.dead == Some(hand.cause))
    && (done <==> hand.Ended?)
  }

  /** The publishes the dispatcher has taken out of the map and not answered yet. */
  predicate InHand(hand: Hand, tag: nat) {
    || (hand.Answering? && hand.tag == tag)
    || (hand.Stopping? && tag in hand.rest)
  }

  /** Every written message is in exactly one place: registered, in the dispatcher's hand, or answered. */
  predicate Placed(waiters: map<nat, Call>, hand: Hand, answers: map<Call, Reply>, tag: nat, call: Call) {
    && (tag in waiters || InHand(hand, tag) || call in answers)
    && !(tag in waiters && InHand(hand, tag))
    && !(tag in waiters && call in answers)
    && !(InHand(hand, tag) && call in answers)
  }

  ghost predicate Accounted(
    waiters: map<nat, Call>, hand: Hand, answers: map<Call, Reply>, wire: seq<Message>)
  {
    forall t {:trigger wire[t - 1]} :: 1 <= t <= |wire| ==> Placed(waiters, hand, answers, t, wire[t - 1].call)
  }

  /** A full slot holds the one answer its call was given. */
  ghost predicate Slotted(calls: map<Call, Progress>, slots: map<Call, Reply>, answers: map<Call, Reply>) {
    && (forall c: Call :: c in answers ==> TagOf(calls, c) > 0)
    && (forall c: Call :: c in slots ==> c in answers && slots[c] == answers[c])
  }

  /** A queued return is foreign, or it is of a message the broker did send back. */
  ghost predicate Genuine(sentBack: set<nat>, id: string) {
    ParseUint(id).Some? ==> exists t :: t in sentBack && id == FormatUint(t)
  }

  /** The return of this message has been queued, is being taken in, or has been recorded. */
  predicate ReturnInSight(returned: map<nat, Error>, hand: Hand, queue: seq<string>, tag: nat) {
    FormatUint(tag) in queue || (hand.Marking? && hand.id == FormatUint(tag)) || tag in returned
  }

  /** No return is lost before the confirmation that follows it is settled, and none is made up. */
  ghost predicate Tracked(book: Book, hand: Hand, queue: seq<string>, wire: seq<Message>, sentBack: set<nat>) {
    && (forall t :: t in sentBack ==> 1 <= t <= |wire|)
    && (forall t :: t in book.returned ==> t in sentBack && book.returned[t] == Unroutable)
    && (forall t :: t in sentBack && t in book.waiters ==> ReturnInSight(book.returned, hand, queue, t))
    && (forall i :: 0 <= i < |queue| ==> Genuine(sentBack, queue[i]))
    && (hand.Marking? ==> Genuine(sentBack, hand.id))
    && (hand.Settling? && hand.conf.tag in sentBack && hand.conf.tag in book.waiters ==>
          hand.conf.tag in book.returned)
  }

  function ConfInHand(hand: Hand): Option<Confirmation> {
    if hand.Draining? || hand.Settling? then Some(hand.conf)
    else if hand.Marking? then hand.pending
    else None
  }

  /** The confirmations underway say what the broker said, and none is lost while its publisher waits. */
  ghost predicate Confirmed(
    waiters: map<nat, Call>, hand: Hand, queue: seq<Confirmation>, wire: seq<Message>, confirmed: map<nat, bool>)
  {
    && (forall t :: t in confirmed ==> 1 <= t <= |wire|)
    && (forall conf :: conf in queue || ConfInHand(hand) == Some(conf) ==>
          conf.tag in confirmed && confirmed[conf.tag] == conf.ack)
    && (forall t :: t in confirmed && t in waiters ==>
          Confirmation(t, confirmed[t]) in queue || ConfInHand(hand) == Some(Confirmation(t, confirmed[t])))
  }

  /** What the broker has decided about a message, once it has confirmed it. */
  function Decision(sentBack: set<nat>, confirmed: map<nat, bool>, tag: nat): Reply
    requires tag in confirmed
  {
    if tag in sentBack then Failed(Unroutable)
    else if !confirmed[tag] then Failed(Rejected)
    else Delivered
  }

  predicate Decided(sentBack: set<nat>, confirmed: map<nat, bool>, tag: nat, reply: Reply) {
    tag in confirmed && reply == Decision(sentBack, confirmed, tag)
  }

  /** An answer is the broker's own decision, or the news that the channel has died. */
  ghost predicate Truthful(
    dead: Option<Error>, hand: Hand, calls: map<Call, Progress>, answers: map<Call, Reply>,
    sentBack: set<nat>, confirmed: map<nat, bool>)
  {
    && (hand.Answering? ==> Decided(sentBack, confirmed, hand.tag, hand.reply))
    && (forall c: Call :: c in answers ==>
          || Decided(sentBack, confirmed, TagOf(calls, c), answers[c])
          || (dead.Some? && answers[c] == Failed(dead.value)))
  }

  /** The errors a call can return without having been given the broker's decision. */
  predicate Undecided(tag: nat, reply: Reply) {
    && reply.Failed?
    && (reply.error.ChannelClosed? || reply.error.ContextEnded? || (reply.error.PublishFailed? && tag == 0))
  }

  ghost predicate Reported(calls: map<Call, Progress>, sentBack: set<nat>, confirmed: map<nat, bool>) {
    forall c: Call :: c in calls && calls[c].Returned? ==>
      || Undecided(calls[c].tag, calls[c].reply)
      || (calls[c].tag > 0 && Decided(sentBack, confirmed, calls[c].tag, calls[c].reply))
  }

  /** What the maps, the queues and the dispatcher hold. */
  ghost predicate Books(k: Client, answers: map<Call, Reply>, n: Channel) {
    && Registered(k.book, k.lock, k.hand, k.done, n.wire)
    && Accounted(k.book.waiters, k.hand, answers, n.wire)
    && Tracked(k.book, k.hand, n.returnQueue, n.wire, n.sentBack)
    && Confirmed(k.book.waiters, k.hand, n.confirmQueue, n.wire, n.confirmed)
  }

  /** What the calls have written, been told and returned. */
  ghost predicate Calls(p: Publishers, k: Client, n: Channel) {
    && Numbered(k.book, k.lock, p.calls, n.wire)
    && Attributed(p.calls, n.wire)
    && Slotted(p.calls, p.slots, p.answers)
    && Truthful(k.book.dead, k.hand, p.calls, p.answers, n.sentBack, n.confirmed)
    && Reported(p.calls, n.sentBack, n.confirmed)
  }

  ghost predicate Inv(s: State) {
    Books(s.client, s.pubs.answers, s.channel) && Calls(s.pubs, s.client, s.channel)
  }

  // ---------------------------------------------------------------------------------------------------
  // Every step keeps it: the publishers

  /** What is said by number about the calls stays, when no call's number changes. */
  lemma NumbersStay(p: Publishers, calls': map<Call, Progress>, k: Client, n: Channel)
    requires Calls(p, k, n)
    requires forall d: Call :: TagOf(calls', d) == TagOf(p.calls, d)
    requires forall d :: d in calls' && calls'[d].Waiting? ==> calls'[d].tag > 0
    ensures Attributed(calls', n.wire)
    ensures Slotted(calls', p.slots, p.answers)
    ensures Truthful(k.book.dead, k.hand, calls', p.answers, n.sentBack, n.confirmed)
  {
    forall d: Call | TagOf(calls', d) > 0
      ensures TagOf(calls', d) <= |n.wire|
      ensures n.wire[TagOf(calls', d) - 1].call == d
    {
    }
  }

  /** A call may move on without changing its number, and may return the broker's decision about its message
      or an error of its own. */
  lemma MoveKeeps(p: Publishers, c: Call, progress: Progress, k: Client, n: Channel)
    requires Calls(p, k, n)
    requires TagOf(p.calls[c := progress], c) == TagOf(p.calls, c)
    requires progress != Writing && (c in p.calls ==> p.calls[c] != Writing)
    requires progress.Waiting? ==> progress.tag > 0
    requires progress.Returned? ==>
      || Undecided(progress.tag, progress.reply)
      || (progress.tag > 0 && Decided(n.sentBack, n.confirmed, progress.tag, progress.reply))
    ensures Calls(Move(p, c, progress), k, n)
  {
    var calls' := p.calls[c := progress];
    assert forall d: Call :: TagOf(calls', d) == TagOf(p.calls, d);
    NumbersStay(p, calls', k, n);
  }

  /** A call that is woken takes the one answer it was given. */
  lemma WakeKeeps(p: Publishers, k: Client, n: Channel, c: Call)
    requires Calls(p, k, n) && PublisherStep(p, k, n.open, Wake(c)).Some?
    requires k.book.dead.Some? ==> k.book.dead.value.ChannelClosed?
    ensures Calls(PublisherStep(p, k, n.open, Wake(c)).value, k, n)
  {
    assert c in p.answers && p.slots[c] == p.answers[c] && TagOf(p.calls, c) == p.calls[c].tag;
    MoveKeeps(p, c, Returned(p.calls[c].tag, p.slots[c]), k, n);
  }

  lemma PublisherKeeps(p: Publishers, k: Client, n: Channel, step: Step)
    requires Calls(p, k, n) && PublisherStep(p, k, n.open, step).Some?
    requires k.book.dead.Some? ==> k.book.dead.value.ChannelClosed?
    requires k.done ==> k.book.dead.Some?
    ensures Calls(PublisherStep(p, k, n.open, step).value, k, n)
  {
    if step.Wake? {
      WakeKeeps(p, k, n, step.call);
    } else {
      var c := step.call;
      MoveKeeps(p, c, PublisherStep(p, k, n.open, step).value.calls[c], k, n);
    }
  }

  // ---------------------------------------------------------------------------------------------------
  // ... the publishers that hold the lock

  lemma RegisterKeeps(s: State, c: Call)
    requires Inv(s) && LockStep(s, c).Some? && s.client.book.dead.None?
    ensures Books(LockStep(s, c).value.client, s.pubs.answers, s.channel)
  {
  }

  lemma LockKeeps(s: State, c: Call)
    requires Inv(s) && LockStep(s, c).Some?
    ensures Inv(LockStep(s, c).value)
  {
    if s.client.book.dead.None? {
      var calls' := s.pubs.calls[c := Writing];
      assert forall d: Call :: TagOf(calls', d) == TagOf(s.pubs.calls, d);
      NumbersStay(s.pubs, calls', s.client, s.channel);
      RegisterKeeps(s, c);
    } else {
      MoveKeeps(s.pubs, c, Returned(0, Failed(s.client.book.dead.value)), s.client, s.channel);
    }
  }

  lemma WriteFailsKeepsBooks(k: Client, answers: map<Call, Reply>, n: Channel)
    requires Books(k, answers, n) && k.lock.Some? && k.book.dead.None? && k.book.seqNo == |n.wire| + 1
    ensures Books(k.(lock := None, book := HandBack(k.book)), answers, n)
  {
  }

  lemma WriteFailsKeepsCalls(s: State, c: Call)
    requires Inv(s) && WriteFailsStep(s, c).Some?
    ensures var s' := WriteFailsStep(s, c).value; Calls(s'.pubs, s'.client, s'.channel)
  {
    var s' := WriteFailsStep(s, c).value;
    assert forall d: Call :: TagOf(s'.pubs.calls, d) == TagOf(s.pubs.calls, d);
    NumbersStay(s.pubs, s'.pubs.calls, s.client, s.channel);
  }

  lemma WriteFailsKeeps(s: State, c: Call)
    requires Inv(s) && WriteFailsStep(s, c).Some?
    ensures Inv(WriteFailsStep(s, c).value)
  {
    WriteFailsKeepsCalls(s, c);
    WriteFailsKeepsBooks(s.client, s.pubs.answers, s.channel);
  }

  /** The call that writes becomes the owner of the next number, which it was registered under. */
  lemma WriteOkAttributes(calls: map<Call, Progress>, wire: seq<Message>, m: Message)
    requires Attributed(calls, wire) && TagOf(calls, m.call) == 0
    ensures Attributed(calls[m.call := Waiting(|wire| + 1)], wire + [m])
  {
    var calls', wire' := calls[m.call := Waiting(|wire| + 1)], wire + [m];
    forall d: Call | TagOf(calls', d) > 0
      ensures TagOf(calls', d) <= |wire'|
      ensures wire'[TagOf(calls', d) - 1].call == d
    {
      assert d != m.call ==> TagOf(calls, d) > 0;
    }
  }

  /** ... and nothing that was said about the others, or to them, is touched. */
  lemma WriteOkTells(p: Publishers, k: Client, n: Channel, c: Call, tag: nat)
    requires Calls(p, k, n) && TagOf(p.calls, c) == 0 && c in p.calls && p.calls[c] == Writing
    ensures c !in p.answers
    ensures var calls' := p.calls[c := Waiting(tag)];
            && Slotted(calls', p.slots, p.answers)
            && Truthful(k.book.dead, k.hand, calls', p.answers, n.sentBack, n.confirmed)
            && Reported(calls', n.sentBack, n.confirmed)
  {
    var calls' := p.calls[c := Waiting(tag)];
    assert forall d: Call :: d != c ==> TagOf(calls', d) == TagOf(p.calls, d);
  }

  lemma WriteOkNumbers(book: Book, calls: map<Call, Progress>, wire: seq<Message>, c: Call)
    requires Numbered(book, Some(c), calls, wire)
    ensures Numbered(book, None, calls[c := Waiting(book.seqNo)], wire + [Message(FormatUint(book.seqNo), c)])
  {
  }

  lemma WriteOkKeepsCalls(s: State, c: Call)
    requires Inv(s) && WriteOkStep(s, c).Some?
    ensures var s' := WriteOkStep(s, c).value; Calls(s'.pubs, s'.client, s'.channel)
  {
    var tag := s.client.book.seqNo;
    assert TagOf(s.pubs.calls, c) == 0;
    WriteOkNumbers(s.client.book, s.pubs.calls, s.channel.wire, c);
    WriteOkAttributes(s.pubs.calls, s.channel.wire, Message(FormatUint(tag), c));
    WriteOkTells(s.pubs, s.client, s.channel, c, tag);
  }

  /** The number that was being written becomes the number of the last message. */
  lemma WriteOkKeepsBooks(k: Client, answers: map<Call, Reply>, n: Channel, c: Call, wire': seq<Message>)
    requires Books(k, answers, n) && c !in answers
    requires k.book.seqNo == |n.wire| + 1 && k.lock == Some(c) && k.book.dead.None? && k.book.seqNo in k.book.waiters
    requires wire' == n.wire + [Message(FormatUint(k.book.seqNo), c)]
    ensures Books(k.(lock := None), answers, n.(wire := wire'))
  {
    assert forall t {:trigger wire'[t - 1]} :: 1 <= t <= |n.wire| ==> wire'[t - 1] == n.wire[t - 1];
  }

  lemma WriteOkKeeps(s: State, c: Call)
    requires Inv(s) && WriteOkStep(s, c).Some?
    ensures Inv(WriteOkStep(s, c).value)
  {
    WriteOkKeepsCalls(s, c);
    assert TagOf(s.pubs.calls, c) == 0;
    WriteOkKeepsBooks(s.client, s.pubs.answers, s.channel, c, WriteOkStep(s, c).value.channel.wire);
  }

  lemma WriterKeeps(s: State, step: Step)
    requires Inv(s) && Next(s, step).Some? && (step.Lock? || step.WriteOk? || step.WriteFails?)
    ensures Inv(Next(s, step).value)
  {
    match step
    case Lock(c) => LockKeeps(s, c);
    case WriteOk(c) => WriteOkKeeps(s, c);
    case WriteFails(c) => WriteFailsKeeps(s, c);
  }

  // ---------------------------------------------------------------------------------------------------
  // ... the broker

  lemma SendBackTracks(book: Book, hand: Hand, n: Channel, tag: nat)
    requires Tracked(book, hand, n.returnQueue, n.wire, n.sentBack) && 1 <= tag <= |n.wire|
    requires hand.Settling? && hand.conf.tag == tag && tag in book.waiters ==> tag in book.returned
    ensures Tracked(book, hand, n.returnQueue + [FormatUint(tag)], n.wire, n.sentBack + {tag})
  {
    var queue' := n.returnQueue + [FormatUint(tag)];
    assert forall i :: 0 <= i < |n.returnQueue| ==> queue'[i] == n.returnQueue[i];
    assert queue'[|n.returnQueue|] == FormatUint(tag);
  }

  lemma SendBackKeeps(k: Client, answers: map<Call, Reply>, n: Channel, tag: nat)
    requires Books(k, answers, n) && BrokerStep(n, SendBack(tag)).Some?
    requires n.wire[tag - 1].id == FormatUint(tag)
    ensures Books(k, answers, BrokerStep(n, SendBack(tag)).value)
  {
    SendBackTracks(k.book, k.hand, n, tag);
  }

  lemma ConfirmKeeps(k: Client, answers: map<Call, Reply>, n: Channel, tag: nat, ack: bool)
    requires Books(k, answers, n) && BrokerStep(n, Confirm(tag, ack)).Some?
    ensures Books(k, answers, BrokerStep(n, Confirm(tag, ack)).value)
  {
  }

  lemma SendBackForeignKeeps(k: Client, answers: map<Call, Reply>, n: Channel, id: string)
    requires Books(k, answers, n) && BrokerStep(n, SendBackForeign(id)).Some?
    ensures Books(k, answers, BrokerStep(n, SendBackForeign(id)).value)
  {
    var n' := BrokerStep(n, SendBackForeign(id)).value;
    assert forall i :: 0 <= i < |n.returnQueue| ==> n'.returnQueue[i] == n.returnQueue[i];
    assert n'.returnQueue[|n.returnQueue|] == id;
  }

  /** A decision is final: the broker neither returns nor confirms what it has confirmed. */
  lemma DecisionsAreFinal(p: Publishers, k: Client, n: Channel, step: Step)
    requires Calls(p, k, n) && BrokerStep(n, step).Some?
    ensures Calls(p, k, BrokerStep(n, step).value)
  {
  }

  lemma BrokerKeepsBooks(k: Client, answers: map<Call, Reply>, n: Channel, step: Step)
    requires Books(k, answers, n) && BrokerStep(n, step).Some?
    requires forall t :: 1 <= t <= |n.wire| ==> n.wire[t - 1].id == FormatUint(t)
    ensures Books(k, answers, BrokerStep(n, step).value)
  {
    match step
    case SendBack(tag) => SendBackKeeps(k, answers, n, tag);
    case Confirm(tag, ack) => ConfirmKeeps(k, answers, n, tag, ack);
    case SendBackForeign(id) => SendBackForeignKeeps(k, answers, n, id);
    case CloseChannel =>
  }

  lemma BrokerKeeps(s: State, step: Step)
    requires Inv(s) && BrokerStep(s.channel, step).Some?
    ensures Inv(s.(channel := BrokerStep(s.channel, step).value))
  {
    DecisionsAreFinal(s.pubs, s.client, s.channel, step);
    BrokerKeepsBooks(s.client, s.pubs.answers, s.channel, step);
  }

  // ---------------------------------------------------------------------------------------------------
  // ... the dispatcher

  /** A return that is taken in is recorded if its publish still waits: it stays in sight. */
  lemma MarkReturnedTracks(k: Client, n: Channel)
    requires Tracked(k.book, k.hand, n.returnQueue, n.wire, n.sentBack) && |n.wire| < LIMIT
    requires BookStep(k, MarkReturned).Some?
    ensures var k' := BookStep(k, MarkReturned).value; Tracked(k'.book, k'.hand, n.returnQueue, n.wire, n.sentBack)
  {
    forall t: nat {:trigger FormatUint(t)}
      ensures ParseUint(FormatUint(t)) == if t < LIMIT then Some(t) else None
    {
      ParseUndoesFormat(t);
    }
  }

  lemma MarkReturnedKeeps(k: Client, answers: map<Call, Reply>, n: Channel)
    requires Books(k, answers, n) && BookStep(k, MarkReturned).Some? && |n.wire| < LIMIT
    ensures Books(BookStep(k, MarkReturned).value, answers, n)
  {
    MarkReturnedTracks(k, n);
  }

  lemma SettleKeeps(k: Client, answers: map<Call, Reply>, n: Channel)
    requires Books(k, answers, n) && BookStep(k, Settle).Some?
    ensures Books(BookStep(k, Settle).value, answers, n)
  {
  }

  /** Settling takes a publish out of the maps with exactly what the broker decided about it: its return,
      if there was one, has been taken in by now. */
  lemma SettleDecides(k: Client, answers: map<Call, Reply>, n: Channel)
    requires Books(k, answers, n) && BookStep(k, Settle).Some?
    ensures var hand := BookStep(k, Settle).value.hand;
            hand.Answering? ==> Decided(n.sentBack, n.confirmed, hand.tag, hand.reply)
  {
  }

  lemma StopKeeps(k: Client, answers: map<Call, Reply>, n: Channel, reason: string)
    requires Books(k, answers, n) && BookStep(k, Stop(reason)).Some?
    ensures Books(BookStep(k, Stop(reason)).value, answers, n)
  {
    var k' := BookStep(k, Stop(reason)).value;
    assert Accounted(k'.book.waiters, k'.hand, answers, n.wire);
  }

  lemma BookKeeps(s: State, step: Step)
    requires Inv(s) && BookStep(s.client, step).Some?
    ensures Inv(s.(client := BookStep(s.client, step).value))
  {
    match step
    case MarkReturned => MarkReturnedKeeps(s.client, s.pubs.answers, s.channel);
    case Settle =>
      SettleKeeps(s.client, s.pubs.answers, s.channel);
      SettleDecides(s.client, s.pubs.answers, s.channel);
    case Stop(reason) => StopKeeps(s.client, s.pubs.answers, s.channel, reason);
    case StopEnds =>
  }

  /** A frame taken off a queue becomes the one in hand: nothing is lost on the way. */
  lemma TakeKeeps(k: Client, answers: map<Call, Reply>, n: Channel, step: Step)
    requires Books(k, answers, n) && TakeStep(k.hand, n, step).Some?
    ensures var t := TakeStep(k.hand, n, step).value; Books(k.(hand := t.0), answers, t.1)
  {
    var t := TakeStep(k.hand, n, step).value;
    if t.0.Marking? {
      assert n.returnQueue == [t.0.id] + t.1.returnQueue;
    } else if t.0.Draining? {
      assert n.confirmQueue == [t.0.conf] + t.1.confirmQueue;
    }
    assert Tracked(k.book, t.0, t.1.returnQueue, n.wire, n.sentBack);
  }

  /** The dispatcher's hand once one of the answers in it has been handed over. */
  function PutDown(hand: Hand, tag: nat): Hand {
    if hand.Stopping? then Stopping(hand.rest - {tag}, hand.cause) else Idle
  }

  /** An answer moves one message from the dispatcher's hand to the answered ones, and touches no other. */
  lemma ToldAccounts(s: State, tag: nat, reply: Reply, hand': Hand)
    requires Inv(s) && 1 <= tag <= |s.channel.wire| && InHand(s.client.hand, tag)
    requires hand' == PutDown(s.client.hand, tag)
    ensures
      var call := s.channel.wire[tag - 1].call;
      Accounted(s.client.book.waiters, hand', s.pubs.answers[call := reply], s.channel.wire)
  {
    var wire, calls := s.channel.wire, s.pubs.calls;
    var call := wire[tag - 1].call;
    var answers' := s.pubs.answers[call := reply];
    assert TagOf(calls, call) == tag;
    forall t {:trigger wire[t - 1]} | 1 <= t <= |wire|
      ensures Placed(s.client.book.waiters, hand', answers', t, wire[t - 1].call)
    {
      assert TagOf(calls, wire[t - 1].call) == t;
      assert Placed(s.client.book.waiters, s.client.hand, s.pubs.answers, t, wire[t - 1].call);
    }
  }

  lemma ToldKeeps(p: Publishers, k: Client, n: Channel, call: Call, reply: Reply, hand': Hand)
    requires Calls(p, k, n) && TagOf(p.calls, call) > 0 && !hand'.Answering?
    requires || Decided(n.sentBack, n.confirmed, TagOf(p.calls, call), reply)
             || (k.book.dead.Some? && reply == Failed(k.book.dead.value))
    ensures Calls(Tell(p, call, reply), k.(hand := hand'), n)
  {
  }

  /** Having answered, the dispatcher holds less than before; the queues and the maps are as they were. */
  lemma PuttingDownKeeps(k: Client, answers: map<Call, Reply>, n: Channel, tag: nat, hand': Hand)
    requires Books(k, answers, n) && InHand(k.hand, tag) && hand' == PutDown(k.hand, tag)
    ensures Registered(k.book, k.lock, hand', k.done, n.wire)
    ensures Tracked(k.book, hand', n.returnQueue, n.wire, n.sentBack)
    ensures Confirmed(k.book.waiters, hand', n.confirmQueue, n.wire, n.confirmed)
  {
  }

  lemma TellKeeps(s: State, tag: nat, call: Call, reply: Reply)
    requires Inv(s) && InHand(s.client.hand, tag)
    requires 1 <= tag <= |s.channel.wire| && call == s.channel.wire[tag - 1].call
    requires || Decided(s.channel.sentBack, s.channel.confirmed, tag, reply)
             || (s.client.book.dead.Some? && reply == Failed(s.client.book.dead.value))
    ensures Inv(State(Tell(s.pubs, call, reply), s.client.(hand := PutDown(s.client.hand, tag)), s.channel))
  {
    var hand' := PutDown(s.client.hand, tag);
    assert TagOf(s.pubs.calls, call) == tag;
    ToldAccounts(s, tag, reply, hand');
    ToldKeeps(s.pubs, s.client, s.channel, call, reply, hand');
    PuttingDownKeeps(s.client, s.pubs.answers, s.channel, tag, hand');
  }

  /** What the dispatcher is about to hand over is known to be true. */
  lemma HandIsKnown(s: State, tag: nat)
    requires Inv(s) && InHand(s.client.hand, tag)
    ensures 1 <= tag <= |s.channel.wire|
    ensures var hand, call := s.client.hand, s.channel.wire[tag - 1].call;
            if hand.Answering? then
              hand.call == call && Decided(s.channel.sentBack, s.channel.confirmed, tag, hand.reply)
            else
              hand.rest[tag] == call && s.client.book.dead == Some(hand.cause)
  {
  }

  lemma AnswerKeeps(s: State)
    requires Inv(s) && TellStep(s.pubs, s.client.hand, Answer).Some?
    ensures Inv(Next(s, Answer).value)
  {
    var hand := s.client.hand;
    HandIsKnown(s, hand.tag);
    TellKeeps(s, hand.tag, hand.call, hand.reply);
  }

  lemma StopAnswerKeeps(s: State, tag: nat)
    requires Inv(s) && TellStep(s.pubs, s.client.hand, StopAnswer(tag)).Some?
    ensures Inv(Next(s, StopAnswer(tag)).value)
  {
    var hand := s.client.hand;
    HandIsKnown(s, tag);
    TellKeeps(s, tag, hand.rest[tag], Failed(hand.cause));
  }

  predicate IsDispatch(step: Step) {
    match step
    case MarkReturned | Settle | Stop(_) | StopEnds | Answer | StopAnswer(_) => true
    case TakeReturn | TakeConfirm | DrainOne | DrainEnds => true
    case _ => false
  }

  lemma DispatcherKeeps(s: State, step: Step)
    requires Inv(s) && Next(s, step).Some? && IsDispatch(step)
    ensures Inv(Next(s, step).value)
  {
    match step
    case MarkReturned | Settle | Stop(_) | StopEnds => BookKeeps(s, step);
    case Answer => AnswerKeeps(s);
    case StopAnswer(tag) => StopAnswerKeeps(s, tag);
    case TakeReturn | TakeConfirm | DrainOne | DrainEnds => QueueStepKeeps(s, step);
  }

  /** Everything a step can do keeps the invariant. */
  lemma NextKeeps(s: State, step: Step)
    requires Inv(s) && Next(s, step).Some?
    ensures Inv(Next(s, step).value)
  {
    match step
    case Lock(_) | WriteOk(_) | WriteFails(_) => WriterKeeps(s, step);
    case SendBack(_) | SendBackForeign(_) | Confirm(_, _) | CloseChannel => BrokerKeeps(s, step);
    case Call(_) | Check(_) | Wake(_) | WakeDone(_) | GiveUp(_) => CallStepKeeps(s, step);
    case _ => DispatcherKeeps(s, step);
  }

  lemma QueueStepKeeps(s: State, step: Step)
    requires Inv(s) && Next(s, step).Some?
    requires step.TakeReturn? || step.TakeConfirm? || step.DrainOne? || step.DrainEnds?
    ensures Inv(Next(s, step).value)
  {
    TakeKeeps(s.client, s.pubs.answers, s.channel, step);
  }

  lemma CallStepKeeps(s: State, step: Step)
    requires Inv(s) && Next(s, step).Some?
    requires step.Call? || step.Check? || step.Wake? || step.WakeDone? || step.GiveUp?
    ensures Inv(Next(s, step).value)
  {
    PublisherKeeps(s.pubs, s.client, s.channel, step);
  }

  // ---------------------------------------------------------------------------------------------------
  // What every run satisfies

  ghost predicate Reachable(s: State) {
    exists steps :: After(Next, INIT, steps) == Some(s)
  }

  lemma ReachableInv(s: State)
    requires Reachable(s)
    ensures Inv(s)
  {
    var steps :| After(Next, INIT, steps) == Some(s);
    forall t, step | Inv(t) && Next(t, step).Some?
      ensures Inv(Next(t, step).value)
    {
      NextKeeps(t, step);
    }
    RunKeeps(Next, Inv, INIT, steps);
  }

  lemma ReachableNext(s: State, step: Step)
    requires Reachable(s) && Next(s, step).Some?
    ensures Reachable(Next(s, step).value)
  {
    var steps :| After(Next, INIT, steps) == Some(s);
    Extend(Next, INIT, steps, step);
  }

  /** The broker took the message over: it acked it and did not send it back. */
  predicate Accepted(n: Channel, tag: nat) {
    tag in n.confirmed && n.confirmed[tag] && tag !in n.sentBack
  }

  /** No false success: a publish that returns nil wrote exactly one message, under the number the broker
      counted for it, and the broker accepted that message. */
  lemma NoFalseSuccess(s: State, c: Call, tag: nat)
    requires Reachable(s) && At(s.pubs, c, Returned(tag, Delivered))
    ensures Accepted(s.channel, tag)
    ensures 1 <= tag <= |s.channel.wire| && s.channel.wire[tag - 1] == Message(FormatUint(tag), c)
    ensures forall t {:trigger s.channel.wire[t - 1]} ::
      1 <= t <= |s.channel.wire| && s.channel.wire[t - 1].call == c ==> t == tag
  {
    ReachableInv(s);
    assert TagOf(s.pubs.calls, c) == tag;
  }

  /** A call that has returned with a number has written the message with that number, and no other; one that has
      returned with none has written none. */
  lemma MessageOfCall(s: State, c: Call, tag: nat, reply: Reply, t: nat)
    requires Reachable(s) && At(s.pubs, c, Returned(tag, reply))
    requires 1 <= t <= |s.channel.wire| && s.channel.wire[t - 1].call == c
    ensures t == tag
  {
    ReachableInv(s);
    assert TagOf(s.pubs.calls, c) == tag;
  }

  /** One call had returned before another one began. */
  ghost predicate Follows(s: State, c: Call, d: Call) {
    exists m, steps ::
      && Reachable(m) && After(Next, m, steps) == Some(s)
      && c in m.pubs.calls && m.pubs.calls[c].Returned? && d !in m.pubs.calls
  }

  /** From a moment on at which a call has returned, whatever is written is written after what there was, and not by
      that call. */
  ghost predicate Since(m: State, c: Call, s: State) {
    && c in s.pubs.calls && s.pubs.calls[c].Returned?
    && m.channel.wire <= s.channel.wire
    && (forall t :: |m.channel.wire| <= t < |s.channel.wire| ==> s.channel.wire[t].call != c)
  }

  lemma NextKeepsSince(m: State, c: Call, s: State, step: Step)
    requires Since(m, c, s) && Next(s, step).Some?
    ensures Since(m, c, Next(s, step).value)
  {
    match step
    case Call(_) | Check(_) | Wake(_) | WakeDone(_) | GiveUp(_) =>
    case Lock(_) | WriteOk(_) | WriteFails(_) =>
    case _ =>
      assert Next(s, step).value.pubs.calls == s.pubs.calls;
      assert Next(s, step).value.channel.wire == s.channel.wire;
  }

  lemma NobodyWroteYet(m: State, d: Call, t: nat)
    requires Reachable(m) && d !in m.pubs.calls && 1 <= t <= |m.channel.wire|
    ensures m.channel.wire[t - 1].call != d
  {
    ReachableInv(m);
    assert TagOf(m.pubs.calls, m.channel.wire[t - 1].call) == t;
  }

  /** A call that begins after another one has returned writes its message after that one's. */
  lemma LaterCallsWriteLater(s: State, c: Call, d: Call, t: nat, u: nat)
    requires Follows(s, c, d)
    requires 1 <= t <= |s.channel.wire| && s.channel.wire[t - 1].call == c
    requires 1 <= u <= |s.channel.wire| && s.channel.wire[u - 1].call == d
    ensures t < u
  {
    var m, steps :|
      && Reachable(m) && After(Next, m, steps) == Some(s)
      && c in m.pubs.calls && m.pubs.calls[c].Returned? && d !in m.pubs.calls;
    var inv := (x: State) => Since(m, c, x);
    forall x, step | inv(x) && Next(x, step).Some?
      ensures inv(Next(x, step).value)
    {
      NextKeepsSince(m, c, x, step);
    }
    RunKeeps(Next, inv, m, steps);
    if u <= |m.channel.wire| {
      NobodyWroteYet(m, d, u);
    }
  }

  /** A publish that reports the message as unroutable, or as rejected, reports what the broker said. */
  lemma NoFalseAlarm(s: State, c: Call, tag: nat, e: Error)
    requires Reachable(s) && At(s.pubs, c, Returned(tag, Failed(e)))
    ensures e.Unroutable? ==> tag in s.channel.sentBack
    ensures e.Rejected? ==> tag in s.channel.confirmed && !s.channel.confirmed[tag]
    ensures e.PublishFailed? ==> forall t {:trigger s.channel.wire[t - 1]} ::
      1 <= t <= |s.channel.wire| ==> s.channel.wire[t - 1].call != c
  {
    ReachableInv(s);
    if e.PublishFailed? {
      assert TagOf(s.pubs.calls, c) == 0;
    }
  }

  /** The error rules out that the broker took the message over. */
  ghost predicate RulesOutDelivery(e: Error) {
    forall s, c, tag :: Reachable(s) && At(s.pubs, c, Returned(tag, Failed(e))) ==> !Accepted(s.channel, tag)
  }

  /** A run in which call 0 has the lock. */
  lemma LockedRun() returns (s: State)
    ensures Reachable(s)
    ensures s == State(Publishers(map[0 := Writing], map[], map[]),
                       Client(Register(EMPTY_BOOK, 0), Some(0), Idle, false),
                       INIT.channel)
  {
    assert After(Next, INIT, []) == Some(INIT);
    var s1 := Next(INIT, Call(0)).value;
    ReachableNext(INIT, Call(0));
    var s2 := Next(s1, Check(0)).value;
    ReachableNext(s1, Check(0));
    s := Next(s2, Lock(0)).value;
    ReachableNext(s2, Lock(0));
    assert s.pubs.calls == map[0 := Writing];
  }

  /** ... in which it has then written the only message, and waits. */
  lemma WrittenRun() returns (s: State)
    ensures Reachable(s)
    ensures At(s.pubs, 0, Waiting(1)) && s.pubs.slots == map[] && |s.channel.wire| == 1
    ensures s.client == Client(Register(EMPTY_BOOK, 0), None, Idle, false)
    ensures s.channel == INIT.channel.(wire := s.channel.wire)
  {
    var locked := LockedRun();
    s := Next(locked, WriteOk(0)).value;
    ReachableNext(locked, WriteOk(0));
  }

  /** ... in which the broker has then acked the message, and the dispatcher is about to settle it. */
  lemma AckedRun() returns (s: State)
    ensures Reachable(s)
    ensures At(s.pubs, 0, Waiting(1)) && s.pubs.slots == map[] && Accepted(s.channel, 1)
    ensures s.client == Client(Register(EMPTY_BOOK, 0), None, Settling(Confirmation(1, true)), false)
  {
    s := WrittenRun();
    var s2 := Next(s, Confirm(1, true)).value;
    ReachableNext(s, Confirm(1, true));
    assert s2.channel.confirmQueue[0] == Confirmation(1, true);
    var s3 := Next(s2, TakeConfirm).value;
    ReachableNext(s2, TakeConfirm);
    assert s3.channel.returnQueue == [];
    s := Next(s3, DrainEnds).value;
    ReachableNext(s3, DrainEnds);
  }

  /** ... and in which the waiter of call 0 holds nil, and the dispatcher is free. */
  lemma AnsweredRun() returns (s: State)
    ensures Reachable(s)
    ensures At(s.pubs, 0, Waiting(1)) && s.pubs.slots == map[0 := Delivered] && Accepted(s.channel, 1)
    ensures s.client == Client(Settled(Register(EMPTY_BOOK, 0), 1), None, Idle, false)
  {
    s := AckedRun();
    var s2 := Next(s, Settle).value;
    ReachableNext(s, Settle);
    assert s2.client.hand == Answering(1, 0, Delivered);
    s := Next(s2, Answer).value;
    ReachableNext(s2, Answer);
  }

  lemma EndAfterDelivery()
    ensures exists s ::
      Reachable(s) && At(s.pubs, 0, Returned(1, Failed(ContextEnded))) && Accepted(s.channel, 1)
  {
    var s := AnsweredRun();
    ReachableNext(s, GiveUp(0));
    var t := Next(s, GiveUp(0)).value;
    assert At(t.pubs, 0, Returned(1, Failed(ContextEnded)));
  }

  /** A run in which the waiter of call 0 holds nil, and the client is done. */
  lemma DoneRun(reason: string) returns (s: State)
    ensures Reachable(s)
    ensures At(s.pubs, 0, Waiting(1)) && s.pubs.slots == map[0 := Delivered] && Accepted(s.channel, 1)
    ensures s.client.done && s.client.lock.None? && s.client.book.dead == Some(ChannelClosed(reason))
  {
    var s1 := AnsweredRun();
    assert s1.client.book.waiters == map[];
    ReachableNext(s1, Stop(reason));
    var s2 := Next(s1, Stop(reason)).value;
    ReachableNext(s2, StopEnds);
    s := Next(s2, StopEnds).value;
  }

  lemma ClosureAfterDelivery(reason: string)
    ensures exists s ::
      Reachable(s) && At(s.pubs, 0, Returned(1, Failed(ChannelClosed(reason)))) && Accepted(s.channel, 1)
  {
    var s := DoneRun(reason);
    ReachableNext(s, WakeDone(0));
    var t := Next(s, WakeDone(0)).value;
    assert At(t.pubs, 0, Returned(1, Failed(ChannelClosed(reason))));
  }

  /** An error is not a proof that the message was not delivered: a publish whose waiter already holds nil may
      still return the closure of the channel, or the end of its context. */
  lemma ErrorAfterDelivery(e: Error)
    requires e.ChannelClosed? || e.ContextEnded?
    ensures exists s :: Reachable(s) && At(s.pubs, 0, Returned(1, Failed(e))) && Accepted(s.channel, 1)
  {
    if e.ContextEnded? {
      EndAfterDelivery();
    } else {
      ClosureAfterDelivery(e.reason);
    }
  }

  /** Exactly which errors of publish rule delivery out: all but the closure of the channel and the end of
      the context. */
  lemma WhichErrorsRuleOutDelivery(e: Error)
    ensures RulesOutDelivery(e) <==> !e.ChannelClosed? && !e.ContextEnded?
  {
    if e.ChannelClosed? || e.ContextEnded? {
      ErrorAfterDelivery(e);
    } else {
      forall s, c: Call, tag | Reachable(s) && At(s.pubs, c, Returned(tag, Failed(e)))
        ensures !Accepted(s.channel, tag)
      {
        ReachableInv(s);
      }
    }
  }

  /** What a call has written was not accepted, if it has returned an error of the other kinds. */
  lemma FailureRulesOut(s: State, c: Call, tag: nat, e: Error, t: nat)
    requires Reachable(s) && At(s.pubs, c, Returned(tag, Failed(e))) && !e.ChannelClosed? && !e.ContextEnded?
    requires 1 <= t <= |s.channel.wire| && s.channel.wire[t - 1].call == c
    ensures !Accepted(s.channel, t)
  {
    MessageOfCall(s, c, tag, Failed(e), t);
    WhichErrorsRuleOutDelivery(e);
  }

  /** Tag agreement: while the lock is free the client has counted what was written; the message with delivery
      tag t carries t as its id, reads back as t, and is registered, if at all, for the call that wrote it. */
  lemma TagAgreement(s: State)
    requires Reachable(s)
    ensures s.client.lock.None? ==> s.client.book.seqNo == |s.channel.wire|
    ensures forall t :: 1 <= t <= |s.channel.wire| ==>
      && ParseUint(s.channel.wire[t - 1].id) == Some(t)
      && (t in s.client.book.waiters ==> s.client.book.waiters[t] == s.channel.wire[t - 1].call)
  {
    NumbersAndWaiters(s);
    forall t | 1 <= t <= |s.channel.wire|
      ensures ParseUint(s.channel.wire[t - 1].id) == Some(t)
    {
      ParseUndoesFormat(t);
    }
  }

  lemma NumbersAndWaiters(s: State)
    requires Reachable(s)
    ensures |s.channel.wire| < LIMIT && (s.client.lock.None? ==> s.client.book.seqNo == |s.channel.wire|)
    ensures forall t :: 1 <= t <= |s.channel.wire| ==>
      && s.channel.wire[t - 1].id == FormatUint(t)
      && (t in s.client.book.waiters ==> s.client.book.waiters[t] == s.channel.wire[t - 1].call)
  {
    ReachableInv(s);
  }

  /** A message in the dispatcher's hand has not been answered, and its waiter's slot is empty. */
  lemma InHandIsUnanswered(s: State, tag: nat)
    requires Reachable(s) && InHand(s.client.hand, tag)
    ensures 1 <= tag <= |s.channel.wire|
    ensures s.channel.wire[tag - 1].call !in s.pubs.answers && s.channel.wire[tag - 1].call !in s.pubs.slots
    ensures s.client.hand.Answering? ==> s.client.hand.call == s.channel.wire[tag - 1].call
    ensures s.client.hand.Stopping? ==> s.client.hand.rest[tag] == s.channel.wire[tag - 1].call
  {
    ReachableInv(s);
    assert Placed(s.client.book.waiters, s.client.hand, s.pubs.answers, tag, s.channel.wire[tag - 1].call);
  }

  /** Exactly one answer: a waiter that is about to be answered was never answered before, so its slot is
      empty and the dispatcher does not block, whether or not the publisher has given up. */
  lemma NeverBlocks(s: State)
    requires Reachable(s)
    ensures s.client.hand.Answering? ==>
      s.client.hand.call !in s.pubs.answers && Next(s, Answer).Some?
    ensures s.client.hand.Stopping? ==> forall t :: t in s.client.hand.rest ==>
      s.client.hand.rest[t] !in s.pubs.answers && Next(s, StopAnswer(t)).Some?
  {
    var hand := s.client.hand;
    if hand.Answering? {
      InHandIsUnanswered(s, hand.tag);
    } else if hand.Stopping? {
      forall t | t in hand.rest
        ensures hand.rest[t] !in s.pubs.answers && hand.rest[t] !in s.pubs.slots
      {
        InHandIsUnanswered(s, t);
      }
    }
  }

  /** The call whose waiter a step puts an answer in, if it does. */
  function Told(hand: Hand, step: Step): Option<Call> {
    match step
    case Answer => if hand.Answering? then Some(hand.call) else None
    case StopAnswer(t) => if hand.Stopping? && t in hand.rest then Some(hand.rest[t]) else None
    case _ => None
  }

  /** Once given, an answer is never changed, taken back or repeated. */
  lemma AnswersOnlyGrow(s: State, step: Step)
    requires Reachable(s) && Next(s, step).Some?
    ensures var before, after := s.pubs.answers, Next(s, step).value.pubs.answers;
      if Told(s.client.hand, step).None? then after == before
      else Told(s.client.hand, step).value !in before && after - {Told(s.client.hand, step).value} == before
  {
    NeverBlocks(s);
  }

  /** The maps stay within the numbers given out, and stay empty for ever once the client has died. */
  lemma Bookkeeping(s: State)
    requires Reachable(s)
    ensures s.client.book.returned.Keys <= s.client.book.waiters.Keys
    ensures forall t :: t in s.client.book.waiters ==> 1 <= t <= s.client.book.seqNo
    ensures s.client.book.dead.Some? ==> s.client.book.waiters == map[] && s.client.book.returned == map[]
    ensures s.client.book.dead.Some? ==> forall step :: Next(s, step).Some? ==>
      Next(s, step).value.client.book.dead == s.client.book.dead
  {
    ReachableInv(s);
  }

  /** Nobody is left behind: once the client is done every message ever written has been answered, and every
      publish still waiting can return at once. */
  lemma EveryoneIsReleased(s: State)
    requires Reachable(s) && s.client.done
    ensures forall i :: 0 <= i < |s.channel.wire| ==> s.channel.wire[i].call in s.pubs.answers
    ensures forall c: Call :: IsWaiting(s.pubs, c) ==> Next(s, WakeDone(c)).Some?
  {
    ReachableInv(s);
    forall i | 0 <= i < |s.channel.wire|
      ensures s.channel.wire[i].call in s.pubs.answers
    {
      var t := i + 1;
      assert Placed(s.client.book.waiters, s.client.hand, s.pubs.answers, t, s.channel.wire[t - 1].call);
    }
  }

  /** Stopping always comes to an end, by answering each waiter that was registered and nothing else. */
  lemma {:induction false} StoppingEnds(s: State) returns (steps: seq<Step>)
    requires Reachable(s) && s.client.hand.Stopping?
    ensures |steps| == |s.client.hand.rest| + 1
    ensures After(Next, s, steps).Some? && After(Next, s, steps).value.client.done
    decreases |s.client.hand.rest|
  {
    var rest := s.client.hand.rest;
    if rest == map[] {
      steps := [StopEnds];
      assert After(Next, s, []) == Some(s);
    } else {
      var t :| t in rest;
      var s' := StopsOneMore(s, t);
      var later := StoppingEnds(s');
      steps := [StopAnswer(t)] + later;
      Prepend(Next, s, StopAnswer(t), later);
    }
  }

  lemma StopsOneMore(s: State, t: nat) returns (s': State)
    requires Reachable(s) && s.client.hand.Stopping? && t in s.client.hand.rest
    ensures Next(s, StopAnswer(t)) == Some(s') && Reachable(s')
    ensures s'.client.hand.Stopping? && |s'.client.hand.rest| == |s.client.hand.rest| - 1
  {
    NeverBlocks(s);
    ReachableNext(s, StopAnswer(t));
    s' := Next(s, StopAnswer(t)).value;
    assert s'.client.hand.rest.Keys == s.client.hand.rest.Keys - {t};
  }

  /** How much the dispatcher has to do before its queues are empty. */
  function Work(hand: Hand, n: Channel): nat {
    2 * |n.returnQueue| + 4 * |n.confirmQueue| +
    match hand
    case Marking(_, pending) => if pending.Some? then 4 else 1
    case Draining(_) => 3
    case Settling(_) => 2
    case Answering(_, _, _) => 1
    case _ => 0
  }

  /** The dispatcher's next step. It never has to wait for a publisher that is not writing. */
  function Duty(hand: Hand, n: Channel): Step {
    match hand
    case Idle => if n.confirmQueue != [] then TakeConfirm else TakeReturn
    case Marking(_, _) => MarkReturned
    case Draining(_) => if n.returnQueue != [] then DrainOne else DrainEnds
    case Settling(_) => Settle
    case Answering(_, _, _) => Answer
    case _ => StopEnds
  }

  lemma LiveMeansDispatching(s: State)
    requires Reachable(s) && s.client.book.dead.None?
    ensures !s.client.hand.Stopping? && !s.client.hand.Ended?
  {
    ReachableInv(s);
  }

  /** The same messages on the wire, and the broker has said the same about them. */
  predicate SaysTheSame(m: Channel, n: Channel) {
    m.wire == n.wire && m.sentBack == n.sentBack && m.confirmed == n.confirmed
  }

  /** Taking a frame off a queue is less work left. */
  lemma DutyTakes(hand: Hand, n: Channel)
    requires Work(hand, n) > 0 && (hand.Idle? || hand.Draining?)
    ensures var duty := Duty(hand, n);
      && (duty.TakeReturn? || duty.TakeConfirm? || duty.DrainOne? || duty.DrainEnds?)
      && TakeStep(hand, n, duty).Some?
      && var t := TakeStep(hand, n, duty).value;
         Work(t.0, t.1) < Work(hand, n) && SaysTheSame(t.1, n)
  {
  }

  /** ... and so is the critical section that follows. */
  lemma DutyBooks(k: Client, n: Channel)
    requires k.lock.None? && k.book.dead.None? && (k.hand.Marking? || k.hand.Settling?)
    ensures var duty := Duty(k.hand, n);
      && (duty.MarkReturned? || duty.Settle?)
      && BookStep(k, duty).Some?
      && var k' := BookStep(k, duty).value;
         Work(k'.hand, n) < Work(k.hand, n) && k'.lock.None? && k'.book.dead.None?
  {
  }

  lemma DutyMakesProgress(s: State) returns (s': State)
    requires Reachable(s) && s.client.lock.None? && s.client.book.dead.None?
    requires Work(s.client.hand, s.channel) > 0
    ensures Next(s, Duty(s.client.hand, s.channel)) == Some(s') && Reachable(s')
    ensures s'.client.lock.None? && s'.client.book.dead.None?
    ensures Work(s'.client.hand, s'.channel) < Work(s.client.hand, s.channel)
    ensures SaysTheSame(s'.channel, s.channel) && s'.pubs.calls == s.pubs.calls
  {
    LiveMeansDispatching(s);
    var hand, duty := s.client.hand, Duty(s.client.hand, s.channel);
    if hand.Idle? || hand.Draining? {
      DutyTakes(hand, s.channel);
    } else if hand.Answering? {
      NeverBlocks(s);
    } else {
      DutyBooks(s.client, s.channel);
    }
    s' := Next(s, duty).value;
    ReachableNext(s, duty);
  }

  /** With nothing left to do, everything the broker has confirmed has been answered. */
  lemma NothingIsForgotten(s: State, t: nat)
    requires Reachable(s) && s.client.book.dead.None? && Work(s.client.hand, s.channel) == 0
    requires t in s.channel.confirmed
    ensures 1 <= t <= |s.channel.wire| && s.channel.wire[t - 1].call in s.pubs.answers
  {
    ReachableInv(s);
    assert Placed(s.client.book.waiters, s.client.hand, s.pubs.answers, t, s.channel.wire[t - 1].call);
  }

  /** What the broker has confirmed on a channel has been answered. */
  ghost predicate AllConfirmedAnswered(n: Channel, answers: map<Call, Reply>) {
    forall t :: t in n.confirmed ==> 1 <= t <= |n.wire| && n.wire[t - 1].call in answers
  }

  lemma AllAreAnswered(s: State)
    requires Reachable(s) && s.client.book.dead.None? && Work(s.client.hand, s.channel) == 0
    ensures AllConfirmedAnswered(s.channel, s.pubs.answers)
  {
    forall t | t in s.channel.confirmed
      ensures 1 <= t <= |s.channel.wire| && s.channel.wire[t - 1].call in s.pubs.answers
    {
      NothingIsForgotten(s, t);
    }
  }

  /** Every confirmation reaches its publisher: while the client lives and nobody is writing, the dispatcher's
      own steps alone lead to a state where each confirmed message has been answered. */
  lemma {:induction false} EveryConfirmIsAnswered(s: State) returns (steps: seq<Step>, s': State)
    requires Reachable(s) && s.client.lock.None? && s.client.book.dead.None?
    ensures |steps| <= Work(s.client.hand, s.channel) && After(Next, s, steps) == Some(s')
    ensures Reachable(s') && s'.client.book.dead.None?
    ensures SaysTheSame(s'.channel, s.channel) && s'.pubs.calls == s.pubs.calls
    ensures AllConfirmedAnswered(s.channel, s'.pubs.answers)
    decreases Work(s.client.hand, s.channel)
  {
    if Work(s.client.hand, s.channel) == 0 {
      steps, s' := [], s;
      AllAreAnswered(s);
    } else {
      var s1 := DutyMakesProgress(s);
      var later;
      later, s' := EveryConfirmIsAnswered(s1);
      steps := [Duty(s.client.hand, s.channel)] + later;
      Prepend(Next, s, Duty(s.client.hand, s.channel), later);
    }
  }

  // ---------------------------------------------------------------------------------------------------
  // What a publish returns

  /** An answer stays in its slot until the call that waits for it takes it. */
  ghost predicate Kept(p: Publishers) {
    forall c: Call :: c in p.answers && IsWaiting(p, c) ==> c in p.slots
  }

  lemma WriterIsUnanswered(s: State, c: Call)
    requires Inv(s) && At(s.pubs, c, Writing)
    ensures c !in s.pubs.answers
  {
    assert TagOf(s.pubs.calls, c) == 0;
  }

  lemma StepKeepsSlots(s: State, step: Step)
    requires Kept(s.pubs) && Next(s, step).Some?
    requires step.WriteOk? ==> step.call !in s.pubs.answers
    ensures Kept(Next(s, step).value.pubs)
  {
  }

  lemma NextKeepsSlots(s: State, step: Step)
    requires Inv(s) && Kept(s.pubs) && Next(s, step).Some?
    ensures Kept(Next(s, step).value.pubs)
  {
    if step.WriteOk? {
      WriterIsUnanswered(s, step.call);
    }
    StepKeepsSlots(s, step);
  }

  lemma ReachableKept(s: State)
    requires Reachable(s)
    ensures Kept(s.pubs)
  {
    var inv := (t: State) => Inv(t) && Kept(t.pubs);
    var steps :| After(Next, INIT, steps) == Some(s);
    forall t, step | inv(t) && Next(t, step).Some?
      ensures inv(Next(t, step).value)
    {
      NextKeeps(t, step);
      NextKeepsSlots(t, step);
    }
    RunKeeps(Next, inv, INIT, steps);
  }

  /** A wait ends in three ways only: with the answer the waiter was given, with what the client died of, or with the
      end of the context. */
  lemma WaitEndsWith(s: State, step: Step, c: Call)
    requires Reachable(s) && IsWaiting(s.pubs, c) && Next(s, step).Some?
    ensures var tag, calls := s.pubs.calls[c].tag, Next(s, step).value.pubs.calls;
      && c in calls
      && match step
         case Wake(d) => calls[c] ==
           if d == c && c in s.pubs.answers then Returned(tag, s.pubs.answers[c]) else Waiting(tag)
         case WakeDone(d) => calls[c] ==
           if d == c && s.client.book.dead.Some? then Returned(tag, Failed(s.client.book.dead.value)) else Waiting(tag)
         case GiveUp(d) => calls[c] == if d == c then Returned(tag, Failed(ContextEnded)) else Waiting(tag)
         case _ => calls[c] == Waiting(tag)
  {
    ReachableInv(s);
  }

  /** While the client lives, an answer is the broker's decision. */
  lemma AnswerIsDecision(s: State, c: Call)
    requires Reachable(s) && s.client.book.dead.None? && IsWaiting(s.pubs, c) && c in s.pubs.answers
    ensures Decided(s.channel.sentBack, s.channel.confirmed, s.pubs.calls[c].tag, s.pubs.answers[c])
    ensures c in s.pubs.slots && s.pubs.slots[c] == s.pubs.answers[c]
  {
    ReachableKept(s);
    ReachableInv(s);
    assert TagOf(s.pubs.calls, c) == s.pubs.calls[c].tag;
  }

  lemma WaitingIsOnWire(s: State, c: Call)
    requires Reachable(s) && IsWaiting(s.pubs, c)
    ensures 1 <= s.pubs.calls[c].tag <= |s.channel.wire| && s.channel.wire[s.pubs.calls[c].tag - 1].call == c
  {
    ReachableInv(s);
    assert TagOf(s.pubs.calls, c) == s.pubs.calls[c].tag;
  }

  /** What the broker has decided about a message is what its publish returns: while the client lives and nobody is
      writing, the dispatcher's own steps and one of the call's lead there. */
  lemma DecisionIsReturned(s: State, c: Call) returns (steps: seq<Step>, s': State)
    requires Reachable(s) && s.client.lock.None? && s.client.book.dead.None?
    requires IsWaiting(s.pubs, c) && s.pubs.calls[c].tag in s.channel.confirmed
    ensures After(Next, s, steps) == Some(s') && SaysTheSame(s'.channel, s.channel)
    ensures
      var tag := s.pubs.calls[c].tag;
      At(s'.pubs, c, Returned(tag,
        if tag in s.channel.sentBack then Failed(Unroutable)
        else if s.channel.confirmed[tag] then Delivered else Failed(Rejected)))
  {
    WaitingIsOnWire(s, c);
    var duties, s1 := EveryConfirmIsAnswered(s);
    AnswerIsDecision(s1, c);
    Extend(Next, s, duties, Wake(c));
    steps, s' := duties + [Wake(c)], Next(s1, Wake(c)).value;
  }

  /** One step more of a run. */
  lemma OneMore(s: State, steps: seq<Step>, t: State, step: Step) returns (more: seq<Step>, u: State)
    requires After(Next, s, steps) == Some(t) && Reachable(t) && Next(t, step).Some?
    ensures more == steps + [step] && Next(t, step) == Some(u)
    ensures After(Next, s, more) == Some(u) && Reachable(u)
  {
    Extend(Next, s, steps, step);
    ReachableNext(t, step);
    more, u := steps + [step], Next(t, step).value;
  }

  lemma CallGoesAhead(s: State, c: Call) returns (s1: State, s2: State, s3: State)
    requires s.client.lock.None? && s.client.book.dead.None? && !s.client.done && s.channel.open
    requires c !in s.pubs.calls && s.client.book.seqNo + 1 < LIMIT
    ensures Next(s, Call(c)) == Some(s1) && Next(s1, Check(c)) == Some(s2) && Next(s2, Lock(c)) == Some(s3)
    ensures s3.client.book == Register(s.client.book, c) && s3.channel == s.channel && At(s3.pubs, c, Writing)
  {
    s1 := s.(pubs := Move(s.pubs, c, Called));
    s2 := s1.(pubs := Move(s1.pubs, c, Checked));
    s3 := LockStep(s2, c).value;
  }

  lemma CallIsLocked(s: State, c: Call) returns (steps: seq<Step>, s': State)
    requires Reachable(s) && s.client.lock.None? && s.client.book.dead.None? && !s.client.done && s.channel.open
    requires c !in s.pubs.calls && s.client.book.seqNo + 1 < LIMIT
    ensures After(Next, s, steps) == Some(s') && Reachable(s')
    ensures s'.client.book.dead.None? && At(s'.pubs, c, Writing)
    ensures s'.client.book == Register(s.client.book, c) && s'.channel == s.channel
  {
    var s1, s2, s3 := CallGoesAhead(s, c);
    var one, two, t;
    one, t := OneMore(s, [], s, Call(c));
    two, t := OneMore(s, one, s1, Check(c));
    steps, s' := OneMore(s, two, s2, Lock(c));
  }

  lemma NumbersOfChannel(s: State)
    requires Reachable(s)
    ensures s.client.lock.None? ==> s.client.book.seqNo == |s.channel.wire|
    ensures s.client.done <==> s.client.hand.Ended?
    ensures s.client.book.dead.None? ==> !s.client.done
    ensures forall t :: t in s.channel.sentBack || t in s.channel.confirmed ==> 1 <= t <= |s.channel.wire|
  {
    ReachableInv(s);
  }

  /** A call that finds the client alive, and the lock free, gets its message onto the wire. */
  lemma CallIsWritten(s: State, c: Call) returns (steps: seq<Step>, s': State)
    requires Reachable(s) && s.client.lock.None? && s.client.book.dead.None? && s.channel.open
    requires c !in s.pubs.calls && s.client.book.seqNo + 1 < LIMIT
    ensures After(Next, s, steps) == Some(s') && Reachable(s')
    ensures s'.client.lock.None? && s'.client.book.dead.None?
    ensures At(s'.pubs, c, Waiting(|s.channel.wire| + 1)) && |s'.channel.wire| == |s.channel.wire| + 1
    ensures s'.channel.sentBack == s.channel.sentBack && s'.channel.confirmed == s.channel.confirmed
  {
    NumbersOfChannel(s);
    steps, s' := CallIsLocked(s, c);
    steps, s' := OneMore(s, steps, s', WriteOk(c));
  }

  /** A write that fails leaves no trace: the call returns that, and the client and the channel are as they were. */
  lemma FailedWriteLeavesNothing(s: State, c: Call) returns (steps: seq<Step>, s': State)
    requires Reachable(s) && s.client.lock.None? && s.client.book.dead.None? && s.channel.open
    requires c !in s.pubs.calls && s.client.book.seqNo + 1 < LIMIT
    ensures After(Next, s, steps) == Some(s')
    ensures At(s'.pubs, c, Returned(0, Failed(PublishFailed))) && s'.channel == s.channel
    ensures s'.client.book == s.client.book && s'.client.lock.None?
  {
    NumbersOfChannel(s);
    WaitersAreBelow(s);
    steps, s' := CallIsLocked(s, c);
    HandBackUndoesRegister(s.client.book, c);
    steps, s' := OneMore(s, steps, s', WriteFails(c));
  }

  lemma WaitersAreBelow(s: State)
    requires Reachable(s)
    ensures s.client.book.seqNo + 1 !in s.client.book.waiters
  {
    ReachableInv(s);
  }

  lemma BrokerSpeaks(s: State, step: Step) returns (s': State)
    requires BrokerStep(s.channel, step).Some?
    requires step.SendBack? || step.Confirm?
    ensures Next(s, step) == Some(s') && s'.pubs == s.pubs && s'.client == s.client
    ensures s'.channel == BrokerStep(s.channel, step).value
  {
    s' := s.(channel := BrokerStep(s.channel, step).value);
  }

  lemma LastIsSentBack(s: State) returns (steps: seq<Step>, s': State)
    requires Reachable(s) && s.channel.wire != [] && |s.channel.wire| !in s.channel.confirmed
    ensures After(Next, s, steps) == Some(s') && Reachable(s')
    ensures s'.pubs == s.pubs && s'.client == s.client && s'.channel.wire == s.channel.wire
    ensures s'.channel.confirmed == s.channel.confirmed && |s.channel.wire| in s'.channel.sentBack
  {
    var t := BrokerSpeaks(s, SendBack(|s.channel.wire|));
    steps, s' := OneMore(s, [], s, SendBack(|s.channel.wire|));
  }

  /** The broker's word about the last message. */
  lemma LastIsConfirmed(s: State, back: bool, ack: bool) returns (steps: seq<Step>, s': State)
    requires Reachable(s) && s.channel.wire != [] && |s.channel.wire| !in s.channel.confirmed
    requires |s.channel.wire| !in s.channel.sentBack
    ensures After(Next, s, steps) == Some(s') && Reachable(s')
    ensures s'.pubs == s.pubs && s'.client == s.client && s'.channel.wire == s.channel.wire
    ensures |s.channel.wire| in s'.channel.sentBack <==> back
    ensures |s.channel.wire| in s'.channel.confirmed && s'.channel.confirmed[|s.channel.wire|] == ack
  {
    var t := |s.channel.wire|;
    var first, s1 := [], s;
    if back {
      first, s1 := LastIsSentBack(s);
    }
    var s2 := BrokerSpeaks(s1, Confirm(t, ack));
    steps, s' := OneMore(s, first, s1, Confirm(t, ack));
  }

  /** The round trip: from wherever a live client with a free lock and an open channel may be, a new call can go all
      the way, and returns what the broker says about its message, whatever that is. */
  lemma PublishRoundTrip(s: State, c: Call, back: bool, ack: bool) returns (steps: seq<Step>, s': State)
    requires Reachable(s) && s.client.lock.None? && s.client.book.dead.None? && s.channel.open
    requires c !in s.pubs.calls && s.client.book.seqNo + 1 < LIMIT
    ensures After(Next, s, steps) == Some(s')
    ensures At(s'.pubs, c, Returned(|s.channel.wire| + 1,
      if back then Failed(Unroutable) else if ack then Delivered else Failed(Rejected)))
  {
    NumbersOfChannel(s);
    var write, s1 := CallIsWritten(s, c);
    var confirm, s2 := LastIsConfirmed(s1, back, ack);
    var answer;
    answer, s' := DecisionIsReturned(s2, c);
    Concat(Next, s, write, confirm);
    Concat(Next, s, write + confirm, answer);
    steps := write + confirm + answer;
  }

  /** A call does not begin to write on a client that has died, or a channel that is closed: it returns why. */
  lemma DeadIsRefused(s: State, c: Call)
    requires Reachable(s) && At(s.pubs, c, Called) && (s.client.done || !s.channel.open)
    ensures Next(s, Check(c)).Some?
    ensures At(Next(s, Check(c)).value.pubs, c, Returned(0, Failed(
      if s.client.book.dead.Some? && s.client.done then s.client.book.dead.value
      else ChannelClosed("the channel is closed"))))
  {
  }

  /** Nothing is written, and no number given out, once the client has died. */
  lemma DeadWritesNothing(s: State, step: Step)
    requires Reachable(s) && s.client.book.dead.Some? && Next(s, step).Some?
    ensures Next(s, step).value.channel.wire == s.channel.wire
    ensures Next(s, step).value.client.book.seqNo == s.client.book.seqNo
    ensures step.Lock? ==> At(Next(s, step).value.pubs, step.call, Returned(0, Failed(s.client.book.dead.value)))
  {
    NobodyWritesToDead(s);
  }

  lemma NobodyWritesToDead(s: State)
    requires Reachable(s) && s.client.book.dead.Some?
    ensures s.client.book.waiters == map[]
    ensures forall c: Call :: !At(s.pubs, c, Writing)
  {
    ReachableInv(s);
  }

  // ---------------------------------------------------------------------------------------------------
  // Where errors come from

  /** What a call may return before the broker, or its own write, has failed it: the closure of a channel that is
      closed, or what a dead client died of. */
  ghost predicate TrulyClosed(s: State, e: Error) {
    e.ChannelClosed? && (!s.channel.open || s.client.book.dead == Some(e))
  }

  ghost predicate ClosuresAreTrue(s: State) {
    forall c: Call :: ReturnsClosure(s.pubs, c) ==> TrulyClosed(s, s.pubs.calls[c].reply.error)
  }

  predicate ReturnsClosure(p: Publishers, c: Call) {
    && c in p.calls && p.calls[c].Returned?
    && p.calls[c].reply.Failed? && p.calls[c].reply.error.ChannelClosed?
  }

  /** What a waiter holds: never the end of a context, and the closure only if that is what the client died of. */
  ghost predicate SlotIsTrue(s: State, c: Call) {
    && (s.client.done ==> s.client.book.dead.Some?)
    && (s.client.book.dead.Some? ==> s.client.book.dead.value.ChannelClosed?)
    && (c in s.pubs.slots && s.pubs.slots[c].Failed? ==>
          && !s.pubs.slots[c].error.ContextEnded?
          && (s.pubs.slots[c].error.ChannelClosed? ==> s.client.book.dead == Some(s.pubs.slots[c].error)))
  }

  lemma SlotsAreTrue(s: State, c: Call)
    requires Inv(s)
    ensures SlotIsTrue(s, c)
  {
    if c in s.pubs.slots {
      assert c in s.pubs.answers && s.pubs.slots[c] == s.pubs.answers[c];
    }
  }

  lemma TrulyClosedStays(s: State, step: Step, e: Error)
    requires Inv(s) && Next(s, step).Some? && TrulyClosed(s, e)
    ensures TrulyClosed(Next(s, step).value, e)
  {
  }

  /** A step that makes a call return the closure tells the truth. */
  lemma NewClosureIsTrue(s: State, step: Step, c: Call)
    requires SlotIsTrue(s, c) && Next(s, step).Some?
    requires c !in s.pubs.calls || !s.pubs.calls[c].Returned?
    requires ReturnsClosure(Next(s, step).value.pubs, c)
    ensures TrulyClosed(Next(s, step).value, Next(s, step).value.pubs.calls[c].reply.error)
  {
  }

  lemma NextKeepsClosures(s: State, step: Step)
    requires Inv(s) && ClosuresAreTrue(s) && Next(s, step).Some?
    ensures ClosuresAreTrue(Next(s, step).value)
  {
    var s' := Next(s, step).value;
    forall c: Call | ReturnsClosure(s'.pubs, c)
      ensures TrulyClosed(s', s'.pubs.calls[c].reply.error)
    {
      if c in s.pubs.calls && s.pubs.calls[c].Returned? {
        ReturnIsFinal(s, step, c);
        TrulyClosedStays(s, step, s.pubs.calls[c].reply.error);
      } else {
        SlotsAreTrue(s, c);
        NewClosureIsTrue(s, step, c);
      }
    }
  }

  /** A call returns once. */
  lemma ReturnIsFinal(s: State, step: Step, c: Call)
    requires Next(s, step).Some? && c in s.pubs.calls && s.pubs.calls[c].Returned?
    ensures c in Next(s, step).value.pubs.calls && Next(s, step).value.pubs.calls[c] == s.pubs.calls[c]
  {
  }

  /** In runs in which the context of a call does not end, the call does not return its end. */
  ghost predicate NotEnded(s: State, c: Call) {
    c in s.pubs.calls && s.pubs.calls[c].Returned? ==> s.pubs.calls[c].reply != Failed(ContextEnded)
  }

  lemma StepsDoNotEnd(s: State, step: Step, c: Call)
    requires SlotIsTrue(s, c) && NotEnded(s, c) && Next(s, step).Some? && step != GiveUp(c)
    ensures NotEnded(Next(s, step).value, c)
  {
  }

  lemma NextKeepsNotEnded(s: State, step: Step, c: Call)
    requires Inv(s) && NotEnded(s, c) && Next(s, step).Some? && step != GiveUp(c)
    ensures Inv(Next(s, step).value) && NotEnded(Next(s, step).value, c)
  {
    NextKeeps(s, step);
    SlotsAreTrue(s, c);
    StepsDoNotEnd(s, step, c);
  }

  /** Every error has its cause: the message was sent back, or rejected; the channel was closed, or the client died of
      just that; nothing was written; or the call's own context ended. There is no other error. */
  lemma ErrorsHaveCauses(steps: seq<Step>, s: State, c: Call, tag: nat, e: Error)
    requires After(Next, INIT, steps) == Some(s) && At(s.pubs, c, Returned(tag, Failed(e)))
    ensures match e
      case Unroutable => tag in s.channel.sentBack
      case Rejected => tag in s.channel.confirmed && !s.channel.confirmed[tag] && tag !in s.channel.sentBack
      case ChannelClosed(_) => !s.channel.open || s.client.book.dead == Some(e)
      case PublishFailed => tag == 0
      case ContextEnded => GiveUp(c) in steps
      case _ => false
  {
    assert Reachable(s);
    ReachableInv(s);
    if e.ChannelClosed? {
      ClosureHasCause(steps, s, c, tag, e);
    } else if e.ContextEnded? && GiveUp(c) !in steps {
      EndHasCause(steps, s, c);
    }
  }

  ghost predicate SoundSoFar(s: State) { Inv(s) && ClosuresAreTrue(s) }

  ghost predicate UnendedSoFar(s: State, c: Call) { Inv(s) && NotEnded(s, c) }

  lemma SoundStep(s: State, step: Step)
    requires SoundSoFar(s) && Next(s, step).Some?
    ensures SoundSoFar(Next(s, step).value)
  {
    NextKeeps(s, step);
    NextKeepsClosures(s, step);
  }

  lemma UnendedStep(s: State, step: Step, c: Call)
    requires UnendedSoFar(s, c) && Next(s, step).Some? && step != GiveUp(c)
    ensures UnendedSoFar(Next(s, step).value, c)
  {
    NextKeepsNotEnded(s, step, c);
  }

  lemma InitIsSound(c: Call)
    ensures SoundSoFar(INIT) && UnendedSoFar(INIT, c)
  {
  }

  lemma ClosureHasCause(steps: seq<Step>, s: State, c: Call, tag: nat, e: Error)
    requires After(Next, INIT, steps) == Some(s) && At(s.pubs, c, Returned(tag, Failed(e))) && e.ChannelClosed?
    ensures TrulyClosed(s, e)
  {
    InitIsSound(c);
    forall t, step | SoundSoFar(t) && Next(t, step).Some?
      ensures SoundSoFar(Next(t, step).value)
    {
      SoundStep(t, step);
    }
    RunKeeps(Next, SoundSoFar, INIT, steps);
  }

  lemma EndHasCause(steps: seq<Step>, s: State, c: Call)
    requires After(Next, INIT, steps) == Some(s) && GiveUp(c) !in steps
    ensures NotEnded(s, c)
  {
    InitIsSound(c);
    var inv := (t: State) => UnendedSoFar(t, c);
    var allowed := (step: Step) => step != GiveUp(c);
    forall t, step | inv(t) && allowed(step) && Next(t, step).Some?
      ensures inv(Next(t, step).value)
    {
      UnendedStep(t, step, c);
    }
    AllowedRunKeeps(Next, inv, allowed, INIT, steps);
  }
}
