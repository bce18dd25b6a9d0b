/** The client itself: the fields the publishers and the dispatcher update, one method per critical section,
    and the dispatch loop, while the connection's reader goes on queueing frames and publishers go on publishing. */
module RabbitClient {
  import opened Wrappers
  import opened PublisherConfirms
  import Decimal

  /** What happens during a dispatch: the connection's reader queues frames, or the closure of the channel; a publish
      gets the lock and writes; or nothing happens until the dispatcher has served all that is queued. */
  datatype Arrival =
    | Frames(back: seq<string>, confirms: seq<Confirmation>)
    | Publish(call: Call)
    | Closes(reason: string)
    | Quiet

  /** All returns there are: those queued, and those still to come. */
  function AllReturns(queue: seq<string>, coming: seq<Arrival>): seq<string>
    decreases |coming|
  {
    if coming == [] then queue
    else AllReturns(if coming[0].Frames? then queue + coming[0].back else queue, coming[1..])
  }

  function AllConfirms(queue: seq<Confirmation>, coming: seq<Arrival>): seq<Confirmation>
    decreases |coming|
  {
    if coming == [] then queue
    else AllConfirms(if coming[0].Frames? then queue + coming[0].confirms else queue, coming[1..])
  }

  lemma {:induction false} ReturnsSplit(queue: seq<string>, more: seq<string>, coming: seq<Arrival>)
    ensures AllReturns(queue + more, coming) == queue + AllReturns(more, coming)
    decreases |coming|
  {
    if coming != [] && coming[0].Frames? {
      assert queue + more + coming[0].back == queue + (more + coming[0].back);
      ReturnsSplit(queue, more + coming[0].back, coming[1..]);
    } else if coming != [] {
      ReturnsSplit(queue, more, coming[1..]);
    }
  }

  lemma {:induction false} ConfirmsSplit(queue: seq<Confirmation>, more: seq<Confirmation>, coming: seq<Arrival>)
    ensures AllConfirms(queue + more, coming) == queue + AllConfirms(more, coming)
    decreases |coming|
  {
    if coming != [] && coming[0].Frames? {
      assert queue + more + coming[0].confirms == queue + (more + coming[0].confirms);
      ConfirmsSplit(queue, more + coming[0].confirms, coming[1..]);
    } else if coming != [] {
      ConfirmsSplit(queue, more, coming[1..]);
    }
  }

  /** The publishes still to come, under the numbers they will get. */
  function Newcomers(seqNo: nat, coming: seq<Arrival>): map<nat, Call>
    decreases |coming|
  {
    if coming == [] then map[]
    else if !coming[0].Publish? then Newcomers(seqNo, coming[1..])
    else Newcomers(seqNo + 1, coming[1..])[seqNo + 1 := coming[0].call]
  }

  lemma {:induction false} NewcomersAreAbove(seqNo: nat, coming: seq<Arrival>)
    ensures forall t :: t in Newcomers(seqNo, coming) ==> t > seqNo
    decreases |coming|
  {
    if coming != [] {
      NewcomersAreAbove(if coming[0].Publish? then seqNo + 1 else seqNo, coming[1..]);
    }
  }

  /** Everyone who waits, or will. */
  function Everyone(b: Book, coming: seq<Arrival>): map<nat, Call> {
    b.waiters + Newcomers(b.seqNo, coming)
  }

  predicate IsReturnOf(id: string, tag: nat) { Decimal.ParseUint(id) == Some(tag) }

  predicate HasReturn(a: Arrival, tag: nat) {
    a.Frames? && exists id :: id in a.back && IsReturnOf(id, tag)
  }

  /** The return of a message does not come after its confirmation. */
  ghost predicate InOrder(confirms: seq<Confirmation>, coming: seq<Arrival>) {
    && (forall conf, k :: conf in confirms && 0 <= k < |coming| ==> !HasReturn(coming[k], conf.tag))
    && (forall conf, i, k ::
          0 <= i < k < |coming| && coming[i].Frames? && conf in coming[i].confirms ==> !HasReturn(coming[k], conf.tag))
  }

  /** ... and not before the message was written. */
  ghost predicate Timely(seqNo: nat, queue: seq<string>, coming: seq<Arrival>)
    decreases |coming|
  {
    && (forall id, t: nat :: id in queue && IsReturnOf(id, t) ==> t <= seqNo)
    && (coming != [] ==>
          match coming[0]
          case Frames(back, _) => Timely(seqNo, queue + back, coming[1..])
          case Publish(_) => Timely(seqNo + 1, queue, coming[1..])
          case Closes(_) | Quiet => Timely(seqNo, queue, coming[1..]))
  }

  /** Fewer returns are no less timely. */
  lemma {:induction false} TimelyRest(seqNo: nat, queue: seq<string>, rest: seq<string>, coming: seq<Arrival>)
    requires Timely(seqNo, queue, coming) && forall id :: id in rest ==> id in queue
    ensures Timely(seqNo, rest, coming)
    decreases |coming|
  {
    if coming != [] && coming[0].Frames? {
      TimelyRest(seqNo, queue + coming[0].back, rest + coming[0].back, coming[1..]);
    } else if coming != [] {
      TimelyRest(if coming[0].Publish? then seqNo + 1 else seqNo, queue, rest, coming[1..]);
    }
  }

  lemma {:induction false} NoneComing(coming: seq<Arrival>, tag: nat, queue: seq<string>)
    requires forall k :: 0 <= k < |coming| ==> !HasReturn(coming[k], tag)
    requires forall id :: id in queue ==> !IsReturnOf(id, tag)
    ensures forall id :: id in AllReturns(queue, coming) ==> !IsReturnOf(id, tag)
    decreases |coming|
  {
    if coming != [] {
      assert !HasReturn(coming[0], tag);
      assert forall k :: 0 <= k < |coming| - 1 ==> coming[1..][k] == coming[k + 1];
      NoneComing(coming[1..], tag, if coming[0].Frames? then queue + coming[0].back else queue);
    }
  }

  /** A return of this message is recorded, or among some returns. */
  ghost predicate Pending(returned: map<nat, Error>, back: seq<string>, tag: nat) {
    tag in returned || exists id :: id in back && IsReturnOf(id, tag)
  }

  /** Taking returns in does not change which publishes are known to be, or about to be, sent back. */
  lemma MarkAllKeepsPending(b: Book, queue: seq<string>, more: seq<string>, tag: nat)
    requires tag in b.waiters || forall id :: id in queue ==> !IsReturnOf(id, tag)
    ensures Pending(MarkAll(b, queue).returned, more, tag) <==> Pending(b.returned, queue + more, tag)
  {
    MarkAllMeaning(b, queue);
    assert forall id :: id in queue + more <==> id in queue || id in more;
    if id :| id in queue && IsReturnOf(id, tag) {
      var i :| 0 <= i < |queue| && queue[i] == id;
      assert Decimal.ParseUint(queue[i]) == Some(tag);
    }
    if i :| 0 <= i < |queue| && Decimal.ParseUint(queue[i]) == Some(tag) {
      assert queue[i] in queue + more && IsReturnOf(queue[i], tag);
    }
  }

  /** What the answer of a publish may be, given all that the broker says about it. */
  ghost predicate Fair(
    reply: Reply, tag: nat, returned: map<nat, Error>, back: seq<string>, confirms: seq<Confirmation>)
  {
    match reply
    case Delivered => Confirmation(tag, true) in confirms && !Pending(returned, back, tag)
    case Failed(Unroutable) => Pending(returned, back, tag)
    case Failed(Rejected) => Confirmation(tag, false) in confirms && !Pending(returned, back, tag)
    case Failed(_) => false
  }

  /** What the client and its queues hold at one moment of the dispatch. */
  datatype Desk = Desk(book: Book, returning: seq<string>, confirms: seq<Confirmation>, slots: map<Call, Reply>)

  /** Numbers in use were given out, and everyone who waits has a waiter of its own, which is empty. */
  ghost predicate Tidy(d: Desk) {
    && (forall t :: t in d.book.waiters ==> 1 <= t <= d.book.seqNo && d.book.waiters[t] !in d.slots)
    && (forall t, u :: t in d.book.waiters && u in d.book.waiters && t != u ==> d.book.waiters[t] != d.book.waiters[u])
    && (forall t :: t in d.book.returned ==> t in d.book.waiters && d.book.returned[t] == Unroutable)
  }

  /** ... and so will everyone who is still to come. */
  ghost predicate Ready(d: Desk, coming: seq<Arrival>) {
    var everyone := Everyone(d.book, coming);
    && Tidy(d)
    && (forall t :: t in everyone ==> everyone[t] !in d.slots)
    && (forall t, u :: t in everyone && u in everyone && t != u ==> everyone[t] != everyone[u])
  }

  /** What the environment keeps to. */
  ghost predicate Proper(d: Desk, coming: seq<Arrival>) {
    InOrder(d.confirms, coming) && Timely(d.book.seqNo, d.returning, coming)
  }

  /** How far a dispatch that began at one moment has come at another, with what is then still to come: who still waits,
      or will, is still as sent back as before, ... */
  ghost predicate Unmoved(d0: Desk, coming0: seq<Arrival>, d: Desk, coming: seq<Arrival>) {
    var everyone0, everyone := Everyone(d0.book, coming0), Everyone(d.book, coming);
    && d0.book.seqNo <= d.book.seqNo
    && (forall t :: t in everyone ==> t in everyone0 && everyone[t] == everyone0[t])
    && (forall t :: t in everyone ==>
          (Pending(d.book.returned, AllReturns(d.returning, coming), t) <==>
           Pending(d0.book.returned, AllReturns(d0.returning, coming0), t)))
    && (forall conf :: conf in AllConfirms(d.confirms, coming) ==> conf in AllConfirms(d0.confirms, coming0))
  }

  /** ... and who no longer waits has been answered fairly. */
  ghost predicate AnsweredFairly(d0: Desk, coming0: seq<Arrival>, d: Desk, coming: seq<Arrival>) {
    var everyone0 := Everyone(d0.book, coming0);
    && (forall c :: c in d0.slots ==> c in d.slots && d.slots[c] == d0.slots[c])
    && (forall t :: t in everyone0 && t !in Everyone(d.book, coming) ==>
          && everyone0[t] in d.slots
          && Fair(d.slots[everyone0[t]], t, d0.book.returned,
                  AllReturns(d0.returning, coming0), AllConfirms(d0.confirms, coming0)))
  }

  ghost predicate Faithful(d0: Desk, coming0: seq<Arrival>, d: Desk, coming: seq<Arrival>) {
    Unmoved(d0, coming0, d, coming) && AnsweredFairly(d0, coming0, d, coming)
  }

  /** A dispatch that is under way. */
  ghost predicate UnderWay(d0: Desk, coming0: seq<Arrival>, d: Desk, coming: seq<Arrival>) {
    Ready(d, coming) && Proper(d, coming) && Faithful(d0, coming0, d, coming)
  }

  /** A desk after something has happened. */
  function AfterArrival(d: Desk, a: Arrival): Desk {
    match a
    case Frames(back, confirms) => d.(returning := d.returning + back, confirms := d.confirms + confirms)
    case Publish(call) => d.(book := Register(d.book, call))
    case Closes(_) | Quiet => d
  }

  /** Whoever arrives was expected. */
  lemma ArrivalIsExpected(d: Desk, coming: seq<Arrival>)
    requires coming != []
    ensures Everyone(AfterArrival(d, coming[0]).book, coming[1..]) == Everyone(d.book, coming)
    ensures AllReturns(AfterArrival(d, coming[0]).returning, coming[1..]) == AllReturns(d.returning, coming)
    ensures AllConfirms(AfterArrival(d, coming[0]).confirms, coming[1..]) == AllConfirms(d.confirms, coming)
  {
    if coming[0].Publish? {
      NewcomersAreAbove(d.book.seqNo + 1, coming[1..]);
    }
  }

  lemma ArrivalIsProper(d: Desk, coming: seq<Arrival>)
    requires coming != [] && Proper(d, coming)
    ensures Proper(AfterArrival(d, coming[0]), coming[1..])
  {
    assert forall k :: 0 <= k < |coming| - 1 ==> coming[1..][k] == coming[k + 1];
  }

  /** The publish that comes next has a waiter nobody has used. */
  lemma NextCallIsNew(d: Desk, coming: seq<Arrival>)
    requires Ready(d, coming) && coming != [] && coming[0].Publish?
    ensures coming[0].call !in d.slots && coming[0].call !in d.book.waiters.Values
  {
    NewcomersAreAbove(d.book.seqNo, coming);
    var everyone, t := Everyone(d.book, coming), d.book.seqNo + 1;
    assert t in everyone && everyone[t] == coming[0].call;
    forall u | u in d.book.waiters
      ensures d.book.waiters[u] != coming[0].call
    {
      assert u in everyone && u != t;
    }
  }

  lemma ArrivalIsReady(d: Desk, coming: seq<Arrival>)
    requires Ready(d, coming) && coming != []
    ensures Ready(AfterArrival(d, coming[0]), coming[1..])
  {
    ArrivalIsExpected(d, coming);
    if coming[0].Publish? {
      NextCallIsNew(d, coming);
    }
  }

  /** What has happened is taken from what was still to come, so there is as much in all. */
  lemma SameInAll(
    d0: Desk, coming0: seq<Arrival>, d: Desk, coming: seq<Arrival>, d': Desk, coming': seq<Arrival>)
    requires Faithful(d0, coming0, d, coming)
    requires Everyone(d'.book, coming') == Everyone(d.book, coming) && d.book.seqNo <= d'.book.seqNo
    requires AllReturns(d'.returning, coming') == AllReturns(d.returning, coming)
    requires AllConfirms(d'.confirms, coming') == AllConfirms(d.confirms, coming)
    requires d'.book.returned == d.book.returned && d'.slots == d.slots
    ensures Faithful(d0, coming0, d', coming')
  {
  }

  lemma ArrivalIsFaithful(d0: Desk, coming0: seq<Arrival>, d: Desk, coming: seq<Arrival>)
    requires UnderWay(d0, coming0, d, coming) && coming != []
    ensures UnderWay(d0, coming0, AfterArrival(d, coming[0]), coming[1..])
  {
    ArrivalIsExpected(d, coming);
    ArrivalIsProper(d, coming);
    ArrivalIsReady(d, coming);
    SameInAll(d0, coming0, d, coming, AfterArrival(d, coming[0]), coming[1..]);
  }

  /** A desk after one return has been taken in. */
  function AfterReturn(d: Desk): Desk
    requires d.returning != []
  {
    d.(book := Mark(d.book, d.returning[0]), returning := d.returning[1..])
  }

  /** Somebody who has not published yet cannot have been sent back. */
  lemma NewcomersAreClean(d: Desk, coming: seq<Arrival>, t: nat)
    requires Ready(d, coming) && Proper(d, coming) && t in Everyone(d.book, coming)
    ensures t in d.book.waiters || (t > d.book.seqNo && t !in d.book.returned)
    ensures t in d.book.waiters || forall id :: id in d.returning ==> !IsReturnOf(id, t)
  {
    NewcomersAreAbove(d.book.seqNo, coming);
  }

  lemma ReturnLeavesAll(d: Desk, coming: seq<Arrival>, t: nat)
    requires Ready(d, coming) && Proper(d, coming) && d.returning != [] && t in Everyone(d.book, coming)
    ensures Pending(AfterReturn(d).book.returned, AllReturns(d.returning[1..], coming), t) <==>
            Pending(d.book.returned, AllReturns(d.returning, coming), t)
  {
    var first, rest := [d.returning[0]], d.returning[1..];
    assert d.returning == first + rest && MarkAll(d.book, first) == Mark(d.book, d.returning[0]);
    NewcomersAreClean(d, coming, t);
    ReturnsSplit(first, rest, coming);
    MarkAllKeepsPending(d.book, first, AllReturns(rest, coming), t);
  }

  lemma ReturnIsReady(d: Desk, coming: seq<Arrival>)
    requires Ready(d, coming) && d.returning != []
    ensures Ready(AfterReturn(d), coming) && Everyone(AfterReturn(d).book, coming) == Everyone(d.book, coming)
  {
    assert Everyone(AfterReturn(d).book, coming) == Everyone(d.book, coming);
  }

  lemma ReturnIsFaithful(d0: Desk, coming0: seq<Arrival>, d: Desk, coming: seq<Arrival>)
    requires UnderWay(d0, coming0, d, coming) && d.returning != []
    ensures UnderWay(d0, coming0, AfterReturn(d), coming)
  {
    ReturnIsReady(d, coming);
    TimelyRest(d.book.seqNo, d.returning, d.returning[1..], coming);
    forall t | t in Everyone(d.book, coming)
      ensures Pending(AfterReturn(d).book.returned, AllReturns(d.returning[1..], coming), t) <==>
              Pending(d.book.returned, AllReturns(d.returning, coming), t)
    {
      ReturnLeavesAll(d, coming, t);
    }
  }

  /** A desk after one confirmation has been answered, with every queued return taken in first. */
  function AfterConfirm(d: Desk): Desk
    requires d.confirms != []
  {
    var conf, book := d.confirms[0], MarkAll(d.book, d.returning);
    Desk(Settled(book, conf.tag), [], d.confirms[1..],
         if conf.tag in book.waiters then d.slots[book.waiters[conf.tag] := Verdict(book, conf)] else d.slots)
  }

  lemma ConfirmIsTidy(d: Desk)
    requires Tidy(d) && d.confirms != []
    requires forall t :: t in MarkAll(d.book, d.returning).returned ==>
      MarkAll(d.book, d.returning).returned[t] == Unroutable
    ensures Tidy(AfterConfirm(d))
  {
    MarkAllMeaning(d.book, d.returning);
  }

  /** Draining the returns keeps every publish as sent back as it was. */
  lemma DrainKeepsPending(d: Desk, coming: seq<Arrival>, t: nat)
    requires Ready(d, coming) && Proper(d, coming) && t in Everyone(d.book, coming)
    ensures Pending(MarkAll(d.book, d.returning).returned, AllReturns([], coming), t) <==>
            Pending(d.book.returned, AllReturns(d.returning, coming), t)
  {
    assert d.returning + [] == d.returning;
    NewcomersAreClean(d, coming, t);
    ReturnsSplit(d.returning, [], coming);
    MarkAllKeepsPending(d.book, d.returning, AllReturns([], coming), t);
  }

  /** ... and leaves no return of the message that is confirmed still to come. */
  lemma VerdictIsFair(d0: Desk, coming0: seq<Arrival>, d: Desk, coming: seq<Arrival>)
    requires Ready(d, coming) && Proper(d, coming) && Unmoved(d0, coming0, d, coming)
    requires d.confirms != [] && d.confirms[0].tag in d.book.waiters
    requires forall t :: t in MarkAll(d.book, d.returning).returned ==>
      MarkAll(d.book, d.returning).returned[t] == Unroutable
    ensures Fair(Verdict(MarkAll(d.book, d.returning), d.confirms[0]), d.confirms[0].tag, d0.book.returned,
                 AllReturns(d0.returning, coming0), AllConfirms(d0.confirms, coming0))
  {
    var conf := d.confirms[0];
    assert conf.tag in Everyone(d.book, coming);
    DrainKeepsPending(d, coming, conf.tag);
    NoneComing(coming, conf.tag, []);
    assert d.confirms + [] == d.confirms;
    ConfirmsSplit(d.confirms, [], coming);
    assert conf in AllConfirms(d.confirms, coming);
  }

  /** Settling takes one publish out and leaves everyone else. */
  lemma ConfirmLeavesOthers(d: Desk, coming: seq<Arrival>)
    requires Ready(d, coming) && d.confirms != []
    ensures
      var everyone, everyone' := Everyone(d.book, coming), Everyone(AfterConfirm(d).book, coming);
      && (forall t :: t in everyone' <==> t in everyone && (t == d.confirms[0].tag ==> t !in d.book.waiters))
      && (forall t :: t in everyone' ==> everyone'[t] == everyone[t])
  {
    MarkAllMeaning(d.book, d.returning);
    NewcomersAreAbove(d.book.seqNo, coming);
  }

  lemma ConfirmIsReady(d: Desk, coming: seq<Arrival>)
    requires Ready(d, coming) && d.confirms != []
    requires forall t :: t in MarkAll(d.book, d.returning).returned ==>
      MarkAll(d.book, d.returning).returned[t] == Unroutable
    ensures Ready(AfterConfirm(d), coming)
  {
    ConfirmIsTidy(d);
    ConfirmLeavesOthers(d, coming);
    MarkAllMeaning(d.book, d.returning);
    var conf := d.confirms[0];
    assert conf.tag in d.book.waiters ==> conf.tag in Everyone(d.book, coming);
  }

  lemma ConfirmIsUnmoved(d0: Desk, coming0: seq<Arrival>, d: Desk, coming: seq<Arrival>)
    requires Ready(d, coming) && Proper(d, coming) && Unmoved(d0, coming0, d, coming) && d.confirms != []
    ensures Unmoved(d0, coming0, AfterConfirm(d), coming)
  {
    var book, conf := MarkAll(d.book, d.returning), d.confirms[0];
    MarkAllMeaning(d.book, d.returning);
    ConfirmLeavesOthers(d, coming);
    forall t | t in Everyone(AfterConfirm(d).book, coming)
      ensures Pending(AfterConfirm(d).book.returned, AllReturns([], coming), t) <==>
              Pending(d.book.returned, AllReturns(d.returning, coming), t)
    {
      DrainKeepsPending(d, coming, t);
      NewcomersAreClean(d, coming, t);
    }
    assert d.confirms == [conf] + d.confirms[1..];
    ConfirmsSplit([conf], d.confirms[1..], coming);
  }

  lemma ConfirmAnswersOne(d0: Desk, coming0: seq<Arrival>, d: Desk, coming: seq<Arrival>)
    requires UnderWay(d0, coming0, d, coming) && d.confirms != []
    requires forall t :: t in MarkAll(d.book, d.returning).returned ==>
      MarkAll(d.book, d.returning).returned[t] == Unroutable
    ensures AnsweredFairly(d0, coming0, AfterConfirm(d), coming)
  {
    var conf := d.confirms[0];
    MarkAllMeaning(d.book, d.returning);
    ConfirmLeavesOthers(d, coming);
    if conf.tag in d.book.waiters {
      assert conf.tag in Everyone(d.book, coming);
      VerdictIsFair(d0, coming0, d, coming);
    }
  }

  lemma ConfirmIsFaithful(d0: Desk, coming0: seq<Arrival>, d: Desk, coming: seq<Arrival>)
    requires UnderWay(d0, coming0, d, coming) && d.confirms != []
    requires forall t :: t in MarkAll(d.book, d.returning).returned ==>
      MarkAll(d.book, d.returning).returned[t] == Unroutable
    ensures UnderWay(d0, coming0, AfterConfirm(d), coming)
  {
    ConfirmIsReady(d, coming);
    ConfirmIsUnmoved(d0, coming0, d, coming);
    ConfirmAnswersOne(d0, coming0, d, coming);
    MarkAllMeaning(d.book, d.returning);
    TimelyRest(d.book.seqNo, d.returning, [], coming);
  }

  /** A desk after everybody has been told that the channel was closed. */
  function AfterStop(d: Desk, cause: Error): Desk {
    d.(book := Stopped(d.book, cause), slots := Released(d.slots, d.book.waiters, cause))
  }

  /** Once the client has stopped, whoever had a number by then has been answered fairly, or with what it died of. */
  ghost predicate AllAnswered(d0: Desk, coming0: seq<Arrival>, d: Desk) {
    && d.book.dead.Some? && d0.book.seqNo <= d.book.seqNo
    && (forall c :: c in d0.slots ==> c in d.slots && d.slots[c] == d0.slots[c])
    && (forall t :: t in Everyone(d0.book, coming0) && t <= d.book.seqNo ==> Told(d0, coming0, d, t))
  }

  ghost predicate Told(d0: Desk, coming0: seq<Arrival>, d: Desk, t: nat)
    requires d.book.dead.Some? && t in Everyone(d0.book, coming0)
  {
    var call := Everyone(d0.book, coming0)[t];
    && call in d.slots
    && (|| d.slots[call] == Failed(d.book.dead.value)
        || Fair(d.slots[call], t, d0.book.returned,
                AllReturns(d0.returning, coming0), AllConfirms(d0.confirms, coming0)))
  }

  lemma StopAnswersOne(d: Desk, coming: seq<Arrival>, t: nat, cause: Error)
    requires Ready(d, coming) && t <= d.book.seqNo
    ensures t in Everyone(d.book, coming) <==> t in d.book.waiters
    ensures t in d.book.waiters ==>
      && d.book.waiters[t] in AfterStop(d, cause).slots
      && AfterStop(d, cause).slots[d.book.waiters[t]] == Failed(cause)
      && Everyone(d.book, coming)[t] == d.book.waiters[t]
  {
    NewcomersAreAbove(d.book.seqNo, coming);
  }

  lemma StopLeavesAnswers(d: Desk, cause: Error)
    requires Tidy(d)
    ensures forall c :: c in d.slots ==> c in AfterStop(d, cause).slots && AfterStop(d, cause).slots[c] == d.slots[c]
  {
  }

  lemma StopTells(d0: Desk, coming0: seq<Arrival>, d: Desk, coming: seq<Arrival>, t: nat, cause: Error)
    requires Ready(d, coming) && Faithful(d0, coming0, d, coming)
    requires t in Everyone(d0.book, coming0) && t <= d.book.seqNo
    ensures Told(d0, coming0, AfterStop(d, cause), t)
  {
    StopAnswersOne(d, coming, t, cause);
    if t !in d.book.waiters {
      StopLeavesAnswers(d, cause);
    }
  }

  lemma StopAnswersAll(d0: Desk, coming0: seq<Arrival>, d: Desk, coming: seq<Arrival>, cause: Error)
    requires Ready(d, coming) && Faithful(d0, coming0, d, coming)
    ensures AllAnswered(d0, coming0, AfterStop(d, cause))
  {
    StopLeavesAnswers(d, cause);
    forall t | t in Everyone(d0.book, coming0) && t <= d.book.seqNo
      ensures Told(d0, coming0, AfterStop(d, cause), t)
    {
      StopTells(d0, coming0, d, coming, t, cause);
    }
  }

  /** How many publishes are among the first n arrivals. */
  function Publishes(coming: seq<Arrival>, n: nat): nat
    requires n <= |coming|
  {
    if n == 0 then 0 else Publishes(coming, n - 1) + if coming[n - 1].Publish? then 1 else 0
  }

  lemma {:induction false} PublishesGrow(coming: seq<Arrival>, m: nat, n: nat)
    requires m <= n <= |coming|
    ensures Publishes(coming, m) <= Publishes(coming, n)
  {
    if m < n {
      PublishesGrow(coming, m, n - 1);
    }
  }

  lemma {:induction false} AllConfirmsOne(queue: seq<Confirmation>, coming: seq<Arrival>, a: Arrival)
    ensures AllConfirms(queue, coming + [a]) == AllConfirms(queue, coming) + if a.Frames? then a.confirms else []
    decreases |coming|
  {
    if coming != [] {
      assert (coming + [a])[1..] == coming[1..] + [a];
      AllConfirmsOne(if coming[0].Frames? then queue + coming[0].confirms else queue, coming[1..], a);
    }
  }

  /** The confirmations that have arrived by then. */
  function ConfirmsBefore(d0: Desk, coming: seq<Arrival>, n: nat): seq<Confirmation>
    requires n <= |coming|
  {
    AllConfirms(d0.confirms, coming[..n])
  }

  /** A message is not confirmed before it was written. */
  ghost predicate ConfirmsTimely(d0: Desk, coming: seq<Arrival>) {
    forall k, conf :: 0 <= k <= |coming| && conf in ConfirmsBefore(d0, coming, k) ==>
      conf.tag <= d0.book.seqNo + Publishes(coming, k)
  }

  /** What has been confirmed waits no longer, once the confirmation has been taken. */
  ghost predicate TakenIsSettled(confirms: seq<Confirmation>, d: Desk) {
    forall conf :: conf in confirms ==> conf in d.confirms || conf.tag !in d.book.waiters
  }

  ghost predicate AllSettled(confirms: seq<Confirmation>, b: Book) {
    forall conf :: conf in confirms ==> conf.tag !in b.waiters && conf.tag <= b.seqNo
  }

  /** Whenever it was quiet, all confirmations had been taken. */
  ghost predicate Serving(d0: Desk, coming: seq<Arrival>, at: nat, d: Desk)
    requires at <= |coming|
  {
    && TakenIsSettled(ConfirmsBefore(d0, coming, at), d)
    && (forall k :: 0 <= k < at && coming[k].Quiet? ==> AllSettled(ConfirmsBefore(d0, coming, k), d.book))
  }

  lemma ArrivalSettles(confirms: seq<Confirmation>, d: Desk, a: Arrival)
    requires TakenIsSettled(confirms, d) && forall conf :: conf in confirms ==> conf.tag <= d.book.seqNo
    ensures TakenIsSettled(confirms + if a.Frames? then a.confirms else [], AfterArrival(d, a))
  {
  }

  lemma ArrivalLeavesSettled(confirms: seq<Confirmation>, d: Desk, a: Arrival)
    requires AllSettled(confirms, d.book)
    ensures AllSettled(confirms, AfterArrival(d, a).book)
  {
  }

  lemma ConfirmsAreTimely(d0: Desk, coming: seq<Arrival>, at: nat)
    requires at <= |coming| && ConfirmsTimely(d0, coming)
    ensures forall conf :: conf in ConfirmsBefore(d0, coming, at) ==>
      conf.tag <= d0.book.seqNo + Publishes(coming, at)
  {
  }

  lemma QuietIsSettled(confirms: seq<Confirmation>, d: Desk)
    requires TakenIsSettled(confirms, d) && d.confirms == []
    requires forall conf :: conf in confirms ==> conf.tag <= d.book.seqNo
    ensures AllSettled(confirms, d.book)
  {
  }

  lemma ConfirmsWith(d0: Desk, coming: seq<Arrival>, at: nat)
    requires at < |coming|
    ensures ConfirmsBefore(d0, coming, at + 1) ==
            ConfirmsBefore(d0, coming, at) + if coming[at].Frames? then coming[at].confirms else []
  {
    assert coming[..at + 1] == coming[..at] + [coming[at]];
    AllConfirmsOne(d0.confirms, coming[..at], coming[at]);
  }

  lemma ArrivalKeepsQuiet(d0: Desk, coming: seq<Arrival>, at: nat, d: Desk, k: nat)
    requires at < |coming| && Serving(d0, coming, at, d) && k <= at && coming[k].Quiet?
    requires forall conf :: conf in ConfirmsBefore(d0, coming, at) ==> conf.tag <= d.book.seqNo
    requires k == at ==> d.confirms == []
    ensures AllSettled(ConfirmsBefore(d0, coming, k), AfterArrival(d, coming[at]).book)
  {
    if k == at {
      QuietIsSettled(ConfirmsBefore(d0, coming, at), d);
    }
    ArrivalLeavesSettled(ConfirmsBefore(d0, coming, k), d, coming[at]);
  }

  lemma ArrivalIsServed(d0: Desk, coming: seq<Arrival>, at: nat, d: Desk)
    requires at < |coming| && Serving(d0, coming, at, d) && ConfirmsTimely(d0, coming)
    requires d.book.seqNo == d0.book.seqNo + Publishes(coming, at)
    requires coming[at].Quiet? ==> d.confirms == []
    ensures Serving(d0, coming, at + 1, AfterArrival(d, coming[at]))
  {
    ConfirmsWith(d0, coming, at);
    ConfirmsAreTimely(d0, coming, at);
    ArrivalSettles(ConfirmsBefore(d0, coming, at), d, coming[at]);
    forall k | 0 <= k < at + 1 && coming[k].Quiet?
      ensures AllSettled(ConfirmsBefore(d0, coming, k), AfterArrival(d, coming[at]).book)
    {
      ArrivalKeepsQuiet(d0, coming, at, d, k);
    }
  }

  lemma ReturnIsServed(d0: Desk, coming: seq<Arrival>, at: nat, d: Desk)
    requires at <= |coming| && Serving(d0, coming, at, d) && d.returning != []
    ensures Serving(d0, coming, at, AfterReturn(d))
  {
  }

  lemma ConfirmIsServed(d0: Desk, coming: seq<Arrival>, at: nat, d: Desk)
    requires at <= |coming| && Serving(d0, coming, at, d) && d.confirms != []
    ensures Serving(d0, coming, at, AfterConfirm(d))
  {
    MarkAllMeaning(d.book, d.returning);
    assert d.confirms == [d.confirms[0]] + d.confirms[1..];
  }

  predicate NoClosure(coming: seq<Arrival>, n: nat)
    requires n <= |coming|
  {
    forall k :: 0 <= k < n ==> !coming[k].Closes?
  }

  /** Whoever was confirmed before it was quiet, and before the channel was closed, has been told what the broker said,
      and not the closure. */
  ghost predicate Served(d0: Desk, coming: seq<Arrival>, d: Desk) {
    forall k, conf ::
      0 <= k < |coming| && coming[k].Quiet? && NoClosure(coming, k) && conf in ConfirmsBefore(d0, coming, k)
      && conf.tag in Everyone(d0.book, coming) ==>
        && Everyone(d0.book, coming)[conf.tag] in d.slots
        && Fair(d.slots[Everyone(d0.book, coming)[conf.tag]], conf.tag, d0.book.returned,
                AllReturns(d0.returning, coming), AllConfirms(d0.confirms, coming))
  }

  lemma ConfirmedIsFair(
    d0: Desk, coming0: seq<Arrival>, d: Desk, coming: seq<Arrival>, t: nat, cause: Error)
    requires Ready(d, coming) && Faithful(d0, coming0, d, coming)
    requires t in Everyone(d0.book, coming0) && t <= d.book.seqNo && t !in d.book.waiters
    ensures var call, slots := Everyone(d0.book, coming0)[t], AfterStop(d, cause).slots;
            && call in slots
            && Fair(slots[call], t, d0.book.returned,
                    AllReturns(d0.returning, coming0), AllConfirms(d0.confirms, coming0))
  {
    StopAnswersOne(d, coming, t, cause);
    StopLeavesAnswers(d, cause);
  }

  lemma StopHasServed(d0: Desk, coming: seq<Arrival>, at: nat, d: Desk, closed: nat, cause: Error)
    requires at <= |coming| && Ready(d, coming[at..]) && Faithful(d0, coming, d, coming[at..])
    requires Serving(d0, coming, at, d) && closed < at && coming[closed].Closes?
    ensures Served(d0, coming, AfterStop(d, cause))
  {
    forall k, conf |
      0 <= k < |coming| && coming[k].Quiet? && NoClosure(coming, k) && conf in ConfirmsBefore(d0, coming, k)
      && conf.tag in Everyone(d0.book, coming)
      ensures Everyone(d0.book, coming)[conf.tag] in AfterStop(d, cause).slots
      ensures Fair(AfterStop(d, cause).slots[Everyone(d0.book, coming)[conf.tag]], conf.tag, d0.book.returned,
                   AllReturns(d0.returning, coming), AllConfirms(d0.confirms, coming))
    {
      assert k < closed;
      ConfirmedIsFair(d0, coming, d, coming[at..], conf.tag, cause);
    }
  }

  /** The client died of a closure that had arrived, and everything that was written before it had its number. */
  ghost predicate DiedOfClosure(coming: seq<Arrival>, before: nat, d: Desk) {
    exists k :: 0 <= k < |coming|
      && coming[k].Closes? && d.book.dead == Some(ChannelClosed(coming[k].reason))
      && before + Publishes(coming, k) <= d.book.seqNo
  }

  /** Every waiter of a map given the same bad news. */
  function Released(slots: map<Call, Reply>, waiters: map<nat, Call>, cause: Error): map<Call, Reply> {
    slots + map c | c in waiters.Values :: Failed(cause)
  }

  lemma ValuesSplit(waiters: map<nat, Call>, t: nat)
    requires t in waiters
    ensures waiters.Values == (waiters - {t}).Values + {waiters[t]}
  {
    forall c | c in waiters.Values
      ensures c in (waiters - {t}).Values + {waiters[t]}
    {
      var u :| u in waiters && waiters[u] == c;
      assert u == t || (u in waiters - {t} && (waiters - {t})[u] == c);
    }
  }

  lemma ReleaseOne(slots: map<Call, Reply>, waiters: map<nat, Call>, cause: Error, t: nat)
    requires t in waiters
    ensures Released(slots[waiters[t] := Failed(cause)], waiters - {t}, cause) == Released(slots, waiters, cause)
  {
    ValuesSplit(waiters, t);
    var once, rest := slots[waiters[t] := Failed(cause)], waiters - {t};
    assert Released(once, rest, cause).Keys == Released(slots, waiters, cause).Keys;
  }

  lemma FewerWaiters(waiters: map<nat, Call>, t: nat)
    requires t in waiters
    ensures |waiters - {t}| < |waiters|
  {
    assert (waiters - {t}).Keys == waiters.Keys - {t};
  }

  class Client {
    var seqNo: nat
    var waiters: map<nat, Call>
    var returned: map<nat, Error>
    var dead: Option<Error>
    var done: bool
    /** The waiters that hold an answer. */
    var slots: map<Call, Reply>
    /** What the connection's reader has queued. */
    var returnQueue: seq<string>
    var confirmQueue: seq<Confirmation>
    var closure: Option<string>

    ghost function View(): Book
      reads this
    {
      Book(seqNo, waiters, returned, dead)
    }

    ghost function All(): Desk
      reads this
    {
      Desk(View(), returnQueue, confirmQueue, slots)
    }

    ghost predicate Valid()
      reads this
    {
      && Tidy(All())
      && (dead.Some? ==> waiters == map[] && returned == map[])
      && (done <==> dead.Some?)
    }

    constructor ()
      ensures Valid() && !done && All() == Desk(EMPTY_BOOK, [], [], map[]) && closure.None?
    {
      seqNo, waiters, returned, dead, done := 0, map[], map[], None, false;
      slots, returnQueue, confirmQueue, closure := map[], [], [], None;
    }

    /** The part of a publish that holds the lock: number, waiter, write, and the number handed back when
        the write fails. */
    method Write(call: Call, written: bool) returns (err: Option<Error>)
      requires Valid() && call !in slots && call !in waiters.Values
      modifies `seqNo, `waiters
      ensures Valid()
      ensures View() == if old(dead.None?) && written then Register(old(View()), call) else old(View())
      ensures err == if old(dead.Some?) then dead else if written then None else Some(PublishFailed)
    {
      if dead.Some? {
        return dead;
      }
      ghost var before := View();
      seqNo := seqNo + 1;
      var tag := seqNo;
      waiters := waiters[tag := call];
      err := None;
      if !written {
        HandBackUndoesRegister(before, call);
        waiters := waiters - {tag};
        seqNo := seqNo - 1;
        err := Some(PublishFailed);
      }
    }

    method MarkReturned(id: string)
      modifies `returned
      ensures View() == Mark(old(View()), id)
    {
      var tag := Decimal.ParseUint(id);
      if tag.None? || tag.value !in waiters {
        return;
      }
      returned := returned[tag.value := Unroutable];
    }

    method DrainReturns()
      requires forall t :: t in returned ==> t in waiters && returned[t] == Unroutable
      modifies `returned, `returnQueue
      ensures returnQueue == [] && View() == MarkAll(old(View()), old(returnQueue))
      ensures forall t :: t in returned ==> t in waiters && returned[t] == Unroutable
    {
      while returnQueue != []
        invariant MarkAll(View(), returnQueue) == old(MarkAll(View(), returnQueue))
        invariant forall t :: t in returned ==> t in waiters && returned[t] == Unroutable
        decreases |returnQueue|
      {
        var id := returnQueue[0];
        returnQueue := returnQueue[1..];
        MarkReturned(id);
      }
    }

    method Settle(conf: Confirmation)
      modifies `waiters, `returned, `slots
      ensures View() == Settled(old(View()), conf.tag)
      ensures slots == if conf.tag in old(waiters)
                       then old(slots)[old(waiters)[conf.tag] := old(Verdict(View(), conf))]
                       else old(slots)
    {
      var waiter := if conf.tag in waiters then Some(waiters[conf.tag]) else None;
      waiters := waiters - {conf.tag};
      var reply := Verdict(Book(seqNo, waiters, returned, dead), conf);
      returned := returned - {conf.tag};
      if waiter.Some? {
        slots := slots[waiter.value := reply];
      }
    }

    method Release(registered: map<nat, Call>, cause: Error)
      modifies `slots
      ensures slots == Released(old(slots), registered, cause)
    {
      var rest := registered;
      while rest != map[]
        invariant Released(slots, rest, cause) == Released(old(slots), registered, cause)
        decreases |rest|
      {
        var t :| t in rest;
        ReleaseOne(slots, rest, cause, t);
        FewerWaiters(rest, t);
        slots := slots[rest[t] := Failed(cause)];
        rest := rest - {t};
      }
    }

    /** Does its work once: a client that has been stopped stays as it was. */
    method Stop(reason: string)
      requires done <==> dead.Some?
      modifies `waiters, `returned, `dead, `slots, `done
      ensures done && dead.Some?
      ensures All() == if old(done) then old(All()) else AfterStop(old(All()), ChannelClosed(reason))
    {
      if done {
        return;
      }
      var cause := ChannelClosed(reason);
      var registered := waiters;
      dead, waiters, returned := Some(cause), map[], map[];
      Release(registered, cause);
      done := true;
    }

    method TakeReturn()
      requires Valid() && returnQueue != []
      modifies `returned, `returnQueue
      ensures Valid() && All() == AfterReturn(old(All()))
    {
      var id := returnQueue[0];
      returnQueue := returnQueue[1..];
      MarkReturned(id);
    }

    method TakeConfirm()
      requires Valid() && confirmQueue != []
      modifies `waiters, `returned, `slots, `returnQueue, `confirmQueue
      ensures Valid() && All() == AfterConfirm(old(All()))
      ensures forall t :: t in old(MarkAll(View(), returnQueue)).returned ==>
        old(MarkAll(View(), returnQueue)).returned[t] == Unroutable
    {
      ghost var d := All();
      var conf := confirmQueue[0];
      confirmQueue := confirmQueue[1..];
      DrainReturns();
      MarkAllMeaning(d.book, d.returning);
      ConfirmIsTidy(d);
      Settle(conf);
      assert All() == AfterConfirm(d);
    }

    method Arrive(a: Arrival)
      requires Valid() && !done && (a.Publish? ==> a.call !in slots && a.call !in waiters.Values)
      modifies `seqNo, `waiters, `returnQueue, `confirmQueue, `closure
      ensures Valid() && All() == AfterArrival(old(All()), a)
      ensures closure == if a.Closes? && old(closure).None? then Some(a.reason) else old(closure)
    {
      match a {
        case Frames(back, confirms) =>
          returnQueue, confirmQueue := returnQueue + back, confirmQueue + confirms;
        case Publish(call) =>
          var err := Write(call, true);
        case Closes(reason) =>
          if closure.None? {
            closure := Some(reason);
          }
        case Quiet =>
      }
    }

    /** The closure has arrived, or is still to come. */
    ghost predicate Closing(coming: seq<Arrival>, at: nat)
      reads `closure
    {
      if closure.Some? then exists k :: 0 <= k < at && k < |coming| && coming[k] == Closes(closure.value)
      else exists k :: at <= k < |coming| && coming[k].Closes?
    }

    /** Where a dispatch is, when so many things have arrived. */
    ghost predicate Dispatching(d0: Desk, coming: seq<Arrival>, at: nat)
      reads this
    {
      && at <= |coming| && Closing(coming, at)
      && seqNo == d0.book.seqNo + Publishes(coming, at)
      && UnderWay(d0, coming, All(), coming[at..]) && Serving(d0, coming, at, All()) && ConfirmsTimely(d0, coming)
    }

    ghost predicate Dispatched(d0: Desk, coming: seq<Arrival>)
      reads this
    {
      && done && waiters == map[]
      && AllAnswered(d0, coming, All()) && Served(d0, coming, All()) && DiedOfClosure(coming, d0.book.seqNo, All())
    }

    method TakeArrival(coming: seq<Arrival>, at: nat, ghost d0: Desk)
      requires Valid() && !done && Dispatching(d0, coming, at) && at < |coming|
      requires coming[at].Quiet? ==> confirmQueue == []
      modifies this
      ensures Valid() && !done && Dispatching(d0, coming, at + 1)
    {
      assert coming[at..][0] == coming[at] && coming[at..][1..] == coming[at + 1..];
      if coming[at].Publish? {
        NextCallIsNew(All(), coming[at..]);
      }
      ArrivalIsFaithful(d0, coming, All(), coming[at..]);
      ArrivalIsServed(d0, coming, at, All());
      Arrive(coming[at]);
    }

    method NoticeClosure(ghost coming: seq<Arrival>, ghost at: nat, ghost d0: Desk)
      requires Valid() && !done && Dispatching(d0, coming, at) && closure.Some?
      modifies this
      ensures Valid() && Dispatched(d0, coming)
    {
      ghost var k :| 0 <= k < at && k < |coming| && coming[k] == Closes(closure.value);
      PublishesGrow(coming, k, at);
      StopAnswersAll(d0, coming, All(), coming[at..], ChannelClosed(closure.value));
      StopHasServed(d0, coming, at, All(), k, ChannelClosed(closure.value));
      Stop(closure.value);
      assert coming[k].Closes?;
    }

    /** One turn of the dispatch: something arrives, or one of the queues is served, or the closure is noticed, if it
        has arrived. The select may take any of these. */
    method Turn(coming: seq<Arrival>, at: nat, ghost d0: Desk) returns (next: nat)
      requires Valid() && !done && Dispatching(d0, coming, at)
      modifies this
      ensures Valid() && (if done then Dispatched(d0, coming) else Dispatching(d0, coming, next))
      ensures done || at < next || (next == at && |returnQueue| + |confirmQueue| < old(|returnQueue| + |confirmQueue|))
    {
      next := at;
      if
      case at < |coming| && (coming[at].Quiet? ==> returnQueue == [] && confirmQueue == []) =>
        TakeArrival(coming, at, d0);
        next := at + 1;
      case returnQueue != [] =>
        ReturnIsFaithful(d0, coming, All(), coming[at..]);
        ReturnIsServed(d0, coming, at, All());
        TakeReturn();
      case confirmQueue != [] =>
        ghost var d := All();
        TakeConfirm();
        ConfirmIsFaithful(d0, coming, d, coming[at..]);
        ConfirmIsServed(d0, coming, at, d);
      case closure.Some? =>
        NoticeClosure(coming, at, d0);
    }

    /** Takes returns and confirmations as they arrive, in any order but with the returns drained before each
        confirmation, while more publishes are written, until the closure of the channel is noticed. That may leave
        frames behind, and publishes that will find the client dead.

        Every publish that was written, before or meanwhile, is answered: with nil only if its confirmation is an ack
        and there is no return of it, as unroutable only if there is one, as rejected only if its confirmation is a
        nack, and otherwise with the closure, which has arrived by then. What was confirmed before the dispatcher had
        the time to serve its queues, and before the closure, is not answered with the closure. Nobody else is answered,
        and no earlier answer is touched. */
    method Dispatch(coming: seq<Arrival>)
      requires Valid() && !done && Ready(All(), coming) && Proper(All(), coming)
      requires ConfirmsTimely(All(), coming)
      requires closure.None? && exists k :: 0 <= k < |coming| && coming[k].Closes?
      modifies this
      ensures Valid() && done && waiters == map[]
      ensures AllAnswered(old(All()), coming, All()) && Served(old(All()), coming, All())
      ensures DiedOfClosure(coming, old(seqNo), All())
    {
      ghost var d0 := All();
      var at := 0;
      assert coming[0..] == coming && coming[..0] == [];
      while !done
        invariant Valid() && (if done then Dispatched(d0, coming) else Dispatching(d0, coming, at))
        decreases !done, |coming| - at, |returnQueue| + |confirmQueue|
      {
        at := Turn(coming, at, d0);
      }
    }
  }
}
