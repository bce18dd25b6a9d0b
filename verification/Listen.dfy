/** The listening process: a source that fills a bounded channel, one consumer that sends each event with
    retries over replaceable connections, and the order in which everything is shut down.

    A step is what the source, the consumer, the main goroutine or the environment does without being
    interrupted. The source stops emitting when it closes the channel; a row handler that is still running when
    the context ends is not part of this model. */
module Listen {
  import opened Wrappers
  import opened Events
  import opened PublisherConfirms
  import opened ConnectionPool
  import opened Retry
  import Runs
  import Source = MySqlSource
  import Protocol = ConfirmProtocol

  const CAPACITY: nat := 10240
  const MAX_RETRIES: nat := 3

  /** One publish of an event on a connection, in which of its sends, and what it returned. */
  datatype Attempt = Attempt(conn: Conn, event: Event, send: nat, reply: Reply)

  /** Where the consumer is with the event it took last. `send` counts the sends from 0. */
  datatype Place =
    | Idle
    | Starting(send: nat)
    | Publishing(send: nat, conn: Conn, first: Option<Error>)   // with the error of the first one, if it is the second
    | Replacing(send: nat, conn: Conn, failure: Error)
    | Again(send: nat, failure: Error)
    | Pausing(send: nat)
    | Exited

  /** The source's side of the channel. */
  datatype Feed = Feed(
    emitted: seq<Event>,             // everything ever put in the channel
    queue: seq<Event>,
    finished: Option<bool>)          // the source has returned and closed the channel: true for an error

  /** The consumer, and everything it ever did. */
  datatype Worker = Worker(
    place: Place,
    taken: seq<Event>,
    outcomes: seq<Reply>,            // what sending each event, retries and all, returned
    tries: seq<seq<Reply>>,          // what each send of it returned
    replies: seq<Reply>,             // the same for the event under way
    log: seq<Attempt>,               // every publish, in the order they were made
    spans: seq<seq<Attempt>>)        // the same publishes, event by event

  datatype Main = Awaiting | Draining(err: bool) | Finished(err: bool)

  datatype State = State(feed: Feed, worker: Worker, pool: Pool, cancelled: bool, main: Main)

  datatype Step =
    | Emit(event: Event)
    | SourceReturns(err: bool)
    | Cancel
    | GoesBad(conn: Conn)
    | Take
    | ExitDrained
    | ExitCancelled
    | NotEncoded
    | GetClient(dialOk: bool)
    | PublishReturns(reply: Reply)
    | Replace(dialOk: bool)
    | GetClientAgain(dialOk: bool)
    | PauseEnds
    | PauseCancelled
    | SourceSeen
    | Close

  const INIT: State := State(
    Feed([], [], None),
    Worker(Idle, [], [], [], [], [], []),
    FRESH, false, Awaiting)

  predicate Busy(place: Place) { !place.Idle? && !place.Exited? }

  /** The consumer is done with an event. */
  function Finish(w: Worker, reply: Reply): Worker
    requires Busy(w.place)
  {
    w.(place := Idle, outcomes := w.outcomes + [reply], tries := w.tries + [w.replies], replies := [])
  }

  /** A send has failed: the loop pauses and sends again, or gives up with this error. */
  function SendFailed(w: Worker, send: nat, e: Error): Worker
    requires Busy(w.place)
  {
    var tried := w.(replies := w.replies + [Failed(e)]);
    if IsRetriable(e) && send < MAX_RETRIES then tried.(place := Pausing(send)) else Finish(tried, Failed(e))
  }

  /** Writes a publish down, under the event it is of. */
  function Record(w: Worker, a: Attempt): Worker
    requires w.spans != []
  {
    var last := |w.spans| - 1;
    w.(log := w.log + [a], spans := w.spans[last := w.spans[last] + [a]])
  }

  /** What the consumer makes of a publish that has returned. */
  function PublishEnds(w: Worker, send: nat, conn: Conn, first: Option<Error>, reply: Reply): Worker
    requires Busy(w.place)
  {
    if reply == Delivered then Finish(w.(replies := w.replies + [Delivered]), Delivered)
    else if first.Some? then SendFailed(w, send, first.value)
    else if WorthReplacing(reply) then w.(place := Replacing(send, conn, reply.error))
    else SendFailed(w, send, reply.error)
  }

  /** The consumer's steps inside SendWithRetry. */
  function SendStep(w: Worker, pool: Pool, cancelled: bool, step: Step): Option<(Worker, Pool)> {
    match (step, w.place)
    case (NotEncoded, Starting(_)) =>
      Some((SendFailed(w, w.place.send, NotEncodable), pool))
    case (GetClient(dialOk), Starting(send)) =>
      var r := Current(pool, dialOk);
      if r.1.Some? then Some((w.(place := Publishing(send, r.1.value, None)), r.0))
      else Some((SendFailed(w, send, if pool.closed then ProducerClosed else DialFailed), r.0))
    case (PublishReturns(reply), Publishing(send, conn, first)) =>
      if w.spans == [] || w.taken == [] then None
      else
        var recorded := Record(w, Attempt(conn, w.taken[|w.taken| - 1], send, reply));
        Some((PublishEnds(recorded, send, conn, first, reply), pool))
    case (Replace(dialOk), Replacing(send, conn, first)) =>
      var r := Reconnect(pool, conn, dialOk);
      if r.1 == Replaced then Some((w.(place := Again(send, first)), r.0))
      else Some((SendFailed(w, send, first), r.0))
    case (GetClientAgain(dialOk), Again(send, first)) =>
      var r := Current(pool, dialOk);
      if r.1.Some? then Some((w.(place := Publishing(send, r.1.value, Some(first))), r.0))
      else Some((SendFailed(w, send, first), r.0))
    case (PauseEnds, Pausing(send)) =>
      Some((w.(place := Starting(send + 1)), pool))
    case (PauseCancelled, Pausing(_)) =>
      if cancelled then Some((Finish(w, Failed(ContextEnded)), pool)) else None
    case _ => None
  }

  /** The consumer's steps at the channel: the select may take an event although the context has ended. */
  function ChannelStep(w: Worker, f: Feed, cancelled: bool, step: Step): Option<(Worker, Feed)> {
    if w.place != Idle then None
    else
      match step
      case Take =>
        if f.queue == [] then None
        else Some((w.(place := Starting(0), taken := w.taken + [f.queue[0]], spans := w.spans + [[]]),
                   f.(queue := f.queue[1..])))
      case ExitDrained =>
        if f.queue == [] && f.finished.Some? then Some((w.(place := Exited), f)) else None
      case ExitCancelled =>
        if cancelled then Some((w.(place := Exited), f)) else None
      case _ => None
  }

  function Next(s: State, step: Step): Option<State> {
    match step
    case Emit(e) =>
      if s.feed.finished.Some? || |s.feed.queue| >= CAPACITY then None
      else Some(s.(feed := s.feed.(emitted := s.feed.emitted + [e], queue := s.feed.queue + [e])))
    case SourceReturns(err) =>
      if s.feed.finished.Some? then None else Some(s.(feed := s.feed.(finished := Some(err))))
    case Cancel => Some(s.(cancelled := true))
    case GoesBad(conn) =>
      if conn >= s.pool.dialed then None else Some(s.(pool := s.pool.(bad := s.pool.bad + {conn})))
    case Take | ExitDrained | ExitCancelled =>
      var r := ChannelStep(s.worker, s.feed, s.cancelled, step);
      if r.None? then None else Some(s.(worker := r.value.0, feed := r.value.1))
    case SourceSeen =>
      if s.main != Awaiting || s.feed.finished.None? then None
      else
        var err := s.feed.finished.value;
        Some(s.(main := Draining(err), cancelled := s.cancelled || err))
    case Close =>
      if !s.main.Draining? || s.worker.place != Exited then None
      else Some(s.(main := Finished(s.main.err), pool := Shut(s.pool).0))
    case _ =>
      var r := SendStep(s.worker, s.pool, s.cancelled, step);
      if r.None? then None else Some(s.(worker := r.value.0, pool := r.value.1))
  }

  // ---------------------------------------------------------------------------------------------------
  // The invariant

  function Flatten(spans: seq<seq<Attempt>>): seq<Attempt> {
    if spans == [] then [] else Flatten(spans[..|spans| - 1]) + spans[|spans| - 1]
  }

  lemma FlattenOne(spans: seq<seq<Attempt>>, span: seq<Attempt>)
    ensures Flatten(spans + [span]) == Flatten(spans) + span
  {
    assert (spans + [span])[..|spans + [span]| - 1] == spans;
  }

  lemma FlattenGrows(spans: seq<seq<Attempt>>, a: Attempt)
    requires spans != []
    ensures Flatten(spans[|spans| - 1 := spans[|spans| - 1] + [a]]) == Flatten(spans) + [a]
  {
    var before, last := spans[..|spans| - 1], spans[|spans| - 1];
    assert spans == before + [last];
    FlattenOne(before, last);
    FlattenOne(before, last + [a]);
    assert spans[|spans| - 1 := last + [a]] == before + [last + [a]];
    assert Flatten(before) + (last + [a]) == Flatten(before) + last + [a];
  }

  /** All publishes of a span are of one event, and only the last of them can have succeeded. */
  ghost predicate SpanOf(span: seq<Attempt>, e: Event) {
    && (forall i :: 0 <= i < |span| ==> span[i].event == e)
    && (forall i :: 0 <= i < |span| - 1 ==> span[i].reply.Failed?)
  }

  predicate Succeeded(span: seq<Attempt>) { span != [] && span[|span| - 1].reply == Delivered }

  /** How many publishes an event can have seen while the consumer is at a place. */
  function Budget(place: Place): nat {
    match place
    case Starting(send) => 2 * send
    case Publishing(send, _, first) => 2 * send + if first.Some? then 1 else 0
    case Replacing(send, _, _) => 2 * send + 1
    case Again(send, _) => 2 * send + 1
    case Pausing(send) => 2 * send + 2
    case _ => 2 * (MAX_RETRIES + 1)
  }

  /** The spans account for the log, and each event for its span. */
  ghost predicate Accounted(w: Worker) {
    && w.log == Flatten(w.spans)
    && |w.spans| == |w.taken|
    && |w.outcomes| == |w.taken| - (if Busy(w.place) then 1 else 0)
    && (forall k :: 0 <= k < |w.spans| ==> SpanOf(w.spans[k], w.taken[k]) && |w.spans[k]| <= 2 * (MAX_RETRIES + 1))
    && (forall k :: 0 <= k < |w.outcomes| ==> (w.outcomes[k] == Delivered <==> Succeeded(w.spans[k])))
  }

  /** A send has failed in a way that may pass. */
  predicate MayPass(reply: Reply) { reply.Failed? && !reply.error.NotEncodable? }

  /** Sends that come to an outcome: all but the last may pass, and the outcome is the last one's, unless the
      context ended the pause after it. */
  ghost predicate ComesTo(replies: seq<Reply>, outcome: Reply) {
    && 1 <= |replies| <= MAX_RETRIES + 1
    && (forall j :: 0 <= j < |replies| - 1 ==> MayPass(replies[j]))
    && var last := replies[|replies| - 1];
       || (outcome == last && (!MayPass(last) || |replies| == MAX_RETRIES + 1))
       || (outcome == Failed(ContextEnded) && MayPass(last) && |replies| <= MAX_RETRIES)
  }

  /** Every event is sent with retries, and none is given up early. */
  ghost predicate Persistent(w: Worker, cancelled: bool) {
    && |w.tries| == |w.outcomes|
    && (forall k :: 0 <= k < |w.tries| ==> ComesTo(w.tries[k], w.outcomes[k]))
    && (forall k :: 0 <= k < |w.tries| && w.outcomes[k].Failed? ==>
          |w.tries[k]| == MAX_RETRIES + 1 || w.outcomes[k].error == NotEncodable || cancelled)
    && |w.replies| == (if !Busy(w.place) then 0 else if w.place.Pausing? then w.place.send + 1 else w.place.send)
    && (forall j :: 0 <= j < |w.replies| ==> MayPass(w.replies[j]))
  }

  /** The event under way has not been delivered yet, and has its share of publishes left. */
  ghost predicate UnderWay(w: Worker) {
    Busy(w.place) ==>
      && w.spans != []
      && !Succeeded(w.spans[|w.spans| - 1])
      && |w.spans[|w.spans| - 1]| <= Budget(w.place)
      && w.place.send <= MAX_RETRIES
      && (w.place.Pausing? ==> w.place.send < MAX_RETRIES)
  }

  /** The client is the connection dialed last, and publishes are made on the connection dialed last. */
  ghost predicate Successive(w: Worker, p: Pool) {
    && (p.client.Some? ==> p.client.value == p.dialed - 1)
    && (w.place.Publishing? || w.place.Replacing? ==>
          p.client == Some(w.place.conn) && w.place.conn == p.dialed - 1 && !p.closed)
    && (forall i :: 0 <= i < |w.log| ==> w.log[i].conn < p.dialed)
    && (forall i, j :: 0 <= i < j < |w.log| ==> w.log[i].conn <= w.log[j].conn)
  }

  /** Who waits for whom when the process ends. */
  ghost predicate Orderly(s: State) {
    && s.worker.taken + s.feed.queue == s.feed.emitted
    && (s.main != Awaiting ==> s.feed.finished == Some(s.main.err) && (s.main.err ==> s.cancelled))
    && (s.worker.place == Exited ==> s.cancelled || (s.feed.finished.Some? && s.feed.queue == []))
    && (s.main.Finished? ==> s.worker.place == Exited)
    && (s.pool.closed <==> s.main.Finished?)
    && (s.pool.closed ==> s.pool.client.None?)
  }

  ghost predicate Inv(s: State) {
    && Accounted(s.worker) && UnderWay(s.worker) && Persistent(s.worker, s.cancelled)
    && Successive(s.worker, s.pool) && Orderly(s)
  }

  /** The event under way has seen so many publishes at most, and none that succeeded. */
  ghost predicate Unsent(w: Worker, most: nat) {
    w.spans != [] && !Succeeded(w.spans[|w.spans| - 1]) && |w.spans[|w.spans| - 1]| <= most
  }

  /** Going on to a place with room enough keeps the account. */
  lemma MoveKeeps(w: Worker, place: Place)
    requires Accounted(w) && Busy(w.place) && Busy(place) && Unsent(w, Budget(place))
    requires place.send <= MAX_RETRIES && (place.Pausing? ==> place.send < MAX_RETRIES)
    ensures Accounted(w.(place := place)) && UnderWay(w.(place := place))
  {
  }

  /** An event that is given up is not counted as delivered, and one that is delivered is. */
  lemma FinishKeeps(w: Worker, reply: Reply)
    requires Accounted(w) && Busy(w.place) && w.spans != []
    requires reply == Delivered <==> Succeeded(w.spans[|w.spans| - 1])
    ensures Accounted(Finish(w, reply)) && UnderWay(Finish(w, reply))
  {
  }

  lemma SendFailedKeeps(w: Worker, send: nat, e: Error)
    requires Accounted(w) && Busy(w.place) && Unsent(w, 2 * send + 2) && send <= MAX_RETRIES
    ensures Accounted(SendFailed(w, send, e)) && UnderWay(SendFailed(w, send, e))
  {
    var tried := w.(replies := w.replies + [Failed(e)]);
    if IsRetriable(e) && send < MAX_RETRIES {
      MoveKeeps(tried, Pausing(send));
    } else {
      FinishKeeps(tried, Failed(e));
    }
  }

  /** One more publish of the event under way. */
  lemma RecordKeeps(w: Worker, a: Attempt)
    requires Accounted(w) && UnderWay(w) && w.place.Publishing? && a.event == w.taken[|w.taken| - 1]
    ensures Accounted(Record(w, a)) && Record(w, a).spans != []
    ensures var span := Record(w, a).spans[|w.spans| - 1];
            |span| <= Budget(w.place) + 1 && (Succeeded(span) <==> a.reply == Delivered)
  {
    FlattenGrows(w.spans, a);
  }

  lemma PublishKeeps(w: Worker, a: Attempt)
    requires Accounted(w) && UnderWay(w) && w.place.Publishing? && a.event == w.taken[|w.taken| - 1]
    ensures
      var w' := PublishEnds(Record(w, a), w.place.send, w.place.conn, w.place.first, a.reply);
      Accounted(w') && UnderWay(w')
  {
    RecordKeeps(w, a);
    var recorded, send := Record(w, a), w.place.send;
    if a.reply == Delivered {
      FinishKeeps(recorded.(replies := recorded.replies + [Delivered]), Delivered);
    } else if w.place.first.Some? {
      SendFailedKeeps(recorded, send, w.place.first.value);
    } else if WorthReplacing(a.reply) {
      MoveKeeps(recorded, Replacing(send, w.place.conn, a.reply.error));
    } else {
      SendFailedKeeps(recorded, send, a.reply.error);
    }
  }

  /** The event is done with, after sends that come to its outcome. */
  lemma FinishPersists(w: Worker, outcome: Reply, cancelled: bool)
    requires |w.tries| == |w.outcomes| && Busy(w.place) && ComesTo(w.replies, outcome)
    requires forall k :: 0 <= k < |w.tries| ==> ComesTo(w.tries[k], w.outcomes[k])
    requires forall k :: 0 <= k < |w.tries| && w.outcomes[k].Failed? ==>
      |w.tries[k]| == MAX_RETRIES + 1 || w.outcomes[k].error == NotEncodable || cancelled
    requires outcome.Failed? ==> |w.replies| == MAX_RETRIES + 1 || outcome.error == NotEncodable || cancelled
    ensures Persistent(Finish(w, outcome), cancelled)
  {
  }

  lemma SendFailedPersists(w: Worker, send: nat, e: Error, cancelled: bool)
    requires Persistent(w, cancelled) && Busy(w.place) && !w.place.Pausing?
    requires w.place.send == send <= MAX_RETRIES
    ensures Persistent(SendFailed(w, send, e), cancelled)
  {
    if !IsRetriable(e) || send == MAX_RETRIES {
      FinishPersists(w.(replies := w.replies + [Failed(e)]), Failed(e), cancelled);
    }
  }

  lemma PublishPersists(w: Worker, reply: Reply, cancelled: bool)
    requires Persistent(w, cancelled) && w.place.Publishing? && w.place.send <= MAX_RETRIES
    ensures Persistent(PublishEnds(w, w.place.send, w.place.conn, w.place.first, reply), cancelled)
  {
    if reply == Delivered {
      FinishPersists(w.(replies := w.replies + [Delivered]), Delivered, cancelled);
    } else if w.place.first.Some? {
      SendFailedPersists(w, w.place.send, w.place.first.value, cancelled);
    } else if !WorthReplacing(reply) {
      SendFailedPersists(w, w.place.send, reply.error, cancelled);
    }
  }

  lemma SendStepPersists(w: Worker, pool: Pool, cancelled: bool, step: Step)
    requires UnderWay(w) && Persistent(w, cancelled) && SendStep(w, pool, cancelled, step).Some?
    ensures Persistent(SendStep(w, pool, cancelled, step).value.0, cancelled)
  {
    match step
    case PublishReturns(reply) =>
      PublishPersists(Record(w, Attempt(w.place.conn, w.taken[|w.taken| - 1], w.place.send, reply)), reply, cancelled);
    case PauseCancelled => FinishPersists(w, Failed(ContextEnded), cancelled);
    case PauseEnds =>
    case NotEncoded => SendFailedPersists(w, w.place.send, NotEncodable, cancelled);
    case GetClient(_) =>
      SendFailedPersists(w, w.place.send, if pool.closed then ProducerClosed else DialFailed, cancelled);
    case Replace(_) => SendFailedPersists(w, w.place.send, w.place.failure, cancelled);
    case GetClientAgain(_) => SendFailedPersists(w, w.place.send, w.place.failure, cancelled);
  }

  /** The steps that ask for a connection: they go on with it, or the send has failed. */
  lemma DialStepAccounts(w: Worker, pool: Pool, cancelled: bool, step: Step)
    requires Accounted(w) && UnderWay(w) && SendStep(w, pool, cancelled, step).Some?
    requires step.GetClient? || step.Replace? || step.GetClientAgain?
    ensures var w' := SendStep(w, pool, cancelled, step).value.0; Accounted(w') && UnderWay(w')
  {
    var w' := SendStep(w, pool, cancelled, step).value.0;
    if w'.place.Publishing? || w'.place.Again? {
      MoveKeeps(w, w'.place);
    } else if step.GetClient? {
      SendFailedKeeps(w, w.place.send, if pool.closed then ProducerClosed else DialFailed);
    } else {
      SendFailedKeeps(w, w.place.send, w.place.failure);
    }
  }

  lemma SendStepAccounts(w: Worker, pool: Pool, cancelled: bool, step: Step)
    requires Accounted(w) && UnderWay(w) && SendStep(w, pool, cancelled, step).Some?
    ensures var w' := SendStep(w, pool, cancelled, step).value.0; Accounted(w') && UnderWay(w')
  {
    match step
    case PublishReturns(reply) => PublishKeeps(w, Attempt(w.place.conn, w.taken[|w.taken| - 1], w.place.send, reply));
    case PauseCancelled => FinishKeeps(w, Failed(ContextEnded));
    case PauseEnds => MoveKeeps(w, Starting(w.place.send + 1));
    case NotEncoded => SendFailedKeeps(w, w.place.send, NotEncodable);
    case GetClient(_) | Replace(_) | GetClientAgain(_) => DialStepAccounts(w, pool, cancelled, step);
  }

  lemma PublishIsSuccessive(w: Worker, pool: Pool, a: Attempt)
    requires Successive(w, pool) && w.place.Publishing? && a.conn == w.place.conn && w.spans != []
    ensures
      var w' := PublishEnds(Record(w, a), w.place.send, w.place.conn, w.place.first, a.reply);
      Successive(w', pool) && w'.taken == w.taken && !w'.place.Exited?
  {
  }

  /** What a step of the consumer leaves as it was. */
  ghost predicate Leaves(w: Worker, p: Pool, w': Worker, p': Pool) {
    && w'.taken == w.taken && !w'.place.Exited? && p'.closed == p.closed
    && (p.closed && p.client.None? ==> p'.client.None?)
  }

  lemma DialStepIsSuccessive(w: Worker, pool: Pool, cancelled: bool, step: Step)
    requires Successive(w, pool) && SendStep(w, pool, cancelled, step).Some?
    requires step.GetClient? || step.Replace? || step.GetClientAgain?
    ensures var r := SendStep(w, pool, cancelled, step).value; Successive(r.0, r.1) && Leaves(w, pool, r.0, r.1)
  {
    var r := SendStep(w, pool, cancelled, step).value;
    assert r.0.log == w.log && pool.dialed <= r.1.dialed;
  }

  /** Publishes are made on the connection dialed last, and dials only go up. */
  lemma SendStepIsSuccessive(w: Worker, pool: Pool, cancelled: bool, step: Step)
    requires Successive(w, pool) && SendStep(w, pool, cancelled, step).Some?
    ensures var r := SendStep(w, pool, cancelled, step).value; Successive(r.0, r.1) && Leaves(w, pool, r.0, r.1)
  {
    match step
    case PublishReturns(reply) =>
      PublishIsSuccessive(w, pool, Attempt(w.place.conn, w.taken[|w.taken| - 1], w.place.send, reply));
    case GetClient(_) | Replace(_) | GetClientAgain(_) => DialStepIsSuccessive(w, pool, cancelled, step);
    case NotEncoded | PauseEnds | PauseCancelled =>
  }

  lemma ChannelStepKeeps(w: Worker, f: Feed, cancelled: bool, step: Step)
    requires Accounted(w) && UnderWay(w) && ChannelStep(w, f, cancelled, step).Some?
    ensures var r := ChannelStep(w, f, cancelled, step).value; Accounted(r.0) && UnderWay(r.0)
  {
    if step.Take? {
      FlattenOne(w.spans, []);
    }
  }

  lemma ChannelStepPersists(w: Worker, p: Pool, f: Feed, cancelled: bool, step: Step)
    requires Persistent(w, cancelled) && Successive(w, p) && ChannelStep(w, f, cancelled, step).Some?
    ensures var r := ChannelStep(w, f, cancelled, step).value; Persistent(r.0, cancelled) && Successive(r.0, p)
  {
  }

  lemma WorkerStepKeeps(s: State, step: Step)
    requires Inv(s) && Next(s, step).Some? && SendStep(s.worker, s.pool, s.cancelled, step).Some?
    ensures Inv(Next(s, step).value)
  {
    SendStepAccounts(s.worker, s.pool, s.cancelled, step);
    SendStepPersists(s.worker, s.pool, s.cancelled, step);
    SendStepIsSuccessive(s.worker, s.pool, s.cancelled, step);
  }

  lemma ChannelStepIsOrderly(s: State, step: Step)
    requires Orderly(s) && Next(s, step).Some? && ChannelStep(s.worker, s.feed, s.cancelled, step).Some?
    requires step.Take? || step.ExitDrained? || step.ExitCancelled?
    ensures Orderly(Next(s, step).value)
  {
  }

  lemma TakeStepKeeps(s: State, step: Step)
    requires Inv(s) && Next(s, step).Some? && (step.Take? || step.ExitDrained? || step.ExitCancelled?)
    ensures Inv(Next(s, step).value)
  {
    ChannelStepKeeps(s.worker, s.feed, s.cancelled, step);
    ChannelStepPersists(s.worker, s.pool, s.feed, s.cancelled, step);
    ChannelStepIsOrderly(s, step);
  }

  /** The steps that leave the consumer as it was. */
  lemma OtherStepKeeps(s: State, step: Step)
    requires Inv(s) && Next(s, step).Some?
    requires step.Emit? || step.SourceReturns? || step.Cancel? || step.GoesBad? || step.SourceSeen? || step.Close?
    ensures Inv(Next(s, step).value)
  {
  }

  lemma NextKeeps(s: State, step: Step)
    requires Inv(s) && Next(s, step).Some?
    ensures Inv(Next(s, step).value)
  {
    match step
    case Take | ExitDrained | ExitCancelled => TakeStepKeeps(s, step);
    case Emit(_) | SourceReturns(_) | Cancel | GoesBad(_) | SourceSeen | Close => OtherStepKeeps(s, step);
    case _ => WorkerStepKeeps(s, step);
  }

  // ---------------------------------------------------------------------------------------------------
  // What every run satisfies

  ghost predicate Reachable(s: State) {
    exists steps :: Runs.After(Next, INIT, steps) == Some(s)
  }

  lemma ReachableInv(s: State)
    requires Reachable(s)
    ensures Inv(s)
  {
    var steps :| Runs.After(Next, INIT, steps) == Some(s);
    forall t, step | Inv(t) && Next(t, step).Some?
      ensures Inv(Next(t, step).value)
    {
      NextKeeps(t, step);
    }
    Runs.RunKeeps(Next, Inv, INIT, steps);
  }

  /** The events of some publishes. */
  function EventsOf(log: seq<Attempt>): seq<Event> {
    seq(|log|, i requires 0 <= i < |log| => log[i].event)
  }

  function Repeated(e: Event, n: nat): seq<Event> {
    seq(n, i => e)
  }

  /** Each event a number of times, one event after the other. */
  function Expanded(events: seq<Event>, counts: seq<nat>): seq<Event>
    requires |events| == |counts|
  {
    if events == [] then []
    else Expanded(events[..|events| - 1], counts[..|counts| - 1]) + Repeated(events[|events| - 1], counts[|counts| - 1])
  }

  lemma {:induction false} SpansExpand(spans: seq<seq<Attempt>>, events: seq<Event>) returns (counts: seq<nat>)
    requires |spans| == |events|
    requires forall k :: 0 <= k < |spans| ==> SpanOf(spans[k], events[k]) && |spans[k]| <= 8
    ensures |counts| == |events| && forall k :: 0 <= k < |counts| ==> counts[k] == |spans[k]|
    ensures EventsOf(Flatten(spans)) == Expanded(events, counts)
  {
    if spans == [] {
      counts := [];
    } else {
      var last := |spans| - 1;
      var before := SpansExpand(spans[..last], events[..last]);
      counts := before + [|spans[last]|];
      assert counts[..last] == before;
      assert EventsOf(spans[last]) == Repeated(events[last], |spans[last]|);
      assert EventsOf(Flatten(spans)) == EventsOf(Flatten(spans[..last])) + EventsOf(spans[last]);
    }
  }

  /** End-to-end order: in every run, whatever fails and whichever connections are used, the publishes are the
      emitted events in order, each repeated 0 to 8 times without a gap, on connections that only move on. */
  lemma EndToEndOrder(s: State)
    requires Reachable(s)
    ensures exists counts: seq<nat> ::
      && |counts| <= |s.feed.emitted|
      && (forall k :: 0 <= k < |counts| ==> counts[k] <= 8)
      && EventsOf(s.worker.log) == Expanded(s.feed.emitted[..|counts|], counts)
    ensures forall i, j :: 0 <= i < j < |s.worker.log| ==> s.worker.log[i].conn <= s.worker.log[j].conn
  {
    ReachableInv(s);
    var w := s.worker;
    assert s.feed.emitted[..|w.taken|] == w.taken;
    var counts := SpansExpand(w.spans, w.taken);
  }

  /** What the log says about one event: its publishes are where its turn is, none follows a success, and the
      outcome is a success exactly when the last of them is. It is given up only after four sends, when it cannot
      be encoded, or once the context has ended. */
  lemma EveryOutcomeIsTrue(s: State, k: nat)
    requires Reachable(s) && k < |s.worker.outcomes|
    ensures k < |s.feed.emitted| && k < |s.worker.spans| && SpanOf(s.worker.spans[k], s.feed.emitted[k])
    ensures s.worker.log == Flatten(s.worker.spans)
    ensures s.worker.outcomes[k] == Delivered <==> Succeeded(s.worker.spans[k])
    ensures k < |s.worker.tries| && |s.worker.spans[k]| <= 8
    ensures s.worker.outcomes[k].Failed? ==>
      |s.worker.tries[k]| == 4 || s.worker.outcomes[k].error == NotEncodable || s.cancelled
  {
    ReachableInv(s);
    assert s.feed.emitted[k] == s.worker.taken[k];
  }

  /** The retry loop, given what its sends return, comes to the same outcome after as many sends. */
  lemma {:induction false} LoopComesTo(
    tries: seq<Reply>, outcome: Reply, i: nat, last: Reply, replies: nat -> Reply, ended: nat -> bool)
    requires ComesTo(tries, outcome) && i < |tries|
    requires forall j: nat :: j < |tries| ==> replies(j) == tries[j]
    requires forall j: nat :: ended(j) <==> j == |tries| - 1
    ensures Attempts(MAX_RETRIES, i, last, replies, ended) == (outcome, |tries|)
    decreases |tries| - i
  {
    if i < |tries| - 1 {
      LoopComesTo(tries, outcome, i + 1, replies(i), replies, ended);
    }
  }

  /** Each event is sent by the retry loop: its outcome and the number of its sends are what the loop makes of
      what those sends returned, in some course of the context. */
  lemma EachEventIsRetried(s: State, k: nat)
    requires Reachable(s) && k < |s.worker.outcomes|
    ensures k < |s.worker.tries|
    ensures exists replies: nat -> Reply, ended: nat -> bool ::
      && (forall j: nat :: j < |s.worker.tries[k]| ==> replies(j) == s.worker.tries[k][j])
      && Attempts(MAX_RETRIES, 0, Delivered, replies, ended) == (s.worker.outcomes[k], |s.worker.tries[k]|)
  {
    ReachableInv(s);
    var tries := s.worker.tries[k];
    var replies: nat -> Reply := (j: nat) => if j < |tries| then tries[j] else Delivered;
    var ended: nat -> bool := (j: nat) => j == |tries| - 1;
    LoopComesTo(tries, s.worker.outcomes[k], 0, Delivered, replies, ended);
  }

  // ---------------------------------------------------------------------------------------------------
  // The sends of an event

  /** The publishes of an event go through its sends in order, at most two in each. One that follows a publish the
      broker could not route belongs to a later send. */
  ghost predicate BySends(span: seq<Attempt>) {
    forall i, j :: 0 <= i < j < |span| ==>
      && span[i].send <= span[j].send
      && (span[i].reply == Failed(Unroutable) || i + 1 < j ==> span[i].send < span[j].send)
  }

  ghost predicate AllBefore(span: seq<Attempt>, send: nat) {
    forall i :: 0 <= i < |span| ==> span[i].send < send
  }

  /** One publish of this send at most, and not one that the broker could not route. */
  ghost predicate OnceIn(span: seq<Attempt>, send: nat) {
    forall i :: 0 <= i < |span| ==>
      && span[i].send <= send
      && (span[i].reply == Failed(Unroutable) || i + 1 < |span| ==> span[i].send < send)
  }

  /** What has been published of an event when the consumer is at a place. */
  ghost predicate Before(span: seq<Attempt>, place: Place) {
    match place
    case Starting(send) => AllBefore(span, send)
    case Publishing(send, _, first) => if first.None? then AllBefore(span, send) else OnceIn(span, send)
    case Replacing(send, _, _) => OnceIn(span, send)
    case Again(send, _) => OnceIn(span, send)
    case Pausing(send) => AllBefore(span, send + 1)
    case _ => true
  }

  ghost predicate InSends(w: Worker) {
    && (forall k :: 0 <= k < |w.spans| ==> BySends(w.spans[k]))
    && (Busy(w.place) ==> w.spans != [] && Before(w.spans[|w.spans| - 1], w.place))
  }

  lemma RecordInSends(span: seq<Attempt>, a: Attempt, place: Place)
    requires BySends(span) && place.Publishing? && Before(span, place) && a.send == place.send
    ensures BySends(span + [a]) && AllBefore(span + [a], a.send + 1)
    ensures place.first.None? && a.reply != Failed(Unroutable) ==> OnceIn(span + [a], a.send)
  {
  }

  lemma PublishInSends(w: Worker, a: Attempt)
    requires InSends(w) && w.place.Publishing? && a.send == w.place.send
    ensures InSends(PublishEnds(Record(w, a), w.place.send, w.place.conn, w.place.first, a.reply))
  {
    var last := |w.spans| - 1;
    RecordInSends(w.spans[last], a, w.place);
    assert Record(w, a).spans[last] == w.spans[last] + [a];
  }

  lemma SendStepInSends(w: Worker, pool: Pool, cancelled: bool, step: Step)
    requires InSends(w) && SendStep(w, pool, cancelled, step).Some?
    ensures InSends(SendStep(w, pool, cancelled, step).value.0)
  {
    if step.PublishReturns? {
      PublishInSends(w, Attempt(w.place.conn, w.taken[|w.taken| - 1], w.place.send, step.reply));
    }
  }

  lemma ChannelStepInSends(w: Worker, f: Feed, cancelled: bool, step: Step)
    requires InSends(w) && ChannelStep(w, f, cancelled, step).Some?
    ensures InSends(ChannelStep(w, f, cancelled, step).value.0)
  {
  }

  lemma ReachableInSends(s: State)
    requires Reachable(s)
    ensures InSends(s.worker)
  {
    var steps :| Runs.After(Next, INIT, steps) == Some(s);
    var inv := (t: State) => InSends(t.worker);
    forall t, step | inv(t) && Next(t, step).Some?
      ensures inv(Next(t, step).value)
    {
      if SendStep(t.worker, t.pool, t.cancelled, step).Some? {
        SendStepInSends(t.worker, t.pool, t.cancelled, step);
      } else if ChannelStep(t.worker, t.feed, t.cancelled, step).Some? {
        ChannelStepInSends(t.worker, t.feed, t.cancelled, step);
      }
    }
    Runs.RunKeeps(Next, inv, INIT, steps);
  }

  // ---------------------------------------------------------------------------------------------------
  // What a send reports

  /** The publishes of one send. */
  function OfSend(span: seq<Attempt>, send: nat): seq<Attempt> {
    if span == [] then []
    else
      var last := |span| - 1;
      OfSend(span[..last], send) + if span[last].send == send then [span[last]] else []
  }

  lemma OfSendOne(span: seq<Attempt>, a: Attempt, send: nat)
    ensures OfSend(span + [a], send) == OfSend(span, send) + if a.send == send then [a] else []
  {
    assert (span + [a])[..|span + [a]| - 1] == span;
  }

  lemma {:induction false} OfSendNone(span: seq<Attempt>, send: nat)
    requires AllBefore(span, send)
    ensures OfSend(span, send) == []
  {
    if span != [] {
      OfSendNone(span[..|span| - 1], send);
    }
  }

  /** A send that published nothing could not; one that did reports the success of its last publish, or else the error
      of its first. There is a second publish only after one that failed otherwise than as unroutable. */
  ghost predicate Reports(publishes: seq<Attempt>, reply: Reply) {
    match |publishes|
    case 0 => reply in {Failed(NotEncodable), Failed(ProducerClosed), Failed(DialFailed)}
    case 1 => reply == publishes[0].reply
    case 2 =>
      && publishes[0].reply.Failed? && !publishes[0].reply.error.Unroutable?
      && reply == if publishes[1].reply == Delivered then Delivered else publishes[0].reply
    case _ => false
  }

  ghost predicate AllReport(span: seq<Attempt>, replies: seq<Reply>) {
    forall j :: 0 <= j < |replies| ==> Reports(OfSend(span, j), replies[j])
  }

  /** The publishes of the send under way. */
  ghost predicate ReportsSoFar(span: seq<Attempt>, place: Place) {
    match place
    case Starting(send) => OfSend(span, send) == []
    case Publishing(send, _, first) =>
      if first.None? then OfSend(span, send) == [] else FailedOnce(OfSend(span, send), first.value)
    case Replacing(send, _, failure) => FailedOnce(OfSend(span, send), failure)
    case Again(send, failure) => FailedOnce(OfSend(span, send), failure)
    case _ => true
  }

  ghost predicate FailedOnce(publishes: seq<Attempt>, e: Error) {
    |publishes| == 1 && publishes[0].reply == Failed(e) && !e.Unroutable?
  }

  ghost predicate PastReports(w: Worker) {
    && |w.tries| == |w.outcomes| && |w.spans| == |w.tries| + (if Busy(w.place) then 1 else 0)
    && (forall k :: 0 <= k < |w.tries| ==> AllReport(w.spans[k], w.tries[k]))
  }

  ghost predicate PresentReports(place: Place, spans: seq<seq<Attempt>>, replies: seq<Reply>) {
    if Busy(place) then
      && spans != []
      && |replies| == (if place.Pausing? then place.send + 1 else place.send)
      && AllReport(spans[|spans| - 1], replies)
      && ReportsSoFar(spans[|spans| - 1], place)
    else replies == []
  }

  ghost predicate Reported(w: Worker) {
    PastReports(w) && PresentReports(w.place, w.spans, w.replies)
  }

  lemma AddReply(span: seq<Attempt>, replies: seq<Reply>, reply: Reply)
    requires AllReport(span, replies) && Reports(OfSend(span, |replies|), reply)
    ensures AllReport(span, replies + [reply])
  {
  }

  lemma FinishReports(w: Worker, outcome: Reply)
    requires PastReports(w) && Busy(w.place) && AllReport(w.spans[|w.spans| - 1], w.replies)
    ensures Reported(Finish(w, outcome))
  {
  }

  lemma MoveReports(w: Worker, place: Place)
    requires PastReports(w) && Busy(w.place) && Busy(place) && PresentReports(place, w.spans, w.replies)
    ensures Reported(w.(place := place))
  {
  }

  lemma SendFailedReports(w: Worker, send: nat, e: Error)
    requires PastReports(w) && Busy(w.place) && |w.replies| == send
    requires AllReport(w.spans[|w.spans| - 1], w.replies)
    requires Reports(OfSend(w.spans[|w.spans| - 1], send), Failed(e))
    ensures Reported(SendFailed(w, send, e))
  {
    AddReply(w.spans[|w.spans| - 1], w.replies, Failed(e));
    var tried := w.(replies := w.replies + [Failed(e)]);
    if IsRetriable(e) && send < MAX_RETRIES {
      MoveReports(tried, Pausing(send));
    } else {
      FinishReports(tried, Failed(e));
    }
  }

  /** What has been published stays reported when another publish of the send under way is written down. */
  lemma RecordReports(span: seq<Attempt>, a: Attempt, replies: seq<Reply>)
    requires AllReport(span, replies) && |replies| == a.send
    ensures AllReport(span + [a], replies) && OfSend(span + [a], a.send) == OfSend(span, a.send) + [a]
  {
    OfSendOne(span, a, a.send);
    forall j | 0 <= j < |replies|
      ensures Reports(OfSend(span + [a], j), replies[j])
    {
      OfSendOne(span, a, j);
    }
  }

  lemma RecordKeepsPast(w: Worker, a: Attempt)
    requires PastReports(w) && Busy(w.place)
    ensures PastReports(Record(w, a)) && Record(w, a).spans[|w.spans| - 1] == w.spans[|w.spans| - 1] + [a]
  {
  }

  /** A publish that has returned ends the send it belongs to, or is its first. */
  lemma PublishReports(w: Worker, a: Attempt)
    requires Reported(w) && w.place.Publishing? && a.send == w.place.send
    ensures Reported(PublishEnds(Record(w, a), w.place.send, w.place.conn, w.place.first, a.reply))
  {
    var send, recorded := w.place.send, Record(w, a);
    RecordReports(w.spans[|w.spans| - 1], a, w.replies);
    RecordKeepsPast(w, a);
    if a.reply == Delivered {
      AddReply(recorded.spans[|w.spans| - 1], w.replies, Delivered);
      FinishReports(recorded.(replies := w.replies + [Delivered]), Delivered);
    } else if w.place.first.Some? {
      SendFailedReports(recorded, send, w.place.first.value);
    } else if WorthReplacing(a.reply) {
      MoveReports(recorded, Replacing(send, w.place.conn, a.reply.error));
    } else {
      SendFailedReports(recorded, send, a.reply.error);
    }
  }

  /** The steps that ask for a connection: they go on with it, or the send has failed. */
  lemma DialStepReports(w: Worker, pool: Pool, cancelled: bool, step: Step)
    requires Reported(w) && SendStep(w, pool, cancelled, step).Some?
    requires step.GetClient? || step.Replace? || step.GetClientAgain?
    ensures Reported(SendStep(w, pool, cancelled, step).value.0)
  {
    var w' := SendStep(w, pool, cancelled, step).value.0;
    if w'.place.Publishing? || w'.place.Again? {
      MoveReports(w, w'.place);
    } else if step.GetClient? {
      SendFailedReports(w, w.place.send, if pool.closed then ProducerClosed else DialFailed);
    } else {
      SendFailedReports(w, w.place.send, w.place.failure);
    }
  }

  lemma SendStepReports(w: Worker, pool: Pool, cancelled: bool, step: Step)
    requires Reported(w) && InSends(w) && SendStep(w, pool, cancelled, step).Some?
    ensures Reported(SendStep(w, pool, cancelled, step).value.0)
  {
    match step
    case PublishReturns(reply) =>
      PublishReports(w, Attempt(w.place.conn, w.taken[|w.taken| - 1], w.place.send, reply));
    case NotEncoded => SendFailedReports(w, w.place.send, NotEncodable);
    case GetClient(_) | Replace(_) | GetClientAgain(_) => DialStepReports(w, pool, cancelled, step);
    case PauseEnds =>
      OfSendNone(w.spans[|w.spans| - 1], w.place.send + 1);
      MoveReports(w, Starting(w.place.send + 1));
    case PauseCancelled => FinishReports(w, Failed(ContextEnded));
  }

  lemma ChannelStepReports(w: Worker, f: Feed, cancelled: bool, step: Step)
    requires Reported(w) && ChannelStep(w, f, cancelled, step).Some?
    ensures Reported(ChannelStep(w, f, cancelled, step).value.0)
  {
  }

  lemma ReachableReported(s: State)
    requires Reachable(s)
    ensures Reported(s.worker)
  {
    var steps :| Runs.After(Next, INIT, steps) == Some(s);
    var inv := (t: State) => Reported(t.worker) && InSends(t.worker);
    forall t, step | inv(t) && Next(t, step).Some?
      ensures inv(Next(t, step).value)
    {
      if SendStep(t.worker, t.pool, t.cancelled, step).Some? {
        SendStepInSends(t.worker, t.pool, t.cancelled, step);
        SendStepReports(t.worker, t.pool, t.cancelled, step);
      } else if ChannelStep(t.worker, t.feed, t.cancelled, step).Some? {
        ChannelStepInSends(t.worker, t.feed, t.cancelled, step);
        ChannelStepReports(t.worker, t.feed, t.cancelled, step);
      }
    }
    Runs.RunKeeps(Next, inv, INIT, steps);
  }

  /** Every send of every event reports what its own publishes came to. */
  lemma SendsReport(s: State, k: nat, j: nat)
    requires Reachable(s) && k < |s.worker.tries| && j < |s.worker.tries[k]|
    ensures k < |s.worker.spans| && Reports(OfSend(s.worker.spans[k], j), s.worker.tries[k][j])
  {
    ReachableReported(s);
  }

  lemma FailureIsReplaced(s: State, e: Error) returns (s1: State, s2: State, s3: State)
    requires s.worker.place.Publishing? && s.worker.place.first.None? && s.worker.spans != [] && s.worker.taken != []
    requires s.pool.client == Some(s.worker.place.conn) && s.worker.place.conn < s.pool.dialed && !s.pool.closed
    requires s.worker.place.conn in s.pool.bad && !e.Unroutable?
    ensures Next(s, PublishReturns(Failed(e))) == Some(s1)
    ensures Next(s1, Replace(true)) == Some(s2)
    ensures Next(s2, GetClientAgain(true)) == Some(s3)
    ensures s3.worker.place == Publishing(s.worker.place.send, s.pool.dialed, Some(e))
  {
    s1 := Next(s, PublishReturns(Failed(e))).value;
    assert s1.worker.place == Replacing(s.worker.place.send, s.worker.place.conn, e) && s1.pool == s.pool;
    s2 := Next(s1, Replace(true)).value;
    assert s2.worker.place == Again(s.worker.place.send, e) && s2.pool.client == Some(s.pool.dialed);
    s3 := Next(s2, GetClientAgain(true)).value;
  }

  /** The second publish of a send: after a first one that failed otherwise than as unroutable, on a connection that has
      gone bad and can be replaced, the same send publishes on a later connection. */
  lemma FailureIsPublishedAgain(s: State, e: Error) returns (s': State)
    requires Reachable(s) && s.worker.place.Publishing? && s.worker.place.first.None?
    requires s.worker.place.conn in s.pool.bad && !e.Unroutable?
    ensures Runs.After(Next, s, [PublishReturns(Failed(e)), Replace(true), GetClientAgain(true)]) == Some(s')
    ensures var place := s.worker.place;
            s'.worker.place.Publishing? && s'.worker.place.send == place.send && place.conn < s'.worker.place.conn
  {
    ClientIsUsed(s);
    var s1, s2, s3 := FailureIsReplaced(s, e);
    Runs.Three(Next, s, PublishReturns(Failed(e)), s1, Replace(true), s2, GetClientAgain(true), s3);
    s' := s3;
  }

  lemma ClientIsUsed(s: State)
    requires Reachable(s) && s.worker.place.Publishing?
    ensures s.pool.client == Some(s.worker.place.conn) && s.worker.place.conn < s.pool.dialed && !s.pool.closed
    ensures s.worker.spans != [] && s.worker.taken != []
  {
    ReachableInv(s);
  }

  /** Backpressure, not loss: the channel holds 10240 events at most, and while the source runs there is room for
      another one exactly if it holds fewer. */
  lemma ChannelIsBounded(s: State, e: Event)
    requires Reachable(s)
    ensures |s.feed.queue| <= 10240
    ensures s.feed.finished.None? ==> (Next(s, Emit(e)).Some? <==> |s.feed.queue| < 10240)
    ensures Next(s, Emit(e)).Some? ==> Next(s, Emit(e)).value.feed.queue == s.feed.queue + [e]
  {
    var steps :| Runs.After(Next, INIT, steps) == Some(s);
    var inv := (t: State) => |t.feed.queue| <= 10240;
    forall t, step | inv(t) && Next(t, step).Some?
      ensures inv(Next(t, step).value)
    {
    }
    Runs.RunKeeps(Next, inv, INIT, steps);
  }

  /** A message the broker could not route is not published again by the send it belongs to. */
  lemma UnroutableEndsItsSend(s: State, k: nat, i: nat, j: nat)
    requires Reachable(s) && k < |s.worker.spans| && i < j < |s.worker.spans[k]|
    requires s.worker.spans[k][i].reply == Failed(Unroutable)
    ensures s.worker.spans[k][i].send < s.worker.spans[k][j].send
  {
    ReachableInSends(s);
  }

  lemma ReachableNext(s: State, step: Step) returns (s': State)
    requires Reachable(s) && Next(s, step).Some?
    ensures Next(s, step) == Some(s') && Reachable(s')
  {
    var steps :| Runs.After(Next, INIT, steps) == Some(s);
    Runs.Extend(Next, INIT, steps, step);
    s' := Next(s, step).value;
  }

  /** A run in which the first event is about to be published. */
  lemma TakenRun(e: Event) returns (s: State)
    ensures Reachable(s) && s.pool == FRESH && !s.cancelled
    ensures s.worker == Worker(Publishing(0, 0, None), [e], [], [], [], [], [[]])
  {
    assert Runs.After(Next, INIT, []) == Some(INIT);
    s := ReachableNext(INIT, Emit(e));
    s := ReachableNext(s, Take);
    s := ReachableNext(s, GetClient(true));
  }

  /** ... and in which it was unroutable. */
  lemma ReturnedRun(e: Event) returns (s: State)
    ensures Reachable(s) && s.pool == FRESH && !s.cancelled
    ensures var a := Attempt(0, e, 0, Failed(Unroutable));
            s.worker == Worker(Pausing(0), [e], [], [], [Failed(Unroutable)], [a], [[a]])
  {
    var taken := TakenRun(e);
    var a := Attempt(0, e, 0, Failed(Unroutable));
    assert taken.worker.spans[0] + [a] == [a] && [] + [a] == [a];
    assert taken.worker.spans[0 := [a]] == [[a]];
    assert Record(taken.worker, a) == taken.worker.(log := [a], spans := [[a]]);
    s := ReachableNext(taken, PublishReturns(Failed(Unroutable)));
  }

  /** But it may be by the next one: in some run an event is published again after it was unroutable. */
  lemma UnroutableIsPublishedAgain(e: Event) returns (s: State)
    ensures Reachable(s) && |s.worker.log| == 2
    ensures s.worker.log[0].event == e && s.worker.log[1].event == e
    ensures s.worker.log[0].reply == Failed(Unroutable)
  {
    s := ReturnedRun(e);
    s := ReachableNext(s, PauseEnds);
    s := ReachableNext(s, GetClient(true));
    s := ReachableNext(s, PublishReturns(Delivered));
  }

  /** Nobody ends the context but its owner, and the main goroutine when the source has failed. */
  ghost predicate CancelledFor(s: State) {
    s.cancelled ==> s.main != Awaiting && s.main.err
  }

  lemma CancelHasCause(steps: seq<Step>, s: State)
    requires Runs.After(Next, INIT, steps) == Some(s) && Cancel !in steps
    ensures s.cancelled ==> s.main != Awaiting && s.main.err
  {
    var allowed := (step: Step) => step != Cancel;
    forall t, step | CancelledFor(t) && allowed(step) && Next(t, step).Some?
      ensures CancelledFor(Next(t, step).value)
    {
    }
    Runs.AllowedRunKeeps(Next, CancelledFor, allowed, INIT, steps);
  }

  /** A source that has failed does cancel it, so that the consumer stops. */
  lemma FailureCancels(s: State)
    requires Reachable(s) && s.main != Awaiting && s.main.err
    ensures s.cancelled && s.feed.finished == Some(true)
  {
    ReachableInv(s);
  }

  /** A clean stop drains: in every run in which nobody ends the context, when the source has returned nil every event
      ever put in the channel was sent, and its outcome is known, before the producer was closed. */
  lemma CleanStopDrains(steps: seq<Step>, s: State)
    requires Runs.After(Next, INIT, steps) == Some(s) && Cancel !in steps && s.main == Finished(false)
    ensures s.worker.taken == s.feed.emitted && |s.worker.outcomes| == |s.feed.emitted|
  {
    CancelHasCause(steps, s);
    UncancelledStopDrains(s);
  }

  lemma UncancelledStopDrains(s: State)
    requires Reachable(s) && s.main == Finished(false) && !s.cancelled
    ensures s.worker.taken == s.feed.emitted && |s.worker.outcomes| == |s.feed.emitted|
  {
    ReachableInv(s);
  }

  /** Nothing is in flight when the producer is closed, and nothing is published or dialed afterwards. */
  lemma NothingAfterClose(s: State, step: Step)
    requires Reachable(s) && s.pool.closed && Next(s, step).Some?
    ensures s.main.Finished? && s.worker.place == Exited
    ensures Next(s, step).value.worker == s.worker && Next(s, step).value.pool.dialed == s.pool.dialed
  {
    ReachableInv(s);
  }

  // ---------------------------------------------------------------------------------------------------
  // From the rows to the broker

  /** Where the publishes of event k begin in the log. */
  function Start(spans: seq<seq<Attempt>>, k: nat): nat
    requires k <= |spans|
  {
    if k == 0 then 0 else Start(spans, k - 1) + |spans[k - 1]|
  }

  lemma {:induction false} StartGrows(spans: seq<seq<Attempt>>, k: nat, l: nat)
    requires k < l <= |spans|
    ensures Start(spans, k) + |spans[k]| <= Start(spans, l)
  {
    if k < l - 1 {
      StartGrows(spans, k, l - 1);
    }
  }

  lemma {:induction false} StartOfPrefix(spans: seq<seq<Attempt>>, m: nat, k: nat)
    requires k <= m <= |spans|
    ensures Start(spans[..m], k) == Start(spans, k)
  {
    if k > 0 {
      StartOfPrefix(spans, m, k - 1);
    }
  }

  lemma {:induction false} LengthOfLog(spans: seq<seq<Attempt>>)
    ensures |Flatten(spans)| == Start(spans, |spans|)
  {
    if spans != [] {
      LengthOfLog(spans[..|spans| - 1]);
      StartOfPrefix(spans, |spans| - 1, |spans| - 1);
    }
  }

  /** Publish p of event k, in the log. */
  lemma {:induction false} SpanIsInLog(spans: seq<seq<Attempt>>, k: nat, p: nat)
    requires k < |spans| && p < |spans[k]|
    ensures Start(spans, k) + p < |Flatten(spans)| && Flatten(spans)[Start(spans, k) + p] == spans[k][p]
  {
    var last := |spans| - 1;
    LengthOfLog(spans[..last]);
    StartOfPrefix(spans, last, if k < last then k else last);
    if k < last {
      SpanIsInLog(spans[..last], k, p);
    }
  }

  // ---------------------------------------------------------------------------------------------------
  // Coming to an end

  lemma OneMore(s: State, steps: seq<Step>, t: State, step: Step) returns (more: seq<Step>, u: State)
    requires Runs.After(Next, s, steps) == Some(t) && Reachable(t) && Next(t, step).Some?
    ensures Next(t, step) == Some(u) && Runs.After(Next, s, more) == Some(u) && Reachable(u)
  {
    Runs.Extend(Next, s, steps, step);
    more := steps + [step];
    u := ReachableNext(t, step);
  }

  /** How far the consumer is from the end of its event, at most. */
  function Rank(place: Place): nat {
    match place
    case Replacing(_, _, _) => 3
    case Again(_, _) => 3
    case Pausing(_) => 2
    case Starting(_) => 1
    case Publishing(_, _, _) => 1
    case _ => 0
  }

  /** A step that brings it nearer. */
  function Onwards(place: Place): Step {
    match place
    case Replacing(_, _, _) => Replace(false)
    case Again(_, _) => GetClientAgain(false)
    case Pausing(_) => PauseEnds
    case Publishing(_, _, _) => PublishReturns(Delivered)
    case _ => NotEncoded
  }

  lemma OnwardsIsNearer(w: Worker, pool: Pool, cancelled: bool)
    requires Busy(w.place) && w.spans != [] && w.taken != []
    ensures SendStep(w, pool, cancelled, Onwards(w.place)).Some?
    ensures var w' := SendStep(w, pool, cancelled, Onwards(w.place)).value.0;
            Rank(w'.place) < Rank(w.place) && !w'.place.Exited?
  {
  }

  /** The consumer comes to the end of the event it has. */
  lemma {:induction false} EventCanEnd(s: State) returns (steps: seq<Step>, s': State)
    requires Reachable(s) && !s.worker.place.Exited?
    ensures Runs.After(Next, s, steps) == Some(s') && Reachable(s')
    ensures s'.worker.place == Idle && s'.feed == s.feed && s'.main == s.main && s'.cancelled == s.cancelled
    decreases Rank(s.worker.place)
  {
    steps, s' := [], s;
    if Busy(s.worker.place) {
      BusyHasEvent(s);
      OnwardsIsNearer(s.worker, s.pool, s.cancelled);
      steps, s' := OneMore(s, steps, s', Onwards(s.worker.place));
      var more, s'' := EventCanEnd(s');
      Runs.Concat(Next, s, steps, more);
      steps, s' := steps + more, s'';
    }
  }

  lemma BusyHasEvent(s: State)
    requires Reachable(s) && Busy(s.worker.place)
    ensures s.worker.spans != [] && s.worker.taken != []
  {
    ReachableInv(s);
  }

  /** Once the source has ended, the consumer comes to its end. */
  lemma {:induction false} ConsumerCanEnd(s: State) returns (steps: seq<Step>, s': State)
    requires Reachable(s) && s.feed.finished.Some?
    ensures Runs.After(Next, s, steps) == Some(s') && Reachable(s')
    ensures s'.worker.place == Exited && s'.main == s.main && s'.feed.finished == s.feed.finished
    decreases |s.feed.queue|
  {
    steps, s' := [], s;
    if !s.worker.place.Exited? {
      steps, s' := EventCanEnd(s);
    }
    if s'.worker.place == Idle && s'.feed.queue == [] {
      steps, s' := OneMore(s, steps, s', ExitDrained);
    } else if s'.worker.place == Idle {
      steps, s' := OneMore(s, steps, s', Take);
      var more, s'' := ConsumerCanEnd(s');
      Runs.Concat(Next, s, steps, more);
      steps, s' := steps + more, s'';
    }
  }

  /** When the context has ended a consumer that has no event, or pauses between two sends of one, can stop at once,
      without publishing again; the event it pauses with ends with the context. */
  lemma EndedContextStops(s: State) returns (steps: seq<Step>, s': State)
    requires Reachable(s) && s.cancelled && (s.worker.place.Idle? || s.worker.place.Pausing?)
    ensures Runs.After(Next, s, steps) == Some(s') && s'.worker.place == Exited && s'.worker.log == s.worker.log
    ensures s'.worker.outcomes ==
      s.worker.outcomes + (if s.worker.place.Pausing? then [Failed(ContextEnded)] else [])
  {
    steps, s' := [], s;
    if s.worker.place.Pausing? {
      steps, s' := OneMore(s, steps, s', PauseCancelled);
    }
    steps, s' := OneMore(s, steps, s', ExitCancelled);
  }

  /** The source comes to its end, and the main goroutine sees it. */
  lemma SourceCanEnd(s: State) returns (steps: seq<Step>, s': State)
    requires Reachable(s) && !s.main.Finished?
    ensures Runs.After(Next, s, steps) == Some(s') && Reachable(s') && s'.main.Draining? && s'.feed.finished.Some?
  {
    EndedIsClosed(s);
    steps, s' := [], s;
    if s'.feed.finished.None? {
      steps, s' := OneMore(s, steps, s', SourceReturns(false));
    }
    if s'.main == Awaiting {
      steps, s' := OneMore(s, steps, s', SourceSeen);
    }
  }

  /** Nothing gets stuck: from wherever the process is, it can come to its end. */
  lemma ProcessCanEnd(s: State) returns (steps: seq<Step>, s': State)
    requires Reachable(s)
    ensures Runs.After(Next, s, steps) == Some(s') && s'.main.Finished? && s'.pool.closed
  {
    steps, s' := [], s;
    EndedIsClosed(s);
    if !s.main.Finished? {
      steps, s' := SourceCanEnd(s);
      var more, s'' := ConsumerCanEnd(s');
      Runs.Concat(Next, s, steps, more);
      steps, s' := OneMore(s, steps + more, s'', Close);
    }
  }

  lemma EndedIsClosed(s: State)
    requires Reachable(s)
    ensures s.pool.closed <==> s.main.Finished?
    ensures s.main != Awaiting ==> s.feed.finished.Some?
  {
    ReachableInv(s);
  }

  /** The runs of the channels behind the connections agree with the log: publish i was a call of its
      connection's channel that returned the same, and had returned before the next one on that connection began. */
  ghost predicate BackedBy(log: seq<Attempt>, channels: map<Conn, Protocol.State>, calls: seq<Call>) {
    && |calls| == |log|
    && (forall conn :: conn in channels ==> Protocol.Reachable(channels[conn]))
    && (forall i :: 0 <= i < |log| ==>
          && log[i].conn in channels
          && exists tag :: Protocol.At(channels[log[i].conn].pubs, calls[i], Protocol.Returned(tag, log[i].reply)))
    && (forall i, j :: 0 <= i < j < |log| && log[i].conn == log[j].conn && log[i].conn in channels ==>
          Protocol.Follows(channels[log[i].conn], calls[i], calls[j]))
  }

  /** A message on the wire of a connection, by its delivery tag. */
  datatype Message = Message(conn: Conn, tag: nat)

  /** The broker has accepted this message, and it is the one that publish i has written. */
  ghost predicate Accepts(
    log: seq<Attempt>, channels: map<Conn, Protocol.State>, calls: seq<Call>, i: nat, m: Message)
  {
    && i < |log| && i < |calls| && m.conn == log[i].conn && m.conn in channels
    && 1 <= m.tag <= |channels[m.conn].channel.wire|
    && channels[m.conn].channel.wire[m.tag - 1].call == calls[i]
    && Protocol.Accepted(channels[m.conn].channel, m.tag)
  }

  /** The last publish of event k, in the log. */
  function LastPublish(spans: seq<seq<Attempt>>, k: nat): int
    requires k < |spans|
  {
    Start(spans, k) + |spans[k]| - 1
  }

  /** An event that is reported as sent was accepted: the last of its publishes wrote a message that the broker
      acked and did not send back. */
  lemma SentMeansAccepted(s: State, channels: map<Conn, Protocol.State>, calls: seq<Call>, k: nat)
    returns (m: Message)
    requires Reachable(s) && BackedBy(s.worker.log, channels, calls)
    requires k < |s.worker.outcomes| && s.worker.outcomes[k] == Delivered
    ensures k < |s.feed.emitted| && k < |s.worker.spans| && s.worker.spans[k] != []
    ensures 0 <= LastPublish(s.worker.spans, k) < |s.worker.log|
    ensures s.worker.log[LastPublish(s.worker.spans, k)].event == s.feed.emitted[k]
    ensures Accepts(s.worker.log, channels, calls, LastPublish(s.worker.spans, k), m)
  {
    EveryOutcomeIsTrue(s, k);
    var span, i := s.worker.spans[k], LastPublish(s.worker.spans, k);
    SpanIsInLog(s.worker.spans, k, |span| - 1);
    var a := s.worker.log[i];
    var channel := channels[a.conn];
    var tag :| Protocol.At(channel.pubs, calls[i], Protocol.Returned(tag, Delivered));
    Protocol.NoFalseSuccess(channel, calls[i], tag);
    m := Message(a.conn, tag);
  }

  /** A message on an earlier connection, or before on the same one. */
  predicate Earlier(m: Message, n: Message) {
    m.conn < n.conn || (m.conn == n.conn && m.tag < n.tag)
  }

  ghost predicate Ascending(log: seq<Attempt>) {
    forall i, j :: 0 <= i < j < |log| ==> log[i].conn <= log[j].conn
  }

  lemma LogAscends(s: State)
    requires Reachable(s)
    ensures Ascending(s.worker.log)
  {
    ReachableInv(s);
  }

  /** What a later publish has written comes later at the broker. */
  lemma MessagesAscend(
    log: seq<Attempt>, channels: map<Conn, Protocol.State>, calls: seq<Call>, i: nat, j: nat, m: Message, n: Message)
    requires BackedBy(log, channels, calls) && Ascending(log) && i < j
    requires Accepts(log, channels, calls, i, m) && Accepts(log, channels, calls, j, n)
    ensures Earlier(m, n)
  {
    if m.conn == n.conn {
      Protocol.LaterCallsWriteLater(channels[m.conn], calls[i], calls[j], m.tag, n.tag);
    }
  }

  lemma EventsAscend(
    log: seq<Attempt>, spans: seq<seq<Attempt>>, channels: map<Conn, Protocol.State>, calls: seq<Call>,
    k: nat, l: nat, m: Message, n: Message)
    requires BackedBy(log, channels, calls) && Ascending(log)
    requires k < l < |spans| && spans[k] != [] && spans[l] != []
    requires Accepts(log, channels, calls, LastPublish(spans, k), m)
    requires Accepts(log, channels, calls, LastPublish(spans, l), n)
    ensures Earlier(m, n)
  {
    StartGrows(spans, k, l);
    MessagesAscend(log, channels, calls, LastPublish(spans, k), LastPublish(spans, l), m, n);
  }

  /** Of the first n events, each that is reported as sent has an accepted message, in the order of the events. */
  ghost predicate EachItsOwn(
    w: Worker, channels: map<Conn, Protocol.State>, calls: seq<Call>, n: nat, messages: map<nat, Message>)
  {
    && n <= |w.outcomes| && n <= |w.spans|
    && (forall k :: k in messages <==> 0 <= k < n && w.outcomes[k] == Delivered)
    && (forall k :: k in messages ==>
          w.spans[k] != [] && Accepts(w.log, channels, calls, LastPublish(w.spans, k), messages[k]))
    && (forall k, l :: k in messages && l in messages && k < l ==> Earlier(messages[k], messages[l]))
  }

  lemma OneMoreSent(
    w: Worker, channels: map<Conn, Protocol.State>, calls: seq<Call>, n: nat, messages: map<nat, Message>, m: Message)
    requires BackedBy(w.log, channels, calls) && Ascending(w.log) && EachItsOwn(w, channels, calls, n, messages)
    requires n < |w.outcomes| && n < |w.spans| && w.outcomes[n] == Delivered && w.spans[n] != []
    requires Accepts(w.log, channels, calls, LastPublish(w.spans, n), m)
    ensures EachItsOwn(w, channels, calls, n + 1, messages[n := m])
  {
    forall k | k in messages
      ensures Earlier(messages[k], m)
    {
      EventsAscend(w.log, w.spans, channels, calls, k, n, messages[k], m);
    }
  }

  lemma NextSent(
    s: State, channels: map<Conn, Protocol.State>, calls: seq<Call>, n: nat, messages: map<nat, Message>)
    returns (more: map<nat, Message>)
    requires Reachable(s) && BackedBy(s.worker.log, channels, calls) && n < |s.worker.outcomes|
    requires EachItsOwn(s.worker, channels, calls, n, messages)
    ensures EachItsOwn(s.worker, channels, calls, n + 1, more)
  {
    EveryOutcomeIsTrue(s, n);
    more := messages;
    if s.worker.outcomes[n] == Delivered {
      var m := SentMeansAccepted(s, channels, calls, n);
      LogAscends(s);
      OneMoreSent(s.worker, channels, calls, n, messages, m);
      more := messages[n := m];
    }
  }

  /** Order at the broker: each event reported as sent has an accepted message of its own, and these messages come
      in the order of the events, connection by connection and tag by tag. */
  lemma {:induction false} SentInOrder(
    s: State, channels: map<Conn, Protocol.State>, calls: seq<Call>, n: nat)
    returns (messages: map<nat, Message>)
    requires Reachable(s) && BackedBy(s.worker.log, channels, calls) && n <= |s.worker.outcomes|
    ensures EachItsOwn(s.worker, channels, calls, n, messages)
  {
    messages := map[];
    if n > 0 {
      messages := SentInOrder(s, channels, calls, n - 1);
      messages := NextSent(s, channels, calls, n - 1, messages);
    }
  }

  /** A failure that proves that nothing was delivered. */
  predicate ProvesFailure(reply: Reply) {
    reply.Failed? && !reply.error.ChannelClosed? && !reply.error.ContextEnded?
  }

  lemma FailedPublish(
    log: seq<Attempt>, channels: map<Conn, Protocol.State>, calls: seq<Call>, i: nat, m: Message)
    requires BackedBy(log, channels, calls) && i < |log| && ProvesFailure(log[i].reply)
    ensures !Accepts(log, channels, calls, i, m)
  {
    if Accepts(log, channels, calls, i, m) {
      var channel := channels[m.conn];
      var tag :| Protocol.At(channel.pubs, calls[i], Protocol.Returned(tag, log[i].reply));
      Protocol.FailureRulesOut(channel, calls[i], tag, log[i].reply.error, m.tag);
    }
  }

  lemma LogIsSpans(s: State)
    requires Reachable(s)
    ensures s.worker.log == Flatten(s.worker.spans)
  {
    ReachableInv(s);
  }

  /** The error of a send is that of its first publish, so it says nothing about the second. What rules out that an
      event was delivered is that none of its publishes succeeded, or ended with the closure of the channel or with
      the end of the context. */
  lemma FailuresRuleOutDelivery(
    s: State, channels: map<Conn, Protocol.State>, calls: seq<Call>, k: nat, p: nat, m: Message)
    requires Reachable(s) && BackedBy(s.worker.log, channels, calls)
    requires k < |s.worker.spans| && p < |s.worker.spans[k]|
    requires forall q :: 0 <= q < |s.worker.spans[k]| ==> ProvesFailure(s.worker.spans[k][q].reply)
    ensures !Accepts(s.worker.log, channels, calls, Start(s.worker.spans, k) + p, m)
  {
    LogIsSpans(s);
    SpanIsInLog(s.worker.spans, k, p);
    FailedPublish(s.worker.log, channels, calls, Start(s.worker.spans, k) + p, m);
  }

  /** From the rows to the publishes: when the source emits the events of some changes, or the first of them, the
      publishes are the pairings of the changes' rows in order, each repeated 0 to 8 times without a gap. */
  lemma RowsAreInOrder(s: State, changes: seq<Source.RowsEvent>, convert: Source.Conversion)
    requires Reachable(s) && s.feed.emitted <= Source.EventsOfChanges(changes, convert)
    ensures exists counts: seq<nat> ::
      && |counts| <= |Source.EventsOfChanges(changes, convert)|
      && (forall k :: 0 <= k < |counts| ==> counts[k] <= 8)
      && EventsOf(s.worker.log) == Expanded(Source.EventsOfChanges(changes, convert)[..|counts|], counts)
  {
    EndToEndOrder(s);
    var counts: seq<nat> :|
      && |counts| <= |s.feed.emitted|
      && (forall k :: 0 <= k < |counts| ==> counts[k] <= 8)
      && EventsOf(s.worker.log) == Expanded(s.feed.emitted[..|counts|], counts);
    assert s.feed.emitted[..|counts|] == Source.EventsOfChanges(changes, convert)[..|counts|];
  }

  /** ... and what becomes of a row: the event it travels in is the pairing it belongs to, and that is what all
      publishes of the event are of. */
  lemma RowIsPublished(s: State, changes: seq<Source.RowsEvent>, convert: Source.Conversion, c: nat, r: nat)
    requires Reachable(s) && s.feed.emitted <= Source.EventsOfChanges(changes, convert)
    requires c < |changes| && r < |changes[c].rows|
    requires Source.EventOfRow(changes, c, r) < |s.worker.outcomes|
    ensures
      var k := Source.EventOfRow(changes, c, r);
      && k < |s.worker.spans| && k < |s.feed.emitted|
      && Source.Carries(changes[c], convert, r, s.feed.emitted[k])
      && SpanOf(s.worker.spans[k], s.feed.emitted[k])
      && (s.worker.outcomes[k] == Delivered <==> Succeeded(s.worker.spans[k]))
  {
    Source.RowTravels(changes, convert, c, r);
    EveryOutcomeIsTrue(s, Source.EventOfRow(changes, c, r));
  }
}
