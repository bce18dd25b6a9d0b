/** Which publish has which number, who still waits, and which messages came back: the client's book, as a value.

    Every function here is what one critical section of the client does to it. */
module PublisherConfirms {
  import opened Wrappers
  import opened Decimal

  /** One call of publish. It owns one waiter, a channel with room for a single answer. */
  type Call = nat

  datatype Error =
    | Unroutable                // the broker sent the message back
    | Rejected                  // the broker answered with a nack
    | ChannelClosed(reason: string)
    | PublishFailed             // the write failed, nothing reached the wire
    | ContextEnded
    | ProducerClosed
    | DialFailed
    | NotEncodable

  /** What a publish, or a send, returns: nil or an error. */
  datatype Reply = Delivered | Failed(error: Error)

  datatype Confirmation = Confirmation(tag: nat, ack: bool)

  datatype Book = Book(
    seqNo: nat,
    waiters: map<nat, Call>,
    returned: map<nat, Error>,
    dead: Option<Error>)

  const EMPTY_BOOK: Book := Book(0, map[], map[], None)

  /** Takes the next number and registers the waiter of a call under it. */
  function Register(b: Book, call: Call): Book {
    b.(seqNo := b.seqNo + 1, waiters := b.waiters[b.seqNo + 1 := call])
  }

  /** Gives the number of a failed write back. */
  function HandBack(b: Book): Book
    requires b.seqNo > 0
  {
    b.(seqNo := b.seqNo - 1, waiters := b.waiters - {b.seqNo})
  }

  /** A failed write leaves no trace in the bookkeeping. */
  lemma HandBackUndoesRegister(b: Book, call: Call)
    requires b.seqNo + 1 !in b.waiters
    ensures HandBack(Register(b, call)) == b
  {
    assert HandBack(Register(b, call)).waiters == b.waiters;
  }

  /** Takes in one returned message, named by its message id. */
  function Mark(b: Book, id: string): Book {
    match ParseUint(id)
    case None => b
    case Some(tag) =>
      if tag in b.waiters then b.(returned := b.returned[tag := Unroutable]) else b
  }

  /** Takes in every returned message of a queue, first to last. */
  function MarkAll(b: Book, ids: seq<string>): Book
    decreases |ids|
  {
    if ids == [] then b else MarkAll(Mark(b, ids[0]), ids[1..])
  }

  /** Only the set of returned messages can change, and it is exactly extended by the queued messages of
      publishes that are still waiting: order and repetitions make no difference. */
  lemma {:induction false} MarkAllMeaning(b: Book, ids: seq<string>)
    ensures MarkAll(b, ids).(returned := b.returned) == b
    ensures forall tag ::
      tag in MarkAll(b, ids).returned <==>
      tag in b.returned || (tag in b.waiters && exists i :: 0 <= i < |ids| && ParseUint(ids[i]) == Some(tag))
    decreases |ids|
  {
    if ids != [] {
      MarkAllMeaning(Mark(b, ids[0]), ids[1..]);
      assert forall i :: 0 <= i < |ids| - 1 ==> ids[1..][i] == ids[i + 1];
      forall tag
        ensures (exists i :: 0 <= i < |ids| && ParseUint(ids[i]) == Some(tag)) <==>
                ParseUint(ids[0]) == Some(tag) ||
                (exists i :: 0 <= i < |ids[1..]| && ParseUint(ids[1..][i]) == Some(tag))
      {
        if i :| 0 < i < |ids| && ParseUint(ids[i]) == Some(tag) {
          assert ids[1..][i - 1] == ids[i];
        }
      }
    }
  }

  /** Forgets one publish, because its confirmation has arrived. */
  function Settled(b: Book, tag: nat): Book {
    b.(waiters := b.waiters - {tag}, returned := b.returned - {tag})
  }

  /** The answer a confirmation stands for: a message sent back is a failure even when it is acked. */
  function Verdict(b: Book, conf: Confirmation): Reply {
    if conf.tag in b.returned then Failed(b.returned[conf.tag])
    else if !conf.ack then Failed(Rejected)
    else Delivered
  }

  /** Nobody is waiting any more, and nobody will be. */
  function Stopped(b: Book, cause: Error): Book {
    b.(waiters := map[], returned := map[], dead := Some(cause))
  }
}
