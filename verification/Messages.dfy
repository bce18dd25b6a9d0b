/** What a consumer does with one message, and with a batch of them. */
module Messages {
  import opened Wrappers
  import opened Events

  type Payload = seq<nat>

  /** How a payload is read back; nothing when it is not an event. */
  type Decoder = Payload -> Option<Event>

  datatype Disposition = Ack | Retry

  /** A message is done with if it is not an event, as no redelivery makes it one, or if the event in it is accepted. */
  ghost predicate IsDone(decode: Decoder, accepts: Event -> bool, payload: Payload) {
    decode(payload).Some? ==> accepts(decode(payload).value)
  }

  /** What to do with a message, given whether its handler would accept the event in it. */
  function ProcessMessage(decode: Decoder, accepts: Event -> bool, payload: Payload): (d: Disposition)
    ensures d == Ack <==> IsDone(decode, accepts, payload)
  {
    match decode(payload)
    case None => Ack
    case Some(e) => if accepts(e) then Ack else Retry
  }

  /** One call of the RocketMQ callback: the messages are handed over in order, up to the first one to retry. */
  method ConsumeBatch(decode: Decoder, accepts: Event -> bool, batch: seq<Payload>)
    returns (success: bool, handed: nat)
    ensures handed <= |batch|
    ensures forall i :: 0 <= i < handed - (if success then 0 else 1) ==>
      IsDone(decode, accepts, batch[i])
    ensures if success then handed == |batch|
            else handed > 0 && !IsDone(decode, accepts, batch[handed - 1])
  {
    handed := 0;
    while handed < |batch|
      invariant handed <= |batch|
      invariant forall i :: 0 <= i < handed ==> IsDone(decode, accepts, batch[i])
    {
      handed := handed + 1;
      if ProcessMessage(decode, accepts, batch[handed - 1]) == Retry {
        return false, handed;
      }
    }
    success := true;
  }

  /** The batch delivered again until the callback reports success, with a handler that may change its mind from
      one delivery to the next. `patience` is the delivery that succeeds at the latest.

      Every message has by then been handed over in a delivery in which it was accepted or could not be decoded,
      and the callback gave up on a delivery only at a message to retry. */
  method ConsumeUntilSuccess(decode: Decoder, accepts: nat -> Event -> bool, batch: seq<Payload>, patience: nat)
    returns (deliveries: nat, handed: seq<nat>)
    requires forall i :: 0 <= i < |batch| ==> IsDone(decode, accepts(patience), batch[i])
    ensures 0 < deliveries <= patience + 1 && |handed| == deliveries
    ensures handed[deliveries - 1] == |batch|
    ensures forall i :: 0 <= i < |batch| ==> IsDone(decode, accepts(deliveries - 1), batch[i])
    ensures forall d :: 0 <= d < deliveries - 1 ==>
      && 0 < handed[d] <= |batch|
      && !IsDone(decode, accepts(d), batch[handed[d] - 1])
      && forall i :: 0 <= i < handed[d] - 1 ==> IsDone(decode, accepts(d), batch[i])
  {
    deliveries, handed := 0, [];
    var success := false;
    while !success
      invariant |handed| == deliveries <= patience + 1
      invariant !success ==> deliveries <= patience
      invariant success ==> 0 < deliveries && handed[deliveries - 1] == |batch|
      invariant success ==>
        forall i :: 0 <= i < |batch| ==> IsDone(decode, accepts(deliveries - 1), batch[i])
      invariant forall d :: 0 <= d < deliveries - (if success then 1 else 0) ==>
        && 0 < handed[d] <= |batch|
        && !IsDone(decode, accepts(d), batch[handed[d] - 1])
        && forall i :: 0 <= i < handed[d] - 1 ==> IsDone(decode, accepts(d), batch[i])
      decreases patience + 1 - deliveries, !success
    {
      var n;
      success, n := ConsumeBatch(decode, accepts(deliveries), batch);
      handed := handed + [n];
      deliveries := deliveries + 1;
    }
  }
}
