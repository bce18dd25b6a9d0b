/** The consuming side as a whole: what an acknowledgement in the broker says about the tasks. */
module Consumption {
  import opened Wrappers
  import opened Events
  import opened TaskIndex
  import opened Messages
  import Consumer = RabbitConsumer
  import Tasks = TaskRunner

  /** What the messages hold, and how each delivery that held an event was handled. */
  datatype History = History(
    payloads: seq<Payload>,
    decode: Decoder,
    handlings: map<Consumer.Tag, Tasks.Handling>)

  /** The history tells what happened in a run of the consumer, with the runner of an index as its handler: a
      delivery that was processed and holds an event was handled, and accepted exactly if that ended without an
      error. */
  ghost predicate Tells(h: History, index: Index, s: Consumer.State) {
    && |h.payloads| == |s.decodable|
    && (forall id :: 0 <= id < |s.decodable| ==> (s.decodable[id] <==> h.decode(h.payloads[id]).Some?))
    && (forall t :: t in s.verdicts ==> HandledIn(h, index, s, t))
  }

  ghost predicate HandledIn(h: History, index: Index, s: Consumer.State, t: Consumer.Tag) {
    t < |s.deliveries| && s.deliveries[t].id < |h.payloads| && h.decode(h.payloads[s.deliveries[t].id]).Some? ==>
      && t in h.handlings
      && Tasks.HandledAs(index, h.decode(h.payloads[s.deliveries[t].id]).value, h.handlings[t])
      && (t in s.accepted <==> Tasks.Accepted(h.handlings[t]))
  }

  /** The last delivery of an acknowledged event was processed, and accepted. */
  lemma LastWasAccepted(s: Consumer.State, dropOnError: bool, h: History, index: Index, id: Consumer.Id)
    returns (t: Consumer.Tag)
    requires Consumer.Reachable(s, dropOnError) && id in s.broker.acked && Tells(h, index, s)
    requires id < |h.payloads| && h.decode(h.payloads[id]).Some?
    ensures Consumer.LastTag(s.deliveries, id) == Some(t) && s.deliveries[t].id == id
    ensures t in s.verdicts && t in s.accepted
  {
    Consumer.AckedOnlyIfHandled(s, dropOnError, id);
    Consumer.ReachableInv(s, dropOnError);
    t := Consumer.LastTag(s.deliveries, id).value;
  }

  /** From the broker to the tasks: over any run with redeliveries and new subscriptions, if a message that holds an
      event is acknowledged, then on its last delivery every task that declares the event's table, and whose column
      carries a value there that is neither nil nor empty, was run for exactly that value, once, and succeeded. */
  lemma AckedMessageWorked(
    s: Consumer.State, dropOnError: bool, h: History, tasks: seq<Task>, index: Index, id: Consumer.Id, e: Event,
    task: nat, table: Table, main: bool)
    requires Consumer.Reachable(s, dropOnError) && id in s.broker.acked && IsIndexOf(index, tasks) && Tells(h, index, s)
    requires id < |h.payloads| && h.decode(h.payloads[id]) == Some(e)
    requires task < |tasks| && (if main then table == tasks[task].main else table in tasks[task].subs)
    requires table.database == e.database && table.name == e.table
    requires var column := if main then table.primaryKey else table.refColumn;
             column in e.data && e.data[column] !in {Nil, Text("")}
    ensures
      var last := Consumer.LastTag(s.deliveries, id);
      var value := e.data[if main then table.primaryKey else table.refColumn];
      && last.Some? && last.value in h.handlings && h.handlings[last.value].Ran?
      && exists k :: Tasks.RunsOnly(
           Of(index, KeyOf(e.database, e.table)), h.handlings[last.value].s.work, k, Watcher(task, table, main), value)
  {
    var t := LastWasAccepted(s, dropOnError, h, index, id);
    assert HandledIn(h, index, s, t);
    var handling := h.handlings[t];
    Tasks.AckedMeansWorked(
      tasks, index, h.decode, _ => true, h.payloads[id], e, handling, task, table, main);
  }
}
