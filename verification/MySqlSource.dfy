/** Turning the row changes of the binlog into events, and choosing the position to resume from. */
module MySqlSource {
  import opened Wrappers
  import opened Events

  datatype Column = Column(name: string, kind: nat)

  datatype Table = Table(schema: string, name: string, columns: seq<Column>)

  datatype RowsEvent = RowsEvent(
    logPos: int,
    serverId: int,
    timestamp: int,
    table: Table,
    action: string,
    rows: seq<seq<Value>>)

  const UPDATE: string := "update"

  /** How a raw value of a column of some kind is converted; what it does with numbers, dates and bits is not
      part of this model. */
  type Conversion = (nat, Value) -> Value

  // ---------------------------------------------------------------------------------------------------
  // Rows

  /** The value of column j of a row that may be too short. */
  function Cell(row: seq<Value>, columns: seq<Column>, j: nat, convert: Conversion): Value
    requires j < |columns|
  {
    if j >= |row| || row[j] == Nil then Nil else convert(columns[j].kind, row[j])
  }

  /** Of the first n columns, the last one with a name. */
  function LastNamed(columns: seq<Column>, n: nat, name: string): (r: Option<nat>)
    requires n <= |columns|
    ensures r.Some? ==> r.value < n && columns[r.value].name == name
    ensures forall j :: (if r.Some? then r.value + 1 else 0) <= j < n ==> columns[j].name != name
  {
    if n == 0 then None
    else if columns[n - 1].name == name then Some(n - 1)
    else LastNamed(columns, n - 1, name)
  }

  /** What a row says about a column name: nothing if no column has it, and of columns with the same name the last one
      counts. A value is converted by the kind of its column; null, or missing at the end of the row, is nil. */
  function Named(row: seq<Value>, columns: seq<Column>, convert: Conversion, name: string): Option<Value> {
    var last := LastNamed(columns, |columns|, name);
    if last.None? then None
    else if last.value >= |row| || row[last.value] == Nil then Some(Nil)
    else Some(convert(columns[last.value].kind, row[last.value]))
  }

  function Find(m: Row, name: string): Option<Value> {
    if name in m then Some(m[name]) else None
  }

  ghost predicate IsRowOf(m: Row, row: seq<Value>, columns: seq<Column>, convert: Conversion) {
    forall name :: Find(m, name) == Named(row, columns, convert, name)
  }

  /** The first columns of a table, one after the other. */
  function RowOf(row: seq<Value>, columns: seq<Column>, n: nat, convert: Conversion): Row
    requires n <= |columns|
  {
    if n == 0 then map[]
    else RowOf(row, columns, n - 1, convert)[columns[n - 1].name := Cell(row, columns, n - 1, convert)]
  }

  lemma {:induction false} RowOfMeaning(
    row: seq<Value>, columns: seq<Column>, n: nat, convert: Conversion, name: string)
    requires n <= |columns|
    ensures var m := RowOf(row, columns, n, convert);
      && (name in m <==> LastNamed(columns, n, name).Some?)
      && (name in m ==> m[name] == Cell(row, columns, LastNamed(columns, n, name).value, convert))
  {
    if n > 0 {
      RowOfMeaning(row, columns, n - 1, convert, name);
    }
  }

  lemma RowOfIsRow(row: seq<Value>, columns: seq<Column>, convert: Conversion)
    ensures IsRowOf(RowOf(row, columns, |columns|, convert), row, columns, convert)
  {
    var m := RowOf(row, columns, |columns|, convert);
    forall name
      ensures Find(m, name) == Named(row, columns, convert, name)
    {
      RowOfMeaning(row, columns, |columns|, convert, name);
    }
  }

  method RowToMap(row: seq<Value>, columns: seq<Column>, convert: Conversion) returns (m: Row)
    ensures m == RowOf(row, columns, |columns|, convert)
    ensures IsRowOf(m, row, columns, convert)
  {
    m := map[];
    for j := 0 to |columns|
      invariant m == RowOf(row, columns, j, convert)
    {
      if j >= |row| {
        m := m[columns[j].name := Nil];
      } else if row[j] == Nil {
        m := m[columns[j].name := Nil];
      } else {
        m := m[columns[j].name := convert(columns[j].kind, row[j])];
      }
    }
    RowOfIsRow(row, columns, convert);
  }

  // ---------------------------------------------------------------------------------------------------
  // Events

  /** How many events a change makes: the rows of an update come in pairs. */
  function EventCount(e: RowsEvent): nat {
    if e.action == UPDATE then (|e.rows| + 1) / 2 else |e.rows|
  }

  /** The rows event j is made of: the row it carries, and the row it carried before. */
  function RowsOfEvent(e: RowsEvent, j: nat): (nat, Option<nat>) {
    if e.action != UPDATE then (j, None)
    else if 2 * j + 1 < |e.rows| then (2 * j + 1, Some(2 * j))
    else (2 * j, None)
  }

  function EventOf(e: RowsEvent, j: nat, convert: Conversion): Event
    requires j < EventCount(e)
  {
    var (now, before) := RowsOfEvent(e, j);
    var columns := e.table.columns;
    Event(e.serverId, e.logPos, e.timestamp, e.table.schema, e.table.name, e.action,
          RowOf(e.rows[now], columns, |columns|, convert),
          if before.None? then None else Some(RowOf(e.rows[before.value], columns, |columns|, convert)))
  }

  /** What event j of a change is: of an update it has the row of a pair as it is now, and as it was before; an odd
      last row, and every row of another action, is an event without a before. All else is the change's. */
  ghost predicate IsEvent(e: RowsEvent, j: nat, convert: Conversion, event: Event) {
    && event.serverId == e.serverId && event.pos == e.logPos && event.rowTime == e.timestamp
    && event.database == e.table.schema && event.table == e.table.name && event.kind == e.action
    && if e.action == UPDATE && 2 * j + 1 < |e.rows| then
         && IsRowOf(event.data, e.rows[2 * j + 1], e.table.columns, convert)
         && event.before.Some? && IsRowOf(event.before.value, e.rows[2 * j], e.table.columns, convert)
       else
         var row := if e.action == UPDATE then 2 * j else j;
         row < |e.rows| && IsRowOf(event.data, e.rows[row], e.table.columns, convert) && event.before.None?
  }

  lemma EventOfIsEvent(e: RowsEvent, j: nat, convert: Conversion)
    requires j < EventCount(e)
    ensures IsEvent(e, j, convert, EventOf(e, j, convert))
  {
    var (now, before) := RowsOfEvent(e, j);
    RowOfIsRow(e.rows[now], e.table.columns, convert);
    if before.Some? {
      RowOfIsRow(e.rows[before.value], e.table.columns, convert);
    }
  }

  /** Every row is in exactly one event, as what it was before or as what it is now, and the events follow the
      rows; a row that an update has no partner for is an event of its own, without a before. */
  lemma EveryRowOnce(e: RowsEvent, r: nat, j: nat)
    requires r < |e.rows| && j < EventCount(e)
    ensures (if e.action == UPDATE then r / 2 else r) < EventCount(e)
    ensures RowsOfEvent(e, j).0 < |e.rows|
    ensures (RowsOfEvent(e, j).0 == r || RowsOfEvent(e, j).1 == Some(r)) <==>
            j == if e.action == UPDATE then r / 2 else r
    ensures RowsOfEvent(e, j).1.Some? <==> e.action == UPDATE && 2 * j + 1 < |e.rows|
    ensures RowsOfEvent(e, j).1.Some? ==> RowsOfEvent(e, j).1.value + 1 == RowsOfEvent(e, j).0
  {
  }

  /** The event whose first row is row i, and how many rows it takes. */
  method MakeEvent(e: RowsEvent, i: nat, convert: Conversion) returns (event: Event, taken: nat)
    requires i < |e.rows| && (e.action == UPDATE ==> i % 2 == 0)
    ensures (if e.action == UPDATE then i / 2 else i) < EventCount(e)
    ensures event == EventOf(e, if e.action == UPDATE then i / 2 else i, convert)
    ensures IsEvent(e, if e.action == UPDATE then i / 2 else i, convert, event)
    ensures taken == if e.action == UPDATE && i + 1 < |e.rows| then 2 else 1
  {
    var data: Row;
    var before: Option<Row> := None;
    taken := 1;
    if e.action == UPDATE && i + 1 < |e.rows| {
      data := RowToMap(e.rows[i + 1], e.table.columns, convert);
      var was := RowToMap(e.rows[i], e.table.columns, convert);
      before := Some(was);
      taken := 2;
    } else {
      data := RowToMap(e.rows[i], e.table.columns, convert);
    }
    event := Event(e.serverId, e.logPos, e.timestamp, e.table.schema, e.table.name, e.action, data, before);
    EventOfIsEvent(e, if e.action == UPDATE then i / 2 else i, convert);
  }

  function EventsOfChange(e: RowsEvent, convert: Conversion): seq<Event> {
    seq(EventCount(e), j requires 0 <= j < EventCount(e) => EventOf(e, j, convert))
  }

  /** The row handler. `accepted(j)` says whether the select put event j in the channel, or saw the end of the
      context instead. What was emitted is the change's events in order, up to the first refusal, and of a change all
      of whose events were emitted no row is left over. */
  method OnRow(e: RowsEvent, convert: Conversion, accepted: nat -> bool) returns (emitted: seq<Event>, ended: bool)
    ensures emitted <= EventsOfChange(e, convert)
    ensures forall j :: 0 <= j < |emitted| ==> IsEvent(e, j, convert, emitted[j]) && accepted(j)
    ensures ended ==> |emitted| < |EventsOfChange(e, convert)| && !accepted(|emitted|)
    ensures !ended ==> |e.rows| == if e.action == UPDATE && |e.rows| % 2 == 0 then 2 * |emitted|
                                   else if e.action == UPDATE then 2 * |emitted| - 1 else |emitted|
  {
    emitted := [];
    var i := 0;
    while i < |e.rows|
      invariant i <= |e.rows|
      invariant |emitted| == if e.action == UPDATE then (i + 1) / 2 else i
      invariant e.action == UPDATE && i < |e.rows| ==> i % 2 == 0
      invariant forall j :: 0 <= j < |emitted| ==>
        emitted[j] == EventOf(e, j, convert) && IsEvent(e, j, convert, emitted[j]) && accepted(j)
      decreases |e.rows| - i
    {
      var event, taken := MakeEvent(e, i, convert);
      if !accepted(|emitted|) {
        return emitted, true;
      }
      emitted := emitted + [event];
      i := i + taken;
    }
    ended := false;
  }

  /** The events of some changes, one change after the other. */
  function EventsOfChanges(changes: seq<RowsEvent>, convert: Conversion): seq<Event> {
    if changes == [] then []
    else
      var last := |changes| - 1;
      EventsOfChanges(changes[..last], convert) + EventsOfChange(changes[last], convert)
  }

  /** How many events the first n changes make. */
  function EventsBefore(changes: seq<RowsEvent>, n: nat): nat
    requires n <= |changes|
  {
    if n == 0 then 0 else EventsBefore(changes, n - 1) + EventCount(changes[n - 1])
  }

  lemma {:induction false} EventsBeforePrefix(changes: seq<RowsEvent>, m: nat, n: nat)
    requires n <= m <= |changes|
    ensures EventsBefore(changes[..m], n) == EventsBefore(changes, n)
  {
    if n > 0 {
      EventsBeforePrefix(changes, m, n - 1);
    }
  }

  /** The events of all changes but the last come first. */
  lemma EventsOfLast(changes: seq<RowsEvent>, convert: Conversion)
    requires changes != []
    ensures var last := |changes| - 1;
      && |EventsOfChanges(changes[..last], convert)| == EventsBefore(changes, last)
      && EventsOfChanges(changes, convert) ==
         EventsOfChanges(changes[..last], convert) + EventsOfChange(changes[last], convert)
  {
    LengthOfEvents(changes[..|changes| - 1], convert);
    EventsBeforePrefix(changes, |changes| - 1, |changes| - 1);
  }

  /** Where the events of a change are among those of all changes. */
  lemma {:induction false} EventAt(changes: seq<RowsEvent>, convert: Conversion, c: nat, j: nat)
    requires c < |changes| && j < EventCount(changes[c])
    ensures EventsBefore(changes, c) + j < |EventsOfChanges(changes, convert)|
    ensures EventsOfChanges(changes, convert)[EventsBefore(changes, c) + j] == EventOf(changes[c], j, convert)
  {
    var last := |changes| - 1;
    EventsOfLast(changes, convert);
    if c < last {
      EventsBeforePrefix(changes, last, c);
      EventAt(changes[..last], convert, c, j);
    }
  }

  lemma {:induction false} LengthOfEvents(changes: seq<RowsEvent>, convert: Conversion)
    ensures |EventsOfChanges(changes, convert)| == EventsBefore(changes, |changes|)
  {
    if changes != [] {
      LengthOfEvents(changes[..|changes| - 1], convert);
      EventsBeforePrefix(changes, |changes| - 1, |changes| - 1);
    }
  }

  /** Which event a row travels in. */
  function EventOfRow(changes: seq<RowsEvent>, c: nat, r: nat): nat
    requires c < |changes|
  {
    EventsBefore(changes, c) + if changes[c].action == UPDATE then r / 2 else r
  }

  /** The event of a change with row r in it, as what it is now or as what it was before. */
  ghost predicate Carries(e: RowsEvent, convert: Conversion, r: nat, event: Event) {
    IsEvent(e, if e.action == UPDATE then r / 2 else r, convert, event)
  }

  lemma RowTravels(changes: seq<RowsEvent>, convert: Conversion, c: nat, r: nat)
    requires c < |changes| && r < |changes[c].rows|
    ensures EventOfRow(changes, c, r) < |EventsOfChanges(changes, convert)|
    ensures Carries(changes[c], convert, r, EventsOfChanges(changes, convert)[EventOfRow(changes, c, r)])
  {
    var j := if changes[c].action == UPDATE then r / 2 else r;
    EveryRowOnce(changes[c], r, j);
    EventAt(changes, convert, c, j);
    EventOfIsEvent(changes[c], j, convert);
  }

  // ---------------------------------------------------------------------------------------------------
  // Positions

  datatype Position = Position(file: string, pos: nat)

  /** What a stored text is written and read with. */
  datatype Codec = Codec(encode: Position -> seq<nat>, decode: seq<nat> -> Option<Position>)

  ghost predicate RoundTrips(c: Codec) {
    forall p :: c.decode(c.encode(p)) == Some(p) && c.encode(p) != []
  }

  /** Whether a stored position says something. */
  predicate Usable(p: Position) { p.file != "" && p.pos != 0 }

  /** The position to resume from: the stored one if it can be read and says something, else the master's, else
      the beginning. */
  function LoadPosition(stored: Option<seq<nat>>, c: Codec, master: Option<Position>): Position {
    var fallback := if master.Some? then master.value else Position("", 0);
    if stored.Some? && |stored.value| > 0 then
      match c.decode(stored.value)
      case None => fallback
      case Some(p) => if Usable(p) then p else fallback
    else fallback
  }

  /** What was saved is what is resumed from, exactly when it names a file and an offset, or the master happens
      to be there. */
  lemma SavedIsResumed(c: Codec, p: Position, master: Option<Position>)
    requires RoundTrips(c)
    ensures LoadPosition(Some(c.encode(p)), c, master) == p <==>
      (p.file != "" && p.pos != 0) || p == (if master.Some? then master.value else Position("", 0))
  {
    assert c.decode(c.encode(p)) == Some(p);
  }

  /** A stored text from which a position can be resumed. */
  ghost predicate SaysSomething(stored: Option<seq<nat>>, c: Codec) {
    && stored.Some? && stored.value != [] && c.decode(stored.value).Some?
    && c.decode(stored.value).value.file != "" && c.decode(stored.value).value.pos != 0
  }

  /** Whatever is stored: it is resumed from if it says something, and otherwise the master's position is, or the
      beginning when the master cannot be asked. */
  lemma WhereToResume(stored: Option<seq<nat>>, c: Codec, master: Option<Position>)
    ensures SaysSomething(stored, c) ==> Some(LoadPosition(stored, c, master)) == c.decode(stored.value)
    ensures !SaysSomething(stored, c) && master.Some? ==> LoadPosition(stored, c, master) == master.value
    ensures !SaysSomething(stored, c) && master.None? ==> LoadPosition(stored, c, master) == Position("", 0)
  {
  }
}
