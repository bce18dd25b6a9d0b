/** The change events that travel from the source to the tasks. */
module Events {
  import opened Wrappers

  /** A column value. What the program only passes on is `Other`. */
  datatype Value = Nil | Text(text: string) | Number(number: int) | Flag(flag: bool) | Other(token: nat)

  type Row = map<string, Value>

  /** The time of arrival is left out: it is the clock's. */
  datatype Event = Event(
    serverId: int,
    pos: int,
    rowTime: int,
    database: string,
    table: string,
    kind: string,
    data: Row,
    before: Option<Row>)
}
