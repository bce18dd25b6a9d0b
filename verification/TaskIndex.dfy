/** Which tasks watch which table, looked up by the table a change came from. */
module TaskIndex {
  import opened Wrappers

  datatype Table = Table(database: string, name: string, primaryKey: string, refColumn: string)

  datatype Task = Task(main: Table, subs: seq<Table>)

  /** One table of one task: the task by its place in the list, and whether the table is its main one. */
  datatype Watcher = Watcher(task: nat, table: Table, main: bool)

  type Index = map<string, seq<Watcher>>

  function KeyOf(database: string, table: string): string {
    database + "." + table
  }

  function TableKey(t: Table): string { KeyOf(t.database, t.name) }

  function Key(w: Watcher): string { TableKey(w.table) }

  /** A declaration that can be indexed: named in full, without dots, and with the column its role asks for. */
  predicate IsValid(t: Table, main: bool) {
    && t.database != "" && t.name != ""
    && '.' !in t.database && '.' !in t.name
    && (if main then t.primaryKey != "" else t.refColumn != "")
  }

  function KeyColumn(w: Watcher): string {
    if w.main then w.table.primaryKey else w.table.refColumn
  }

  /** Undotted declared names are told apart from all other names: a key determines the table. */
  lemma KeyDeterminesTable(database: string, name: string, eventDatabase: string, eventTable: string)
    requires '.' !in database && '.' !in name
    ensures KeyOf(database, name) == KeyOf(eventDatabase, eventTable) <==>
            database == eventDatabase && name == eventTable
  {
    var key := KeyOf(database, name);
    if key == KeyOf(eventDatabase, eventTable) {
      assert key[|eventDatabase|] == '.';
      assert forall i :: 0 <= i < |key| && key[i] == '.' ==> i == |database|;
      assert key[..|database|] == database && key[|database| + 1..] == name;
      assert key[..|eventDatabase|] == eventDatabase && key[|eventDatabase| + 1..] == eventTable;
    }
  }

  // ---------------------------------------------------------------------------------------------------
  // The plain scan the index stands for

  /** The declarations of a task, main table first. */
  function WatchersOf(t: Task, task: nat, subs: nat): seq<Watcher>
    requires subs <= |t.subs|
  {
    if subs == 0 then [Watcher(task, t.main, true)]
    else WatchersOf(t, task, subs - 1) + [Watcher(task, t.subs[subs - 1], false)]
  }

  /** The declarations of the first n tasks, in order. */
  function Declared(tasks: seq<Task>, n: nat): seq<Watcher>
    requires n <= |tasks|
  {
    if n == 0 then [] else Declared(tasks, n - 1) + WatchersOf(tasks[n - 1], n - 1, |tasks[n - 1].subs|)
  }

  /** Those with a key, in order. */
  function WithKey(ws: seq<Watcher>, key: string): seq<Watcher> {
    if ws == [] then []
    else WithKey(ws[..|ws| - 1], key) + if Key(ws[|ws| - 1]) == key then [ws[|ws| - 1]] else []
  }

  lemma {:induction false} WithKeyConcat(a: seq<Watcher>, b: seq<Watcher>, key: string)
    ensures WithKey(a + b, key) == WithKey(a, key) + WithKey(b, key)
    decreases |b|
  {
    if b == [] {
      assert a + b == a;
    } else {
      WithKeyConcat(a, b[..|b| - 1], key);
      assert (a + b)[..|a + b| - 1] == a + b[..|b| - 1];
    }
  }

  lemma {:induction false} WithKeyMeaning(ws: seq<Watcher>, key: string, w: Watcher)
    ensures w in WithKey(ws, key) <==> w in ws && Key(w) == key
  {
    if ws != [] {
      WithKeyMeaning(ws[..|ws| - 1], key, w);
      assert ws == ws[..|ws| - 1] + [ws[|ws| - 1]];
    }
  }

  /** A table with a database and a name, both without dots, and a column that names the row of the main table. */
  ghost predicate IsRoutable(t: Table, column: string) {
    |t.database| > 0 && |t.name| > 0 && |column| > 0 && '.' !in t.database + t.name
  }

  /** Two tables that are not one and the same. */
  ghost predicate Differ(t: Table, u: Table) {
    t.database != u.database || t.name != u.name
  }

  /** A task declares its main table with a primary key, its sub tables with a column referring to it, and no table
      twice. */
  ghost predicate WellDeclared(t: Task) {
    && IsRoutable(t.main, t.main.primaryKey)
    && (forall i :: 0 <= i < |t.subs| ==> IsRoutable(t.subs[i], t.subs[i].refColumn) && Differ(t.subs[i], t.main))
    && (forall i, j :: 0 <= i < j < |t.subs| ==> Differ(t.subs[i], t.subs[j]))
  }

  lemma ValidMeaning(t: Table, main: bool)
    ensures IsValid(t, main) <==> IsRoutable(t, if main then t.primaryKey else t.refColumn)
  {
    assert '.' in t.database + t.name <==> '.' in t.database || '.' in t.name;
  }

  lemma DifferMeaning(t: Table, main: bool, u: Table)
    requires IsValid(t, main)
    ensures Differ(u, t) <==> TableKey(u) != TableKey(t)
  {
    KeyDeterminesTable(t.database, t.name, u.database, u.name);
  }

  /** The keys of the main table and of the first n sub tables. */
  function KeysOf(t: Task, n: nat): set<string>
    requires n <= |t.subs|
  {
    if n == 0 then {TableKey(t.main)} else KeysOf(t, n - 1) + {TableKey(t.subs[n - 1])}
  }

  /** The same, one declaration after the other: as far as the first n sub tables go, all is well. */
  predicate WellSoFar(t: Task, n: nat)
    requires n <= |t.subs|
  {
    if n == 0 then IsValid(t.main, true)
    else WellSoFar(t, n - 1) && IsValid(t.subs[n - 1], false) && TableKey(t.subs[n - 1]) !in KeysOf(t, n - 1)
  }

  lemma {:induction false} WellSoFarStays(t: Task, m: nat, n: nat)
    requires m <= n <= |t.subs| && WellSoFar(t, n)
    ensures WellSoFar(t, m)
    decreases n
  {
    if m < n {
      WellSoFarStays(t, m, n - 1);
    }
  }

  lemma {:induction false} KeysOfMeaning(t: Task, n: nat, key: string)
    requires n <= |t.subs|
    ensures key in KeysOf(t, n) <==>
      key == TableKey(t.main) || exists i :: 0 <= i < n && key == TableKey(t.subs[i])
  {
    if n > 0 {
      KeysOfMeaning(t, n - 1, key);
    }
  }

  lemma {:induction false} WellSoFarMeaning(t: Task, n: nat)
    requires n <= |t.subs|
    ensures WellSoFar(t, n) <==>
      && IsValid(t.main, true)
      && (forall i :: 0 <= i < n ==> IsValid(t.subs[i], false) && TableKey(t.subs[i]) != TableKey(t.main))
      && (forall i, j :: 0 <= i < j < n ==> TableKey(t.subs[i]) != TableKey(t.subs[j]))
  {
    if n > 0 {
      WellSoFarMeaning(t, n - 1);
      KeysOfMeaning(t, n - 1, TableKey(t.subs[n - 1]));
    }
  }

  /** Checking each declaration against those before it finds all that is wrong with a task. */
  lemma WellSoFarIsWellDeclared(t: Task)
    ensures WellSoFar(t, |t.subs|) <==> WellDeclared(t)
  {
    WellSoFarMeaning(t, |t.subs|);
    ValidMeaning(t.main, true);
    forall i | 0 <= i < |t.subs|
      ensures IsValid(t.subs[i], false) <==> IsRoutable(t.subs[i], t.subs[i].refColumn)
      ensures IsValid(t.main, true) ==> (Differ(t.subs[i], t.main) <==> TableKey(t.subs[i]) != TableKey(t.main))
    {
      ValidMeaning(t.subs[i], false);
      if IsValid(t.main, true) {
        DifferMeaning(t.main, true, t.subs[i]);
      }
    }
    forall i, j | 0 <= i < j < |t.subs|
      ensures IsValid(t.subs[j], false) ==>
        (Differ(t.subs[i], t.subs[j]) <==> TableKey(t.subs[i]) != TableKey(t.subs[j]))
    {
      if IsValid(t.subs[j], false) {
        DifferMeaning(t.subs[j], false, t.subs[i]);
      }
    }
  }

  function Of(index: Index, key: string): seq<Watcher> {
    if key in index then index[key] else []
  }

  /** The index answers every lookup as the scan would. */
  ghost predicate Indexes(index: Index, ws: seq<Watcher>) {
    forall key :: Of(index, key) == WithKey(ws, key)
  }

  ghost predicate AllWellDeclared(tasks: seq<Task>) {
    forall i :: 0 <= i < |tasks| ==> WellDeclared(tasks[i])
  }

  /** An index of these tasks, and tasks that can be indexed. */
  ghost predicate IsIndexOf(index: Index, tasks: seq<Task>) {
    AllWellDeclared(tasks) && Indexes(index, Declared(tasks, |tasks|))
  }

  function Added(index: Index, w: Watcher): Index {
    index[Key(w) := Of(index, Key(w)) + [w]]
  }

  lemma {:induction false} AddedIndexes(index: Index, ws: seq<Watcher>, w: Watcher)
    requires Indexes(index, ws)
    ensures Indexes(Added(index, w), ws + [w])
  {
    assert (ws + [w])[..|ws + [w]| - 1] == ws;
  }

  // ---------------------------------------------------------------------------------------------------
  // Building it

  method Add(before: Index, w: Watcher, ghost ws: seq<Watcher>) returns (index: Index)
    requires Indexes(before, ws)
    ensures Indexes(index, ws + [w])
  {
    AddedIndexes(before, ws, w);
    index := Added(before, w);
  }

  /** The tables of one task, added to an index; nothing when a declaration is invalid or repeated. */
  method IndexTask(before: Index, t: Task, task: nat, ghost ws: seq<Watcher>) returns (index: Option<Index>)
    requires Indexes(before, ws)
    ensures index.Some? <==> WellDeclared(t)
    ensures index.Some? ==> Indexes(index.value, ws + WatchersOf(t, task, |t.subs|))
  {
    WellSoFarIsWellDeclared(t);
    if !IsValid(t.main, true) {
      NotWell(t, 0);
      return None;
    }
    ghost var all := ws + WatchersOf(t, task, 0);
    assert all == ws + [Watcher(task, t.main, true)];
    var built := Add(before, Watcher(task, t.main, true), ws);
    var declared := {TableKey(t.main)};
    for i := 0 to |t.subs|
      invariant WellSoFar(t, i) && declared == KeysOf(t, i)
      invariant Indexes(built, all) && all == ws + WatchersOf(t, task, i)
    {
      var sub := t.subs[i];
      if !IsValid(sub, false) || TableKey(sub) in declared {
        NotWell(t, i + 1);
        return None;
      }
      declared := declared + {TableKey(sub)};
      built := Add(built, Watcher(task, sub, false), all);
      all := all + [Watcher(task, sub, false)];
    }
    index := Some(built);
  }

  lemma NotWell(t: Task, n: nat)
    requires n <= |t.subs| && !WellSoFar(t, n)
    ensures !WellSoFar(t, |t.subs|)
  {
    if WellSoFar(t, |t.subs|) {
      WellSoFarStays(t, n, |t.subs|);
    }
  }

  /** The index is built exactly when every task is well declared, and then it is the scan. */
  method IndexTasks(tasks: seq<Task>) returns (index: Option<Index>)
    ensures index.Some? <==> AllWellDeclared(tasks)
    ensures index.Some? ==> IsIndexOf(index.value, tasks)
  {
    var built: Index := map[];
    ghost var all := [];
    for i := 0 to |tasks|
      invariant forall k :: 0 <= k < i ==> WellDeclared(tasks[k])
      invariant Indexes(built, all) && all == Declared(tasks, i)
    {
      WellSoFarIsWellDeclared(tasks[i]);
      var more := IndexTask(built, tasks[i], i, all);
      if more.None? {
        assert !WellDeclared(tasks[i]);
        return None;
      }
      built := more.value;
      all := all + WatchersOf(tasks[i], i, |tasks[i].subs|);
    }
    index := Some(built);
  }

  // ---------------------------------------------------------------------------------------------------
  // What a lookup finds

  lemma {:induction false} WatchersOfMeaning(t: Task, task: nat, subs: nat, w: Watcher)
    requires subs <= |t.subs|
    ensures w in WatchersOf(t, task, subs) <==>
      w.task == task && (if w.main then w.table == t.main else w.table in t.subs[..subs])
  {
    if subs > 0 {
      WatchersOfMeaning(t, task, subs - 1, w);
      assert t.subs[..subs] == t.subs[..subs - 1] + [t.subs[subs - 1]];
    }
  }

  lemma OwnMeaning(t: Task, task: nat, w: Watcher)
    ensures w in WatchersOf(t, task, |t.subs|) <==>
      w.task == task && (if w.main then w.table == t.main else w.table in t.subs)
  {
    WatchersOfMeaning(t, task, |t.subs|, w);
    assert t.subs[..|t.subs|] == t.subs;
  }

  lemma {:induction false} DeclaredMeaning(tasks: seq<Task>, n: nat, w: Watcher)
    requires n <= |tasks|
    ensures w in Declared(tasks, n) <==>
      w.task < n && (if w.main then w.table == tasks[w.task].main else w.table in tasks[w.task].subs)
  {
    if n > 0 {
      DeclaredMeaning(tasks, n - 1, w);
      OwnMeaning(tasks[n - 1], n - 1, w);
    }
  }

  /** Routing: the tasks found for a change are exactly the declarations of the table it came from, whatever the
      names in the change look like; a name with a dot in it matches none. */
  lemma {:induction false} RoutingIsExact(tasks: seq<Task>, index: Index, database: string, table: string, w: Watcher)
    requires IsIndexOf(index, tasks)
    ensures w in Of(index, KeyOf(database, table)) <==>
      && w.task < |tasks|
      && (if w.main then w.table == tasks[w.task].main else w.table in tasks[w.task].subs)
      && w.table.database == database && w.table.name == table
    ensures '.' in database || '.' in table ==> Of(index, KeyOf(database, table)) == []
  {
    var key := KeyOf(database, table);
    forall v
      ensures v in Of(index, key) <==>
        && v.task < |tasks|
        && (if v.main then v.table == tasks[v.task].main else v.table in tasks[v.task].subs)
        && v.table.database == database && v.table.name == table
    {
      WithKeyMeaning(Declared(tasks, |tasks|), key, v);
      DeclaredMeaning(tasks, |tasks|, v);
      if v in Declared(tasks, |tasks|) {
        KeyDeterminesTable(v.table.database, v.table.name, database, table);
      }
    }
    assert Of(index, key) != [] ==> Of(index, key)[0] in Of(index, key);
  }

  /** A well declared task has a key once, if at all, in the list of its declarations. */
  lemma {:induction false} OnceInTask(t: Task, task: nat, n: nat, key: string)
    requires n <= |t.subs| && WellSoFar(t, n)
    ensures |WithKey(WatchersOf(t, task, n), key)| == if key in KeysOf(t, n) then 1 else 0
    ensures forall i :: 0 <= i < |WithKey(WatchersOf(t, task, n), key)| ==>
      WithKey(WatchersOf(t, task, n), key)[i].task == task
  {
    if n == 0 {
      assert [Watcher(task, t.main, true)][..0] == [];
    } else {
      OnceInTask(t, task, n - 1, key);
      var ws := WatchersOf(t, task, n);
      assert ws[..|ws| - 1] == WatchersOf(t, task, n - 1);
    }
  }

  lemma OnceInOwn(t: Task, task: nat, key: string)
    requires WellDeclared(t)
    ensures var ws := WithKey(WatchersOf(t, task, |t.subs|), key);
      |ws| <= 1 && forall i :: 0 <= i < |ws| ==> ws[i].task == task
  {
    WellSoFarIsWellDeclared(t);
    OnceInTask(t, task, |t.subs|, key);
  }

  /** Declarations of the first n tasks, at most one of each, in order. */
  ghost predicate Ascending(ws: seq<Watcher>, n: nat) {
    && (forall i :: 0 <= i < |ws| ==> ws[i].task < n)
    && (forall i, j :: 0 <= i < j < |ws| ==> ws[i].task < ws[j].task)
  }

  lemma OneMoreTask(before: seq<Watcher>, own: seq<Watcher>, key: string, n: nat)
    requires Ascending(WithKey(before, key), n)
    requires |WithKey(own, key)| <= 1 && forall i :: 0 <= i < |WithKey(own, key)| ==> WithKey(own, key)[i].task == n
    ensures Ascending(WithKey(before + own, key), n + 1)
  {
    WithKeyConcat(before, own, key);
    AscendingOne(WithKey(before, key), WithKey(own, key), n);
  }

  lemma AscendingOne(ws: seq<Watcher>, more: seq<Watcher>, n: nat)
    requires Ascending(ws, n) && |more| <= 1 && forall i :: 0 <= i < |more| ==> more[i].task == n
    ensures Ascending(ws + more, n + 1)
  {
  }

  lemma {:induction false} OnceInDeclared(tasks: seq<Task>, n: nat, key: string)
    requires AllWellDeclared(tasks) && n <= |tasks|
    ensures Ascending(WithKey(Declared(tasks, n), key), n)
  {
    if n > 0 {
      OnceInDeclared(tasks, n - 1, key);
      OnceInOwn(tasks[n - 1], n - 1, key);
      OneMoreTask(Declared(tasks, n - 1), WatchersOf(tasks[n - 1], n - 1, |tasks[n - 1].subs|), key, n - 1);
    }
  }

  /** No task is run twice for one change: in the list of a key every task stands at most once, in the order the
      tasks were given in. */
  lemma OncePerTask(tasks: seq<Task>, index: Index, key: string)
    requires IsIndexOf(index, tasks)
    ensures forall i, j :: 0 <= i < j < |Of(index, key)| ==> Of(index, key)[i].task < Of(index, key)[j].task
  {
    OnceInDeclared(tasks, |tasks|, key);
    assert Of(index, key) == WithKey(Declared(tasks, |tasks|), key);
  }
}
