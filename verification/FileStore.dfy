/** The file store: one file a key, written through a temporary file and a rename, with a crash possible between
    any two steps, and calls on different keys in parallel. */
module FileStore {
  import opened Wrappers
  import Runs
  import MySqlSource

  type Bytes = seq<nat>

  // ---------------------------------------------------------------------------------------------------
  // Names

  const PREFIX: string := "cdc-trigger-"
  const SUFFIX: string := ".tmp"

  /** A 128-bit digest, byte by byte. */
  type Digest = d: seq<nat> | |d| == 16 && forall i :: 0 <= i < |d| ==> d[i] < 256
    witness [0, 0, 0, 0, 0, 0, 0, 0, 0, 0, 0, 0, 0, 0, 0, 0]

  /** The directory, and the hash that names the file of a key. */
  datatype Config = Config(dir: string, hash: string -> Digest)

  function HexDigit(n: nat): char
    requires n < 16
  {
    "0123456789abcdef"[n]
  }

  function Hex(bytes: seq<nat>): (s: string)
    requires forall i :: 0 <= i < |bytes| ==> bytes[i] < 256
    ensures |s| == 2 * |bytes|
  {
    if bytes == [] then []
    else [HexDigit(bytes[0] / 16), HexDigit(bytes[0] % 16)] + Hex(bytes[1..])
  }

  lemma HexDigitIsInjective(m: nat, n: nat)
    requires m < 16 && n < 16 && HexDigit(m) == HexDigit(n)
    ensures m == n
  {
  }

  lemma {:induction false} HexIsInjective(a: seq<nat>, b: seq<nat>)
    requires forall i :: 0 <= i < |a| ==> a[i] < 256
    requires forall i :: 0 <= i < |b| ==> b[i] < 256
    requires Hex(a) == Hex(b)
    ensures a == b
  {
    if a != [] {
      var s := Hex(a);
      assert b != [];
      assert s[0] == HexDigit(a[0] / 16) == HexDigit(b[0] / 16);
      assert s[1] == HexDigit(a[0] % 16) == HexDigit(b[0] % 16);
      HexDigitIsInjective(a[0] / 16, b[0] / 16);
      HexDigitIsInjective(a[0] % 16, b[0] % 16);
      assert s[2..] == Hex(a[1..]) && s[2..] == Hex(b[1..]);
      HexIsInjective(a[1..], b[1..]);
      assert a == [a[0]] + a[1..] && b == [b[0]] + b[1..];
    }
  }

  lemma {:induction false} HexHasNoSuffix(bytes: seq<nat>)
    requires forall i :: 0 <= i < |bytes| ==> bytes[i] < 256
    ensures forall i :: 0 <= i < |Hex(bytes)| ==> Hex(bytes)[i] in "0123456789abcdef"
  {
    if bytes != [] {
      HexHasNoSuffix(bytes[1..]);
    }
  }

  function FilePath(c: Config, key: string): string {
    c.dir + "/" + PREFIX + Hex(c.hash(key))
  }

  function TempPath(c: Config, random: string): string {
    c.dir + "/" + PREFIX + random + SUFFIX
  }

  /** Two keys share a file exactly when they share a hash. */
  lemma SameFileSameHash(c: Config, k: string, l: string)
    ensures FilePath(c, k) == FilePath(c, l) <==> c.hash(k) == c.hash(l)
  {
    if FilePath(c, k) == FilePath(c, l) {
      var before := c.dir + "/" + PREFIX;
      assert FilePath(c, k)[|before|..] == Hex(c.hash(k));
      assert FilePath(c, l)[|before|..] == Hex(c.hash(l));
      HexIsInjective(c.hash(k), c.hash(l));
    }
  }

  /** A temporary file is never the file of a key, whatever its random part is. */
  lemma TempIsNoKeyFile(c: Config, random: string, key: string)
    ensures TempPath(c, random) != FilePath(c, key)
  {
    var path, temp := FilePath(c, key), TempPath(c, random);
    HexHasNoSuffix(c.hash(key));
    assert path[|path| - 1] == Hex(c.hash(key))[|Hex(c.hash(key))| - 1];
    assert temp[|temp| - 1] == 'p';
  }

  // ---------------------------------------------------------------------------------------------------
  // The file system, its calls and its crashes

  /** A call that has renamed its file still looks whether a file has the temporary name, and removes that file. */
  datatype Stage = Locked | Created | Written | Renamed | Removing

  /** A file is told apart by its inode, whatever name it has, or none any more. */
  datatype File = File(content: Bytes, inode: nat)

  /** A call of Set that holds the lock of its key. It writes to the file it has created, not to a name. */
  datatype SetCall = SetCall(key: string, value: Bytes, temp: string, inode: nat, stage: Stage)

  datatype State = State(
    files: map<string, File>,
    calls: map<nat, SetCall>,
    stored: map<string, Bytes>)      // the store as its callers see it: what renames and deletions have left

  datatype Step =
    | BeginSet(call: nat, key: string, value: Bytes)
    | CreateTemp(call: nat, random: string, inode: nat)
    | WriteSome(call: nat, n: nat)
    | WriteAll(call: nat)
    | Rename(call: nat)
    | Look(call: nat)
    | Remove(call: nat)
    | Fails(call: nat, cleaned: bool)
    | Delete(key: string)
    | Crash

  const INIT: State := State(map[], map[], map[])

  predicate KeyIsLocked(s: State, key: string) { exists c :: c in s.calls && s.calls[c].key == key }

  predicate Holds(s: State, call: nat, stage: Stage) { call in s.calls && s.calls[call].stage == stage }

  /** No file with a name, and none that is written to, has this inode. */
  ghost predicate IsNew(s: State, inode: nat) {
    && (forall name :: name in s.files ==> s.files[name].inode != inode)
    && (forall c :: c in s.calls ==> s.calls[c].inode != inode)
  }

  /** Writing to a file changes it under the name it has, if it has one. */
  function WriteTo(files: map<string, File>, inode: nat, content: Bytes): map<string, File> {
    map name | name in files :: if files[name].inode == inode then File(content, inode) else files[name]
  }

  ghost function Next(cfg: Config, s: State, step: Step): Option<State> {
    match step
    case BeginSet(c, key, value) =>
      if c in s.calls || KeyIsLocked(s, key) then None
      else Some(s.(calls := s.calls[c := SetCall(key, value, "", 0, Locked)]))
    case CreateTemp(c, random, inode) =>
      var temp := TempPath(cfg, random);
      if !Holds(s, c, Locked) || temp in s.files || !IsNew(s, inode) then None
      else Some(s.(files := s.files[temp := File([], inode)],
                   calls := s.calls[c := s.calls[c].(temp := temp, inode := inode, stage := Created)]))
    case WriteSome(c, n) =>
      if !Holds(s, c, Created) || n > |s.calls[c].value| then None
      else Some(s.(files := WriteTo(s.files, s.calls[c].inode, s.calls[c].value[..n])))
    case WriteAll(c) =>
      if !Holds(s, c, Created) then None
      else Some(s.(files := WriteTo(s.files, s.calls[c].inode, s.calls[c].value),
                   calls := s.calls[c := s.calls[c].(stage := Written)]))
    case Rename(c) =>
      if !Holds(s, c, Written) || s.calls[c].temp !in s.files then None
      else
        var call := s.calls[c];
        Some(State((s.files - {call.temp})[FilePath(cfg, call.key) := s.files[call.temp]],
                   s.calls[c := call.(stage := Renamed)],
                   s.stored[call.key := call.value]))
    case Look(c) =>
      if !Holds(s, c, Renamed) then None
      else if s.calls[c].temp in s.files then Some(s.(calls := s.calls[c := s.calls[c].(stage := Removing)]))
      else Some(s.(calls := s.calls - {c}))
    case Remove(c) =>
      if !Holds(s, c, Removing) then None
      else Some(s.(calls := s.calls - {c}, files := s.files - {s.calls[c].temp}))
    case Fails(c, cleaned) =>
      if c !in s.calls || s.calls[c].stage in {Renamed, Removing} then None
      else Some(s.(calls := s.calls - {c}, files := if cleaned then s.files - {s.calls[c].temp} else s.files))
    case Delete(key) =>
      if KeyIsLocked(s, key) then None
      else Some(s.(files := s.files - {FilePath(cfg, key)}, stored := s.stored - {key}))
    case Crash =>
      Some(s.(calls := map[]))
  }

  function Lookup<T>(values: map<string, T>, name: string): Option<T> {
    if name in values then Some(values[name]) else None
  }

  /** What reading the file of a key gives. */
  function Read(cfg: Config, files: map<string, File>, key: string): Option<Bytes> {
    var file := Lookup(files, FilePath(cfg, key));
    if file.Some? then Some(file.value.content) else None
  }

  // ---------------------------------------------------------------------------------------------------
  // The invariant

  ghost predicate IsTemp(cfg: Config, name: string) { exists random :: name == TempPath(cfg, random) }

  /** No two keys in use share a hash. */
  ghost predicate NoCollision(cfg: Config, keys: set<string>) {
    forall k, l :: k in keys && l in keys && cfg.hash(k) == cfg.hash(l) ==> k == l
  }

  ghost predicate OnePerKey(calls: map<nat, SetCall>) {
    forall c, d :: c in calls && d in calls && calls[c].key == calls[d].key ==> c == d
  }

  /** One call a key, and one temporary file a call. */
  ghost predicate Exclusive(calls: map<nat, SetCall>, keys: set<string>) {
    && (forall c :: c in calls ==> calls[c].key in keys && (calls[c].stage == Locked ==> calls[c].temp == ""))
    && OnePerKey(calls)
    && (forall c, d :: c in calls && d in calls && calls[c].temp == calls[d].temp != "" ==> c == d)
  }

  /** What a call has written is in its temporary file, until that has been renamed and the name is free. */
  ghost predicate InTemps(cfg: Config, calls: map<nat, SetCall>, files: map<string, File>) {
    forall c :: c in calls && calls[c].stage != Locked ==>
      && IsTemp(cfg, calls[c].temp)
      && calls[c].stage != Removing
      && (calls[c].stage == Renamed <==> calls[c].temp !in files)
      && (calls[c].stage != Renamed ==> files[calls[c].temp].inode == calls[c].inode)
      && (calls[c].stage == Written ==> files[calls[c].temp].content == calls[c].value)
  }

  /** A file has one name. */
  ghost predicate OneName(files: map<string, File>) {
    forall m, n :: m in files && n in files && files[m].inode == files[n].inode ==> m == n
  }

  ghost predicate Inv(cfg: Config, keys: set<string>, s: State) {
    && s.stored.Keys <= keys
    && Exclusive(s.calls, keys)
    && InTemps(cfg, s.calls, s.files)
    && OneName(s.files)
    // the files are the store
    && (forall key :: key in keys ==> Read(cfg, s.files, key) == Lookup(s.stored, key))
  }

  /** The temporary name a step takes is not the name of a call that has renamed its file and still looks for it. */
  ghost predicate TakesFreeName(cfg: Config, s: State, step: Step) {
    step.CreateTemp? ==> forall c :: c in s.calls ==> s.calls[c].temp != TempPath(cfg, step.random)
  }

  /** The keys a run is about. */
  predicate Uses(keys: set<string>, step: Step) {
    match step
    case BeginSet(_, key, _) => key in keys
    case Delete(key) => key in keys
    case _ => true
  }

  /** Only temporary files and one key's file are touched: the others read the same. */
  lemma OtherFilesStay(cfg: Config, keys: set<string>, files: map<string, File>, files': map<string, File>)
    requires forall name :: (name in files) != (name in files') || (name in files && files[name] != files'[name]) ==>
      IsTemp(cfg, name) || name == ""
    ensures forall key :: key in keys ==> Read(cfg, files', key) == Read(cfg, files, key)
  {
    forall key | key in keys
      ensures Read(cfg, files', key) == Read(cfg, files, key)
    {
      var path := FilePath(cfg, key);
      if IsTemp(cfg, path) {
        var random :| path == TempPath(cfg, random);
        TempIsNoKeyFile(cfg, random, key);
      }
    }
  }

  /** Changing the files of keys leaves the temporary files alone. */
  lemma TempsStay(
    cfg: Config, calls: map<nat, SetCall>, files: map<string, File>, files': map<string, File>, key: string)
    requires InTemps(cfg, calls, files)
    requires files' - {FilePath(cfg, key)} == files - {FilePath(cfg, key)}
    ensures InTemps(cfg, calls, files')
  {
    forall c | c in calls && calls[c].stage != Locked
      ensures calls[c].temp in files <==> calls[c].temp in files'
      ensures calls[c].temp in files ==> files'[calls[c].temp] == files[calls[c].temp]
    {
      var temp := calls[c].temp;
      var random :| temp == TempPath(cfg, random);
      TempIsNoKeyFile(cfg, random, key);
      assert temp in files <==> temp in files - {FilePath(cfg, key)};
      assert temp in files' <==> temp in files' - {FilePath(cfg, key)};
    }
  }

  /** Moving a file to the name of a key changes what that key reads as, and no other. */
  lemma MoveReads(cfg: Config, keys: set<string>, others: map<string, File>, moved: string, file: File)
    requires NoCollision(cfg, keys) && moved in keys
    ensures forall key :: key in keys ==>
      Read(cfg, others[FilePath(cfg, moved) := file], key) ==
      if key == moved then Some(file.content) else Read(cfg, others, key)
  {
    forall key | key in keys
      ensures FilePath(cfg, key) == FilePath(cfg, moved) <==> key == moved
    {
      SameFileSameHash(cfg, key, moved);
    }
  }

  lemma RenameReads(cfg: Config, keys: set<string>, s: State, c: nat)
    requires Inv(cfg, keys, s) && NoCollision(cfg, keys) && Next(cfg, s, Rename(c)).Some?
    ensures var s' := Next(cfg, s, Rename(c)).value;
            forall key :: key in keys ==> Read(cfg, s'.files, key) == Lookup(s'.stored, key)
  {
    var call := s.calls[c];
    var others := s.files - {call.temp};
    OtherFilesStay(cfg, keys, s.files, others);
    MoveReads(cfg, keys, others, call.key, s.files[call.temp]);
  }

  /** The temporary file of a call is gone, and its name is free. */
  lemma GoneTemps(cfg: Config, calls: map<nat, SetCall>, files: map<string, File>, keys: set<string>, c: nat)
    requires Exclusive(calls, keys) && InTemps(cfg, calls, files) && c in calls && calls[c].stage == Written
    ensures InTemps(cfg, calls[c := calls[c].(stage := Renamed)], files - {calls[c].temp})
  {
    var random :| calls[c].temp == TempPath(cfg, random);
    assert calls[c].temp != "";
  }

  lemma RenameTemps(cfg: Config, keys: set<string>, s: State, c: nat)
    requires Inv(cfg, keys, s) && Next(cfg, s, Rename(c)).Some?
    ensures var s' := Next(cfg, s, Rename(c)).value; InTemps(cfg, s'.calls, s'.files)
  {
    var s', call := Next(cfg, s, Rename(c)).value, s.calls[c];
    GoneTemps(cfg, s.calls, s.files, keys, c);
    TempsStay(cfg, s'.calls, s.files - {call.temp}, s'.files, call.key);
  }

  lemma RenamedExclusive(calls: map<nat, SetCall>, keys: set<string>, c: nat)
    requires Exclusive(calls, keys) && c in calls && calls[c].stage == Written
    ensures Exclusive(calls[c := calls[c].(stage := Renamed)], keys)
  {
  }

  lemma RenameKeeps(cfg: Config, keys: set<string>, s: State, c: nat)
    requires Inv(cfg, keys, s) && NoCollision(cfg, keys) && Next(cfg, s, Rename(c)).Some?
    ensures Inv(cfg, keys, Next(cfg, s, Rename(c)).value)
  {
    RenamedExclusive(s.calls, keys, c);
    RenameReads(cfg, keys, s, c);
    RenameTemps(cfg, keys, s, c);
  }

  lemma DeleteReads(cfg: Config, keys: set<string>, files: map<string, File>, key: string)
    requires NoCollision(cfg, keys) && key in keys
    ensures forall k :: k in keys ==>
      Read(cfg, files - {FilePath(cfg, key)}, k) == if k == key then None else Read(cfg, files, k)
  {
    forall k | k in keys
      ensures FilePath(cfg, k) == FilePath(cfg, key) <==> k == key
    {
      SameFileSameHash(cfg, k, key);
    }
  }

  lemma DeleteTemps(cfg: Config, calls: map<nat, SetCall>, files: map<string, File>, key: string)
    requires InTemps(cfg, calls, files) && OneName(files)
    ensures InTemps(cfg, calls, files - {FilePath(cfg, key)}) && OneName(files - {FilePath(cfg, key)})
  {
    TempsStay(cfg, calls, files, files - {FilePath(cfg, key)}, key);
  }

  lemma DeleteKeeps(cfg: Config, keys: set<string>, s: State, key: string)
    requires Inv(cfg, keys, s) && NoCollision(cfg, keys) && key in keys
    ensures Inv(cfg, keys, s.(files := s.files - {FilePath(cfg, key)}, stored := s.stored - {key}))
  {
    DeleteReads(cfg, keys, s.files, key);
    DeleteTemps(cfg, s.calls, s.files, key);
  }

  lemma CreateTemps(
    cfg: Config, keys: set<string>, calls: map<nat, SetCall>, files: map<string, File>,
    c: nat, random: string, inode: nat)
    requires Exclusive(calls, keys) && InTemps(cfg, calls, files)
    requires c in calls && calls[c].stage == Locked && TempPath(cfg, random) !in files
    requires forall d :: d in calls ==> calls[d].temp != TempPath(cfg, random)
    ensures var calls' := calls[c := calls[c].(temp := TempPath(cfg, random), inode := inode, stage := Created)];
            Exclusive(calls', keys) && InTemps(cfg, calls', files[TempPath(cfg, random) := File([], inode)])
  {
    assert IsTemp(cfg, TempPath(cfg, random));
  }

  lemma CreateKeeps(cfg: Config, keys: set<string>, s: State, c: nat, random: string, inode: nat)
    requires Inv(cfg, keys, s) && Next(cfg, s, CreateTemp(c, random, inode)).Some?
    requires TakesFreeName(cfg, s, CreateTemp(c, random, inode))
    ensures Inv(cfg, keys, Next(cfg, s, CreateTemp(c, random, inode)).value)
  {
    assert IsTemp(cfg, TempPath(cfg, random));
    CreateTemps(cfg, keys, s.calls, s.files, c, random, inode);
    OtherFilesStay(cfg, keys, s.files, s.files[TempPath(cfg, random) := File([], inode)]);
  }

  /** While a file has one name, writing to it is writing to that name. */
  lemma WriteIsLocal(files: map<string, File>, name: string, content: Bytes)
    requires OneName(files) && name in files
    ensures WriteTo(files, files[name].inode, content) == files[name := File(content, files[name].inode)]
    ensures OneName(WriteTo(files, files[name].inode, content))
  {
  }

  lemma WriteTemps(
    cfg: Config, keys: set<string>, calls: map<nat, SetCall>, files: map<string, File>,
    c: nat, content: Bytes, stage: Stage)
    requires Exclusive(calls, keys) && InTemps(cfg, calls, files) && c in calls && calls[c].stage == Created
    requires stage == Created || (stage == Written && content == calls[c].value)
    ensures var calls' := calls[c := calls[c].(stage := stage)];
            Exclusive(calls', keys) && InTemps(cfg, calls', files[calls[c].temp := File(content, calls[c].inode)])
  {
    var random :| calls[c].temp == TempPath(cfg, random);
    assert calls[c].temp != "";
  }

  lemma WriteKeeps(cfg: Config, keys: set<string>, s: State, step: Step)
    requires Inv(cfg, keys, s) && Next(cfg, s, step).Some? && (step.WriteSome? || step.WriteAll?)
    ensures Inv(cfg, keys, Next(cfg, s, step).value)
  {
    var c, s' := step.call, Next(cfg, s, step).value;
    var content := if step.WriteAll? then s.calls[c].value else s.calls[c].value[..step.n];
    WriteIsLocal(s.files, s.calls[c].temp, content);
    WriteTemps(cfg, keys, s.calls, s.files, c, content, if step.WriteAll? then Written else Created);
    assert s.calls[c := s.calls[c].(stage := s'.calls[c].stage)] == s'.calls;
    OtherFilesStay(cfg, keys, s.files, s'.files);
  }

  lemma FailsKeeps(cfg: Config, keys: set<string>, s: State, c: nat, cleaned: bool)
    requires Inv(cfg, keys, s) && Next(cfg, s, Fails(c, cleaned)).Some?
    ensures Inv(cfg, keys, Next(cfg, s, Fails(c, cleaned)).value)
  {
    OtherFilesStay(cfg, keys, s.files, Next(cfg, s, Fails(c, cleaned)).value.files);
  }

  lemma BeginKeeps(cfg: Config, keys: set<string>, s: State, c: nat, key: string, value: Bytes)
    requires Inv(cfg, keys, s) && key in keys && Next(cfg, s, BeginSet(c, key, value)).Some?
    ensures Inv(cfg, keys, Next(cfg, s, BeginSet(c, key, value)).value)
  {
    assert forall d :: d in s.calls ==> s.calls[d].key != key;
  }

  lemma NextKeeps(cfg: Config, keys: set<string>, s: State, step: Step)
    requires Inv(cfg, keys, s) && NoCollision(cfg, keys)
    requires Uses(keys, step) && TakesFreeName(cfg, s, step) && Next(cfg, s, step).Some?
    ensures Inv(cfg, keys, Next(cfg, s, step).value)
  {
    match step
    case Rename(c) => RenameKeeps(cfg, keys, s, c);
    case Delete(key) => DeleteKeeps(cfg, keys, s, key);
    case BeginSet(c, key, value) => BeginKeeps(cfg, keys, s, c, key, value);
    case Look(_) | Remove(_) | Crash =>
    case CreateTemp(c, random, inode) => CreateKeeps(cfg, keys, s, c, random, inode);
    case WriteSome(_, _) | WriteAll(_) => WriteKeeps(cfg, keys, s, step);
    case Fails(c, cleaned) => FailsKeeps(cfg, keys, s, c, cleaned);
  }

  // ---------------------------------------------------------------------------------------------------
  // What every run satisfies, crashes included

  /** The steps of a run that uses certain keys only, and if `free` only free temporary names. */
  ghost predicate May(cfg: Config, keys: set<string>, free: bool, s: State, step: Step) {
    Uses(keys, step) && (free ==> TakesFreeName(cfg, s, step)) && Next(cfg, s, step).Some?
  }

  ghost function System(cfg: Config, keys: set<string>, free: bool): (State, Step) -> Option<State> {
    (s: State, step: Step) => if May(cfg, keys, free, s, step) then Next(cfg, s, step) else None
  }

  ghost predicate Reachable(cfg: Config, keys: set<string>, free: bool, s: State) {
    exists steps :: Runs.After(System(cfg, keys, free), INIT, steps) == Some(s)
  }

  ghost predicate OneKey(keys: set<string>) {
    forall k, l :: k in keys && l in keys ==> k == l
  }

  /** One key is in use; or names are always free and no two keys share a hash. */
  ghost predicate Safe(cfg: Config, keys: set<string>, free: bool) {
    OneKey(keys) || (free && NoCollision(cfg, keys))
  }

  /** With one key the lock keeps a second call away until the first one has cleaned up. */
  lemma OneKeyTakesFreeNames(cfg: Config, keys: set<string>, s: State, step: Step)
    requires OneKey(keys) && Exclusive(s.calls, keys) && Next(cfg, s, step).Some?
    ensures TakesFreeName(cfg, s, step)
  {
    if step.CreateTemp? {
      forall c | c in s.calls
        ensures c == step.call
      {
        assert s.calls[c].key == s.calls[step.call].key;
      }
      assert TempPath(cfg, step.random) != "";
    }
  }

  lemma ReachableInv(cfg: Config, keys: set<string>, free: bool, s: State)
    requires Safe(cfg, keys, free) && Reachable(cfg, keys, free, s)
    ensures Inv(cfg, keys, s)
  {
    var next, inv := System(cfg, keys, free), (t: State) => Inv(cfg, keys, t);
    var steps :| Runs.After(next, INIT, steps) == Some(s);
    forall t, step | inv(t) && next(t, step).Some?
      ensures inv(next(t, step).value)
    {
      SystemKeeps(cfg, keys, free, t, step);
    }
    Runs.RunKeeps(next, inv, INIT, steps);
  }

  lemma SystemKeeps(cfg: Config, keys: set<string>, free: bool, s: State, step: Step)
    requires Inv(cfg, keys, s) && Safe(cfg, keys, free) && May(cfg, keys, free, s, step)
    ensures Inv(cfg, keys, Next(cfg, s, step).value)
  {
    if OneKey(keys) {
      OneKeyTakesFreeNames(cfg, keys, s, step);
    }
    NextKeeps(cfg, keys, s, step);
  }

  /** The files are the store: after any run, with crashes at any point and leftovers of any kind, reading a key
      gives the complete value that was renamed to it last, unless it was deleted since, and nothing else. */
  lemma FilesAreTheStore(cfg: Config, keys: set<string>, free: bool, s: State, key: string)
    requires Safe(cfg, keys, free) && Reachable(cfg, keys, free, s) && key in keys
    ensures Read(cfg, s.files, key) == Lookup(s.stored, key)
  {
    ReachableInv(cfg, keys, free, s);
  }

  /** Crash atomicity, step by step: what a key reads as changes in one step only, the rename of a call of Set
      on that key, and then from the complete old value to the complete new one. Deleting it removes it. */
  lemma ReadsChangeAtomically(cfg: Config, keys: set<string>, free: bool, s: State, step: Step, key: string)
    requires Safe(cfg, keys, free) && Reachable(cfg, keys, free, s) && key in keys
    requires May(cfg, keys, free, s, step)
    ensures Read(cfg, Next(cfg, s, step).value.files, key) ==
      if step.Rename? && s.calls[step.call].key == key then Some(s.calls[step.call].value)
      else if step == Delete(key) then None
      else Read(cfg, s.files, key)
  {
    FilesAreTheStore(cfg, keys, free, s, key);
    var s' := OneStep(cfg, keys, free, s, step);
    FilesAreTheStore(cfg, keys, free, s', key);
  }

  lemma OneStep(cfg: Config, keys: set<string>, free: bool, s: State, step: Step) returns (s': State)
    requires Reachable(cfg, keys, free, s) && May(cfg, keys, free, s, step)
    ensures Next(cfg, s, step) == Some(s') && Reachable(cfg, keys, free, s')
  {
    var next := System(cfg, keys, free);
    var steps :| Runs.After(next, INIT, steps) == Some(s);
    Runs.Extend(next, INIT, steps, step);
    s' := Next(cfg, s, step).value;
    assert Runs.After(next, INIT, steps + [step]) == Some(s');
  }

  lemma StepKeepsOne(cfg: Config, s: State, step: Step)
    requires OnePerKey(s.calls) && Next(cfg, s, step).Some?
    ensures OnePerKey(Next(cfg, s, step).value.calls)
  {
  }

  /** The lock of a key: never two calls of Set on one key, whatever names are taken and hashes shared. */
  lemma OneWriterPerKey(cfg: Config, keys: set<string>, free: bool, s: State, c: nat, d: nat)
    requires Reachable(cfg, keys, free, s)
    requires c in s.calls && d in s.calls && s.calls[c].key == s.calls[d].key
    ensures c == d
  {
    var next, inv := System(cfg, keys, free), (t: State) => OnePerKey(t.calls);
    var steps :| Runs.After(next, INIT, steps) == Some(s);
    forall t, step | inv(t) && next(t, step).Some?
      ensures inv(next(t, step).value)
    {
      StepKeepsOne(cfg, t, step);
    }
    Runs.RunKeeps(next, inv, INIT, steps);
  }

  // ---------------------------------------------------------------------------------------------------
  // What a call does when nothing fails

  lemma OneMore(
    cfg: Config, keys: set<string>, free: bool, s: State, steps: seq<Step>, t: State, step: Step)
    returns (more: seq<Step>, u: State)
    requires Runs.After(System(cfg, keys, free), s, steps) == Some(t) && Reachable(cfg, keys, free, t)
    requires May(cfg, keys, free, t, step)
    ensures Next(cfg, t, step) == Some(u) && Reachable(cfg, keys, free, u)
    ensures Runs.After(System(cfg, keys, free), s, more) == Some(u)
  {
    Runs.Extend(System(cfg, keys, free), s, steps, step);
    more := steps + [step];
    u := OneStep(cfg, keys, free, t, step);
  }

  /** Nobody is writing anything, and this name and inode are new; 0 stands for no inode. */
  ghost predicate IsQuiet(cfg: Config, s: State, random: string, inode: nat) {
    s.calls == map[] && TempPath(cfg, random) !in s.files && IsNew(s, inode) && inode > 0
  }

  lemma CreationGoesThrough(
    cfg: Config, keys: set<string>, free: bool, s: State, key: string, value: Bytes, random: string, inode: nat)
    returns (steps: seq<Step>, s': State)
    requires Reachable(cfg, keys, free, s) && key in keys && IsQuiet(cfg, s, random, inode)
    ensures Runs.After(System(cfg, keys, free), s, steps) == Some(s') && Reachable(cfg, keys, free, s')
    ensures s'.calls == map[0 := SetCall(key, value, TempPath(cfg, random), inode, Created)]
    ensures s'.files == s.files[TempPath(cfg, random) := File([], inode)] && s'.stored == s.stored
  {
    assert TempPath(cfg, random) != "";
    steps, s' := OneMore(cfg, keys, free, s, [], s, BeginSet(0, key, value));
    var begun := s';
    assert begun.calls == map[0 := SetCall(key, value, "", 0, Locked)] && begun.files == s.files;
    steps, s' := OneMore(cfg, keys, free, s, steps, begun, CreateTemp(0, random, inode));
  }

  lemma WriteGoesThrough(
    cfg: Config, keys: set<string>, free: bool, s: State, key: string, value: Bytes, random: string, inode: nat)
    returns (steps: seq<Step>, s': State)
    requires Reachable(cfg, keys, free, s) && key in keys && IsQuiet(cfg, s, random, inode)
    ensures Runs.After(System(cfg, keys, free), s, steps) == Some(s') && Reachable(cfg, keys, free, s')
    ensures s'.calls == map[0 := SetCall(key, value, TempPath(cfg, random), inode, Written)]
    ensures s'.files == s.files[TempPath(cfg, random) := File(value, inode)] && s'.stored == s.stored
  {
    steps, s' := CreationGoesThrough(cfg, keys, free, s, key, value, random, inode);
    steps, s' := OneMore(cfg, keys, free, s, steps, s', WriteAll(0));
  }

  /** A call of Set that meets no failure stores the value, leaves no temporary file, and gives its key back. */
  lemma SetStores(
    cfg: Config, keys: set<string>, free: bool, s: State, key: string, value: Bytes, random: string, inode: nat)
    returns (steps: seq<Step>, s': State)
    requires Reachable(cfg, keys, free, s) && key in keys && IsQuiet(cfg, s, random, inode)
    ensures Runs.After(System(cfg, keys, free), s, steps) == Some(s')
    ensures Read(cfg, s'.files, key) == Some(value) && s'.calls == map[] && TempPath(cfg, random) !in s'.files
    ensures s'.stored == s.stored[key := value]
  {
    TempIsNoKeyFile(cfg, random, key);
    steps, s' := WriteGoesThrough(cfg, keys, free, s, key, value, random, inode);
    steps, s' := OneMore(cfg, keys, free, s, steps, s', Rename(0));
    steps, s' := OneMore(cfg, keys, free, s, steps, s', Look(0));
  }

  /** A key nobody is writing can be deleted, and then has no value. */
  lemma DeleteForgets(cfg: Config, keys: set<string>, free: bool, s: State, key: string)
    requires Reachable(cfg, keys, free, s) && key in keys && !KeyIsLocked(s, key)
    ensures May(cfg, keys, free, s, Delete(key))
    ensures Read(cfg, Next(cfg, s, Delete(key)).value.files, key) == None
    ensures key !in Next(cfg, s, Delete(key)).value.stored
  {
  }

  /** A crash can come at any moment. It ends all calls, and leaves all files and values as they were. */
  lemma CrashEndsCallsOnly(cfg: Config, keys: set<string>, free: bool, s: State)
    ensures May(cfg, keys, free, s, Crash) && Next(cfg, s, Crash).value == s.(calls := map[])
  {
  }

  /** A call can fail at any step before its rename. It gives its key back, and its key reads as before; if the cleanup
      works, its temporary file is gone. */
  lemma FailureLeavesValue(cfg: Config, keys: set<string>, free: bool, s: State, c: nat, cleaned: bool)
    requires Safe(cfg, keys, free) && Reachable(cfg, keys, free, s)
    requires c in s.calls && s.calls[c].stage in {Locked, Created, Written}
    ensures May(cfg, keys, free, s, Fails(c, cleaned))
    ensures
      var s', call := Next(cfg, s, Fails(c, cleaned)).value, s.calls[c];
      && c !in s'.calls && !KeyIsLocked(s', call.key) && Read(cfg, s'.files, call.key) == Read(cfg, s.files, call.key)
      && (cleaned ==> call.temp !in s'.files)
  {
    ReachableInv(cfg, keys, free, s);
    ReadsChangeAtomically(cfg, keys, free, s, Fails(c, cleaned), s.calls[c].key);
  }

  // ---------------------------------------------------------------------------------------------------
  // What goes wrong otherwise

  /** A run in which a call on k has created its file. */
  lemma CreatedRun(cfg: Config, keys: set<string>, free: bool, k: string) returns (s: State)
    requires k in keys
    ensures Reachable(cfg, keys, free, s)
    ensures s == State(map[TempPath(cfg, "") := File([], 1)],
                       map[0 := SetCall(k, [], TempPath(cfg, ""), 1, Created)],
                       map[])
  {
    assert Runs.After(System(cfg, keys, free), INIT, []) == Some(INIT);
    s := OneStep(cfg, keys, free, INIT, BeginSet(0, k, []));
    s := OneStep(cfg, keys, free, s, CreateTemp(0, "", 1));
  }

  /** ... and has renamed it, and has not looked for it yet. */
  lemma RenamedRun(cfg: Config, keys: set<string>, free: bool, k: string) returns (s: State)
    requires k in keys
    ensures Reachable(cfg, keys, free, s)
    ensures s == State(map[FilePath(cfg, k) := File([], 1)],
                       map[0 := SetCall(k, [], TempPath(cfg, ""), 1, Renamed)],
                       map[k := []])
  {
    TempIsNoKeyFile(cfg, "", k);
    s := CreatedRun(cfg, keys, free, k);
    s := OneStep(cfg, keys, free, s, WriteAll(0));
    s := OneStep(cfg, keys, free, s, Rename(0));
    assert s.files == map[FilePath(cfg, k) := File([], 1)];
  }

  /** ... a call on l has then begun. */
  lemma BegunRun(cfg: Config, keys: set<string>, k: string, l: string, v: Bytes) returns (s: State)
    requires k in keys && l in keys && k != l
    ensures Reachable(cfg, keys, false, s)
    ensures s == State(map[FilePath(cfg, k) := File([], 1)],
                       map[0 := SetCall(k, [], TempPath(cfg, ""), 1, Renamed), 1 := SetCall(l, v, "", 0, Locked)],
                       map[k := []])
  {
    s := RenamedRun(cfg, keys, false, k);
    s := OneStep(cfg, keys, false, s, BeginSet(1, l, v));
  }

  /** ... and has taken the same name and written. */
  lemma RewrittenRun(cfg: Config, keys: set<string>, k: string, l: string, v: Bytes) returns (s: State)
    requires k in keys && l in keys && k != l
    ensures Reachable(cfg, keys, false, s)
    ensures s == State(map[FilePath(cfg, k) := File([], 1), TempPath(cfg, "") := File(v, 2)],
                       map[0 := SetCall(k, [], TempPath(cfg, ""), 1, Renamed),
                           1 := SetCall(l, v, TempPath(cfg, ""), 2, Written)],
                       map[k := []])
  {
    TempIsNoKeyFile(cfg, "", k);
    s := BegunRun(cfg, keys, k, l, v);
    s := OneStep(cfg, keys, false, s, CreateTemp(1, "", 2));
    s := OneStep(cfg, keys, false, s, WriteAll(1));
    assert s.files == map[FilePath(cfg, k) := File([], 1), TempPath(cfg, "") := File(v, 2)];
  }

  /** ... and the first call has looked, and has removed that file. */
  lemma RemovedRun(cfg: Config, keys: set<string>, k: string, l: string, v: Bytes) returns (s: State)
    requires k in keys && l in keys && k != l
    ensures Reachable(cfg, keys, false, s)
    ensures s == State(map[FilePath(cfg, k) := File([], 1)],
                       map[1 := SetCall(l, v, TempPath(cfg, ""), 2, Written)],
                       map[k := []])
  {
    TempIsNoKeyFile(cfg, "", k);
    s := RewrittenRun(cfg, keys, k, l, v);
    s := OneStep(cfg, keys, false, s, Look(0));
    s := OneStep(cfg, keys, false, s, Remove(0));
    assert s.files == map[FilePath(cfg, k) := File([], 1)];
    assert s.calls == map[1 := SetCall(l, v, TempPath(cfg, ""), 2, Written)];
  }

  /** Taking a name that another call still looks for can lose a value, with any two keys that do not share a hash:
      a call of Set has completed its rename, and its key reads as something that was never its value. */
  lemma ReusedNameLosesValue(cfg: Config, keys: set<string>, k: string, l: string, v: Bytes) returns (s: State)
    requires k in keys && l in keys && cfg.hash(k) != cfg.hash(l) && v != []
    ensures Reachable(cfg, keys, false, s)
    ensures Lookup(s.stored, l) == Some(v) && Read(cfg, s.files, l) == Some([])
  {
    TempIsNoKeyFile(cfg, "", k);
    TempIsNoKeyFile(cfg, "", l);
    s := RemovedRun(cfg, keys, k, l, v);
    s := OneStep(cfg, keys, false, s, BeginSet(2, k, []));
    s := OneStep(cfg, keys, false, s, CreateTemp(2, "", 3));
    s := OneStep(cfg, keys, false, s, Rename(1));
  }

  /** Storing a value under one of two keys that share a hash stores it under the other as well. */
  lemma SharedHashLeaks(cfg: Config, keys: set<string>, free: bool, k: string, l: string) returns (s: State)
    requires k in keys && l in keys && k != l && cfg.hash(k) == cfg.hash(l)
    ensures Reachable(cfg, keys, free, s)
    ensures Lookup(s.stored, l) == None && Read(cfg, s.files, l) == Some([])
  {
    s := RenamedRun(cfg, keys, free, k);
    SameFileSameHash(cfg, k, l);
  }

  /** In every run, every key reads as what was stored under it. */
  ghost predicate AlwaysTheStore(cfg: Config, keys: set<string>, free: bool) {
    forall s, key :: Reachable(cfg, keys, free, s) && key in keys ==> Read(cfg, s.files, key) == Lookup(s.stored, key)
  }

  /** Exactly when the files are the store: when one key is in use, whatever names are taken; or when names are always
      free and no two keys share a hash. */
  lemma WhenFilesAreTheStore(cfg: Config, keys: set<string>, free: bool)
    ensures AlwaysTheStore(cfg, keys, free) <==> Safe(cfg, keys, free)
  {
    if Safe(cfg, keys, free) {
      forall s, key | Reachable(cfg, keys, free, s) && key in keys
        ensures Read(cfg, s.files, key) == Lookup(s.stored, key)
      {
        FilesAreTheStore(cfg, keys, free, s, key);
      }
    } else if NoCollision(cfg, keys) {
      var k, l :| k in keys && l in keys && k != l;
      var s := ReusedNameLosesValue(cfg, keys, k, l, [0]);
    } else {
      var k, l :| k in keys && l in keys && cfg.hash(k) == cfg.hash(l) && k != l;
      var s := SharedHashLeaks(cfg, keys, free, k, l);
    }
  }

  const POSITION: string := "_cdc_trigger_position"

  /** A restart resumes from the last completed save or from the one that was under way, never from anything
      else: p was saved last, every save under way is of q, and the next thing to happen may be a crash. The position
      is the only key in use. */
  lemma ResumesOldOrNew(
    cfg: Config, s: State, step: Step,
    codec: MySqlSource.Codec, p: MySqlSource.Position, q: MySqlSource.Position, master: Option<MySqlSource.Position>)
    requires Reachable(cfg, {POSITION}, false, s)
    requires MySqlSource.RoundTrips(codec) && MySqlSource.Usable(p) && MySqlSource.Usable(q)
    requires Lookup(s.stored, POSITION) == Some(codec.encode(p))
    requires forall c :: c in s.calls ==> s.calls[c].value == codec.encode(q)
    requires Uses({POSITION}, step) && step != Delete(POSITION) && Next(cfg, s, step).Some?
    ensures MySqlSource.LoadPosition(Read(cfg, Next(cfg, s, step).value.files, POSITION), codec, master) ==
      if step.Rename? then q else p
  {
    ReachableInv(cfg, {POSITION}, false, s);
    FilesAreTheStore(cfg, {POSITION}, false, s, POSITION);
    ReadsChangeAtomically(cfg, {POSITION}, false, s, step, POSITION);
    MySqlSource.SavedIsResumed(codec, p, master);
    MySqlSource.SavedIsResumed(codec, q, master);
  }

  // ---------------------------------------------------------------------------------------------------
  // The calls, one at a time

  /** Where a call of Set fails, if it does. */
  datatype Fault = NoFault | AtCreate | AtWrite(written: nat) | AtClose | AtChmod | AtRename

  class Store {
    const cfg: Config
    var files: map<string, Bytes>
    /** The file system after each change that was made to it: what a crash could have left behind. */
    ghost var moments: seq<map<string, Bytes>>

    constructor (cfg: Config)
      ensures this.cfg == cfg && files == map[] && moments == []
    {
      this.cfg := cfg;
      files, moments := map[], [];
    }

    /** But for the temporary file, all files are as before, or the file at the path has the value as well. */
    static ghost predicate OldOrNew(
      moment: map<string, Bytes>, before: map<string, Bytes>, temp: string, path: string, value: Bytes)
    {
      moment - {temp} == before || moment - {temp} == before[path := value]
    }

    static lemma TempAside(before: map<string, Bytes>, temp: string, path: string, part: Bytes, value: Bytes)
      requires temp !in before && temp != path
      ensures before - {temp} == before && before[temp := part] - {temp} == before
      ensures (before[temp := value] - {temp})[path := value] == before[path := value]
      ensures before[path := value] - {temp} == before[path := value]
      ensures OldOrNew(before, before, temp, path, value) && OldOrNew(before[temp := part], before, temp, path, value)
      ensures OldOrNew(before[path := value], before, temp, path, value)
    {
    }

    method WriteFile(name: string, content: Bytes)
      modifies `files, `moments
      ensures files == old(files)[name := content] && moments == old(moments) + [files]
    {
      files := files[name := content];
      moments := moments + [files];
    }

    method RenameFile(from: string, to: string)
      requires from in files && from != to
      modifies `files, `moments
      ensures files == (old(files) - {from})[to := old(files)[from]] && moments == old(moments) + [files]
    {
      files := (files - {from})[to := files[from]];
      moments := moments + [files];
    }

    method RemoveFile(name: string)
      modifies `files, `moments
      ensures files == old(files) - {name} && moments == old(moments) + [files]
    {
      files := files - {name};
      moments := moments + [files];
    }

    /** What is left of a temporary file is removed, if anything is. */
    method CleanUp(temp: string)
      modifies `files, `moments
      ensures files == old(files) - {temp}
      ensures moments == if temp in old(files) then old(moments) + [files] else old(moments)
    {
      if temp in files {
        RemoveFile(temp);
      } else {
        assert files == files - {temp};
      }
    }

    /** Writes a value for a key. Whatever moment a crash picks, all files but the temporary one are the old
        ones, or the new ones. */
    method Set(key: string, value: Bytes, random: string, fault: Fault) returns (ok: bool)
      requires TempPath(cfg, random) !in files
      requires fault.AtWrite? ==> fault.written <= |value|
      modifies `files, `moments
      ensures ok <==> fault.NoFault?
      ensures files == if ok then old(files)[FilePath(cfg, key) := value] else old(files)
      ensures |old(moments)| <= |moments| && moments[..|old(moments)|] == old(moments)
      ensures forall i :: |old(moments)| <= i < |moments| ==>
        OldOrNew(moments[i], old(files), TempPath(cfg, random), FilePath(cfg, key), value)
    {
      var path, temp := FilePath(cfg, key), TempPath(cfg, random);
      TempIsNoKeyFile(cfg, random, key);
      TempAside(files, temp, path, [], value);
      if fault.AtCreate? {
        return false;
      }
      WriteFile(temp, []);
      var written := if fault.AtWrite? then value[..fault.written] else value;
      TempAside(old(files), temp, path, written, value);
      WriteFile(temp, written);
      assert files == old(files)[temp := written];
      if fault.AtWrite? || fault.AtClose? || fault.AtChmod? || fault.AtRename? {
        CleanUp(temp);
        assert files == old(files);
        return false;
      }
      RenameFile(temp, path);
      CleanUp(temp);
      assert files == old(files)[path := value];
      ok := true;
    }

    method Get(key: string) returns (value: Option<Bytes>)
      ensures value == Lookup(files, FilePath(cfg, key))
    {
      var path := FilePath(cfg, key);
      if path in files {
        return Some(files[path]);
      }
      return None;
    }

    /** Deleting what is not there is not an error. */
    method Delete(key: string)
      modifies `files, `moments
      ensures files == old(files) - {FilePath(cfg, key)}
    {
      var path := FilePath(cfg, key);
      if path !in files {
        return;
      }
      RemoveFile(path);
    }
  }
}
