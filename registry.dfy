/**
 * The process-wide registry of log streams (log/log.go): the `logs` map from names to
 * streams and the `logOutputEnabled` flag. `EnableFiles` and `DisableFiles` visit the
 * streams in the map's iteration order, which Go leaves unspecified; here that order is a
 * parameter, any enumeration of the registered names.
 */
module LogRegistry {
  import opened Bytes
  import opened LogTaint
  import opened LogEntry
  import opened Seqs
  import opened LogStream

  /** The states of the registered streams and the disk. */
  datatype Fleet = Fleet(logs: map<string, LogState>, disk: Disk)

  /** The registry as a value: the streams, `logOutputEnabled` and the disk. */
  datatype World = World(logs: map<string, LogState>, enabled: bool, disk: Disk)

  /** Every stream's buffered entries have a payload. */
  ghost predicate Buffered(m: map<string, LogState>)
  {
    forall n :: n in m ==> NonEmptyPayloads(m[n].pending)
  }

  /** order lists each registered name exactly once, as a `range` over the map does. */
  ghost predicate Enumerates(order: seq<string>, keys: set<string>)
  {
    (forall n :: n in order <==> n in keys)
    && (forall i, j :: 0 <= i < j < |order| ==> order[i] != order[j])
  }

  /** `enableFileOutput` on the streams named by order, one after the other. */
  function EnableAll(m: map<string, LogState>, d: Disk, order: seq<string>): (r: Fleet)
    requires Buffered(m)
    ensures Buffered(r.logs) && r.logs.Keys == m.Keys && r.disk.openFails == d.openFails
    decreases |order|
  {
    if order == [] then Fleet(m, d)
    else
      var f := EnableAll(m, d, order[..|order| - 1]);
      var n := order[|order| - 1];
      if n in f.logs then
        var p := EnableStep(n, f.logs[n], f.disk);
        Fleet(f.logs[n := p.log], p.disk)
      else f
  }

  /** `disableFileOutput` on the streams named by order; it touches no file. */
  function DisableAll(m: map<string, LogState>, order: seq<string>): (r: map<string, LogState>)
    ensures r.Keys == m.Keys && (Buffered(m) ==> Buffered(r))
    decreases |order|
  {
    if order == [] then m
    else
      var f := DisableAll(m, order[..|order| - 1]);
      var n := order[|order| - 1];
      if n in f then f[n := DisableStep(f[n])] else f
  }

  /** `Get(name)`: the registered stream, or a new one, enabled when file output is on. */
  function GetStep(w: World, name: string): World
  {
    if name in w.logs then w
    else if w.enabled then
      var p := EnableStep(name, NewLog, w.disk);
      World(w.logs[name := p.log], true, p.disk)
    else World(w.logs[name := NewLog], false, w.disk)
  }

  /** `EnableFiles()`. */
  function EnableFilesStep(w: World, order: seq<string>): World
    requires Buffered(w.logs)
  {
    if w.enabled then w
    else
      var f := EnableAll(w.logs, w.disk, order);
      World(f.logs, true, f.disk)
  }

  /** `DisableFiles()`. */
  function DisableFilesStep(w: World, order: seq<string>): World
  {
    if !w.enabled then w
    else World(DisableAll(w.logs, order), false, w.disk)
  }

  // ---------------------------------------------------------------------------------------
  // Properties

  /**
   * Get is idempotent: a second call changes nothing. After the first call the name is
   * registered, the registry gained at most that name, and no registered stream changed.
   */
  lemma GetIdempotent(w: World, name: string)
    ensures var w' := GetStep(w, name);
      && GetStep(w', name) == w'
      && w'.logs.Keys == w.logs.Keys + {name}
      && w'.enabled == w.enabled
      && (forall n :: n in w.logs ==> w'.logs[n] == w.logs[n])
  {
  }

  /**
   * A new stream starts with nothing pending and no output; when file output is on it is
   * enabled, which with nothing pending only sets writeToFile and leaves the disk alone.
   */
  lemma GetNewStream(w: World, name: string)
    requires name !in w.logs
    ensures var w' := GetStep(w, name);
      && w'.logs[name] == NewLog.(writeToFile := w.enabled)
      && w'.disk == w.disk
  {
  }

  /** EnableFiles and DisableFiles do nothing when the flag already has the target value. */
  lemma SwitchesIdempotent(w: World, order: seq<string>, order': seq<string>)
    requires Buffered(w.logs)
    ensures Buffered(EnableFilesStep(w, order).logs)
    ensures EnableFilesStep(EnableFilesStep(w, order), order') == EnableFilesStep(w, order)
    ensures DisableFilesStep(DisableFilesStep(w, order), order') == DisableFilesStep(w, order)
    ensures w.enabled ==> EnableFilesStep(w, order) == w
    ensures !w.enabled ==> DisableFilesStep(w, order) == w
  {
  }

  /** The stream a step leaves does not depend on the file contents, only on which paths cannot be opened. */
  lemma DeliverLogDisk(name: string, s: LogState, d1: Disk, d2: Disk, e: Entry)
    requires |e.data| > 0 && d1.openFails == d2.openFails
    ensures Deliver(name, s, d1, e).log == Deliver(name, s, d2, e).log
  {
  }

  lemma {:induction false} DeliverAllLogDisk(name: string, s: LogState, d1: Disk, d2: Disk, es: seq<Entry>)
    requires NonEmptyPayloads(es) && d1.openFails == d2.openFails
    ensures DeliverAll(name, s, d1, es).log == DeliverAll(name, s, d2, es).log
    decreases |es|
  {
    if es != [] {
      DeliverAllLogDisk(name, s, d1, d2, es[..|es| - 1]);
      var r1 := DeliverAll(name, s, d1, es[..|es| - 1]);
      var r2 := DeliverAll(name, s, d2, es[..|es| - 1]);
      DeliverLogDisk(name, r1.log, r1.disk, r2.disk, es[|es| - 1]);
    }
  }

  /**
   * Enabling a set of streams leaves each one as if it had been enabled alone, first:
   * the streams do not depend on the order the map is visited in.
   */
  lemma {:induction false} EnableAllLogs(m: map<string, LogState>, d: Disk, order: seq<string>)
    requires Buffered(m)
    requires forall i, j :: 0 <= i < j < |order| ==> order[i] != order[j]
    ensures forall n :: n in m ==>
      EnableAll(m, d, order).logs[n] == if n in order then EnableStep(n, m[n], d).log else m[n]
    decreases |order|
  {
    if order != [] {
      var init := order[..|order| - 1];
      var last := order[|order| - 1];
      EnableAllLogs(m, d, init);
      var f := EnableAll(m, d, init);
      forall n | n in m
        ensures EnableAll(m, d, order).logs[n] == if n in order then EnableStep(n, m[n], d).log else m[n]
      {
        assert n in order <==> n in init || n == last;
        if n == last {
          assert last !in init by {
            forall k | 0 <= k < |init| ensures init[k] != last {
              assert init[k] == order[k];
            }
          }
          assert f.logs[n] == m[n];
          DeliverAllLogDisk(n, m[n], f.disk, d, m[n].pending);
        }
      }
    }
  }

  /** EnableFiles, when it acts, turns on every stream and keeps every pending buffer. */
  lemma EnableFilesEnablesAll(w: World, order: seq<string>)
    requires Buffered(w.logs) && !w.enabled && Enumerates(order, w.logs.Keys)
    ensures var w' := EnableFilesStep(w, order);
      && w'.enabled && w'.logs.Keys == w.logs.Keys
      && (forall n :: n in w.logs ==> w'.logs[n] == EnableStep(n, w.logs[n], w.disk).log)
      && (forall n :: n in w.logs ==> w'.logs[n].writeToFile && w'.logs[n].pending == w.logs[n].pending)
  {
    EnableAllLogs(w.logs, w.disk, order);
  }

  lemma {:induction false} DisableAllLogs(m: map<string, LogState>, order: seq<string>)
    requires forall i, j :: 0 <= i < j < |order| ==> order[i] != order[j]
    ensures forall n :: n in m ==>
      DisableAll(m, order)[n] == if n in order then DisableStep(m[n]) else m[n]
    decreases |order|
  {
    if order != [] {
      var init := order[..|order| - 1];
      var last := order[|order| - 1];
      DisableAllLogs(m, init);
      assert last !in init by {
        forall k | 0 <= k < |init| ensures init[k] != last {
          assert init[k] == order[k];
        }
      }
      forall n | n in m
        ensures DisableAll(m, order)[n] == if n in order then DisableStep(m[n]) else m[n]
      {
        assert n in order <==> n in init || n == last;
      }
    }
  }

  /**
   * DisableFiles, when it acts, closes every stream's output and clears every writeToFile,
   * keeping handles, hours and pending buffers, whatever the order; no file changes.
   */
  lemma DisableFilesDisablesAll(w: World, order: seq<string>)
    requires w.enabled && Enumerates(order, w.logs.Keys)
    ensures var w' := DisableFilesStep(w, order);
      && !w'.enabled && w'.disk == w.disk
      && w'.logs == map n | n in w.logs :: DisableStep(w.logs[n])
  {
    DisableAllLogs(w.logs, order);
    var w' := DisableFilesStep(w, order);
    assert w'.logs.Keys == w.logs.Keys;
  }

  /**
   * EnableFiles on one stream that has buffered one entry and never had output: the stream
   * is switched on with its handle open on the entry's hour, and the live file gains exactly
   * the entry's frame.
   */
  lemma EnableFilesFlushesOne(name: string, e: Entry, d: Disk)
    requires |e.data| > 0 && LivePath(name) !in d.openFails
    ensures NonEmptyPayloads([e])
    ensures EnableFilesStep(World(map[name := NewLog.(pending := [e])], false, d), [name]) ==
      World(map[name := LogState(true, [e], Handle(LivePath(name), true), Bucket(e.time))], true,
            Appended(d, LivePath(name), Frame(e)))
  {
    var m := map[name := NewLog.(pending := [e])];
    EnableOneBuffered(name, e, d);
    EnableAllSingle(m, d, name);
    var p := EnableStep(name, m[name], d);
    assert m[name := p.log] == map[name := p.log];
  }

  /** EnableAll over a single registered name is enableFileOutput on that stream. */
  lemma EnableAllSingle(m: map<string, LogState>, d: Disk, n: string)
    requires Buffered(m) && n in m
    ensures var p := EnableStep(n, m[n], d);
      EnableAll(m, d, [n]) == Fleet(m[n := p.log], p.disk)
  {
    assert [n][..0] == [];
  }

  /** enableFileOutput on a new stream holding one buffered entry. */
  lemma EnableOneBuffered(name: string, e: Entry, d: Disk)
    requires |e.data| > 0 && LivePath(name) !in d.openFails
    ensures NonEmptyPayloads([e])
    ensures EnableStep(name, NewLog.(pending := [e]), d) ==
      Pair(LogState(true, [e], Handle(LivePath(name), true), Bucket(e.time)), Appended(d, LivePath(name), Frame(e)))
  {
    assert NonEmptyPayloads([e]);
    EnableOpensLiveFile(name, NewLog.(pending := [e]), d);
    assert [e][1..] == [];
    assert Frames([e]) == Frame(e) + Frames([]);
    assert Frame(e) + [] == Frame(e);
  }

  // ---------------------------------------------------------------------------------------
  // The registry object

  /** The `logs` map and the `logOutputEnabled` flag. */
  class Registry {
    var logs: map<string, Log>
    var enabled: bool

    /**
     * Every stream is registered under its own name. Names are constant, so no stream is
     * registered twice.
     */
    ghost predicate Registered()
      reads this`logs, logs.Values
    {
      forall n :: n in logs ==> logs[n].name == n
    }

    /** The state of each registered stream, read from the stream itself. */
    ghost function States(): map<string, LogState>
      reads this`logs, logs.Values
    {
      map n | n in logs :: logs[n].State()
    }

    /** The registry invariant: the streams are registered and their buffers deliverable. */
    ghost predicate Valid()
      reads this`logs, logs.Values
    {
      Registered() && Buffered(States())
    }

    ghost function WorldOf(fs: FileSystem): World
      reads this, logs.Values, fs
    {
      World(States(), enabled, fs.State())
    }

    constructor ()
      ensures logs == map[] && !enabled && Valid()
    {
      logs := map[];
      enabled := false;
    }

    /** `Get(name)`. */
    method Get(name: string, fs: FileSystem) returns (l: Log)
      requires Registered()
      modifies this, fs
      ensures Registered() && name in logs && l == logs[name] && l.name == name
      ensures old(Buffered(States())) ==> Buffered(States())
      ensures name in old(logs) ==> l == old(logs[name]) && logs == old(logs)
      ensures name !in old(logs) ==> fresh(l) && logs == old(logs)[name := l]
      ensures WorldOf(fs) == GetStep(old(WorldOf(fs)), name)
    {
      if name in logs {
        l := logs[name];
        return;
      }
      ghost var m0 := States();
      l := new Log(name);
      assert States() == m0;
      if enabled {
        l.EnableFileOutput(fs);
        assert States() == m0;
      }
      Register(l);
    }

    /** `logs[name] = log` for a stream whose name is not registered yet. */
    method Register(l: Log)
      requires Registered() && l.name !in logs
      modifies this`logs
      ensures Registered()
      ensures logs == old(logs)[l.name := l] && States() == old(States())[l.name := l.State()]
    {
      logs := logs[l.name := l];
      forall m | m in old(logs)
        ensures logs[m] == old(logs[m])
      {
        assert old(logs[m].name) != l.name;
      }
      assert States() == old(States())[l.name := l.State()];
    }

    /** `log.enableFileOutput()` on the stream registered as n; no other stream changes. */
    method EnableOne(n: string, fs: FileSystem)
      requires Registered() && n in logs && NonEmptyPayloads(States()[n].pending)
      modifies logs[n], fs
      ensures var p := EnableStep(n, old(States()[n]), old(fs.State()));
        States() == old(States())[n := p.log] && fs.State() == p.disk
    {
      var l := logs[n];
      l.EnableFileOutput(fs);
      forall m | m in logs && m != n
        ensures logs[m].State() == old(logs[m].State())
      {
        assert logs[m].name != l.name;
      }
    }

    /** `log.disableFileOutput()` on the stream registered as n; no other stream changes. */
    method DisableOne(n: string)
      requires Registered() && n in logs
      modifies logs[n]
      ensures States() == old(States())[n := DisableStep(old(States()[n]))]
    {
      var l := logs[n];
      l.DisableFileOutput();
      forall m | m in logs && m != n
        ensures logs[m].State() == old(logs[m].State())
      {
        assert logs[m].name != l.name;
      }
    }

    /** `EnableFiles()`, visiting the streams in the given order. */
    method EnableFiles(order: seq<string>, fs: FileSystem)
      requires Valid() && forall i :: 0 <= i < |order| ==> order[i] in logs
      modifies this, logs.Values, fs
      ensures Valid() && logs == old(logs) && enabled
      ensures WorldOf(fs) == EnableFilesStep(old(WorldOf(fs)), order)
    {
      if enabled {
        return;
      }
      ghost var w0 := WorldOf(fs);
      EnableEach(order, fs);
      ghost var f := EnableAll(w0.logs, w0.disk, order);
      assert States() == f.logs && fs.State() == f.disk;
      enabled := true;
    }

    /** The loop of `EnableFiles`: `enableFileOutput` on each stream named by order. */
    method EnableEach(order: seq<string>, fs: FileSystem)
      requires Valid() && forall i :: 0 <= i < |order| ==> order[i] in logs
      modifies logs.Values, fs
      ensures Fleet(States(), fs.State()) == EnableAll(old(States()), old(fs.State()), order)
    {
      ghost var m0 := States();
      ghost var d0 := fs.State();
      var i := 0;
      while i < |order|
        invariant 0 <= i <= |order|
        invariant Registered()
        invariant Fleet(States(), fs.State()) == EnableAll(m0, d0, order[..i])
      {
        PrefixGrows(order, i);
        EnableOne(order[i], fs);
        i := i + 1;
      }
      WholePrefix(order);
    }

    /** `DisableFiles()`, visiting the streams in the given order; fs is only read. */
    method DisableFiles(order: seq<string>, ghost fs: FileSystem)
      requires Registered() && forall i :: 0 <= i < |order| ==> order[i] in logs
      modifies this, logs.Values
      ensures Registered() && logs == old(logs) && !enabled
      ensures old(Buffered(States())) ==> Buffered(States())
      ensures WorldOf(fs) == DisableFilesStep(old(WorldOf(fs)), order)
    {
      if !enabled {
        return;
      }
      ghost var m0 := States();
      DisableEach(order);
      assert States() == DisableAll(m0, order);
      enabled := false;
    }

    /** The loop of `DisableFiles`: `disableFileOutput` on each stream named by order. */
    method DisableEach(order: seq<string>)
      requires Registered() && forall i :: 0 <= i < |order| ==> order[i] in logs
      modifies logs.Values
      ensures States() == DisableAll(old(States()), order)
    {
      ghost var m0 := States();
      var i := 0;
      while i < |order|
        invariant 0 <= i <= |order|
        invariant Registered()
        invariant States() == DisableAll(m0, order[..i])
      {
        PrefixGrows(order, i);
        DisableOne(order[i]);
        i := i + 1;
      }
      WholePrefix(order);
    }
  }

  /**
   * The usual flow: a stream is fetched while file output is off, an entry is printed to it
   * through the handle, and then file output is turned on. The buffered entry reaches the
   * live file as its frame, and nothing is reported.
   */
  method PrintThenEnable(name: string, data: seq<byte>, now: Int64, fs: FileSystem) returns (reg: Registry, l: Log)
    requires |data| > 0 && LivePath(name) !in fs.openFails
    modifies fs
    ensures reg.Valid() && reg.enabled && reg.logs == map[name := l]
    ensures l.State() == LogState(true, [Entry(now, Normal, data)], Handle(LivePath(name), true), Bucket(now))
    ensures fs.State() == Appended(old(fs.State()), LivePath(name), Frame(Entry(now, Normal, data)))
  {
    ghost var d0 := fs.State();
    var e := Entry(now, Normal, data);
    reg := new Registry();
    l := reg.Get(name, fs);
    assert reg.logs == map[name := l];
    assert reg.States() == map[name := NewLog] && fs.State() == d0;
    l.Append(Normal, data, now, fs);
    AppendBuffers(name, NewLog, d0, e);
    assert l.State() == NewLog.(pending := [e]) && fs.State() == d0;
    assert reg.logs == map[name := l];
    assert reg.States() == map[name := NewLog.(pending := [e])];
    assert NonEmptyPayloads([e]);
    reg.EnableFiles([name], fs);
    EnableFilesFlushesOne(name, e, d0);
  }

  /** A new registry whose one stream has buffered an empty print, as `Print()` makes. */
  method BufferEmptyPrint(name: string, now: Int64, fs: FileSystem) returns (reg: Registry, l: Log)
    modifies fs
    ensures fresh(reg) && fresh(l)
    ensures reg.Registered() && !reg.enabled && reg.logs == map[name := l]
    ensures l.State() == NewLog.(pending := [Entry(now, Normal, [])])
    ensures reg.States() == map[name := l.State()]
    ensures fs.State() == old(fs.State())
  {
    ghost var d0 := fs.State();
    var e := Entry(now, Normal, []);
    reg := new Registry();
    l := reg.Get(name, fs);
    assert reg.logs == map[name := l];
    assert reg.States() == map[name := NewLog] && fs.State() == d0;
    l.Append(Normal, [], now, fs);
    AppendBuffers(name, NewLog, d0, e);
    assert reg.logs == map[name := l];
  }

  /**
   * After an empty print is buffered the registry stays usable: Get returns the same
   * stream again and registers another, and DisableFiles, with output already off,
   * changes nothing.
   */
  method EmptyPrintThenGet(name: string, other: string, now: Int64, fs: FileSystem)
    returns (reg: Registry, l: Log, l2: Log)
    requires name != other
    modifies fs
    ensures reg.Registered() && !reg.enabled && reg.logs == map[name := l, other := l2]
    ensures l.State() == NewLog.(pending := [Entry(now, Normal, [])]) && l2.State() == NewLog
    ensures fs.State() == old(fs.State())
  {
    ghost var d0 := fs.State();
    reg, l := BufferEmptyPrint(name, now, fs);
    ghost var m1 := reg.States();
    var again := reg.Get(name, fs);
    assert again == l && reg.States() == m1 && fs.State() == d0;
    l2 := reg.Get(other, fs);
    assert reg.logs == map[name := l, other := l2];
    ghost var m2 := reg.States();
    assert m2 == m1[other := NewLog] && fs.State() == d0;
    reg.DisableFiles([name, other], fs);
    assert reg.States() == m2 && fs.State() == d0;
    assert l.State() == m2[name] && l2.State() == m2[other];
  }
}
