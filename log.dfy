/**
 * Log streams and their registry (log/log.go).
 *
 * A stream buffers entries in `pending` until file output is enabled, then writes each
 * entry's frame to `/var/log/<name>.log`, rotating the file to
 * `/var/log/archives/<name>.<hour>.log` whenever an entry falls in a new hour. The
 * filesystem is a map from paths to bytes with a set of paths that cannot be opened;
 * standard error and the compressions started in the background are output sequences.
 * Every operation runs to completion before the next one starts.
 */
module LogStream {
  import opened Wrappers
  import opened Bytes
  import opened LogTaint
  import opened LogEntry
  import opened Seqs

  /** Nanoseconds in an hour. */
  const HourNanos: int := 3_600_000_000_000

  /**
   * `outTS`: empty, or the RFC 3339 text (section 5.6 of RFC 3339) of an instant truncated to
   * the hour. Different hours have different texts, so the text is kept as the hour's index.
   */
  datatype Stamp = NoStamp | Hour(index: int)

  /** `e.Time.Truncate(time.Hour).Format(time.RFC3339)`: the hour an instant falls in. */
  function Bucket(nanos: Int64): (s: Stamp)
    ensures s.Hour? && s.index * HourNanos <= nanos < (s.index + 1) * HourNanos
  {
    Hour(nanos / HourNanos)
  }

  /** Two instants share a bucket exactly when they fall in the same clock hour. */
  lemma BucketSameHour(a: Int64, b: Int64, h: int)
    requires h * HourNanos <= a < (h + 1) * HourNanos
    ensures Bucket(b) == Bucket(a) <==> h * HourNanos <= b < (h + 1) * HourNanos
  {
  }

  /** `/var/log/<name>.log` and `/var/log/archives/<name>.<stamp>.log`. */
  datatype Path = LivePath(log: string) | ArchivePath(log: string, stamp: Stamp)

  /** `out`: no file, or a file opened on a path and possibly closed since. */
  datatype Out = NoOut | Handle(path: Path, open: bool)

  /** What the stream reports on standard error; LostEntry carries the entry whose frame is dumped. */
  datatype Diag = CloseFailed(log: string) | ArchiveFailed(log: string) | LostEntry(log: string, entry: Entry)

  /** The filesystem, standard error and the scheduled compressions, as values. */
  datatype Disk = Disk(files: map<Path, seq<byte>>, stderr: seq<Diag>, compressed: seq<Path>, openFails: set<Path>)

  /** The fields of a `Log` that its methods update. */
  datatype LogState = LogState(writeToFile: bool, pending: seq<Entry>, out: Out, outTS: Stamp)

  /** A stream and the disk after a step. */
  datatype Pair = Pair(log: LogState, disk: Disk)

  /** The same, with whether `writeEntry` returned no error. */
  datatype Written = Written(log: LogState, disk: Disk, ok: bool)

  /** The state of a newly created stream. */
  const NewLog := LogState(false, [], NoOut, NoStamp)

  // ---------------------------------------------------------------------------------------
  // Filesystem primitives

  function FileBytes(d: Disk, p: Path): seq<byte>
  {
    if p in d.files then d.files[p] else []
  }

  function Reported(d: Disk, m: Diag): (d': Disk)
    ensures d'.stderr == d.stderr + [m]
    ensures d'.files == d.files && d'.compressed == d.compressed && d'.openFails == d.openFails
  {
    d.(stderr := d.stderr + [m])
  }

  function Scheduled(d: Disk, p: Path): (d': Disk)
    ensures d'.compressed == d.compressed + [p]
    ensures d'.files == d.files && d'.stderr == d.stderr && d'.openFails == d.openFails
  {
    d.(compressed := d.compressed + [p])
  }

  /** `os.Rename`: fails when the source is missing; otherwise moves it, replacing the target. */
  function Renamed(d: Disk, from: Path, to: Path): (r: (Disk, bool))
    requires from != to
    ensures r.1 <==> from in d.files
    ensures r.1 ==> from !in r.0.files && to in r.0.files && r.0.files[to] == d.files[from]
    ensures !r.1 ==> r.0 == d
    ensures r.0.stderr == d.stderr && r.0.compressed == d.compressed && r.0.openFails == d.openFails
  {
    if from in d.files then (d.(files := (d.files - {from})[to := d.files[from]]), true)
    else (d, false)
  }

  /** `os.OpenFile` with O_CREATE|O_APPEND: creates a missing file, fails on the given paths. */
  function Opened(d: Disk, p: Path): (r: (Disk, bool))
    ensures r.1 <==> p !in d.openFails
    ensures r.1 ==> p in r.0.files && r.0.files[p] == FileBytes(d, p)
    ensures !r.1 ==> r.0 == d
    ensures r.0.stderr == d.stderr && r.0.compressed == d.compressed && r.0.openFails == d.openFails
  {
    if p in d.openFails then (d, false)
    else (d.(files := d.files[p := FileBytes(d, p)]), true)
  }

  /** A write through an open append-mode handle adds the bytes at the end of its file. */
  function Appended(d: Disk, p: Path, bytes: seq<byte>): (d': Disk)
    ensures FileBytes(d', p) == FileBytes(d, p) + bytes
    ensures d'.stderr == d.stderr && d'.compressed == d.compressed && d'.openFails == d.openFails
  {
    d.(files := d.files[p := FileBytes(d, p) + bytes])
  }

  /** `out.Close()`: closing a closed file fails (os.ErrClosed) and changes nothing. */
  function Closed(o: Out): (r: (Out, bool))
    requires o.Handle?
    ensures r.0 == Handle(o.path, false) && (r.1 <==> o.open)
  {
    (o.(open := false), o.open)
  }

  // ---------------------------------------------------------------------------------------
  // The steps of a stream

  /** The rotation block of `writeEntry`, run for an entry in bucket ts. */
  function Rotate(name: string, s: LogState, d: Disk, ts: Stamp): Pair
  {
    if s.outTS == ts then Pair(s, d)
    else if s.out == NoOut then Pair(s.(outTS := NoStamp), d)
    else
      var d1 := if Closed(s.out).1 then d else Reported(d, CloseFailed(name));
      var arch := ArchivePath(name, s.outTS);
      var mv := Renamed(d1, LivePath(name), arch);
      var d3 := if mv.1 then mv.0 else Reported(mv.0, ArchiveFailed(name));
      Pair(s.(out := NoOut, outTS := NoStamp), Scheduled(d3, arch))
  }

  /** `e.WriteTo(l.out)`: the frame goes to the handle's file unless the handle is closed. */
  function WriteOut(s: LogState, d: Disk, e: Entry): Written
    requires |e.data| > 0 && s.out.Handle?
  {
    if s.out.open then Written(s, Appended(d, s.out.path, Frame(e)), true)
    else Written(s, d, false)
  }

  /** `writeEntry(e)`: rotate on a new hour, open the live file if needed, write the frame. */
  function WriteEntryStep(name: string, s: LogState, d: Disk, e: Entry): (r: Written)
    requires |e.data| > 0
    ensures r.log.writeToFile == s.writeToFile && r.log.pending == s.pending
    ensures r.disk.openFails == d.openFails
  {
    var ts := Bucket(e.time);
    var r := Rotate(name, s, d, ts);
    if r.log.out == NoOut then
      var op := Opened(r.disk, LivePath(name));
      if !op.1 then Written(r.log, op.0, false)
      else WriteOut(r.log.(out := Handle(LivePath(name), true), outTS := ts), op.0, e)
    else WriteOut(r.log, r.disk, e)
  }

  /** `writeEntry(e)` and, when it fails, `emergencyLog(e, err)`. */
  function Deliver(name: string, s: LogState, d: Disk, e: Entry): (r: Pair)
    requires |e.data| > 0
    ensures r.log.writeToFile == s.writeToFile && r.log.pending == s.pending
    ensures r.disk.openFails == d.openFails
  {
    var w := WriteEntryStep(name, s, d, e);
    if w.ok then Pair(w.log, w.disk) else Pair(w.log, Reported(w.disk, LostEntry(name, e)))
  }

  /**
   * Every delivered entry is either written or reported: after the rotation, a successful
   * writeEntry leaves an open handle on the entry's hour whose file gained exactly the frame,
   * and a failed one adds exactly one LostEntry to standard error and changes nothing else.
   */
  lemma DeliverWritesOrReports(name: string, s: LogState, d: Disk, e: Entry)
    requires |e.data| > 0
    ensures var w := WriteEntryStep(name, s, d, e);
      var rot := Rotate(name, s, d, Bucket(e.time)).disk;
      var r := Deliver(name, s, d, e);
      && r.log == w.log
      && (w.ok ==> && w.log.out.Handle? && w.log.out.open && w.log.outTS == Bucket(e.time)
                   && r.disk == Appended(rot, w.log.out.path, Frame(e)))
      && (!w.ok ==> r.disk == Reported(rot, LostEntry(name, e)))
  {
    var r := Rotate(name, s, d, Bucket(e.time));
    if r.log.out == NoOut && LivePath(name) !in r.disk.openFails {
      OpenThenAppend(r.disk, LivePath(name), Frame(e));
    }
  }

  /** Opening a path and appending to it is appending to it: the open only creates the file. */
  lemma OpenThenAppend(d: Disk, p: Path, bytes: seq<byte>)
    requires p !in d.openFails
    ensures Appended(Opened(d, p).0, p, bytes) == Appended(d, p, bytes)
  {
    assert Appended(Opened(d, p).0, p, bytes).files == Appended(d, p, bytes).files;
  }

  /** Delivering es one after the other, in order. */
  function DeliverAll(name: string, s: LogState, d: Disk, es: seq<Entry>): (r: Pair)
    requires NonEmptyPayloads(es)
    ensures r.log.writeToFile == s.writeToFile && r.log.pending == s.pending
    ensures r.disk.openFails == d.openFails
    decreases |es|
  {
    if es == [] then Pair(s, d)
    else
      var r := DeliverAll(name, s, d, es[..|es| - 1]);
      Deliver(name, r.log, r.disk, es[|es| - 1])
  }

  /** `append(taint, data)` with the entry already built: buffer it, or deliver it. */
  function AppendStep(name: string, s: LogState, d: Disk, e: Entry): (r: Pair)
    requires s.writeToFile ==> |e.data| > 0
    ensures r.log.writeToFile == s.writeToFile
  {
    if !s.writeToFile then Pair(s.(pending := s.pending + [e]), d)
    else Deliver(name, s, d, e)
  }

  /** `enableFileOutput`: deliver every pending entry in order, then write to files. */
  function EnableStep(name: string, s: LogState, d: Disk): (r: Pair)
    requires NonEmptyPayloads(s.pending)
    ensures r.log.writeToFile && r.log.pending == s.pending
  {
    var r := DeliverAll(name, s, d, s.pending);
    Pair(r.log.(writeToFile := true), r.disk)
  }

  /** `disableFileOutput`: close the output if there is one, and stop writing to files. */
  function DisableStep(s: LogState): LogState
  {
    var o := if s.out == NoOut then NoOut else Closed(s.out).0;
    s.(out := o, writeToFile := false)
  }

  // ---------------------------------------------------------------------------------------
  // Properties of the steps

  /** A stream without a handle has no hour: outTS is set only together with a fresh handle. */
  predicate Coherent(s: LogState)
  {
    s.out == NoOut ==> s.outTS == NoStamp
  }

  lemma NewLogCoherent()
    ensures Coherent(NewLog)
  {
  }

  /** Every step keeps a coherent stream coherent. */
  lemma StepsKeepCoherent(name: string, s: LogState, d: Disk, e: Entry)
    requires Coherent(s) && |e.data| > 0
    ensures Coherent(WriteEntryStep(name, s, d, e).log)
    ensures Coherent(Deliver(name, s, d, e).log)
    ensures Coherent(AppendStep(name, s, d, e).log)
    ensures Coherent(DisableStep(s))
  {
  }

  lemma {:induction false} DeliverAllKeepsCoherent(name: string, s: LogState, d: Disk, es: seq<Entry>)
    requires Coherent(s) && NonEmptyPayloads(es)
    ensures Coherent(DeliverAll(name, s, d, es).log)
    decreases |es|
  {
    if es != [] {
      DeliverAllKeepsCoherent(name, s, d, es[..|es| - 1]);
      var r := DeliverAll(name, s, d, es[..|es| - 1]);
      StepsKeepCoherent(name, r.log, r.disk, es[|es| - 1]);
    }
  }

  /**
   * While file output is off, append puts exactly the new entry at the end of pending and no
   * file, handle or stream changes; an empty payload is buffered like any other.
   */
  lemma AppendBuffers(name: string, s: LogState, d: Disk, e: Entry)
    requires !s.writeToFile
    ensures var r := AppendStep(name, s, d, e);
      && r.log.pending == s.pending + [e]
      && r.log.out == s.out && r.log.outTS == s.outTS && !r.log.writeToFile
      && r.disk == d
  {
  }

  /** An entry in the bucket of the open live file is appended to it; nothing else changes. */
  lemma SameBucketAppends(name: string, s: LogState, d: Disk, e: Entry)
    requires |e.data| > 0
    requires s.out == Handle(LivePath(name), true) && s.outTS == Bucket(e.time)
    ensures WriteEntryStep(name, s, d, e) == Written(s, Appended(d, LivePath(name), Frame(e)), true)
  {
  }

  /** Two appends to one file are one append of both byte strings. */
  lemma AppendedTwice(d: Disk, p: Path, a: seq<byte>, b: seq<byte>)
    ensures Appended(Appended(d, p, a), p, b) == Appended(d, p, a + b)
  {
    assert FileBytes(d, p) + a + b == FileBytes(d, p) + (a + b);
  }

  /** One more entry of the current hour extends the frames the live file gained. */
  lemma SameBucketStep(name: string, s: LogState, d: Disk, init: seq<Entry>, e: Entry)
    requires NonEmptyPayloads(init) && |e.data| > 0
    requires s.out == Handle(LivePath(name), true) && Bucket(e.time) == s.outTS
    requires DeliverAll(name, s, d, init) == Pair(s, Appended(d, LivePath(name), Frames(init)))
    ensures NonEmptyPayloads(init + [e])
    ensures DeliverAll(name, s, d, init + [e]) == Pair(s, Appended(d, LivePath(name), Frames(init + [e])))
  {
    var es := init + [e];
    var live := LivePath(name);
    assert es[..|es| - 1] == init && es[|es| - 1] == e;
    var d1 := Appended(d, live, Frames(init));
    assert DeliverAll(name, s, d, es) == Deliver(name, s, d1, e);
    SameBucketAppends(name, s, d1, e);
    AppendedTwice(d, live, Frames(init), Frame(e));
    FramesAppend(init, e);
  }

  /**
   * Entries of the current hour written through an open live file go to it in call order:
   * the file gains their frames one after the other, and the stream keeps its handle.
   */
  lemma {:induction false} SameBucketInOrder(name: string, s: LogState, d: Disk, es: seq<Entry>)
    requires NonEmptyPayloads(es)
    requires s.out == Handle(LivePath(name), true) && LivePath(name) in d.files
    requires forall i :: 0 <= i < |es| ==> Bucket(es[i].time) == s.outTS
    ensures DeliverAll(name, s, d, es) == Pair(s, Appended(d, LivePath(name), Frames(es)))
    decreases |es|
  {
    if es == [] {
      var live := LivePath(name);
      assert FileBytes(d, live) + [] == d.files[live];
      assert d.files[live := d.files[live]] == d.files;
      assert Frames(es) == [];
    } else {
      var init := es[..|es| - 1];
      var e := es[|es| - 1];
      assert forall i :: 0 <= i < |init| ==> init[i] == es[i];
      SameBucketInOrder(name, s, d, init);
      SameBucketStep(name, s, d, init, e);
      InitLast(es);
    }
  }

  /** An entry with a payload in front of entries with payloads. */
  lemma ConsPayloads(e: Entry, es: seq<Entry>)
    requires |e.data| > 0 && NonEmptyPayloads(es)
    ensures NonEmptyPayloads([e] + es)
  {
    var xs := [e] + es;
    forall i | 0 <= i < |xs| ensures |xs[i].data| > 0 {
      if i > 0 {
        assert xs[i] == es[i - 1];
      }
    }
  }

  /** Delivering a and then b is delivering a + b. */
  lemma {:induction false} DeliverAllSplit(name: string, s: LogState, d: Disk, a: seq<Entry>, b: seq<Entry>)
    requires NonEmptyPayloads(a + b)
    ensures NonEmptyPayloads(a) && NonEmptyPayloads(b)
    ensures var p := DeliverAll(name, s, d, a);
      DeliverAll(name, s, d, a + b) == DeliverAll(name, p.log, p.disk, b)
    decreases |b|
  {
    assert forall i :: 0 <= i < |a| ==> a[i] == (a + b)[i];
    assert forall i :: 0 <= i < |b| ==> b[i] == (a + b)[|a| + i];
    if b == [] {
      assert a + b == a;
    } else {
      var init := b[..|b| - 1];
      assert (a + b)[..|a + b| - 1] == a + init;
      assert (a + b)[|a + b| - 1] == b[|b| - 1];
      DeliverAllSplit(name, s, d, a, init);
    }
  }

  /** Delivering e and then es is delivering [e] + es. */
  lemma DeliverAllCons(name: string, s: LogState, d: Disk, e: Entry, es: seq<Entry>)
    requires |e.data| > 0 && NonEmptyPayloads(es)
    ensures NonEmptyPayloads([e] + es)
    ensures var p := Deliver(name, s, d, e);
      DeliverAll(name, s, d, [e] + es) == DeliverAll(name, p.log, p.disk, es)
  {
    ConsPayloads(e, es);
    DeliverAllSplit(name, s, d, [e], es);
    assert [e][..0] == [];
  }

  /** The diagnostics that report es as lost, in order. */
  function LostEntries(name: string, es: seq<Entry>): seq<Diag>
  {
    seq(|es|, i requires 0 <= i < |es| => LostEntry(name, es[i]))
  }

  /**
   * Through a closed handle, entries of its hour are all lost: each one, in order, is reported
   * on standard error, and neither the stream nor any file changes.
   */
  lemma {:induction false} ClosedHandleReportsAll(name: string, s: LogState, d: Disk, es: seq<Entry>)
    requires NonEmptyPayloads(es) && s.out.Handle? && !s.out.open
    requires forall i :: 0 <= i < |es| ==> Bucket(es[i].time) == s.outTS
    ensures DeliverAll(name, s, d, es) == Pair(s, d.(stderr := d.stderr + LostEntries(name, es)))
    decreases |es|
  {
    if es == [] {
      assert d.stderr + LostEntries(name, es) == d.stderr;
    } else {
      var init := es[..|es| - 1];
      var e := es[|es| - 1];
      assert forall i :: 0 <= i < |init| ==> init[i] == es[i];
      ClosedHandleReportsAll(name, s, d, init);
      var d1 := d.(stderr := d.stderr + LostEntries(name, init));
      assert Deliver(name, s, d1, e) == Pair(s, Reported(d1, LostEntry(name, e)));
      assert LostEntries(name, init) + [LostEntry(name, e)] == LostEntries(name, es);
      assert d1.stderr + [LostEntry(name, e)] == d.stderr + LostEntries(name, es);
    }
  }

  /** Every pending entry falls in the hour of the first. */
  ghost predicate OneHour(es: seq<Entry>)
  {
    forall i :: 0 <= i < |es| ==> Bucket(es[i].time) == Bucket(es[0].time)
  }

  /**
   * The first entry delivered to a stream without output opens the live file for the entry's
   * hour and appends its frame; nothing is reported.
   */
  lemma FirstDeliveryOpens(name: string, s: LogState, d: Disk, e: Entry)
    requires |e.data| > 0 && s.out == NoOut && Coherent(s)
    requires LivePath(name) !in d.openFails
    ensures Deliver(name, s, d, e) ==
      Pair(s.(out := Handle(LivePath(name), true), outTS := Bucket(e.time)), Appended(d, LivePath(name), Frame(e)))
  {
    assert Rotate(name, s, d, Bucket(e.time)) == Pair(s, d);
    OpenThenAppend(d, LivePath(name), Frame(e));
  }

  /**
   * enableFileOutput on a stream that has never had output (a new stream, as `Get` and
   * `EnableFiles` see it), with the pending entries of one hour: it opens the live file for
   * that hour and appends every pending frame to it in order; nothing is reported and no
   * other file changes.
   */
  lemma EnableOpensLiveFile(name: string, s: LogState, d: Disk)
    requires NonEmptyPayloads(s.pending) && s.pending != [] && OneHour(s.pending)
    requires s.out == NoOut && Coherent(s)
    requires LivePath(name) !in d.openFails
    ensures EnableStep(name, s, d) == Pair(
      s.(writeToFile := true, out := Handle(LivePath(name), true), outTS := Bucket(s.pending[0].time)),
      Appended(d, LivePath(name), Frames(s.pending)))
  {
    var live := LivePath(name);
    var es := s.pending;
    var e := es[0];
    var rest := es[1..];
    assert es == [e] + rest;
    assert forall i :: 0 <= i < |rest| ==> rest[i] == es[i + 1];
    var s1 := s.(out := Handle(live, true), outTS := Bucket(e.time));
    var d1 := Appended(d, live, Frame(e));
    FirstDeliveryOpens(name, s, d, e);
    DeliverAllCons(name, s, d, e, rest);
    assert DeliverAll(name, s, d, es) == DeliverAll(name, s1, d1, rest);
    SameBucketInOrder(name, s1, d1, rest);
    AppendedTwice(d, live, Frame(e), Frames(rest));
    assert Frames(es) == Frame(e) + Frames(rest);
  }

  /**
   * enableFileOutput after disableFileOutput within the hour of every pending entry: the
   * closed handle is kept, so every pending entry is reported lost, in order, and no file
   * changes.
   */
  lemma EnableSameHourReportsPending(name: string, s: LogState, d: Disk)
    requires NonEmptyPayloads(s.pending) && s.out.Handle? && !s.out.open
    requires forall i :: 0 <= i < |s.pending| ==> Bucket(s.pending[i].time) == s.outTS
    ensures EnableStep(name, s, d) == Pair(s.(writeToFile := true), d.(stderr := d.stderr + LostEntries(name, s.pending)))
  {
    ClosedHandleReportsAll(name, s, d, s.pending);
  }

  /**
   * enableFileOutput after disableFileOutput, with the pending entries in one later hour:
   * the failed close of the closed handle is reported, the live file is archived under the
   * old hour and its compression scheduled, and a fresh live file receives every pending
   * frame in order.
   */
  lemma EnableNewHourRotates(name: string, s: LogState, d: Disk)
    requires NonEmptyPayloads(s.pending) && s.pending != [] && OneHour(s.pending)
    requires s.out == Handle(LivePath(name), false) && s.outTS != Bucket(s.pending[0].time)
    requires LivePath(name) in d.files && LivePath(name) !in d.openFails
    ensures var r := EnableStep(name, s, d);
      var arch := ArchivePath(name, s.outTS);
      && r.log == s.(writeToFile := true, out := Handle(LivePath(name), true), outTS := Bucket(s.pending[0].time))
      && r.disk.stderr == d.stderr + [CloseFailed(name)]
      && r.disk.compressed == d.compressed + [arch]
      && arch in r.disk.files && r.disk.files[arch] == d.files[LivePath(name)]
      && LivePath(name) in r.disk.files && r.disk.files[LivePath(name)] == Frames(s.pending)
  {
    var live := LivePath(name);
    var arch := ArchivePath(name, s.outTS);
    var es := s.pending;
    var e := es[0];
    var rest := es[1..];
    assert es == [e] + rest;
    assert forall i :: 0 <= i < |rest| ==> rest[i] == es[i + 1];
    var w := WriteEntryStep(name, s, d, e);
    NewHourInOrder(name, s, d, e, rest);
    ReenabledNewHourRecovers(name, s, d, e);
    var after := Appended(w.disk, live, Frames(rest));
    assert Frames(es) == Frame(e) + Frames(rest);
    assert after.files[live] == Frames(es);
    assert after.files[arch] == w.disk.files[arch];
  }

  /** Through a closed handle, a new hour's first entry rotates and the rest of that hour follow it. */
  lemma NewHourInOrder(name: string, s: LogState, d: Disk, e: Entry, rest: seq<Entry>)
    requires |e.data| > 0 && NonEmptyPayloads(rest)
    requires s.out == Handle(LivePath(name), false) && s.outTS != Bucket(e.time)
    requires LivePath(name) in d.files && LivePath(name) !in d.openFails
    requires forall i :: 0 <= i < |rest| ==> Bucket(rest[i].time) == Bucket(e.time)
    ensures NonEmptyPayloads([e] + rest)
    ensures var w := WriteEntryStep(name, s, d, e);
      DeliverAll(name, s, d, [e] + rest) == Pair(w.log, Appended(w.disk, LivePath(name), Frames(rest)))
  {
    var w := WriteEntryStep(name, s, d, e);
    ReenabledNewHourRecovers(name, s, d, e);
    assert Deliver(name, s, d, e) == Pair(w.log, w.disk);
    DeliverAllCons(name, s, d, e, rest);
    assert LivePath(name) in w.disk.files;
    SameBucketInOrder(name, w.log, w.disk, rest);
  }

  /**
   * An entry of a new hour with the live file open rotates: the live file moves to the
   * archive path of the old hour, its compression is scheduled, and a new live file holding
   * just this frame is opened for the new hour.
   */
  lemma RotationOnNewHour(name: string, s: LogState, d: Disk, e: Entry)
    requires |e.data| > 0
    requires s.out == Handle(LivePath(name), true) && s.outTS != Bucket(e.time)
    requires LivePath(name) in d.files && LivePath(name) !in d.openFails
    ensures var w := WriteEntryStep(name, s, d, e);
      var arch := ArchivePath(name, s.outTS);
      && w.ok
      && w.log == s.(out := Handle(LivePath(name), true), outTS := Bucket(e.time))
      && arch in w.disk.files && w.disk.files[arch] == d.files[LivePath(name)]
      && LivePath(name) in w.disk.files && w.disk.files[LivePath(name)] == Frame(e)
      && w.disk.compressed == d.compressed + [arch]
      && w.disk.stderr == d.stderr
  {
    var arch := ArchivePath(name, s.outTS);
    var r := Rotate(name, s, d, Bucket(e.time));
    assert r.disk.files == (d.files - {LivePath(name)})[arch := d.files[LivePath(name)]];
    assert LivePath(name) !in r.disk.files;
  }

  /**
   * When the live file cannot be opened (with no handle, or on a new hour), the stream is
   * left without output and outTS stays empty, and the entry goes to the emergency log.
   */
  lemma OpenFailureLosesEntry(name: string, s: LogState, d: Disk, e: Entry)
    requires |e.data| > 0 && s.writeToFile
    requires Coherent(s) && (s.out == NoOut || s.outTS != Bucket(e.time))
    requires LivePath(name) in d.openFails
    ensures var r := AppendStep(name, s, d, e);
      && r.log.out == NoOut && r.log.outTS == NoStamp
      && r.disk.stderr[|r.disk.stderr| - 1] == LostEntry(name, e)
      && (s.out == NoOut ==> r.disk == Reported(d, LostEntry(name, e)))
      && (s.out != NoOut ==> LivePath(name) !in r.disk.files)
  {
    var r := Rotate(name, s, d, Bucket(e.time));
    if s.out != NoOut && s.outTS != Bucket(e.time) {
      var arch := ArchivePath(name, s.outTS);
      assert LivePath(name) != arch;
      assert LivePath(name) !in r.disk.files;
    }
  }

  /** disableFileOutput closes the output but keeps the handle, the hour and pending. */
  lemma DisableKeepsHandle(s: LogState)
    ensures var s' := DisableStep(s);
      && !s'.writeToFile && s'.pending == s.pending && s'.outTS == s.outTS
      && (s.out == NoOut ==> s'.out == NoOut)
      && (s.out.Handle? ==> s'.out == Handle(s.out.path, false))
  {
  }

  /**
   * Disabling and re-enabling file output within the same hour leaves the stream on its
   * closed handle: the next entry of that hour is not written and goes to the emergency log.
   */
  lemma ReenabledSameHourLoses(name: string, s: LogState, d: Disk, e: Entry)
    requires |e.data| > 0
    requires s.out.Handle? && s.outTS == Bucket(e.time)
    ensures var s' := DisableStep(s).(writeToFile := true);
      var r := AppendStep(name, s', d, e);
      && r.disk == Reported(d, LostEntry(name, e))
      && r.log == s'
  {
  }

  /**
   * Re-enabling in a later hour recovers: closing the closed handle is reported, the live
   * file is still archived and a fresh live file takes the entry.
   */
  lemma ReenabledNewHourRecovers(name: string, s: LogState, d: Disk, e: Entry)
    requires |e.data| > 0
    requires s.out == Handle(LivePath(name), false) && s.outTS != Bucket(e.time)
    requires LivePath(name) in d.files && LivePath(name) !in d.openFails
    ensures var w := WriteEntryStep(name, s, d, e);
      && w.ok
      && w.disk.stderr == d.stderr + [CloseFailed(name)]
      && w.disk.compressed == d.compressed + [ArchivePath(name, s.outTS)]
      && ArchivePath(name, s.outTS) in w.disk.files
      && w.disk.files[ArchivePath(name, s.outTS)] == d.files[LivePath(name)]
      && w.disk.files[LivePath(name)] == Frame(e)
      && w.log.out == Handle(LivePath(name), true) && w.log.outTS == Bucket(e.time)
  {
    var arch := ArchivePath(name, s.outTS);
    var r := Rotate(name, s, d, Bucket(e.time));
    assert LivePath(name) !in r.disk.files;
  }

  // ---------------------------------------------------------------------------------------
  // The objects

  /** The process's filesystem, standard error and background compressions. */
  class FileSystem {
    var files: map<Path, seq<byte>>
    var stderr: seq<Diag>
    var compressed: seq<Path>
    const openFails: set<Path>

    function State(): Disk
      reads this
    {
      Disk(files, stderr, compressed, openFails)
    }

    constructor (files0: map<Path, seq<byte>>, openFails0: set<Path>)
      ensures State() == Disk(files0, [], [], openFails0)
    {
      files := files0;
      stderr := [];
      compressed := [];
      openFails := openFails0;
    }

    method Report(m: Diag)
      modifies this
      ensures State() == Reported(old(State()), m)
    {
      stderr := stderr + [m];
    }

    /** `go compress(archPath)`: only the fact that it was started is recorded. */
    method Schedule(p: Path)
      modifies this
      ensures State() == Scheduled(old(State()), p)
    {
      compressed := compressed + [p];
    }

    method Rename(from: Path, to: Path) returns (ok: bool)
      requires from != to
      modifies this
      ensures (State(), ok) == Renamed(old(State()), from, to)
    {
      ok := from in files;
      if ok {
        files := (files - {from})[to := files[from]];
      }
    }

    method Open(p: Path) returns (ok: bool)
      modifies this
      ensures (State(), ok) == Opened(old(State()), p)
    {
      ok := p !in openFails;
      if ok {
        files := files[p := FileBytes(State(), p)];
      }
    }

    method Append(p: Path, bytes: seq<byte>)
      modifies this
      ensures State() == Appended(old(State()), p, bytes)
    {
      files := files[p := FileBytes(State(), p) + bytes];
    }
  }

  /** A log target: `Log` with its name and the fields its methods update. */
  class Log {
    const name: string
    var writeToFile: bool
    var pending: seq<Entry>
    var out: Out
    var outTS: Stamp

    function State(): LogState
      reads this
    {
      LogState(writeToFile, pending, out, outTS)
    }

    /** Every buffered entry has a payload, as delivering it needs. */
    ghost predicate Deliverable()
      reads this
    {
      NonEmptyPayloads(pending)
    }

    constructor (name: string)
      ensures this.name == name && State() == NewLog && Deliverable()
    {
      this.name := name;
      writeToFile := false;
      pending := [];
      out := NoOut;
      outTS := NoStamp;
    }

    /** `writeEntry(e)`. */
    method WriteEntry(e: Entry, fs: FileSystem) returns (ok: bool)
      requires |e.data| > 0
      modifies this, fs
      ensures Written(State(), fs.State(), ok) == WriteEntryStep(name, old(State()), old(fs.State()), e)
    {
      var ts := Bucket(e.time);
      var path := LivePath(name);
      ghost var r := Rotate(name, State(), fs.State(), ts);
      if outTS != ts {
        if out != NoOut {
          var o, closeOk := Closed(out).0, Closed(out).1;
          out := o;
          if !closeOk {
            fs.Report(CloseFailed(name));
          }
          var archPath := ArchivePath(name, outTS);
          var renamed := fs.Rename(path, archPath);
          if !renamed {
            fs.Report(ArchiveFailed(name));
          }
          fs.Schedule(archPath);
        }
        out := NoOut;
        outTS := NoStamp;
      }
      assert Pair(State(), fs.State()) == r;
      if out == NoOut {
        var openOk := fs.Open(path);
        if !openOk {
          return false;
        }
        out := Handle(path, true);
        outTS := ts;
      }
      ok := WriteTo(e, fs);
    }

    /** `e.WriteTo(l.out)`: encode the frame and write it through the handle. */
    method WriteTo(e: Entry, fs: FileSystem) returns (ok: bool)
      requires |e.data| > 0 && out.Handle?
      modifies fs
      ensures Written(State(), fs.State(), ok) == WriteOut(State(), old(fs.State()), e)
    {
      if !out.open {
        return false;
      }
      var ba := EncodeFrame(e);
      fs.Append(out.path, ba[..]);
      ok := true;
    }

    /** `emergencyLog(e, err)`: the entry's frame is dumped on standard error. */
    method EmergencyLog(e: Entry, fs: FileSystem)
      modifies fs
      ensures fs.State() == Reported(old(fs.State()), LostEntry(name, e))
    {
      fs.Report(LostEntry(name, e));
    }

    /** `writeEntry(e)`, falling back to `emergencyLog(e, err)` when it fails. */
    method DeliverEntry(e: Entry, fs: FileSystem)
      requires |e.data| > 0
      modifies this, fs
      ensures Pair(State(), fs.State()) == Deliver(name, old(State()), old(fs.State()), e)
    {
      var ok := WriteEntry(e, fs);
      if !ok {
        EmergencyLog(e, fs);
      }
    }

    /** `enableFileOutput`. */
    method EnableFileOutput(fs: FileSystem)
      requires Deliverable()
      modifies this, fs
      ensures Deliverable()
      ensures Pair(State(), fs.State()) == EnableStep(name, old(State()), old(fs.State()))
    {
      ghost var s0 := State();
      ghost var d0 := fs.State();
      var i := 0;
      while i < |pending|
        invariant 0 <= i <= |pending|
        invariant pending == s0.pending && writeToFile == s0.writeToFile
        invariant NonEmptyPayloads(s0.pending[..i])
        invariant Pair(State(), fs.State()) == DeliverAll(name, s0, d0, s0.pending[..i])
      {
        PrefixGrows(pending, i);
        DeliverEntry(pending[i], fs);
        i := i + 1;
      }
      WholePrefix(s0.pending);
      writeToFile := true;
    }

    /** `disableFileOutput`; the error of Close is ignored. */
    method DisableFileOutput()
      modifies this
      ensures State() == DisableStep(old(State()))
    {
      if out != NoOut {
        out := Closed(out).0;
      }
      writeToFile := false;
    }

    /**
     * `append(taint, data)`. The clock reading is the parameter now; the console echo is
     * not modelled. An entry is delivered at once only while file output is on, and
     * delivering indexes the payload's last byte, so only then must data not be empty.
     */
    method Append(taint: Taint, data: seq<byte>, now: Int64, fs: FileSystem)
      requires writeToFile ==> |data| > 0
      modifies this, fs
      ensures Pair(State(), fs.State()) == AppendStep(name, old(State()), old(fs.State()), Entry(now, taint, data))
    {
      var e := Entry(now, taint, data);
      if !writeToFile {
        pending := pending + [e];
        return;
      }
      DeliverEntry(e, fs);
    }

    /** `Write(b)`: append with the Normal taint; it always reports len(b) and no error. */
    method Write(b: seq<byte>, now: Int64, fs: FileSystem) returns (n: int, err: Option<string>)
      requires writeToFile ==> |b| > 0
      modifies this, fs
      ensures Pair(State(), fs.State()) == AppendStep(name, old(State()), old(fs.State()), Entry(now, Normal, b))
      ensures n == |b| && err == None
    {
      Append(Normal, b, now, fs);
      return |b|, None;
    }
  }
}
