/**
 * atomicWriteFile and atomicWriteFileSync: write a temporary file, flush it, rename it over the
 * destination, and clean up. Every operation may fail and the machine may stop between any two.
 */
module AtomicWrite {
  import opened Wrappers
  import opened Bytes

  /** A file's bytes, and whether all of them have been flushed to the device. */
  datatype File = File(data: Bytes, flushed: bool)

  type Directory = map<string, nat>

  /** Names refer to files by number; `past` holds the directory versions a crash may bring back. */
  datatype Disk = Disk(names: Directory, files: seq<File>, past: seq<Directory>)

  /** The bytes a name leads to, or None when there is no such file. */
  predicate Leads(files: seq<File>, dir: Directory, name: string, bytes: Option<Bytes>) {
    if name !in dir then bytes == None
    else dir[name] < |files| && bytes == Some(files[dir[name]].data)
  }

  /** What a name may lead to after a crash: unflushed files may hold anything. */
  predicate LeadsAfterCrash(files: seq<File>, dir: Directory, name: string, bytes: Option<Bytes>) {
    if name !in dir then bytes == None
    else dir[name] < |files| && bytes.Some? && (files[dir[name]].flushed ==> bytes.value == files[dir[name]].data)
  }

  /** After a crash each name independently falls back to the current or any past directory version. */
  predicate MaySurvive(d: Disk, name: string, bytes: Option<Bytes>) {
    || LeadsAfterCrash(d.files, d.names, name, bytes)
    || exists dir :: dir in d.past && LeadsAfterCrash(d.files, dir, name, bytes)
  }

  // ---- What may happen in a crash, operation by operation -------------------------------

  /** Whatever a name might lead to after a crash, it might lead to after a crash that comes later. */
  lemma NamesMayComeBack(d: Disk, name: string, bytes: Option<Bytes>, other: string, to: string)
    requires MaySurvive(d, name, bytes)
    ensures MaySurvive(Created(d, other), name, bytes) && MaySurvive(Removed(d, other), name, bytes)
    ensures other in d.names ==> MaySurvive(Renamed(d, other, to), name, bytes)
  {
    if LeadsAfterCrash(d.files, d.names, name, bytes) {
      VersionComesBack(d, d.names, name, bytes, other, to);
    } else {
      var dir :| dir in d.past && LeadsAfterCrash(d.files, dir, name, bytes);
      VersionComesBack(d, dir, name, bytes, other, to);
    }
  }

  lemma VersionComesBack(d: Disk, dir: Directory, name: string, bytes: Option<Bytes>, other: string, to: string)
    requires (dir == d.names || dir in d.past) && LeadsAfterCrash(d.files, dir, name, bytes)
    ensures MaySurvive(Created(d, other), name, bytes) && MaySurvive(Removed(d, other), name, bytes)
    ensures other in d.names ==> MaySurvive(Renamed(d, other, to), name, bytes)
  {
    assert dir in Created(d, other).past && dir in Removed(d, other).past;
    assert other in d.names ==> dir in Renamed(d, other, to).past;
    assert LeadsAfterCrash(Created(d, other).files, dir, name, bytes);
  }

  /** What was not flushed may be anything after a crash, and what was flushed stays as long as its name. */
  lemma FlushingDecides(d: Disk, name: string, inode: nat, written: Bytes, found: Bytes)
    requires name in d.names && d.names[name] == inode < |d.files|
    ensures MaySurvive(Created(d, name), name, Some(found))
    ensures MaySurvive(Stored(d, inode, written, false), name, Some(found))
    ensures LeadsAfterCrash(Stored(d, inode, written, true).files, d.names, name, Some(found)) <==> found == written
  {
  }

  // ---- The protocol as steps ------------------------------------------------------------

  datatype Phase = Opening | Writing | Flushing | Closing | Renaming | ClosingAgain | Removing | Returned

  /** What the system makes of one operation; a failing write may have written some of the bytes. */
  datatype Outcome = Done | Fault(written: nat)

  /** One call: `inode` is its file once it is open, `installed` says the rename took place. */
  datatype Writer = Writer(path: string, temp: string, data: Bytes, phase: Phase, failed: bool, inode: Option<nat>,
                           installed: bool)

  function Begin(path: string, temp: string, data: Bytes): Writer {
    Writer(path, temp, data, Opening, false, None, false)
  }

  predicate IsOpen(p: Phase) {
    p in {Writing, Flushing, Closing, Renaming, ClosingAgain}
  }

  /** A writer that is not done has a file exactly when it has opened one. */
  predicate Coherent(d: Disk, w: Writer) {
    && (IsOpen(w.phase) ==> w.inode.Some? && w.inode.value < |d.files|)
    && (w.phase == Opening ==> w.inode == None)
  }

  function Created(d: Disk, name: string): Disk {
    Disk(d.names[name := |d.files|], d.files + [File([], false)], d.past + [d.names])
  }

  function Stored(d: Disk, inode: nat, bytes: Bytes, flushed: bool): Disk
    requires inode < |d.files|
  {
    d.(files := d.files[inode := File(bytes, flushed)])
  }

  function Renamed(d: Disk, from: string, to: string): Disk
    requires from in d.names
  {
    d.(names := (d.names - {from})[to := d.names[from]], past := d.past + [d.names])
  }

  function Removed(d: Disk, name: string): Disk {
    d.(names := d.names - {name}, past := d.past + [d.names])
  }

  /** The first `n` bytes. */
  function Prefix(bytes: Bytes, n: nat): (r: Bytes)
    ensures r <= bytes && (|r| == n || (r == bytes && |bytes| <= n))
  {
    if n < |bytes| then bytes[..n] else bytes
  }

  /** One operation of a call and where the call goes on; a failure leads to the `finally` block. */
  function Next(d: Disk, w: Writer, o: Outcome): (r: (Disk, Writer))
    requires Coherent(d, w) && w.phase != Returned
    ensures Coherent(r.0, r.1)
  {
    match w.phase
    case Opening =>
      if o.Done? && w.temp !in d.names then (Created(d, w.temp), w.(phase := Writing, inode := Some(|d.files|)))
      else (d, w.(phase := Removing, failed := true))
    case Writing =>
      if o.Done? then (Stored(d, w.inode.value, w.data, false), w.(phase := Flushing))
      else (Stored(d, w.inode.value, Prefix(w.data, o.written), false), w.(phase := ClosingAgain, failed := true))
    case Flushing =>
      if o.Done? then (Stored(d, w.inode.value, d.files[w.inode.value].data, true), w.(phase := Closing))
      else (d, w.(phase := ClosingAgain, failed := true))
    case Closing =>
      if o.Done? then (d, w.(phase := Renaming)) else (d, w.(phase := ClosingAgain, failed := true))
    case Renaming =>
      if o.Done? && w.temp in d.names then (Renamed(d, w.temp, w.path), w.(phase := Removing, installed := true))
      else (d, w.(phase := Removing, failed := true))
    case ClosingAgain =>
      (d, w.(phase := if o.Done? then Removing else Returned))
    case Removing =>
      if o.Fault? then (d, w.(phase := Returned, failed := true))
      else (if w.temp in d.names then Removed(d, w.temp) else d, w.(phase := Returned))
  }

  // One operation at a time.

  lemma NextOpens(d: Disk, w: Writer, o: Outcome)
    requires Coherent(d, w) && w.phase == Opening
    ensures Next(d, w, o) ==
      if o.Done? && w.temp !in d.names then (Created(d, w.temp), w.(phase := Writing, inode := Some(|d.files|)))
      else (d, w.(phase := Removing, failed := true))
  {
  }

  lemma NextWrites(d: Disk, w: Writer, o: Outcome)
    requires Coherent(d, w) && w.phase == Writing
    ensures Next(d, w, o) ==
      if o.Done? then (Stored(d, w.inode.value, w.data, false), w.(phase := Flushing))
      else (Stored(d, w.inode.value, Prefix(w.data, o.written), false), w.(phase := ClosingAgain, failed := true))
  {
  }

  lemma NextFlushes(d: Disk, w: Writer, o: Outcome)
    requires Coherent(d, w) && w.phase == Flushing
    ensures Next(d, w, o) ==
      if o.Done? then (Stored(d, w.inode.value, d.files[w.inode.value].data, true), w.(phase := Closing))
      else (d, w.(phase := ClosingAgain, failed := true))
  {
  }

  lemma NextCloses(d: Disk, w: Writer, o: Outcome)
    requires Coherent(d, w) && w.phase == Closing
    ensures Next(d, w, o) == (d, if o.Done? then w.(phase := Renaming) else w.(phase := ClosingAgain, failed := true))
  {
  }

  lemma NextRenames(d: Disk, w: Writer, o: Outcome)
    requires Coherent(d, w) && w.phase == Renaming
    ensures Next(d, w, o) ==
      if o.Done? && w.temp in d.names then (Renamed(d, w.temp, w.path), w.(phase := Removing, installed := true))
      else (d, w.(phase := Removing, failed := true))
  {
  }

  // ---- Any number of calls, interleaved -------------------------------------------------

  datatype World = World(disk: Disk, writers: seq<Writer>)

  datatype Step = Step(writer: nat, outcome: Outcome)

  predicate Enabled(v: World, s: Step) {
    s.writer < |v.writers| && v.writers[s.writer].phase != Returned && Coherent(v.disk, v.writers[s.writer])
  }

  function After(v: World, s: Step): World
    requires Enabled(v, s)
  {
    var (d, w) := Next(v.disk, v.writers[s.writer], s.outcome);
    World(d, v.writers[s.writer := w])
  }

  ghost predicate Runs(v: World, steps: seq<Step>, end: World)
    decreases |steps|
  {
    if steps == [] then end == v
    else Enabled(v, steps[0]) && Runs(After(v, steps[0]), steps[1..], end)
  }

  predicate EntriesExist(d: Disk, dir: Directory) {
    forall name :: name in dir ==> dir[name] < |d.files|
  }

  /** A disk whose names lead to files, and calls about to begin with random, hence unused, temporary names. */
  ghost predicate Start(v: World) {
    && EntriesExist(v.disk, v.disk.names) && (forall dir :: dir in v.disk.past ==> EntriesExist(v.disk, dir))
    && (forall i :: 0 <= i < |v.writers| ==>
          v.writers[i] == Begin(v.writers[i].path, v.writers[i].temp, v.writers[i].data))
    && (forall i :: 0 <= i < |v.writers| ==> v.writers[i].temp !in v.disk.names)
    && TempsApart(v.writers)
  }

  ghost predicate TempsApart(ws: seq<Writer>) {
    && (forall i, j :: 0 <= i < j < |ws| ==> ws[i].temp != ws[j].temp)
    && (forall i, j :: 0 <= i < |ws| && 0 <= j < |ws| ==> ws[i].temp != ws[j].path)
  }

  predicate IsTemp(ws: seq<Writer>, name: string) {
    exists i :: 0 <= i < |ws| && ws[i].temp == name
  }

  /** Apart from temporary names, `dir` differs from `origin` only where calls have put their files. */
  ghost predicate Follows(origin: Directory, ws: seq<Writer>, dir: Directory) {
    forall name :: !IsTemp(ws, name) ==> SameEntry(dir, origin, name) || InstalledBySome(ws, dir, name)
  }

  predicate InstalledBySome(ws: seq<Writer>, dir: Directory, name: string) {
    exists i :: 0 <= i < |ws| && InstalledAt(ws[i], dir, name)
  }

  predicate SameEntry(a: Directory, b: Directory, name: string) {
    if name in a then name in b && a[name] == b[name] else name !in b
  }

  predicate InstalledAt(w: Writer, dir: Directory, name: string) {
    w.installed && w.path == name && name in dir && w.inode == Some(dir[name])
  }

  /** What one call has made of its file and of its temporary name so far. */
  ghost predicate GoodWriter(start: Disk, d: Disk, w: Writer) {
    && Coherent(d, w)
    && (w.inode.Some? ==> |start.files| <= w.inode.value < |d.files|)
    && (IsOpen(w.phase) ==> w.temp in d.names && d.names[w.temp] == w.inode.value && !w.installed)
    && (w.phase == Opening ==> w.temp !in d.names && !w.installed && !w.failed)
    && (w.phase == Flushing ==> d.files[w.inode.value].data == w.data)
    && (w.phase in {Closing, Renaming} ==> d.files[w.inode.value] == File(w.data, true))
    && (w.installed ==> w.inode.Some? && d.files[w.inode.value] == File(w.data, true) && w.temp !in d.names)
    && (w.phase in {Writing, Flushing, Closing, Renaming} ==> !w.failed)
    && (w.phase == ClosingAgain ==> w.failed)
    && (w.phase in {Removing, Returned} ==> w.failed || w.installed)
    && (w.phase == Returned && !w.failed ==> w.temp !in d.names)
  }

  ghost predicate Good(start: Disk, v: World) {
    && GoodFiles(start, v.disk)
    && TempsApart(v.writers)
    && (forall i :: 0 <= i < |v.writers| ==> GoodWriter(start, v.disk, v.writers[i]))
    && OwnFiles(v.writers)
    && GoodNames(start, v)
  }

  ghost predicate GoodFiles(start: Disk, d: Disk) {
    |start.files| <= |d.files| && forall k :: 0 <= k < |start.files| ==> d.files[k] == start.files[k]
  }

  ghost predicate OwnFiles(ws: seq<Writer>) {
    forall i, j :: 0 <= i < |ws| && 0 <= j < |ws| && i != j && ws[i].inode.Some? ==> ws[i].inode != ws[j].inode
  }

  ghost predicate GoodNames(start: Disk, v: World) {
    && Follows(start.names, v.writers, v.disk.names)
    && forall dir :: dir in v.disk.past ==> dir in start.past || Follows(start.names, v.writers, dir)
  }

  // ---- One step keeps everything --------------------------------------------------------

  predicate SameCall(w: Writer, x: Writer) {
    x.path == w.path && x.temp == w.temp && x.data == w.data
  }

  lemma OwnStep(start: Disk, d: Disk, w: Writer, o: Outcome)
    requires GoodFiles(start, d) && GoodWriter(start, d, w) && w.phase != Returned && w.temp != w.path
    ensures var (e, x) := Next(d, w, o); GoodFiles(start, e) && GoodWriter(start, e, x)
    ensures var (e, x) := Next(d, w, o); x.inode == w.inode || (w.inode == None && x.inode == Some(|d.files|))
    ensures SameCall(w, Next(d, w, o).1)
  {
  }

  /** A step touches the acting call's file and names only. */
  lemma OthersStep(start: Disk, d: Disk, w: Writer, o: Outcome, other: Writer)
    requires GoodWriter(start, d, w) && GoodWriter(start, d, other) && w.phase != Returned
    requires other.temp != w.temp && other.temp != w.path
    requires w.inode.Some? ==> other.inode != w.inode
    ensures GoodWriter(start, Next(d, w, o).0, other)
  {
  }

  lemma NamesStep(start: Disk, v: World, s: Step)
    requires Good(start, v) && Enabled(v, s)
    ensures GoodNames(start, After(v, s))
  {
    hide TempsApart;
    var i, u := s.writer, After(v, s);
    forall dir | Follows(start.names, v.writers, dir)
      ensures Follows(start.names, u.writers, dir)
    {
      StillFollows(start, v, s, dir);
    }
    StillFollows(start, v, s, v.disk.names);
    forall name | !IsTemp(u.writers, name)
      ensures SameEntry(u.disk.names, start.names, name) || InstalledBySome(u.writers, u.disk.names, name)
    {
      assert u.writers[i].temp == v.writers[i].temp;
      assert name != v.writers[i].temp;
      if u.writers[i].installed && !v.writers[i].installed && name == v.writers[i].path {
        assert InstalledAt(u.writers[i], u.disk.names, name);
      } else {
        assert SameEntry(u.disk.names, v.disk.names, name);
        assert SameEntry(v.disk.names, start.names, name) || InstalledBySome(u.writers, v.disk.names, name);
        if InstalledBySome(u.writers, v.disk.names, name) {
          var j :| 0 <= j < |u.writers| && InstalledAt(u.writers[j], v.disk.names, name);
          assert InstalledAt(u.writers[j], u.disk.names, name);
        }
      }
    }
  }

  lemma StillFollows(start: Disk, v: World, s: Step, dir: Directory)
    requires Good(start, v) && Enabled(v, s) && Follows(start.names, v.writers, dir)
    ensures Follows(start.names, After(v, s).writers, dir)
  {
    hide TempsApart, GoodNames, OwnFiles, GoodFiles;
    var u := After(v, s);
    forall name | !IsTemp(u.writers, name)
      ensures SameEntry(dir, start.names, name) || InstalledBySome(u.writers, dir, name)
    {
      SameTemps(v, s, name);
      if InstalledBySome(v.writers, dir, name) {
        var j :| 0 <= j < |v.writers| && InstalledAt(v.writers[j], dir, name);
        assert GoodWriter(start, v.disk, v.writers[j]);
        assert InstalledAt(u.writers[j], dir, name);
      }
    }
  }

  lemma SameTemps(v: World, s: Step, name: string)
    requires Enabled(v, s)
    ensures IsTemp(v.writers, name) <==> IsTemp(After(v, s).writers, name)
  {
    var u := After(v, s);
    forall k | 0 <= k < |v.writers|
      ensures u.writers[k].temp == v.writers[k].temp
    {
    }
    if IsTemp(v.writers, name) {
      var k :| 0 <= k < |v.writers| && v.writers[k].temp == name;
      assert u.writers[k].temp == name;
    }
  }

  lemma NextKeeps(start: Disk, v: World, s: Step)
    requires Good(start, v) && Enabled(v, s)
    ensures Good(start, After(v, s))
  {
    hide GoodNames, GoodWriter, GoodFiles, Next;
    var i, u := s.writer, After(v, s);
    assert v.writers[i].temp != v.writers[i].path;
    OwnStep(start, v.disk, v.writers[i], s.outcome);
    forall j | 0 <= j < |u.writers|
      ensures GoodWriter(start, u.disk, u.writers[j])
    {
      if j != i {
        OthersStep(start, v.disk, v.writers[i], s.outcome, v.writers[j]);
      }
    }
    assert OwnFiles(u.writers) by {
      forall j | 0 <= j < |v.writers|
        ensures v.writers[j].inode != Some(|v.disk.files|)
      {
        InodeExists(start, v.disk, v.writers[j]);
      }
    }
    NamesStep(start, v, s);
  }

  lemma InodeExists(start: Disk, d: Disk, w: Writer)
    requires GoodWriter(start, d, w)
    ensures w.inode != Some(|d.files|)
  {
  }

  lemma StartIsGood(v: World)
    requires Start(v)
    ensures Good(v.disk, v)
  {
  }

  lemma {:induction false} RunsKeep(start: Disk, v: World, steps: seq<Step>, end: World)
    requires Good(start, v) && Runs(v, steps, end)
    ensures Good(start, end)
    decreases |steps|
  {
    if steps != [] {
      NextKeeps(start, v, steps[0]);
      RunsKeep(start, After(v, steps[0]), steps[1..], end);
    }
  }

  // ---- Safety over all interleavings, faults and crashes --------------------------------

  ghost predicate IsDataOfSome(ws: seq<Writer>, name: string, bytes: Option<Bytes>) {
    exists i :: 0 <= i < |ws| && ws[i].installed && ws[i].path == name && bytes == Some(ws[i].data)
  }

  lemma SameAfterCrash(start: Disk, d: Disk, dir: Directory, name: string, bytes: Option<Bytes>)
    requires GoodFiles(start, d) && EntriesExist(start, dir)
    ensures LeadsAfterCrash(start.files, dir, name, bytes) <==> LeadsAfterCrash(d.files, dir, name, bytes)
  {
  }

  /**
   * Whatever a crash leaves under a destination at any moment is something a crash could have left there
   * before the calls began, or the complete data of a call that got as far as its rename.
   */
  lemma CrashLeavesOldOrNew(start: World, steps: seq<Step>, end: World, name: string, bytes: Option<Bytes>)
    requires Start(start) && Runs(start, steps, end)
    requires !IsTemp(end.writers, name) && MaySurvive(end.disk, name, bytes)
    ensures MaySurvive(start.disk, name, bytes) || IsDataOfSome(end.writers, name, bytes)
  {
    hide Runs, TempsApart, OwnFiles;
    StartIsGood(start);
    RunsKeep(start.disk, start, steps, end);
    var dir :| (dir == end.disk.names || dir in end.disk.past) && LeadsAfterCrash(end.disk.files, dir, name, bytes);
    if dir in start.disk.past {
      SameAfterCrash(start.disk, end.disk, dir, name, bytes);
    } else {
      assert Follows(start.disk.names, end.writers, dir);
      if SameEntry(dir, start.disk.names, name) {
        SameAfterCrash(start.disk, end.disk, start.disk.names, name, bytes);
      } else {
        var i :| 0 <= i < |end.writers| && InstalledAt(end.writers[i], dir, name);
        assert GoodWriter(start.disk, end.disk, end.writers[i]);
      }
    }
  }

  /** The running system, too, only ever sees the complete old or complete new contents. */
  lemma ReadersSeeOldOrNew(start: World, steps: seq<Step>, end: World, name: string, bytes: Option<Bytes>)
    requires Start(start) && Runs(start, steps, end)
    requires !IsTemp(end.writers, name) && Leads(end.disk.files, end.disk.names, name, bytes)
    ensures Leads(start.disk.files, start.disk.names, name, bytes) || IsDataOfSome(end.writers, name, bytes)
  {
    hide Runs, TempsApart, OwnFiles;
    StartIsGood(start);
    RunsKeep(start.disk, start, steps, end);
    if !SameEntry(end.disk.names, start.disk.names, name) {
      var i :| 0 <= i < |end.writers| && InstalledAt(end.writers[i], end.disk.names, name);
      assert GoodWriter(start.disk, end.disk, end.writers[i]);
    }
  }

  /** A call that returns normally has renamed its file into place and left no temporary file. */
  lemma NormalReturn(start: World, steps: seq<Step>, end: World, i: nat)
    requires Start(start) && Runs(start, steps, end) && i < |end.writers|
    requires end.writers[i].phase == Returned && !end.writers[i].failed
    ensures end.writers[i].installed && end.writers[i].temp !in end.disk.names
  {
    StartIsGood(start);
    RunsKeep(start.disk, start, steps, end);
    assert GoodWriter(start.disk, end.disk, end.writers[i]);
  }

  // ---- One call on its own --------------------------------------------------------------

  function Rank(p: Phase): nat {
    match p
    case Opening => 7 case Writing => 6 case Flushing => 5 case Closing => 4
    case Renaming => 3 case ClosingAgain => 2 case Removing => 1 case Returned => 0
  }

  lemma Progress(d: Disk, w: Writer, o: Outcome)
    requires Coherent(d, w) && w.phase != Returned
    ensures Rank(Next(d, w, o).1.phase) < Rank(w.phase) && SameCall(w, Next(d, w, o).1)
  {
  }

  /** What the system does in each phase of the call. */
  type Environment = Phase -> Outcome

  /** How a call ends. */
  function Alone(d: Disk, w: Writer, env: Environment): (Disk, Writer)
    requires Coherent(d, w)
    decreases Rank(w.phase)
  {
    if w.phase == Returned then (d, w)
    else
      var (e, x) := Next(d, w, env(w.phase));
      Alone(e, x, env)
  }

  /** The disk after each operation of a call. */
  function Trail(d: Disk, w: Writer, env: Environment): seq<Disk>
    requires Coherent(d, w)
    decreases Rank(w.phase)
  {
    if w.phase == Returned then []
    else
      var (e, x) := Next(d, w, env(w.phase));
      [e] + Trail(e, x, env)
  }

  /** Every disk on the trail is reached by a run of the one call. */
  lemma {:induction false} TrailIsReached(d: Disk, w: Writer, env: Environment, k: nat)
    returns (steps: seq<Step>, end: World)
    requires Coherent(d, w) && k < |Trail(d, w, env)|
    ensures Runs(World(d, [w]), steps, end) && end.disk == Trail(d, w, env)[k]
    ensures |end.writers| == 1 && SameCall(w, end.writers[0])
    decreases Rank(w.phase)
  {
    Progress(d, w, env(w.phase));
    hide Next;
    var (e, x) := Next(d, w, env(w.phase));
    var s := Step(0, env(w.phase));
    assert After(World(d, [w]), s) == World(e, [x]);
    if k == 0 {
      steps, end := [s], World(e, [x]);
      assert Runs(World(e, [x]), [], end);
      assert steps[1..] == [];
    } else {
      var more;
      more, end := TrailIsReached(e, x, env, k - 1);
      steps := [s] + more;
      assert steps[1..] == more;
    }
  }

  /** A disk and a name for a call: the entries exist and the temporary name is unused. */
  ghost predicate Ready(d: Disk, path: string, temp: string) {
    && EntriesExist(d, d.names) && (forall dir :: dir in d.past ==> EntriesExist(d, dir))
    && temp !in d.names && temp != path
  }

  /** The machine may stop after any operation of a call: the destination is complete, old or new. */
  lemma StopsAreSafe(d: Disk, path: string, temp: string, data: Bytes, env: Environment, k: nat, bytes: Option<Bytes>)
    requires Ready(d, path, temp) && k < |Trail(d, Begin(path, temp, data), env)|
    requires MaySurvive(Trail(d, Begin(path, temp, data), env)[k], path, bytes)
    ensures MaySurvive(d, path, bytes) || bytes == Some(data)
  {
    hide MaySurvive, Runs, Trail;
    var w := Begin(path, temp, data);
    var steps, end := TrailIsReached(d, w, env, k);
    assert Start(World(d, [w]));
    CrashLeavesOldOrNew(World(d, [w]), steps, end, path, bytes);
  }

  /** Everything up to and including the rename works. */
  predicate Completes(env: Environment) {
    forall p :: p in {Opening, Writing, Flushing, Closing, Renaming} ==> env(p).Done?
  }

  /** The file is open when the `finally` block is entered. */
  predicate LeftOpen(env: Environment) {
    env(Opening).Done? && (env(Writing).Fault? || env(Flushing).Fault? || env(Closing).Fault?)
  }

  /** Nothing but the two names changed, and the files that existed are as they were. */
  ghost predicate ElseSame(d: Disk, e: Disk, path: string, temp: string) {
    (forall name :: name != path && name != temp ==> SameEntry(e.names, d.names, name)) && GoodFiles(d, e)
  }

  lemma Unroll(d: Disk, w: Writer, env: Environment)
    requires Coherent(d, w) && w.phase != Returned
    ensures var (e, x) := Next(d, w, env(w.phase)); Alone(d, w, env) == Alone(e, x, env)
  {
  }

  lemma Over(d: Disk, w: Writer, env: Environment)
    requires Coherent(d, w) && w.phase == Returned
    ensures Alone(d, w, env) == (d, w)
  {
  }

  /** The state in which a call enters its `finally` block. */
  ghost predicate EntersFinally(d: Disk, e: Disk, w: Writer, env: Environment) {
    && Coherent(e, w) && ElseSame(d, e, w.path, w.temp)
    && (w.phase == if LeftOpen(env) then ClosingAgain else Removing)
    && (w.installed <==> Completes(env)) && (w.failed <==> !w.installed)
    && (w.installed ==> Leads(e.files, e.names, w.path, Some(w.data)) && e.names[w.path] >= |d.files|)
    && (!w.installed ==> SameEntry(e.names, d.names, w.path))
    && (w.temp in e.names <==> env(Opening).Done? && !w.installed)
  }

  lemma TryBlock(d: Disk, path: string, temp: string, data: Bytes, env: Environment) returns (e: Disk, w: Writer)
    requires temp !in d.names && temp != path
    ensures EntersFinally(d, e, w, env) && w.path == path && w.temp == temp && w.data == data
    ensures Alone(d, Begin(path, temp, data), env) == Alone(e, w, env)
  {
    hide Alone;
    e, w := d, Begin(path, temp, data);
    while w.phase !in {ClosingAgain, Removing}
      invariant Coherent(e, w) && w.path == path && w.temp == temp && w.data == data
      invariant Alone(d, Begin(path, temp, data), env) == Alone(e, w, env)
      invariant w.phase in {ClosingAgain, Removing} ==> EntersFinally(d, e, w, env)
      invariant w.phase !in {ClosingAgain, Removing} ==> InTry(d, e, w, env)
      decreases Rank(w.phase)
    {
      Unroll(e, w, env);
      TryStep(d, e, w, env);
      var r := Next(e, w, env(w.phase));
      e, w := r.0, r.1;
    }
  }

  lemma StillElseSame(d: Disk, e: Disk, w: Writer, o: Outcome)
    requires Coherent(e, w) && w.phase != Returned && ElseSame(d, e, w.path, w.temp)
    requires w.phase in {Writing, Flushing} ==> w.inode.value >= |d.files|
    ensures ElseSame(d, Next(e, w, o).0, w.path, w.temp)
  {
    var f := Next(e, w, o).0;
    forall name | name != w.path && name != w.temp
      ensures SameEntry(f.names, d.names, name)
    {
      assert SameEntry(e.names, d.names, name);
    }
  }

  lemma TryStep(d: Disk, e: Disk, w: Writer, env: Environment)
    requires InTry(d, e, w, env) && w.temp != w.path && w.temp !in d.names
    ensures var (f, x) := Next(e, w, env(w.phase));
      if x.phase in {ClosingAgain, Removing} then EntersFinally(d, f, x, env) else InTry(d, f, x, env)
  {
    var (f, x) := Next(e, w, env(w.phase));
    if env(w.phase).Done? {
      assert forall p :: Rank(p) > Rank(x.phase) && x.phase !in {ClosingAgain, Removing} ==>
        Rank(p) > Rank(w.phase) || p == w.phase;
      assert w.phase == Renaming ==> Completes(env) && !LeftOpen(env);
    } else {
      assert !Completes(env);
    }
    StillElseSame(d, e, w, env(w.phase));
  }

  /** The state between two operations of the `try` block. */
  ghost predicate InTry(d: Disk, e: Disk, w: Writer, env: Environment) {
    && w.phase in {Opening, Writing, Flushing, Closing, Renaming} && !w.failed && !w.installed
    && Coherent(e, w) && ElseSame(d, e, w.path, w.temp) && SameEntry(e.names, d.names, w.path)
    && (forall p :: Rank(p) > Rank(w.phase) ==> env(p).Done?)
    && (w.phase == Opening ==> w.temp !in e.names)
    && (w.phase != Opening ==> w.temp in e.names && e.names[w.temp] == w.inode.value && w.inode.value >= |d.files|)
    && (w.phase in {Flushing, Closing, Renaming} ==> e.files[w.inode.value].data == w.data)
  }

  /** The outcome of a call for every combination of faults. */
  lemma CallOutcome(d: Disk, path: string, temp: string, data: Bytes, env: Environment)
    requires temp !in d.names && temp != path
    ensures var (e, w) := Alone(d, Begin(path, temp, data), env);
      && (w.failed <==> !Completes(env) || env(Removing).Fault?)
      && (Completes(env) ==> Leads(e.files, e.names, path, Some(data)) && e.names[path] >= |d.files|)
      && (!Completes(env) ==> SameEntry(e.names, d.names, path))
      && (temp in e.names <==> LeavesTemp(env))
      && ElseSame(d, e, path, temp)
  {
    hide Alone;
    var e, w := TryBlock(d, path, temp, data, env);
    if w.phase == ClosingAgain {
      Unroll(e, w, env);
      var r := Next(e, w, env(ClosingAgain));
      e, w := r.0, r.1;
    }
    if w.phase == Removing {
      Unroll(e, w, env);
      StillElseSame(d, e, w, env(Removing));
      var r := Next(e, w, env(Removing));
      e, w := r.0, r.1;
    }
    Over(e, w, env);
  }

  /** The destination has the complete new contents and the temporary name is gone. */
  predicate Replaced(e: Disk, path: string, temp: string, data: Bytes) {
    Leads(e.files, e.names, path, Some(data)) && temp !in e.names
  }

  lemma NormalCall(d: Disk, path: string, temp: string, data: Bytes, env: Environment)
    requires temp !in d.names && temp != path
    ensures var (e, w) := Alone(d, Begin(path, temp, data), env); !w.failed ==> Replaced(e, path, temp, data)
  {
    hide Alone, Leads;
    CallOutcome(d, path, temp, data, env);
  }

  /** The temporary file stays behind when it was created, not renamed, and its removal failed or was never tried. */
  predicate LeavesTemp(env: Environment) {
    env(Opening).Done? && !Completes(env) && (env(Removing).Fault? || (LeftOpen(env) && env(ClosingAgain).Fault?))
  }

  /**
   * A failed call leaves the destination as it was except in one case: everything worked, the new contents
   * are in place, and only the removal of the temporary name, which no longer exists, reported an error.
   */
  lemma FailureKeepsOld(d: Disk, path: string, temp: string, data: Bytes, env: Environment)
    requires temp !in d.names && temp != path && (path in d.names ==> d.names[path] < |d.files|)
    ensures var (e, w) := Alone(d, Begin(path, temp, data), env);
      w.failed ==> (SameEntry(e.names, d.names, path) <==> !(Completes(env) && env(Removing).Fault?))
  {
    CallOutcome(d, path, temp, data, env);
  }

  /** A call without faults, worked out. */
  lemma NoFaults(d: Disk, path: string, temp: string, data: Bytes, env: Environment)
    requires temp !in d.names && temp != path && Completes(env) && env(Removing).Done?
    ensures var n, created := |d.files|, d.names[temp := |d.files|];
      Alone(d, Begin(path, temp, data), env)
      == (Disk((created - {temp})[path := n], d.files + [File(data, true)], d.past + [d.names] + [created]),
          Writer(path, temp, data, Returned, false, Some(n), true))
  {
    hide Alone, Next, Completes;
    AllDone(env);
    var e, w := d, Begin(path, temp, data);
    NextOpens(e, w, env(Opening));
    Unroll(e, w, env);
    var r := Next(e, w, env(Opening));
    NextWrites(r.0, r.1, env(Writing));
    Unroll(r.0, r.1, env);
    var r2 := Next(r.0, r.1, env(Writing));
    NextFlushes(r2.0, r2.1, env(Flushing));
    Unroll(r2.0, r2.1, env);
    var r3 := Next(r2.0, r2.1, env(Flushing));
    NextCloses(r3.0, r3.1, env(Closing));
    Unroll(r3.0, r3.1, env);
    var r4 := Next(r3.0, r3.1, env(Closing));
    NextRenames(r4.0, r4.1, env(Renaming));
    Unroll(r4.0, r4.1, env);
    var r5 := Next(r4.0, r4.1, env(Renaming));
    NothingToRemove(r5.0, r5.1, env);
    assert r5.0.files == d.files + [File(data, true)];
  }

  lemma AllDone(env: Environment)
    requires Completes(env)
    ensures env(Opening).Done? && env(Writing).Done? && env(Flushing).Done? && env(Closing).Done? && env(Renaming).Done?
  {
  }

  lemma NothingToRemove(d: Disk, w: Writer, env: Environment)
    requires w.phase == Removing && w.temp !in d.names && env(Removing).Done?
    ensures Coherent(d, w) && Alone(d, w, env) == (d, w.(phase := Returned))
  {
    Unroll(d, w, env);
    Over(d, w.(phase := Returned), env);
  }

  /**
   * A normal return does not yet make the new contents durable: the directory is never flushed, so a crash
   * may leave exactly the new contents or anything that it could have left before.
   */
  lemma CrashAfterReturn(d: Disk, path: string, temp: string, data: Bytes, env: Environment, bytes: Option<Bytes>)
    requires Ready(d, path, temp) && Completes(env) && env(Removing).Done?
    ensures var (e, w) := Alone(d, Begin(path, temp, data), env);
      !w.failed && (MaySurvive(e, path, bytes) <==> MaySurvive(d, path, bytes) || bytes == Some(data))
  {
    hide Alone;
    NoFaults(d, path, temp, data, env);
    var e := Alone(d, Begin(path, temp, data), env).0;
    var created := d.names[temp := |d.files|];
    forall dir | dir == d.names || dir in d.past
      ensures LeadsAfterCrash(d.files, dir, path, bytes) <==> LeadsAfterCrash(e.files, dir, path, bytes)
    {
      SameAfterCrash(d, e, dir, path, bytes);
    }
    assert LeadsAfterCrash(e.files, created, path, bytes) <==> LeadsAfterCrash(e.files, d.names, path, bytes);
    assert LeadsAfterCrash(e.files, e.names, path, bytes) <==> bytes == Some(data);
    assert forall dir :: dir in e.past <==> dir in d.past || dir == d.names || dir == created;
  }

  /** If the temporary name is taken after all, the call fails and removes the file it did not create. */
  lemma TakenNameIsRemoved(d: Disk, path: string, temp: string, data: Bytes, env: Environment)
    requires temp in d.names && env(Removing).Done?
    ensures var (e, w) := Alone(d, Begin(path, temp, data), env);
      w.failed && e.names == d.names - {temp} && e.files == d.files
  {
    hide Alone;
    var w := Begin(path, temp, data);
    Unroll(d, w, env);
    var r := Next(d, w, env(Opening));
    Unroll(r.0, r.1, env);
    var q := Next(r.0, r.1, env(Removing));
    Over(q.0, q.1, env);
  }

  // ---- The code -------------------------------------------------------------------------

  datatype Call = Call(disk: Disk, writer: Writer, env: Environment)

  /** The call has gone through the disks `seen` and is now at `d`, `w`. */
  ghost predicate OnTrack(c: Call, seen: seq<Disk>, d: Disk, w: Writer) {
    && Coherent(c.disk, c.writer) && Coherent(d, w)
    && Alone(c.disk, c.writer, c.env) == Alone(d, w, c.env)
    && Trail(c.disk, c.writer, c.env) == seen + Trail(d, w, c.env)
  }

  lemma Embark(c: Call)
    requires Coherent(c.disk, c.writer)
    ensures OnTrack(c, [], c.disk, c.writer)
  {
    hide Alone, Trail;
  }

  lemma Advance(c: Call, seen: seq<Disk>, d: Disk, w: Writer, e: Disk) returns (x: Writer, now: seq<Disk>)
    requires OnTrack(c, seen, d, w) && Coherent(d, w) && w.phase != Returned && e == Next(d, w, c.env(w.phase)).0
    ensures x == Next(d, w, c.env(w.phase)).1 && SameCall(w, x) && now == seen + [e] && OnTrack(c, now, e, x)
  {
    x, now := Next(d, w, c.env(w.phase)).1, seen + [e];
    Progress(d, w, c.env(w.phase));
    hide Next;
    assert Trail(d, w, c.env) == [e] + Trail(e, x, c.env);
    assert seen + ([e] + Trail(e, x, c.env)) == now + Trail(e, x, c.env);
  }

  lemma Arrive(c: Call, seen: seq<Disk>, d: Disk, w: Writer)
    requires OnTrack(c, seen, d, w) && w.phase == Returned
    ensures Coherent(c.disk, c.writer) && Alone(c.disk, c.writer, c.env) == (d, w)
    ensures Trail(c.disk, c.writer, c.env) == seen
  {
    Over(d, w, c.env);
    assert Trail(d, w, c.env) == [];
  }

  /** Error codes that the clean-up tells apart. */
  datatype UnlinkError = ENOENT | OtherCode

  class FileSystem {
    var disk: Disk
    ghost var trail: seq<Disk>

    /** open(name, "wx") */
    method OpenExclusive(name: string, o: Outcome) returns (inode: Option<nat>)
      modifies this
      ensures inode == if o.Done? && name !in old(disk).names then Some(|old(disk).files|) else None
      ensures disk == if inode.Some? then Created(old(disk), name) else old(disk)
      ensures trail == old(trail) + [disk]
    {
      inode := None;
      if o.Done? && name !in disk.names {
        inode := Some(|disk.files|);
        disk := Created(disk, name);
      }
      trail := trail + [disk];
    }

    method Write(inode: nat, data: Bytes, o: Outcome) returns (ok: bool)
      requires inode < |disk.files|
      modifies this
      ensures ok == o.Done?
      ensures disk == Stored(old(disk), inode, if ok then data else Prefix(data, o.written), false)
      ensures trail == old(trail) + [disk]
    {
      ok := o.Done?;
      disk := Stored(disk, inode, if ok then data else Prefix(data, o.written), false);
      trail := trail + [disk];
    }

    /** fsync */
    method Flush(inode: nat, o: Outcome) returns (ok: bool)
      requires inode < |disk.files|
      modifies this
      ensures ok == o.Done?
      ensures disk == if ok then Stored(old(disk), inode, old(disk).files[inode].data, true) else old(disk)
      ensures trail == old(trail) + [disk]
    {
      ok := o.Done?;
      if ok {
        disk := Stored(disk, inode, disk.files[inode].data, true);
      }
      trail := trail + [disk];
    }

    method Close(o: Outcome) returns (ok: bool)
      modifies this
      ensures ok == o.Done? && disk == old(disk) && trail == old(trail) + [disk]
    {
      ok := o.Done?;
      trail := trail + [disk];
    }

    method Rename(from: string, to: string, o: Outcome) returns (ok: bool)
      modifies this
      ensures ok == (o.Done? && from in old(disk).names)
      ensures disk == if ok then Renamed(old(disk), from, to) else old(disk)
      ensures trail == old(trail) + [disk]
    {
      ok := o.Done? && from in disk.names;
      if ok {
        disk := Renamed(disk, from, to);
      }
      trail := trail + [disk];
    }

    method Unlink(name: string, o: Outcome) returns (error: Option<UnlinkError>)
      modifies this
      ensures error == if o.Fault? then Some(OtherCode) else if name in old(disk).names then None else Some(ENOENT)
      ensures disk == if error == None then Removed(old(disk), name) else old(disk)
      ensures trail == old(trail) + [disk]
    {
      error := if o.Fault? then Some(OtherCode) else if name in disk.names then None else Some(ENOENT);
      if error == None {
        disk := Removed(disk, name);
      }
      trail := trail + [disk];
    }

    /** The `try` block: whether it threw, and the handle that is still open. */
    method TryWrite(path: string, temp: string, data: Bytes, env: Environment)
      returns (thrown: bool, file: Option<nat>, ghost w: Writer, ghost seen: seq<Disk>)
      modifies this
      ensures OnTrack(Call(old(disk), Begin(path, temp, data), env), seen, disk, w) && trail == old(trail) + seen
      ensures w.phase == (if file.Some? then ClosingAgain else Removing) && thrown == w.failed && w.temp == temp
      ensures Coherent(disk, w)
    {
      hide OnTrack, Next, Alone, Trail, Created, Stored, Renamed, Removed, Prefix;
      ghost var call, before := Call(disk, Begin(path, temp, data), env), disk;
      Embark(call);
      thrown, w, seen := true, call.writer, [];
      NextOpens(disk, w, env(Opening));
      file := OpenExclusive(temp, env(Opening));
      w, seen := Advance(call, seen, before, w, disk);
      assert trail == old(trail) + seen;
      if file.None? {
        return;
      }
      before := disk;
      NextWrites(disk, w, env(Writing));
      var ok := Write(file.value, data, env(Writing));
      w, seen := Advance(call, seen, before, w, disk);
      assert trail == old(trail) + seen;
      if !ok {
        return;
      }
      before := disk;
      NextFlushes(disk, w, env(Flushing));
      ok := Flush(file.value, env(Flushing));
      w, seen := Advance(call, seen, before, w, disk);
      assert trail == old(trail) + seen;
      if !ok {
        return;
      }
      before := disk;
      NextCloses(disk, w, env(Closing));
      ok := Close(env(Closing));
      w, seen := Advance(call, seen, before, w, disk);
      assert trail == old(trail) + seen;
      if !ok {
        return;
      }
      file := None;
      before := disk;
      NextRenames(disk, w, env(Renaming));
      ok := Rename(temp, path, env(Renaming));
      w, seen := Advance(call, seen, before, w, disk);
      assert trail == old(trail) + seen;
      thrown := !ok;
    }

    /**
     * atomicWriteFile and atomicWriteFileSync, which perform the same operations: the call ends as the
     * protocol does, by way of the same disks.
     */
    method AtomicWriteFile(path: string, temp: string, data: Bytes, env: Environment) returns (failed: bool)
      modifies this
      ensures var (d, w) := Alone(old(disk), Begin(path, temp, data), env); disk == d && failed == w.failed
      ensures trail == old(trail) + Trail(old(disk), Begin(path, temp, data), env)
      ensures temp !in old(disk).names && temp != path && !failed ==> Replaced(disk, path, temp, data)
    {
      hide OnTrack, Alone, Trail, Created, Stored, Renamed, Removed, Prefix;
      if temp !in disk.names && temp != path {
        NormalCall(disk, path, temp, data, env);
      }
      ghost var call := Call(disk, Begin(path, temp, data), env);
      var file;
      ghost var w, seen;
      failed, file, w, seen := TryWrite(path, temp, data, env);
      // finally
      ghost var before := disk;
      if file.Some? {
        var ok := Close(env(ClosingAgain));
        w, seen := Advance(call, seen, before, w, disk);
        if !ok {
          Arrive(call, seen, disk, w);
          return;
        }
      }
      before := disk;
      var error := Unlink(temp, env(Removing));
      w, seen := Advance(call, seen, before, w, disk);
      Arrive(call, seen, disk, w);
      failed := failed || (error.Some? && error.value != ENOENT);
    }
  }
}
