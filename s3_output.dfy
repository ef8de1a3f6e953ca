/**
 * The monolithic plugin (lib/logstash/outputs/s3.rb) as a state machine: the
 * current temporary file, the files of the temporary directory, the upload
 * queue and the bucket.  handle_event, the periodic rotation and one
 * upload-worker iteration are its transitions; threads are not modelled, so
 * every transition runs alone, and the environment (the host name, the
 * formatted time, whether an S3 write or a delete succeeds) is a parameter.
 *
 * Ghost variables record what happened so that no-loss can be stated:
 * `handled` is every encoded event written so far, `segments` every
 * temporary file this process created (in creation order) and `written` the
 * bytes this process wrote to each of them.
 */
module S3Plugin {
  import opened Text
  import opened Wrappers
  import opened S3Naming
  import SizeRotation

  type Bytes = seq<bv8>
  type Path = string

  /** An entry of @upload_queue: a file path, or LogStash::SHUTDOWN. */
  datatype QueueItem = File(path: Path) | Shutdown

  /** An object of the bucket: its key and its body. */
  datatype RemoteObject = RemoteObject(key: string, body: Bytes)

  /** The plugin's state as one value (the ghost parts included), so that its transitions are functions. */
  datatype Store = Store(tempfile: Path, disk: map<Path, Bytes>, queue: seq<QueueItem>, bucket: seq<RemoteObject>,
                         handled: Bytes, segments: seq<Path>, written: map<Path, Bytes>)

  /** The bytes under a path, empty when there are none. */
  function Lookup(m: map<Path, Bytes>, p: Path): Bytes {
    if p in m then m[p] else []
  }

  /** The queue entries for a list of paths, in the same order. */
  function Files(ps: seq<Path>): (q: seq<QueueItem>)
    ensures |q| == |ps| && forall i :: 0 <= i < |ps| ==> q[i] == File(ps[i])
  {
    if ps == [] then [] else [File(ps[0])] + Files(ps[1..])
  }

  lemma FilesMembership(ps: seq<Path>, p: Path)
    ensures File(p) in Files(ps) <==> p in ps
  {
    if p in ps {
      var i :| 0 <= i < |ps| && ps[i] == p;
      assert Files(ps)[i] == File(p);
    }
  }

  predicate Distinct<T(==)>(xs: seq<T>) {
    forall i, j :: 0 <= i < j < |xs| ==> xs[i] != xs[j]
  }

  /** No file path is queued twice (SHUTDOWN may be). */
  predicate FilesUnique(q: seq<QueueItem>) {
    forall i, j :: 0 <= i < j < |q| && q[i].File? ==> q[i] != q[j]
  }

  /** Appending an entry not yet queued (or SHUTDOWN) keeps the files unique. */
  lemma UniqueAppend(q: seq<QueueItem>, x: QueueItem)
    requires FilesUnique(q) && (x.File? ==> x !in q)
    ensures FilesUnique(q + [x])
  {
    var r := q + [x];
    forall i, j | 0 <= i < j < |r| && r[i].File? ensures r[i] != r[j] {
      if j < |q| {
        assert r[i] == q[i] && r[j] == q[j];
      } else {
        assert r[i] == q[i] && q[i] in q;
      }
    }
  }

  /** Dequeuing keeps the files unique, and the dequeued file is not queued again behind itself. */
  lemma UniqueTail(q: seq<QueueItem>)
    requires FilesUnique(q) && q != []
    ensures FilesUnique(q[1..])
    ensures q[0].File? ==> q[0] !in q[1..]
    ensures forall x :: x in q[1..] <==> x in q && (x != q[0] || x in q[1..])
  {
    forall i, j | 0 <= i < j < |q[1..]| && q[1..][i].File? ensures q[1..][i] != q[1..][j] {
      assert q[1..][i] == q[i + 1] && q[1..][j] == q[j + 1];
    }
    forall k | 0 <= k < |q[1..]| ensures q[0].File? ==> q[1..][k] != q[0] {
      assert q[1..][k] == q[k + 1];
    }
    forall x | x in q && x != q[0] ensures x in q[1..] {
      var k :| 0 <= k < |q| && q[k] == x;
      assert q[1..][k - 1] == x;
    }
  }

  /** The concatenation of the bytes written to each path, in the given order. */
  function Flatten(ps: seq<Path>, written: map<Path, Bytes>): Bytes
  {
    if ps == [] then [] else Flatten(ps[..|ps| - 1], written) + Lookup(written, ps[|ps| - 1])
  }

  /** The concatenation of the bytes on disk under each path, in the given order. */
  function DiskConcat(ps: seq<Path>, disk: map<Path, Bytes>): Bytes
  {
    if ps == [] then [] else DiskConcat(ps[..|ps| - 1], disk) + Lookup(disk, ps[|ps| - 1])
  }

  /** Flatten only looks at the listed paths. */
  lemma {:induction false} FlattenFrame(ps: seq<Path>, w1: map<Path, Bytes>, w2: map<Path, Bytes>)
    requires forall i :: 0 <= i < |ps| ==> Lookup(w1, ps[i]) == Lookup(w2, ps[i])
    ensures Flatten(ps, w1) == Flatten(ps, w2)
  {
    if ps != [] {
      FlattenFrame(ps[..|ps| - 1], w1, w2);
    }
  }

  lemma FilesSnoc(ps: seq<Path>, p: Path)
    ensures Files(ps + [p]) == Files(ps) + [File(p)]
  {
    assert |Files(ps + [p])| == |Files(ps) + [File(p)]|;
    forall i | 0 <= i < |ps| + 1 ensures Files(ps + [p])[i] == (Files(ps) + [File(p)])[i] {
      assert (ps + [p])[i] == if i < |ps| then ps[i] else p;
    }
  }

  /** When the disk holds exactly what was written, the two concatenations agree. */
  lemma {:induction false} FlattenIsDiskConcat(ps: seq<Path>, written: map<Path, Bytes>, disk: map<Path, Bytes>)
    requires forall i :: 0 <= i < |ps| ==> Lookup(disk, ps[i]) == Lookup(written, ps[i])
    ensures Flatten(ps, written) == DiskConcat(ps, disk)
  {
    if ps != [] {
      FlattenIsDiskConcat(ps[..|ps| - 1], written, disk);
    }
  }

  // ----- the no-loss invariant -----

  /** A finished file's bytes reached the bucket under its remote name (nothing to send if it is empty). */
  ghost predicate Delivered(s: Store, prefix: string, p: Path) {
    Lookup(s.written, p) == [] || RemoteObject(RemoteFilename(prefix, p), Lookup(s.written, p)) in s.bucket
  }

  /** A finished file is queued with its bytes intact on disk, or it was delivered. */
  ghost predicate Accounted(s: Store, prefix: string, p: Path) {
    && (File(p) in s.queue ==> p in s.disk && s.disk[p] == Lookup(s.written, p))
    && (File(p) !in s.queue ==> Delivered(s, prefix, p))
  }

  /** Every queued file is on disk: a file leaves the disk only once a worker has taken it off the queue. */
  ghost predicate QueuedOnDisk(s: Store) {
    forall p :: File(p) in s.queue ==> p in s.disk
  }

  /**
   * No event is lost: the handled events are the bytes written to the files,
   * in creation order; the last file is the current one and holds its bytes;
   * each earlier one is queued intact or already in the bucket; and every
   * queued file is on disk.
   */
  ghost predicate NoLoss(s: Store, prefix: string) {
    && |s.segments| > 0 && s.segments[|s.segments| - 1] == s.tempfile
    && Distinct(s.segments)
    && s.handled == Flatten(s.segments, s.written)
    && s.tempfile in s.disk && s.disk[s.tempfile] == Lookup(s.written, s.tempfile)
    && File(s.tempfile) !in s.queue
    && FilesUnique(s.queue)
    && QueuedOnDisk(s)
    && (forall i :: 0 <= i < |s.segments| - 1 ==> Accounted(s, prefix, s.segments[i]))
  }

  /** A path nothing refers to yet: not on disk, not queued, never used by this process. */
  ghost predicate Unused(s: Store, p: Path) {
    p !in s.disk && File(p) !in s.queue && p !in s.segments
  }

  // ----- transitions on values -----

  /**
   * The bytes a freshly opened temporary file starts with: File.open(path, "a")
   * keeps an existing file's bytes, Zlib::GzipWriter.open truncates.
   */
  function OpenedContents(disk: map<Path, Bytes>, p: Path, encoding: string): Bytes {
    if encoding == "gzip" then [] else Lookup(disk, p)
  }

  /** create_temporary_file at `p`: the previous file is closed (its bytes stay) and `p` becomes current. */
  function Opened(s: Store, p: Path, encoding: string): Store {
    s.(tempfile := p, disk := s.disk[p := OpenedContents(s.disk, p, encoding)],
       segments := s.segments + [p], written := s.written[p := []])
  }

  /** move_file_to_bucket_async: the path joins the end of the queue. */
  function Enqueued(s: Store, p: Path): Store {
    s.(queue := s.queue + [File(p)])
  }

  /** The rotation of handle_event and of the periodic timer: open `p`, then queue the previous file. */
  function Rotated(s: Store, p: Path, encoding: string): Store {
    Enqueued(Opened(s, p, encoding), s.tempfile)
  }

  /** write_to_tempfile: the event is appended to the current file. */
  function Appended(s: Store, event: Bytes): Store {
    s.(disk := s.disk[s.tempfile := Lookup(s.disk, s.tempfile) + event],
       written := s.written[s.tempfile := Lookup(s.written, s.tempfile) + event],
       handled := s.handled + event)
  }

  /** restore_from_crashes: the leftover files join the end of the queue, in order. */
  function Restored(s: Store, found: seq<Path>): Store {
    s.(queue := s.queue + Files(found))
  }

  /**
   * test_s3_write at path `p`: "test" is appended to the file, sent to the
   * bucket under the remote name when the write succeeds, and the file is
   * deleted either way.
   */
  function TestWritten(s: Store, prefix: string, p: Path, ok: bool): Store {
    s.(disk := s.disk - {p},
       bucket := s.bucket + if ok then [RemoteObject(RemoteFilename(prefix, p), Lookup(s.disk, p) + TestBody)] else [])
  }

  /** The delete step of move_file_to_bucket: ENOENT is only warned about, EACCES only logged. */
  function Deleted(s: Store, p: Path, deletePermitted: bool): (t: Store)
    ensures t.queue == s.queue && t.bucket == s.bucket && t.tempfile == s.tempfile
    ensures t.handled == s.handled && t.segments == s.segments && t.written == s.written
    ensures p !in t.disk <==> p !in s.disk || deletePermitted
    ensures forall q :: q != p ==> (q in t.disk <==> q in s.disk) && Lookup(t.disk, q) == Lookup(s.disk, q)
  {
    if p in s.disk && deletePermitted then s.(disk := s.disk - {p}) else s
  }

  /**
   * move_file_to_bucket(p): unless File.zero?(p) (an existing empty file), the
   * file is written to the bucket under the remote name, which raises when
   * the file is missing or the write fails; then the file is deleted.  The
   * second component says whether it raised; a raise changes nothing.
   */
  function MoveFile(s: Store, prefix: string, p: Path, uploadOk: bool, deletePermitted: bool): (r: (Store, bool))
    ensures var zero := p in s.disk && s.disk[p] == [];
            r.1 <==> !zero && (p !in s.disk || !uploadOk)
    ensures r.1 ==> r.0 == s
    ensures r.0.queue == s.queue && r.0.tempfile == s.tempfile
    ensures r.0.handled == s.handled && r.0.segments == s.segments && r.0.written == s.written
    ensures !r.1 && Lookup(s.disk, p) != [] ==> r.0.bucket == s.bucket + [RemoteObject(RemoteFilename(prefix, p), s.disk[p])]
    ensures Lookup(s.disk, p) == [] ==> r.0.bucket == s.bucket
    ensures forall q :: q != p ==> (q in r.0.disk <==> q in s.disk) && Lookup(r.0.disk, q) == Lookup(s.disk, q)
  {
    var zero := p in s.disk && s.disk[p] == [];
    if !zero && (p !in s.disk || !uploadOk) then
      (s, true)
    else if !zero then
      (Deleted(s.(bucket := s.bucket + [RemoteObject(RemoteFilename(prefix, p), s.disk[p])]), p, deletePermitted), false)
    else
      (Deleted(s, p, deletePermitted), false)
  }

  /**
   * One iteration of upload_worker.  An empty queue blocks the worker, which
   * the model shows as no step at all.  SHUTDOWN goes back on the queue for
   * the other workers and stops this one; a file is moved to the bucket, and
   * put back at the end of the queue when that raised.
   */
  function WorkerStep(s: Store, prefix: string, uploadOk: bool, deletePermitted: bool): (r: (Store, bool))
    ensures r.1 <==> s.queue == [] || s.queue[0].File?
    ensures r.0.tempfile == s.tempfile && r.0.handled == s.handled && r.0.segments == s.segments && r.0.written == s.written
    ensures s.queue != [] && s.queue[0] == Shutdown ==> r.0 == s.(queue := s.queue[1..] + [Shutdown])
    ensures |r.0.queue| <= |s.queue|
  {
    if s.queue == [] then (s, true)
    else match s.queue[0]
      case Shutdown => (s.(queue := s.queue[1..] + [Shutdown]), false)
      case File(p) =>
        var m := MoveFile(s.(queue := s.queue[1..]), prefix, p, uploadOk, deletePermitted);
        if m.1 then (m.0.(queue := m.0.queue + [File(p)]), true) else (m.0, true)
  }

  /** A failed upload loses nothing: the file goes to the back of the queue with the disk and the bucket unchanged. */
  lemma FailedUploadRequeued(s: Store, prefix: string, p: Path, deletePermitted: bool)
    requires s.queue != [] && s.queue[0] == File(p) && p in s.disk && s.disk[p] != []
    ensures WorkerStep(s, prefix, false, deletePermitted).0 == s.(queue := s.queue[1..] + [File(p)])
  {
  }

  /** A successful upload sends the file's bytes under prefix + basename, then removes the file from disk and queue. */
  lemma SuccessfulUploadDelivers(s: Store, prefix: string, p: Path)
    requires s.queue != [] && s.queue[0] == File(p) && p in s.disk && s.disk[p] != []
    ensures var t := WorkerStep(s, prefix, true, true).0;
            t.bucket == s.bucket + [RemoteObject(RemoteFilename(prefix, p), s.disk[p])] &&
            t.queue == s.queue[1..] && p !in t.disk
  {
  }

  /** An empty file is never uploaded, only deleted. */
  lemma EmptyFileNotUploaded(s: Store, prefix: string, p: Path, uploadOk: bool)
    requires s.queue != [] && s.queue[0] == File(p) && p in s.disk && s.disk[p] == []
    ensures var t := WorkerStep(s, prefix, uploadOk, true).0;
            t.bucket == s.bucket && t.queue == s.queue[1..] && p !in t.disk
  {
  }

  // ----- the transitions keep NoLoss -----

  /** Rotating to an unused path keeps every byte accounted for. */
  lemma RotatePreserves(s: Store, prefix: string, p: Path, encoding: string)
    requires NoLoss(s, prefix) && Unused(s, p)
    ensures NoLoss(Rotated(s, p, encoding), prefix)
    ensures Rotated(s, p, encoding).handled == s.handled
  {
    var t := Rotated(s, p, encoding);
    var n := |s.segments|;
    assert t.segments[..n] == s.segments;
    forall i | 0 <= i < n ensures Lookup(t.written, s.segments[i]) == Lookup(s.written, s.segments[i]) {
      assert s.segments[i] != p;
    }
    FlattenFrame(s.segments, t.written, s.written);
    assert Flatten(t.segments, t.written) == Flatten(s.segments, t.written) + Lookup(t.written, p);
    assert p != s.tempfile by { assert s.tempfile == s.segments[n - 1]; }
    forall i | 0 <= i < |t.segments| - 1 ensures Accounted(t, prefix, t.segments[i]) {
      var q := t.segments[i];
      assert q == s.segments[i] && q != p;
      if i < n - 1 {
        assert Accounted(s, prefix, q);
        assert q != s.tempfile;
        assert File(q) in t.queue <==> File(q) in s.queue;
      }
    }
    UniqueAppend(s.queue, File(s.tempfile));
  }

  /** Appending an event to the current file keeps every byte accounted for. */
  lemma AppendPreserves(s: Store, prefix: string, event: Bytes)
    requires NoLoss(s, prefix)
    ensures NoLoss(Appended(s, event), prefix)
  {
    var t := Appended(s, event);
    var n := |s.segments|;
    var init := s.segments[..n - 1];
    assert s.segments == init + [s.tempfile];
    forall i | 0 <= i < |init| ensures Lookup(t.written, init[i]) == Lookup(s.written, init[i]) {
      assert init[i] == s.segments[i] && s.segments[i] != s.segments[n - 1];
    }
    FlattenFrame(init, t.written, s.written);
    forall i | 0 <= i < n - 1 ensures Accounted(t, prefix, t.segments[i]) {
      assert s.segments[i] != s.tempfile;
      assert Accounted(s, prefix, s.segments[i]);
    }
  }

  /** SHUTDOWN joining the queue changes nothing about the files. */
  lemma ShutdownPreserves(s: Store, prefix: string)
    requires NoLoss(s, prefix)
    ensures NoLoss(s.(queue := s.queue + [Shutdown]), prefix)
  {
    var t := s.(queue := s.queue + [Shutdown]);
    forall i | 0 <= i < |s.segments| - 1 ensures Accounted(t, prefix, t.segments[i]) {
      assert Accounted(s, prefix, s.segments[i]);
    }
  }

  /** A raised move puts the file back at the end: the same files are queued, each once. */
  lemma RequeuePreserves(s: Store, prefix: string, p: Path)
    requires NoLoss(s, prefix) && s.queue != [] && s.queue[0] == File(p)
    ensures NoLoss(s.(queue := s.queue[1..] + [File(p)]), prefix)
  {
    var t := s.(queue := s.queue[1..] + [File(p)]);
    UniqueTail(s.queue);
    UniqueAppend(s.queue[1..], File(p));
    forall i | 0 <= i < |s.segments| - 1 ensures Accounted(t, prefix, t.segments[i]) {
      assert Accounted(s, prefix, s.segments[i]);
    }
  }

  /** SHUTDOWN taken off the queue and put back at its end. */
  lemma ShutdownRequeuePreserves(s: Store, prefix: string)
    requires NoLoss(s, prefix) && s.queue != [] && s.queue[0] == Shutdown
    ensures NoLoss(s.(queue := s.queue[1..] + [Shutdown]), prefix)
  {
    var t := s.(queue := s.queue[1..] + [Shutdown]);
    UniqueTail(s.queue);
    UniqueAppend(s.queue[1..], Shutdown);
    forall i | 0 <= i < |s.segments| - 1 ensures Accounted(t, prefix, t.segments[i]) {
      assert Accounted(s, prefix, s.segments[i]);
    }
  }

  /** A move that did not raise delivers the dequeued file and disturbs no other. */
  lemma DeliverPreserves(s: Store, prefix: string, p: Path, uploadOk: bool, deletePermitted: bool)
    requires NoLoss(s, prefix) && s.queue != [] && s.queue[0] == File(p)
    requires !MoveFile(s.(queue := s.queue[1..]), prefix, p, uploadOk, deletePermitted).1
    ensures NoLoss(MoveFile(s.(queue := s.queue[1..]), prefix, p, uploadOk, deletePermitted).0, prefix)
  {
    var s1 := s.(queue := s.queue[1..]);
    var t := MoveFile(s1, prefix, p, uploadOk, deletePermitted).0;
    UniqueTail(s.queue);
    assert s.queue[0] in s.queue;
    assert p != s.tempfile;
    forall i | 0 <= i < |s.segments| - 1 ensures Accounted(t, prefix, t.segments[i]) {
      var q := s.segments[i];
      assert Accounted(s, prefix, q);
    }
  }

  /** Every upload-worker iteration keeps every byte accounted for, whatever S3 and the file system do. */
  lemma WorkerPreserves(s: Store, prefix: string, uploadOk: bool, deletePermitted: bool)
    requires NoLoss(s, prefix)
    ensures NoLoss(WorkerStep(s, prefix, uploadOk, deletePermitted).0, prefix)
  {
    if s.queue != [] {
      match s.queue[0]
      case Shutdown =>
        ShutdownRequeuePreserves(s, prefix);
      case File(p) =>
        var s1 := s.(queue := s.queue[1..]);
        var m := MoveFile(s1, prefix, p, uploadOk, deletePermitted);
        if m.1 {
          assert m.0.(queue := m.0.queue + [File(p)]) == s.(queue := s.queue[1..] + [File(p)]);
          RequeuePreserves(s, prefix, p);
        } else {
          DeliverPreserves(s, prefix, p, uploadOk, deletePermitted);
        }
    }
  }

  /**
   * Register's starting point: nothing handled yet, the restored files queued
   * once each, and a current file at an unused path.
   */
  lemma RegisterEstablishes(s: Store, prefix: string, p: Path, encoding: string)
    requires s.segments == [] && s.handled == [] && FilesUnique(s.queue) && QueuedOnDisk(s)
    requires p !in s.disk
    ensures NoLoss(Opened(s, p, encoding), prefix)
  {
    var t := Opened(s, p, encoding);
    assert t.segments == [p];
    assert Flatten(t.segments, t.written) == Flatten([], t.written) + [];
  }

  /** Restored leftovers are queued once each when the glob lists each file once. */
  lemma RestoredQueueUnique(q: seq<QueueItem>, found: seq<Path>)
    requires FilesUnique(q) && Distinct(found)
    requires forall p :: p in found ==> File(p) !in q
    ensures FilesUnique(q + Files(found))
  {
    var r := q + Files(found);
    forall i, j | 0 <= i < j < |r| && r[i].File? ensures r[i] != r[j] {
      if j < |q| {
        assert r[i] == q[i] && r[j] == q[j];
      } else if i < |q| {
        assert r[j] == File(found[j - |q|]) && found[j - |q|] in found;
        assert r[i] == q[i] && q[i] in q;
      } else {
        assert r[i] == File(found[i - |q|]) && r[j] == File(found[j - |q|]);
      }
    }
  }

  /**
   * While no upload worker has taken a file yet, the queue holds the
   * restored leftovers and then this process's finished files in creation
   * order; their bytes on disk, followed by the current file's, are exactly
   * the handled events.
   */
  lemma QueuedThenCurrent(s: Store, prefix: string, restored: seq<Path>)
    requires NoLoss(s, prefix)
    requires s.queue == Files(restored) + Files(s.segments[..|s.segments| - 1])
    ensures DiskConcat(s.segments, s.disk) == s.handled
  {
    forall i | 0 <= i < |s.segments| - 1 ensures File(s.segments[i]) in s.queue {
      assert s.queue[|restored| + i] == File(s.segments[i]);
    }
    forall i | 0 <= i < |s.segments| ensures Lookup(s.disk, s.segments[i]) == Lookup(s.written, s.segments[i]) {
      if i < |s.segments| - 1 {
        assert Accounted(s, prefix, s.segments[i]);
      }
    }
    FlattenIsDiskConcat(s.segments, s.written, s.disk);
  }

  /** JoinPath keeps names apart within one directory. */
  lemma JoinPathInjective(dir: string, a: string, b: string)
    requires a != b
    ensures JoinPath(dir, a) != JoinPath(dir, b)
  {
    var pa, pb := JoinPath(dir, a), JoinPath(dir, b);
    var k := if |dir| > 0 && dir[|dir| - 1] == '/' then |dir| else |dir| + 1;
    assert pa[k..] == a && pb[k..] == b;
  }

  /** Temporary files of different pages never share a path, whatever the host and time of each. */
  lemma TempPathsDistinct(dir: string, tags: seq<string>, encoding: string,
                          h1: string, t1: string, m: nat, h2: string, t2: string, n: nat)
    requires m != n
    ensures JoinPath(dir, GetTemporaryFilename(h1, t1, tags, m, encoding)) != JoinPath(dir, GetTemporaryFilename(h2, t2, tags, n, encoding))
  {
    TemporaryFilenamesDistinct(h1, t1, tags, m, n, encoding, h2, t2);
    JoinPathInjective(dir, GetTemporaryFilename(h1, t1, tags, m, encoding), GetTemporaryFilename(h2, t2, tags, n, encoding));
  }

  /** Where page n's temporary file lives: File.join(temporary_directory, get_temporary_filename(n)). */
  function PagePath(dir: string, tags: seq<string>, encoding: string, host: string, time: string, n: nat): Path {
    JoinPath(dir, GetTemporaryFilename(host, time, tags, n, encoding))
  }

  /** The files a process created are its pages 0, 1, ..., each named with the host and time recorded for it. */
  ghost predicate PagedAs(segments: seq<Path>, stamps: seq<(string, string)>, dir: string, tags: seq<string>, encoding: string) {
    |segments| == |stamps| &&
    forall i :: 0 <= i < |segments| ==> segments[i] == PagePath(dir, tags, encoding, stamps[i].0, stamps[i].1, i)
  }

  /** The next page's path is none of the files already created, whatever host and time it is named with. */
  lemma NextPageNew(segments: seq<Path>, stamps: seq<(string, string)>, dir: string, tags: seq<string>, encoding: string,
                    host: string, time: string)
    requires PagedAs(segments, stamps, dir, tags, encoding)
    ensures PagePath(dir, tags, encoding, host, time, |segments|) !in segments
  {
    forall i | 0 <= i < |segments| ensures segments[i] != PagePath(dir, tags, encoding, host, time, |segments|) {
      TempPathsDistinct(dir, tags, encoding, stamps[i].0, stamps[i].1, i, host, time, |segments|);
    }
  }

  /** Creating the next page's file keeps the pages numbered. */
  lemma PagedSnoc(segments: seq<Path>, stamps: seq<(string, string)>, dir: string, tags: seq<string>, encoding: string,
                  host: string, time: string)
    requires PagedAs(segments, stamps, dir, tags, encoding)
    ensures PagedAs(segments + [PagePath(dir, tags, encoding, host, time, |segments|)], stamps + [(host, time)], dir, tags, encoding)
  {
    var segs, sts := segments + [PagePath(dir, tags, encoding, host, time, |segments|)], stamps + [(host, time)];
    forall i | 0 <= i < |segs| ensures segs[i] == PagePath(dir, tags, encoding, sts[i].0, sts[i].1, i) {
      if i < |segments| {
        assert segs[i] == segments[i] && sts[i] == stamps[i];
      } else {
        assert segs[i] == PagePath(dir, tags, encoding, host, time, |segments|) && sts[i] == (host, time);
      }
    }
  }

  /**
   * The queue as register and the rotations leave it: the restored
   * leftovers, then the finished files in creation order.
   */
  ghost predicate Ordered(s: Store, restored: seq<Path>) {
    |s.segments| > 0 && s.segments[|s.segments| - 1] == s.tempfile &&
    s.queue == Files(restored) + Files(s.segments[..|s.segments| - 1])
  }

  /** A rotation queues the file it finished behind the earlier ones. */
  lemma RotateKeepsOrder(s: Store, restored: seq<Path>, p: Path, encoding: string)
    requires Ordered(s, restored)
    ensures Ordered(Rotated(s, p, encoding), restored)
  {
    var n := |s.segments|;
    var t := Rotated(s, p, encoding);
    assert t.segments[..n] == s.segments;
    assert s.segments == s.segments[..n - 1] + [s.tempfile];
    FilesSnoc(s.segments[..n - 1], s.tempfile);
  }

  /** Rotating to a path that is neither on disk nor one of this process's files loses nothing. */
  lemma RotateToFreshPath(s: Store, prefix: string, p: Path, encoding: string)
    requires NoLoss(s, prefix) && p !in s.disk && p !in s.segments
    ensures NoLoss(Rotated(s, p, encoding), prefix)
  {
    assert File(p) !in s.queue;
    RotatePreserves(s, prefix, p, encoding);
  }

  /**
   * Register's start from a fresh plugin: with the glob's leftovers queued
   * once each and on disk, and the first file at a path not on disk, no
   * event can be lost and the queue is in creation order.
   */
  lemma StartEstablishes(s: Store, prefix: string, restore: bool, found: seq<Path>, p: Path, encoding: string)
    requires s.segments == [] && s.handled == [] && s.queue == [] && p !in s.disk
    requires restore ==> Distinct(found) && forall q :: q in found ==> q in s.disk
    ensures NoLoss(Opened(if restore then Restored(s, found) else s, p, encoding), prefix)
    ensures Ordered(Opened(if restore then Restored(s, found) else s, p, encoding), if restore then found else [])
  {
    var s1 := if restore then Restored(s, found) else s;
    assert FilesUnique(s1.queue) && QueuedOnDisk(s1) by {
      if restore {
        RestoredQueueUnique([], found);
        assert s1.queue == [] + Files(found);
        forall q | File(q) in s1.queue ensures q in s1.disk {
          FilesMembership(found, q);
        }
      }
    }
    RegisterEstablishes(s1, prefix, p, encoding);
    var t := Opened(s1, p, encoding);
    assert t.segments[..|t.segments| - 1] == [];
    if !restore {
      assert t.queue == Files([]) + Files([]);
    }
  }

  /** The test object's local name and its body, "test". */
  function TestObjectName(stamp: nat): string {
    "logstash-programmatic-access-test-object-" + NatToString(stamp)
  }

  const TestBody: Bytes := [0x74, 0x65, 0x73, 0x74]

  datatype RegisterError =
    | InvalidPrefix(error: ConfigurationError)  // LogStash::ConfigurationError
    | TestWriteFailed                           // LogStash::Error from write_on_bucket

  /** The plugin: its configuration, the current file, the temporary directory, the queue and the bucket. */
  class S3Output {
    const sizeFile: int
    const timeFile: int
    const tags: seq<string>
    const encoding: string
    const prefix: string
    const temporaryDirectory: string
    const restore: bool

    var pageCounter: nat
    var tempfile: Path
    var disk: map<Path, Bytes>
    var uploadQueue: seq<QueueItem>
    var bucket: seq<RemoteObject>

    ghost var handled: Bytes
    ghost var segments: seq<Path>
    ghost var written: map<Path, Bytes>
    /** The host name and formatted time each of `segments` was named with. */
    ghost var stamps: seq<(string, string)>
    /** The leftovers register queued from a previous run. */
    ghost var restored: seq<Path>

    ghost function Snapshot(): Store
      reads this
    {
      Store(tempfile, disk, uploadQueue, bucket, handled, segments, written)
    }

    /** A plugin that has not started: nothing created, handled or queued yet. */
    ghost predicate Fresh()
      reads this
    {
      segments == [] && stamps == [] && handled == [] && uploadQueue == []
    }

    /** The files this process created are its pages 0 .. page_counter, in that order. */
    ghost predicate Paged()
      reads this`segments, this`stamps, this`pageCounter
    {
      |segments| == pageCounter + 1 && PagedAs(segments, stamps, temporaryDirectory, tags, encoding)
    }

    /** No event lost, and the files named by consecutive pages. */
    ghost predicate Lossless()
      reads this
    {
      NoLoss(Snapshot(), prefix) && Paged()
    }

    /** The queue holds the leftovers, then the finished files in creation order. */
    ghost predicate InCreationOrder()
      reads this
    {
      Ordered(Snapshot(), restored)
    }

    /** The path of the temporary file for a page: File.join(temporary_directory, get_temporary_filename(n)). */
    function TempPath(host: string, time: string, n: nat): Path {
      PagePath(temporaryDirectory, tags, encoding, host, time, n)
    }

    /** The path of test_s3_write's file. */
    function TestPath(stamp: nat): Path {
      JoinPath(temporaryDirectory, TestObjectName(stamp))
    }

    /** The plugin before register: its configuration and the temporary directory's files. */
    constructor (sizeFile: int, timeFile: int, tags: seq<string>, encoding: string, prefix: string,
                 temporaryDirectory: string, restore: bool, disk: map<Path, Bytes>)
      ensures this.sizeFile == sizeFile && this.timeFile == timeFile && this.tags == tags
      ensures this.encoding == encoding && this.prefix == prefix
      ensures this.temporaryDirectory == temporaryDirectory && this.restore == restore
      ensures this.disk == disk && uploadQueue == [] && bucket == [] && pageCounter == 0 && tempfile == ""
      ensures handled == [] && segments == [] && written == map[] && stamps == [] && restored == []
      ensures Fresh()
    {
      this.sizeFile := sizeFile;
      this.timeFile := timeFile;
      this.tags := tags;
      this.encoding := encoding;
      this.prefix := prefix;
      this.temporaryDirectory := temporaryDirectory;
      this.restore := restore;
      this.disk := disk;
      uploadQueue := [];
      bucket := [];
      pageCounter := 0;
      tempfile := "";
      handled := [];
      segments := [];
      written := map[];
      stamps := [];
      restored := [];
    }

    /** next_page */
    method NextPage()
      modifies this`pageCounter
      ensures pageCounter == old(pageCounter) + 1
    {
      pageCounter := pageCounter + 1;
    }

    /** reset_page_counter */
    method ResetPageCounter()
      modifies this`pageCounter
      ensures pageCounter == 0
    {
      pageCounter := 0;
    }

    /**
     * tempfile_size: the current file's size.  File#size on the open file
     * counts what is still buffered; GzipWriter#tell counts the
     * uncompressed bytes, which is what the model stores.
     */
    function TempfileSize(): (n: nat)
      reads this
      ensures tempfile in disk ==> n == |disk[tempfile]|
      ensures tempfile !in disk ==> n == 0
    {
      |Lookup(disk, tempfile)|
    }

    /** rotate_events_log?: the same test as SizeRotationPolicy with max_size = size_file. */
    predicate RotateEventsLog(): (r: bool)
      reads this
      ensures r <==> SizeRotation.SizeRotationPolicy(sizeFile).Rotate(TempfileSize())
    {
      TempfileSize() > sizeFile
    }

    /** create_temporary_file: the file for the current page becomes the current file. */
    method CreateTemporaryFile(host: string, time: string)
      modifies this
      ensures tempfile == TempPath(host, time, pageCounter)
      ensures Snapshot() == Opened(old(Snapshot()), tempfile, encoding)
      ensures tempfile in disk && disk[tempfile] == OpenedContents(old(disk), tempfile, encoding)
      ensures pageCounter == old(pageCounter) && stamps == old(stamps) + [(host, time)] && restored == old(restored)
    {
      var p := TempPath(host, time, pageCounter);
      disk := disk[p := OpenedContents(disk, p, encoding)];
      tempfile := p;
      segments := segments + [p];
      written := written[p := []];
      stamps := stamps + [(host, time)];
    }

    /** move_file_to_bucket_async */
    method MoveFileToBucketAsync(p: Path)
      modifies this`uploadQueue
      ensures uploadQueue == old(uploadQueue) + [File(p)]
    {
      uploadQueue := uploadQueue + [File(p)];
    }

    /** write_to_tempfile: the event lands at the end of the current file. */
    method WriteToTempfile(event: Bytes)
      modifies this
      ensures Snapshot() == Appended(old(Snapshot()), event)
      ensures disk[tempfile] == old(Lookup(disk, tempfile)) + event
      ensures pageCounter == old(pageCounter) && stamps == old(stamps) && restored == old(restored)
    {
      disk := disk[tempfile := Lookup(disk, tempfile) + event];
      written := written[tempfile := Lookup(written, tempfile) + event];
      handled := handled + event;
    }

    /** next_page, create_temporary_file, then move_file_to_bucket_async of the previous file. */
    method SwitchFile(host: string, time: string)
      modifies this
      ensures pageCounter == old(pageCounter) + 1
      ensures tempfile == TempPath(host, time, pageCounter)
      ensures Snapshot() == Rotated(old(Snapshot()), tempfile, encoding)
      ensures uploadQueue == old(uploadQueue) + [File(old(tempfile))]
      ensures tempfile in disk && disk[tempfile] == OpenedContents(old(disk), tempfile, encoding)
      ensures stamps == old(stamps) + [(host, time)] && restored == old(restored)
    {
      var previous := tempfile;
      NextPage();
      CreateTemporaryFile(host, time);
      MoveFileToBucketAsync(previous);
    }

    /**
     * The rotation handle_event and the periodic timer share: the next
     * page's file becomes current and the finished one joins the queue.
     * No event is lost unless the next page's path is already on disk, and
     * the queue stays in creation order.
     */
    method RotateNow(host: string, time: string)
      modifies this
      ensures pageCounter == old(pageCounter) + 1
      ensures tempfile == TempPath(host, time, pageCounter)
      ensures Snapshot() == Rotated(old(Snapshot()), tempfile, encoding)
      ensures uploadQueue == old(uploadQueue) + [File(old(tempfile))]
      ensures tempfile in disk && disk[tempfile] == OpenedContents(old(disk), tempfile, encoding)
      ensures stamps == old(stamps) + [(host, time)] && restored == old(restored)
      ensures old(Lossless()) && old(TempPath(host, time, pageCounter + 1) !in disk) ==> Lossless()
      ensures old(InCreationOrder()) ==> InCreationOrder()
    {
      ghost var s0 := Snapshot();
      ghost var seg0, st0 := segments, stamps;
      ghost var next := TempPath(host, time, pageCounter + 1);
      ghost var wasLossless := Lossless() && next !in disk;
      ghost var wasOrdered := InCreationOrder();
      SwitchFile(host, time);
      if wasLossless {
        NextPageNew(seg0, st0, temporaryDirectory, tags, encoding, host, time);
        RotateToFreshPath(s0, prefix, next, encoding);
        PagedSnoc(seg0, st0, temporaryDirectory, tags, encoding, host, time);
      }
      if wasOrdered {
        RotateKeepsOrder(s0, restored, next, encoding);
      }
    }

    /**
     * handle_event: with size rotation on and the current file past
     * size_file, the next page's file becomes current and the full one is
     * queued; the event then goes to the current file.  No event is lost
     * unless the next page's path is already on disk.
     */
    method HandleEvent(event: Bytes, host: string, time: string) returns (rotated: bool)
      modifies this
      ensures rotated == RotationDue(sizeFile, old(TempfileSize()))
      ensures pageCounter == old(pageCounter) + (if rotated then 1 else 0)
      ensures rotated ==> tempfile == TempPath(host, time, pageCounter) &&
                          uploadQueue == old(uploadQueue) + [File(old(tempfile))] &&
                          Snapshot() == Appended(Rotated(old(Snapshot()), tempfile, encoding), event)
      ensures !rotated ==> Snapshot() == Appended(old(Snapshot()), event)
      ensures tempfile in disk &&
              disk[tempfile] == (if rotated then OpenedContents(old(disk), tempfile, encoding) else old(Lookup(disk, tempfile))) + event
      ensures handled == old(handled) + event && bucket == old(bucket)
      ensures old(Lossless()) && (rotated ==> old(TempPath(host, time, pageCounter + 1) !in disk)) ==> Lossless()
      ensures old(InCreationOrder()) ==> InCreationOrder()
    {
      rotated := WriteEventsToMultipleFiles(sizeFile) && RotateEventsLog();
      if rotated {
        RotateNow(host, time);
      }
      ghost var s1 := Snapshot();
      if Lossless() {
        AppendPreserves(s1, prefix, event);
      }
      WriteToTempfile(event);
      if old(InCreationOrder()) {
        assert segments == s1.segments && uploadQueue == s1.queue;
      }
    }

    /** move_file_to_bucket(p); `raised` says whether it raised. */
    method MoveFileToBucket(p: Path, uploadOk: bool, deletePermitted: bool) returns (raised: bool)
      modifies this`disk, this`bucket
      ensures (Snapshot(), raised) == MoveFile(old(Snapshot()), prefix, p, uploadOk, deletePermitted)
    {
      var zero := p in disk && disk[p] == [];
      if !zero && (p !in disk || !uploadOk) {
        raised := true;
        return;
      }
      if !zero {
        bucket := bucket + [RemoteObject(RemoteFilename(prefix, p), disk[p])];
      }
      raised := false;
      if p in disk && deletePermitted {
        disk := disk - {p};
      }
    }

    /** One iteration of upload_worker; `keepGoing` is the loop's `continue`.  No event is ever lost here. */
    method UploadWorker(uploadOk: bool, deletePermitted: bool) returns (keepGoing: bool)
      modifies this`disk, this`bucket, this`uploadQueue
      ensures (Snapshot(), keepGoing) == WorkerStep(old(Snapshot()), prefix, uploadOk, deletePermitted)
      ensures old(Lossless()) ==> Lossless()
    {
      ghost var s0 := Snapshot();
      ghost var wasLossless := Lossless();
      if uploadQueue == [] {
        keepGoing := true;
      } else {
        var item := uploadQueue[0];
        uploadQueue := uploadQueue[1..];
        match item
        case Shutdown =>
          uploadQueue := uploadQueue + [Shutdown];
          keepGoing := false;
        case File(p) =>
          var raised := MoveFileToBucket(p, uploadOk, deletePermitted);
          if raised {
            uploadQueue := uploadQueue + [File(p)];
          }
          keepGoing := true;
      }
      assert (Snapshot(), keepGoing) == WorkerStep(s0, prefix, uploadOk, deletePermitted);
      if wasLossless {
        WorkerPreserves(s0, prefix, uploadOk, deletePermitted);
        assert NoLoss(Snapshot(), prefix) && Paged();
      }
    }

    /** shutdown_upload_workers: SHUTDOWN joins the queue. */
    method ShutdownUploadWorkers()
      modifies this`uploadQueue
      ensures uploadQueue == old(uploadQueue) + [Shutdown]
      ensures old(Lossless()) ==> Lossless()
    {
      ghost var s0 := Snapshot();
      uploadQueue := uploadQueue + [Shutdown];
      if NoLoss(s0, prefix) {
        ShutdownPreserves(s0, prefix);
      }
    }

    /** restore_from_crashes: every leftover file the glob found is queued, in order. */
    method RestoreFromCrashes(found: seq<Path>)
      modifies this`uploadQueue
      ensures uploadQueue == old(uploadQueue) + Files(found)
    {
      var i := 0;
      while i < |found|
        invariant 0 <= i <= |found|
        invariant uploadQueue == old(uploadQueue) + Files(found[..i])
      {
        assert Files(found[..i + 1]) == Files(found[..i]) + [File(found[i])];
        MoveFileToBucketAsync(found[i]);
        i := i + 1;
      }
      assert found[..i] == found;
    }

    /**
     * test_s3_write: a test file with "test" in it is written to the bucket
     * under the prefix, and deleted whatever the outcome.
     */
    method TestS3Write(stamp: nat, uploadOk: bool) returns (ok: bool)
      modifies this`disk, this`bucket
      ensures ok == uploadOk
      ensures Snapshot() == TestWritten(old(Snapshot()), prefix, TestPath(stamp), ok)
      ensures TestPath(stamp) !in disk && forall q :: q != TestPath(stamp) ==> (q in disk <==> q in old(disk))
    {
      var p := TestPath(stamp);
      disk := disk[p := Lookup(disk, p) + TestBody];
      if uploadOk {
        bucket := bucket + [RemoteObject(RemoteFilename(prefix, p), disk[p])];
      }
      ok := uploadOk;
      disk := disk - {p};
    }

    /**
     * The rest of register once the checks passed: restore_from_crashes when
     * restore is set, reset_page_counter and create_temporary_file.  From a
     * fresh plugin whose first path is not on disk, and with the glob's
     * files on disk once each, no event can be lost and the queue is in
     * creation order.
     */
    method Start(host: string, time: string, found: seq<Path>)
      modifies this
      ensures pageCounter == 0 && tempfile == TempPath(host, time, 0)
      ensures Snapshot() == Opened(if restore then Restored(old(Snapshot()), found) else old(Snapshot()), tempfile, encoding)
      ensures stamps == old(stamps) + [(host, time)] && restored == (if restore then found else [])
      ensures old(Fresh()) && TempPath(host, time, 0) !in old(disk) &&
              (restore ==> Distinct(found) && forall p :: p in found ==> p in old(disk))
              ==> Lossless() && InCreationOrder()
    {
      ghost var s0 := Snapshot();
      ghost var wasFresh := Fresh();
      if restore {
        RestoreFromCrashes(found);
        restored := found;
      } else {
        restored := [];
      }
      ResetPageCounter();
      CreateTemporaryFile(host, time);
      if wasFresh && tempfile !in s0.disk && (restore ==> Distinct(found) && forall q :: q in found ==> q in s0.disk) {
        StartEstablishes(s0, prefix, restore, found, tempfile, encoding);
        PagedSnoc([], [], temporaryDirectory, tags, encoding, host, time);
        assert segments == [] + [tempfile] && stamps == [] + [(host, time)];
      }
    }

    /**
     * register: a prefix with an invalid character raises ConfigurationError
     * and changes nothing; a failed test write raises after the test file is
     * gone; otherwise the plugin starts.
     */
    method Register(host: string, time: string, stamp: nat, testUploadOk: bool, found: seq<Path>)
      returns (r: Result<(), RegisterError>)
      modifies this
      ensures r.Ok? <==> !PrefixRejected(prefix) && testUploadOk
      ensures PrefixRejected(prefix) ==>
                r == Err(InvalidPrefix(CheckPrefix(prefix).error)) && Snapshot() == old(Snapshot()) &&
                pageCounter == old(pageCounter)
      ensures !PrefixRejected(prefix) && !testUploadOk ==>
                r == Err(TestWriteFailed) && Snapshot() == TestWritten(old(Snapshot()), prefix, TestPath(stamp), false) &&
                pageCounter == old(pageCounter)
      ensures r.Ok? ==>
                pageCounter == 0 && tempfile == TempPath(host, time, 0) &&
                Snapshot() == Opened(if restore then Restored(TestWritten(old(Snapshot()), prefix, TestPath(stamp), true), found)
                                     else TestWritten(old(Snapshot()), prefix, TestPath(stamp), true), tempfile, encoding)
      ensures r.Ok? && old(Fresh()) && TempPath(host, time, 0) !in old(disk) &&
              (restore ==> Distinct(found) && forall p :: p in found ==> p in old(disk) && p != TestPath(stamp))
              ==> Lossless() && InCreationOrder()
    {
      var check := CheckPrefix(prefix);
      if check.Err? {
        return Err(InvalidPrefix(check.error));
      }
      ghost var ready := Fresh() && TempPath(host, time, 0) !in disk &&
                         (restore ==> Distinct(found) && forall p :: p in found ==> p in disk && p != TestPath(stamp));
      var tested := TestS3Write(stamp, testUploadOk);
      if !tested {
        return Err(TestWriteFailed);
      }
      ghost var s1 := Snapshot();
      assert ready ==> Fresh() && TempPath(host, time, 0) !in s1.disk &&
                       (restore ==> Distinct(found) && forall p :: p in found ==> p in s1.disk);
      Start(host, time, found);
      r := Ok(());
    }
  }

  /** After a register from an empty directory only the first file is on disk: the test file is gone. */
  lemma RegisteredDiskHoldsOnlyFirst(s: Store, prefix: string, t: Path, p: Path, q: Path, encoding: string)
    requires s.disk == map[] && q != p
    ensures q !in Opened(TestWritten(s, prefix, t, true), p, encoding).disk
  {
  }

  /**
   * Register from an empty temporary directory with size_file 1, then one
   * event: the event stays in page 0, nothing is queued, and the next page's
   * path is still free.
   */
  method FirstEventScenario(dir: string, host: string, time: string, event: Bytes) returns (o: S3Output)
    ensures fresh(o)
    ensures o.sizeFile == 1 && o.tags == [] && o.encoding == "gzip" && o.temporaryDirectory == dir
    ensures o.pageCounter == 0 && o.tempfile == o.TempPath(host, time, 0) && o.uploadQueue == []
    ensures o.tempfile in o.disk && o.disk[o.tempfile] == event && o.TempPath(host, time, 1) !in o.disk
    ensures o.Lossless() && o.InCreationOrder()
  {
    o := new S3Output(1, 0, [], "gzip", "", dir, false, map[]);
    ghost var s0 := o.Snapshot();
    var r := o.Register(host, time, 0, true, []);
    assert r.Ok?;
    assert o.uploadQueue == [] && o.tempfile == o.TempPath(host, time, 0);
    TempPathsDistinct(dir, [], "gzip", host, time, 1, host, time, 0);
    RegisteredDiskHoldsOnlyFirst(s0, "", o.TestPath(0), o.tempfile, o.TempPath(host, time, 1), "gzip");
    var first := o.HandleEvent(event, host, time);
    assert !first;
  }

  /**
   * The plugin's own rotation test: size_file 1 with one event already in the
   * current file; the next event rotates, queues the full file and starts
   * the next page with that event.  No event is lost and the queue holds
   * the full file.
   */
  method SizeRotationScenario(dir: string, host: string, time: string, event: Bytes) returns (o: S3Output)
    requires |event| > 1
    ensures fresh(o)
    ensures o.pageCounter == 1 && o.uploadQueue == [File(o.TempPath(host, time, 0))]
    ensures o.tempfile in o.disk && o.disk[o.tempfile] == event
    ensures o.Lossless() && o.InCreationOrder()
  {
    o := FirstEventScenario(dir, host, time, event);
    var second := o.HandleEvent(event, host, time);
    assert second;
  }
}
