/**
 * FileRepository (lib/logstash/outputs/s3/file_repository.rb): a map from
 * prefix key to a PrefixedValue entry wrapping that key's file factory.
 * Entries are created on first use (Concurrent::Map#compute_if_absent) and a
 * sweeper pass drops the stale ones with delete_pair(k, v), which removes k
 * only while it still maps to that very entry.
 *
 * Everything runs as one sequential step: the map's atomicity, the entry
 * mutexes and the TimerTask that repeats the sweep are not modelled.  The
 * factory is seen only through its key and its current file; what a block
 * passed to get_factory/get_file does to them is one of the FactoryOp steps.
 * The clock is a parameter; instants are real numbers of seconds.
 */
module Repository {

  const DefaultSweeperIntervalSecs := 60
  const DefaultStaleTimeSecs := 15 * 60

  /**
   * A factory's current file: the key it belongs to, its part number, the
   * bytes that reached the file, the bytes still in the descriptor's write
   * buffer, and its File.ctime (the status-change time, which a flushed
   * write moves forward; see NonEmptyNeverStale for why stale? does not
   * depend on that).  File.size, and so stale?, sees only the flushed bytes.
   */
  datatype FileView = FileView(key: string, part: nat, flushed: nat, buffered: nat, ctime: real)

  /** What the caller's block does with the factory under the entry's lock. */
  datatype FactoryOp =
    | Inspect                           // only reads (factory.current, factory.current.path, ...)
    | WriteBytes(n: nat, drains: bool)  // factory.current.write(...) of n bytes; `drains` when the buffer is written out
    | Rotate(now: real)                 // factory.rotate!: a fresh empty file with the next part number

  /**
   * The file a new entry's factory starts with: part 0, empty, its ctime now.
   * (file_repository.rb:64 calls a four-argument TemporaryFileFactory.new,
   * while the factory class shown takes one settings object.)
   */
  function NewFile(key: string, now: real): FileView {
    FileView(key, 0, 0, 0, now)
  }

  /** The effect of a block on the factory's current file. */
  function ApplyOp(op: FactoryOp, f: FileView): (g: FileView)
    ensures g.key == f.key
    ensures op.WriteBytes? ==> g.part == f.part && g.flushed + g.buffered == f.flushed + f.buffered + op.n
    ensures op.WriteBytes? && !op.drains ==> g.flushed == f.flushed
    ensures op.Rotate? ==> g.part == f.part + 1 && g.flushed == 0 && g.buffered == 0
  {
    match op
    case Inspect => f
    case WriteBytes(n, drains) =>
      if drains then f.(flushed := f.flushed + f.buffered + n, buffered := 0) else f.(buffered := f.buffered + n)
    case Rotate(now) => FileView(f.key, f.part + 1, 0, 0, now)
  }

  /** stale?: File.size reads 0 and the file is strictly older than stale_time. */
  predicate IsStale(f: FileView, staleTime: int, now: real): (r: bool)
    ensures r ==> f.flushed == 0
    ensures now <= f.ctime + staleTime as real ==> !r
  {
    f.flushed == 0 && now - f.ctime > staleTime as real
  }

  /** A file with bytes on disk is never stale, however old. */
  lemma NonEmptyNeverStale(f: FileView, staleTime: int, now: real)
    requires f.flushed > 0
    ensures !IsStale(f, staleTime, now)
  {
  }

  /**
   * Bytes still in the write buffer do not protect a file: File.size reads
   * 0, so once old enough the entry is stale and the sweeper may drop it.
   */
  lemma BufferedOnlyCanBeStale(f: FileView, staleTime: int, later: real)
    requires f.flushed == 0 && f.buffered > 0 && later > f.ctime + staleTime as real
    ensures IsStale(f, staleTime, later)
  {
  }

  /** The age comparison is strict, and an empty file stays stale as time passes. */
  lemma StaleBoundary(f: FileView, staleTime: int, now: real, later: real)
    requires f.flushed == 0
    ensures !IsStale(f, staleTime, f.ctime + staleTime as real)
    ensures later > f.ctime + staleTime as real ==> IsStale(f, staleTime, later)
    ensures IsStale(f, staleTime, now) && now <= later ==> IsStale(f, staleTime, later)
  {
  }

  /** The PrefixedValue tests: stale_time 1; empty and 5s old, 200 bytes, a ctime 100s in the future. */
  lemma StaleExamples(key: string, now: real)
    ensures IsStale(FileView(key, 0, 0, 0, now - 5.0), 1, now)
    ensures !IsStale(FileView(key, 0, 200, 0, now - 5.0), 1, now)
    ensures !IsStale(FileView(key, 0, 0, 0, now + 100.0), 1, now)
  {
  }

  /** One entry of the map: the factory for `key` (seen through its current file) and the stale time. */
  class PrefixedValue {
    const key: string
    var current: FileView
    const staleTime: int

    constructor (key: string, now: real, staleTime: int)
      ensures this.key == key && current == NewFile(key, now) && this.staleTime == staleTime
    {
      this.key := key;
      current := NewFile(key, now);
      this.staleTime := staleTime;
    }

    /** stale? of this entry, read under its lock: its factory's current file. */
    predicate Stale(now: real): (r: bool)
      reads this
      ensures r <==> IsStale(current, staleTime, now)
      ensures r ==> current.flushed == 0
    {
      IsStale(current, staleTime, now)
    }

    /** with_lock { |factory| block }: the block's step applied to the factory. */
    method WithLock(op: FactoryOp)
      modifies this`current
      ensures current == ApplyOp(op, old(current))
    {
      current := ApplyOp(op, current);
    }
  }

  class FileRepository {
    var factories: map<string, PrefixedValue>
    const tags: seq<string>
    const encoding: string
    const temporaryDirectory: string
    const staleTime: int
    const sweeperInterval: int

    /** Each entry sits under its own key, its file belongs to that key, and it uses the repository's stale time. */
    ghost predicate Valid()
      reads this, factories.Values
    {
      forall k :: k in factories ==>
        factories[k].key == k && factories[k].current.key == k && factories[k].staleTime == staleTime
    }

    /** initialize: an empty map (the sweeper task it starts is not modelled). */
    constructor (tags: seq<string>, encoding: string, temporaryDirectory: string, staleTime: int, sweeperInterval: int)
      ensures Valid() && factories == map[]
      ensures this.staleTime == staleTime && this.sweeperInterval == sweeperInterval
      ensures this.tags == tags && this.encoding == encoding && this.temporaryDirectory == temporaryDirectory
    {
      factories := map[];
      this.tags := tags;
      this.encoding := encoding;
      this.temporaryDirectory := temporaryDirectory;
      this.staleTime := staleTime;
      this.sweeperInterval := sweeperInterval;
    }

    /**
     * get_factory(key) { |factory| block }: the existing entry for the key,
     * or a new one when absent, with the block applied under its lock.
     * Only that entry changes.
     */
    method GetFactory(key: string, now: real, op: FactoryOp) returns (entry: PrefixedValue)
      requires Valid()
      modifies this, factories.Values
      ensures Valid()
      ensures entry.key == key && key in factories && factories[key] == entry
      ensures key in old(factories) ==> entry == old(factories[key]) && factories == old(factories)
      ensures key !in old(factories) ==> fresh(entry) && factories == old(factories)[key := entry]
      ensures entry.current == ApplyOp(op, if key in old(factories) then old(factories[key].current) else NewFile(key, now))
      ensures forall k :: k in old(factories) && k != key ==> factories[k] == old(factories[k]) && factories[k].current == old(factories[k].current)
      ensures factories.Keys == old(factories.Keys) + {key}
      ensures |factories| == |old(factories)| + (if key in old(factories) then 0 else 1)
    {
      if key in factories {
        entry := factories[key];
      } else {
        entry := new PrefixedValue(key, now, staleTime);
        factories := factories[key := entry];
      }
      entry.WithLock(op);
    }

    /** get_file(key) { |file| block }: the block sees get_factory(key)'s current file. */
    method GetFile(key: string, now: real, appended: nat, drains: bool) returns (file: FileView)
      requires Valid()
      modifies this, factories.Values
      ensures Valid()
      ensures key in factories && file == factories[key].current && file.key == key
      ensures file == ApplyOp(WriteBytes(appended, drains), if key in old(factories) then old(factories[key].current) else NewFile(key, now))
      ensures key in old(factories) ==> factories == old(factories) && file.part == old(factories[key].current.part)
      ensures key !in old(factories) ==> factories.Keys == old(factories.Keys) + {key} && file.part == 0
      ensures file.flushed + file.buffered ==
              (if key in old(factories) then old(factories[key].current.flushed + factories[key].current.buffered) else 0) + appended
      ensures forall k :: k in old(factories) && k != key ==> factories[k] == old(factories[k]) && factories[k].current == old(factories[k].current)
    {
      var entry := GetFactory(key, now, WriteBytes(appended, drains));
      file := entry.current;
    }

    /** keys: the keys currently in the map. */
    method Keys() returns (ks: set<string>)
      ensures ks == factories.Keys
    {
      ks := factories.Keys;
    }

    /** size: the number of keys in the map. */
    method Size() returns (n: nat)
      ensures n == |factories.Keys|
    {
      n := |factories|;
    }

    /** each_files: the current file of every entry (the map's iteration order is unspecified). */
    method EachFiles() returns (files: set<FileView>)
      requires Valid()
      ensures forall k :: k in factories ==> factories[k].current in files
      ensures forall f :: f in files ==> f.key in factories && factories[f.key].current == f
    {
      files := set k | k in factories :: factories[k].current;
    }

    /** Concurrent::Map#delete_pair(key, entry): removes the key only while it still maps to that entry. */
    method DeletePair(key: string, entry: PrefixedValue) returns (removed: bool)
      requires Valid()
      modifies this
      ensures Valid()
      ensures removed == (key in old(factories) && old(factories[key]) == entry)
      ensures factories == if removed then old(factories) - {key} else old(factories)
    {
      removed := key in factories && factories[key] == entry;
      if removed {
        factories := factories - {key};
      }
    }

    /**
     * One pass of the stale sweeper: each_pair over the map, delete_pair(k, v)
     * when v is stale.  Exactly the stale entries go; the others stay as
     * they were, and no entry whose file has bytes on disk is dropped.
     */
    method Sweep(now: real)
      requires Valid()
      modifies this
      ensures Valid()
      ensures factories == map k | k in old(factories) && !old(factories)[k].Stale(now) :: old(factories)[k]
      ensures forall k :: k in old(factories) && old(factories)[k].current.flushed > 0 ==> k in factories
    {
      var snapshot := factories;
      var pending := factories.Keys;
      while pending != {}
        invariant pending <= snapshot.Keys
        invariant factories == map k | k in snapshot && (k in pending || !snapshot[k].Stale(now)) :: snapshot[k]
        decreases pending
      {
        var k :| k in pending;
        var v := snapshot[k];
        if v.Stale(now) {
          var removed := DeletePair(k, v);
        }
        pending := pending - {k};
      }
    }
  }

  /**
   * The set-up of the repository's "clean stale factories" test with stale
   * time 1: a key whose file was written and then rotated holds an empty
   * current file, and a second key's file got "hello", which left the
   * write buffer only when `drains` holds.
   */
  method TwoKeysScenario(now: real, drains: bool) returns (repo: FileRepository)
    ensures fresh(repo) && repo.Valid() && repo.factories.Keys == {"a-key", "another-prefix"}
    ensures repo.factories["a-key"].Stale(now + 2.0)
    ensures repo.factories["another-prefix"].Stale(now + 2.0) <==> !drains
  {
    repo := new FileRepository(["secret", "service"], "none", "/tmp/s3", 1, 1);
    var e1 := repo.GetFactory("a-key", now, WriteBytes(5, false));
    var e2 := repo.GetFactory("a-key", now, Rotate(now));
    assert e2.current == FileView("a-key", 1, 0, 0, now);
    var f := repo.GetFile("another-prefix", now, 5, drains);
    assert repo.factories.Keys == {"a-key", "another-prefix"};
  }

  /**
   * The repository's "clean stale factories" test: one sweep two seconds
   * later keeps the second key only when its bytes left the write buffer;
   * otherwise File.size still reads 0 and both keys go.
   */
  method CleanStaleScenario(now: real, drains: bool) returns (repo: FileRepository)
    ensures fresh(repo) && repo.factories.Keys == if drains then {"another-prefix"} else {}
  {
    repo := TwoKeysScenario(now, drains);
    repo.Sweep(now + 2.0);
  }
}
