/**
 * TemporaryFile (lib/logstash/outputs/s3/temporary_file.rb): a named file in
 * the temporary directory, opened in mode "w+" (created empty or truncated),
 * appended to by write and removed by delete!.
 *
 * The descriptor is not in sync mode, so a write first lands in the IO
 * object's write buffer; the runtime writes the buffer out when it decides
 * to (when it fills) and close flushes it.  The bytes that reached the file
 * are `flushed`, those still in the buffer `pending`.  Whether the runtime
 * writes the buffer out during a given write is a parameter.  `onDisk` says
 * whether the path is still on disk and `closed` whether the descriptor was
 * closed.  The write lock only serialises threads and is not modelled.
 */
module TempFiles {
  import opened Text
  import opened Wrappers

  type Bytes = seq<bv8>

  /** The Errno exceptions the file operations can raise. */
  datatype IoError = ClosedStream | NoSuchFile

  class TemporaryFile {
    const temporaryDirectory: string
    const name: string
    var flushed: Bytes
    var pending: Bytes
    var onDisk: bool
    var closed: bool

    /** Everything written through the descriptor, flushed or not. */
    ghost function Contents(): Bytes
      reads this
    {
      flushed + pending
    }

    /** A closed descriptor has nothing left in its buffer. */
    ghost predicate Valid()
      reads this
    {
      closed ==> pending == []
    }

    /** initialize: File.open(File.join(dir, name), "w+") creates or truncates the file. */
    constructor (temporaryDirectory: string, name: string)
      ensures this.temporaryDirectory == temporaryDirectory && this.name == name
      ensures flushed == [] && pending == [] && onDisk && !closed
      ensures Valid()
    {
      this.temporaryDirectory := temporaryDirectory;
      this.name := name;
      flushed := [];
      pending := [];
      onDisk := true;
      closed := false;
    }

    /** name: exactly the name given to the constructor. */
    method Name() returns (n: string)
      ensures n == name
    {
      n := name;
    }

    /** path: the descriptor's path, File.join(temporary_directory, name). */
    function Path(): (p: string)
      ensures '/' !in name ==> Basename(p) == name
    {
      var p := JoinPath(temporaryDirectory, name);
      assert '/' !in name ==> Basename(p) == name by {
        if '/' !in name { BasenameOfJoin(temporaryDirectory, name); }
      }
      p
    }

    /**
     * write(content): appends through the open descriptor, into the write
     * buffer; when `drains`, the runtime writes the whole buffer out to the
     * file during this write.  Writing to a closed descriptor raises IOError
     * and changes nothing.  A deleted but still open file keeps accepting
     * writes (the descriptor outlives the directory entry).
     */
    method Write(content: Bytes, drains: bool) returns (r: Result<nat, IoError>)
      requires Valid()
      modifies this`flushed, this`pending
      ensures Valid()
      ensures old(closed) ==> r == Err(ClosedStream) && flushed == old(flushed) && pending == old(pending)
      ensures !old(closed) ==> r == Ok(|content|) && Contents() == old(Contents()) + content
      ensures !old(closed) && drains ==> pending == []
      ensures !old(closed) && !drains ==> flushed == old(flushed)
    {
      if closed {
        r := Err(ClosedStream);
      } else {
        if drains {
          flushed := flushed + pending + content;
          pending := [];
        } else {
          pending := pending + content;
        }
        r := Ok(|content|);
      }
    }

    /** close: flushes the buffer and releases the descriptor.  Closing twice is harmless. */
    method Close()
      requires Valid()
      modifies this`closed, this`flushed, this`pending
      ensures Valid() && closed
      ensures flushed == old(Contents()) && pending == []
    {
      flushed := flushed + pending;
      pending := [];
      closed := true;
    }

    /**
     * size: File.size(path), the byte length of the file itself.  It reads
     * the path and does not flush, so bytes still in the buffer are not
     * counted; it works after close and raises ENOENT after delete!.
     */
    method Size() returns (r: Result<nat, IoError>)
      requires Valid()
      ensures onDisk ==> r == Ok(|flushed|)
      ensures onDisk ==> r.value <= |Contents()| && (closed ==> r.value == |Contents()|)
      ensures !onDisk ==> r == Err(NoSuchFile)
    {
      if onDisk {
        r := Ok(|flushed|);
      } else {
        r := Err(NoSuchFile);
      }
    }

    /** delete!: File.delete(path); a second call raises ENOENT. */
    method Delete() returns (r: Result<(), IoError>)
      modifies this`onDisk
      ensures !onDisk
      ensures r.Ok? <==> old(onDisk)
      ensures r.Err? ==> r.error == NoSuchFile
    {
      if onDisk {
        onDisk := false;
        r := Ok(());
      } else {
        r := Err(NoSuchFile);
      }
    }
  }

  /** The temporary-file test: a write then close leaves exactly the content, and size is positive. */
  method WriteCloseScenario(dir: string, name: string, content: Bytes, drains: bool) returns (f: TemporaryFile)
    requires |content| > 0
    ensures fresh(f)
    ensures f.flushed == content && f.closed && f.onDisk
    ensures f.name == name
  {
    f := new TemporaryFile(dir, name);
    var w := f.Write(content, drains);
    f.Close();
    var s := f.Size();
    assert s == Ok(|content|) && s.value > 0;
  }

  /** Before close, size misses what is still buffered: a write that did not drain reads as an empty file. */
  method BufferedSizeScenario(dir: string, name: string, content: Bytes) returns (before: nat, after: nat)
    ensures before == 0 && after == |content|
  {
    var f := new TemporaryFile(dir, name);
    var w := f.Write(content, false);
    var s1 := f.Size();
    before := s1.value;
    f.Close();
    var s2 := f.Size();
    after := s2.value;
  }

  /** The deletion test: after delete! the file is no longer on disk, and deleting again reports ENOENT. */
  method DeleteTwiceScenario(dir: string, name: string) returns (f: TemporaryFile, first: Result<(), IoError>, second: Result<(), IoError>)
    ensures fresh(f) && !f.onDisk
    ensures first.Ok? && second == Err(NoSuchFile)
  {
    f := new TemporaryFile(dir, name);
    first := f.Delete();
    second := f.Delete();
  }
}
