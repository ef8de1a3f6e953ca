/**
 * The pure helpers of the monolithic plugin (lib/logstash/outputs/s3.rb):
 * temporary file names, their extension, the remote key, the S3 endpoint of
 * a region, the rotation period, the prefix check of register and the size
 * test of handle_event.  The host name and the formatted time are
 * parameters (Socket.gethostname and Time.now are not modelled).
 */
module S3Naming {
  import opened Text
  import opened Wrappers
  import PathValidation
  import FileFactory
  import SizeRotation
  import TimeRotation

  const TempfileExtension := "txt"
  const UsEast1 := "us-east-1"

  /** get_tempfile_extension: "txt.gz" under gzip encoding, "txt" otherwise. */
  function GetTempfileExtension(encoding: string): (ext: string)
    ensures ext == "txt.gz" <==> encoding == "gzip"
    ensures ext == "txt" <==> encoding != "gzip"
  {
    if encoding == "gzip" then TempfileExtension + ".gz" else TempfileExtension
  }

  /**
   * get_temporary_filename(page_counter):
   * ls.s3.<host>.<time>[.tag_<tags joined by '.'>].part<n>.<ext>; the page
   * counter can be read back from the name.
   */
  function GetTemporaryFilename(host: string, time: string, tags: seq<string>, pageCounter: nat, encoding: string): string
  {
    var filename := "ls.s3." + host + "." + time;
    var stem := if |tags| > 0 then filename + ".tag_" + Join(tags, ".") + ".part" else filename + ".part";
    stem + NatToString(pageCounter) + "." + GetTempfileExtension(encoding)
  }

  /** The page counter reads back from a temporary file's name. */
  lemma TemporaryFilenameParses(host: string, time: string, tags: seq<string>, pageCounter: nat, encoding: string)
    ensures FileFactory.ParsePart(GetTemporaryFilename(host, time, tags, pageCounter, encoding), GetTempfileExtension(encoding))
            == Some(pageCounter)
  {
    FilenameGenerationsAgree(host, time, tags, pageCounter, encoding);
  }

  /** The monolithic plugin and the later TemporaryFileFactory share one naming scheme. */
  lemma FilenameGenerationsAgree(host: string, time: string, tags: seq<string>, pageCounter: nat, encoding: string)
    ensures GetTempfileExtension(encoding) == FileFactory.Extension(encoding)
    ensures GetTemporaryFilename(host, time, tags, pageCounter, encoding)
            == FileFactory.GenerateName(host, time, tags, pageCounter, encoding)
  {
  }

  /** Different page counters always give different temporary file names. */
  lemma TemporaryFilenamesDistinct(host: string, time: string, tags: seq<string>, m: nat, n: nat, encoding: string,
                                   host': string, time': string)
    requires m != n
    ensures GetTemporaryFilename(host, time, tags, m, encoding) != GetTemporaryFilename(host', time', tags, n, encoding)
  {
    FilenameGenerationsAgree(host, time, tags, m, encoding);
    FilenameGenerationsAgree(host', time', tags, n, encoding);
    FileFactory.GeneratedNamesDistinct(host, time, tags, m, n, encoding, host', time', tags);
  }

  /** The remote key of write_on_bucket: the prefix followed by the file's base name. */
  function RemoteFilename(prefix: string, path: string): (key: string)
    ensures |key| >= |prefix| && key[..|prefix|] == prefix
  {
    prefix + Basename(path)
  }

  /** For a file of the temporary directory the remote key is the prefix followed by the file name; with no prefix, the local name. */
  lemma RemoteFilenameOfTempfile(prefix: string, dir: string, name: string)
    requires '/' !in name
    ensures RemoteFilename(prefix, JoinPath(dir, name)) == prefix + name
    ensures RemoteFilename("", JoinPath(dir, name)) == name
  {
    BasenameOfJoin(dir, name);
  }

  /** aws_service_endpoint: the global endpoint for us-east-1, the regional one otherwise. */
  function AwsServiceEndpoint(region: string): (endpoint: string)
    ensures region == UsEast1 ==> endpoint == "s3.amazonaws.com"
    ensures region != UsEast1 ==> |endpoint| == |region| + 17 && endpoint[..3] == "s3-" &&
                                  endpoint[3..|endpoint| - 14] == region && endpoint[|endpoint| - 14..] == ".amazonaws.com"
  {
    if region == UsEast1 then "s3.amazonaws.com" else "s3-" + region + ".amazonaws.com"
  }

  /** Different regions never share an endpoint. */
  lemma EndpointInjective(r1: string, r2: string)
    requires r1 != r2
    ensures AwsServiceEndpoint(r1) != AwsServiceEndpoint(r2)
  {
    var e1, e2 := AwsServiceEndpoint(r1), AwsServiceEndpoint(r2);
    if r1 != UsEast1 && r2 != UsEast1 {
      assert e1[3..|e1| - 14] == r1;
      assert e2[3..|e2| - 14] == r2;
    } else if r1 == UsEast1 {
      assert e1[2] == '.' && e2[2] == '-';
    } else {
      assert e2[2] == '.' && e1[2] == '-';
    }
  }

  lemma EndpointExamples()
    ensures AwsServiceEndpoint("us-east-1") == "s3.amazonaws.com"
    ensures AwsServiceEndpoint("sa-east-1") == "s3-sa-east-1.amazonaws.com"
  {
  }

  /** periodic_interval: time_file is in minutes, the timer runs in seconds. */
  function PeriodicInterval(timeFile: int): int
  {
    timeFile * 60
  }

  lemma MulMonotone(a: real, b: real, c: real)
    requires a <= b && c > 0.0
    ensures a * c <= b * c
  {
  }

  lemma DivTimes(a: real, b: real)
    requires b > 0.0
    ensures (a / b) * b == a
  {
  }

  lemma MulStrictMonotone(a: real, b: real, c: real)
    requires a < b && c > 0.0
    ensures a * c < b * c
  {
  }

  /**
   * The periodic rotation's schedule: Stud.interval with :sleep_then_run
   * first sleeps one interval, so the timer rotates at start + k * interval
   * for k = 1, 2, ...  The result is how many rotations the timer has done
   * by `now`.  The time the rotation itself takes is not modelled.
   */
  function TimerRuns(start: real, timeFile: int, now: real): (k: nat)
    requires timeFile > 0 && start <= now
    ensures (k as real) * PeriodicInterval(timeFile) as real <= now - start
    ensures now - start < (k as real + 1.0) * PeriodicInterval(timeFile) as real
  {
    var interval := PeriodicInterval(timeFile) as real;
    var q := (now - start) / interval;
    DivTimes(now - start, interval);
    var f := q.Floor as real;
    assert f <= q < f + 1.0;
    MulMonotone(f, q, interval);
    MulStrictMonotone(q, f + 1.0, interval);
    assert 0.0 <= q by {
      assert now - start >= 0.0 && interval > 0.0;
    }
    assert now - start < (f + 1.0) * interval;
    var k: nat := q.Floor;
    assert k as real == f;
    assert (k as real + 1.0) * interval == (f + 1.0) * interval;
    k
  }

  /**
   * The instant of the timer's last run by `now` (or `start` before the
   * first).  That run opened a new current file; size rotations after it
   * open newer ones, so no file current at `now` was opened before it.
   */
  function LastTimerRotation(start: real, timeFile: int, now: real): (t: real)
    requires timeFile > 0 && start <= now
    ensures start <= t <= now < t + PeriodicInterval(timeFile) as real
  {
    start + (TimerRuns(start, timeFile, now) as real) * PeriodicInterval(timeFile) as real
  }

  /**
   * With periodic rotation on, a file whose ctime is at or after the timer's
   * last run (every file current at `now`: later size rotations and writes
   * only move that instant forward) is less than one interval old, so the
   * TimeRotationPolicy with max_age = periodic_interval would not find it due.
   */
  lemma TimerKeepsFilesYoung(start: real, timeFile: int, now: real, ctime: real)
    requires timeFile > 0 && start <= now && LastTimerRotation(start, timeFile, now) <= ctime
    ensures now - ctime < PeriodicInterval(timeFile) as real
    ensures !TimeRotation.TimeRotationPolicy(PeriodicInterval(timeFile)).Rotate(ctime, now)
  {
  }

  /** S3_INVALID_CHARACTERS = /[\^`><]/ */
  predicate IsInvalidCharacter(c: char) {
    c in "^`><"
  }

  /** register's test `@prefix =~ S3_INVALID_CHARACTERS`. */
  predicate PrefixRejected(prefix: string) {
    exists i :: 0 <= i < |prefix| && IsInvalidCharacter(prefix[i])
  }

  /** The check in register and PathValidator.valid? use the same character class. */
  lemma PrefixCheckMatchesValidator(prefix: string)
    ensures PrefixRejected(prefix) <==> !PathValidation.Valid(prefix)
  {
    if PrefixRejected(prefix) {
      var i :| 0 <= i < |prefix| && IsInvalidCharacter(prefix[i]);
      assert PathValidation.InvalidChar(prefix[i]);
    }
  }

  datatype ConfigurationError = ConfigurationError(message: string)

  /** The prefix part of register: a ConfigurationError exactly when the prefix holds one of ^ ` > <. */
  function CheckPrefix(prefix: string): (r: Result<(), ConfigurationError>)
    ensures r.Err? <==> !PathValidation.Valid(prefix)
  {
    PrefixCheckMatchesValidator(prefix);
    if PrefixRejected(prefix) then Err(ConfigurationError("S3: prefix contains invalid characters")) else Ok(())
  }

  /** write_events_to_multiple_files?: size-based rotation is on exactly when some file size can trigger it. */
  predicate WriteEventsToMultipleFiles(sizeFile: int): (r: bool)
    ensures r <==> exists size: nat :: RotationDue(sizeFile, size)
  {
    assert sizeFile > 0 ==> RotationDue(sizeFile, sizeFile + 1);
    sizeFile > 0
  }

  /** handle_event's test: rotation on, and SizeRotationPolicy(size_file) says the current file must rotate. */
  predicate RotationDue(sizeFile: int, size: nat): (r: bool)
    ensures r <==> sizeFile > 0 && SizeRotation.SizeRotationPolicy(sizeFile).Rotate(size)
    ensures size <= sizeFile ==> !r
  {
    sizeFile > 0 && size > sizeFile
  }

  /** The test agrees with SizeRotationPolicy, and a file of exactly size_file bytes is not rotated. */
  lemma RotationDueIff(sizeFile: int, size: nat)
    ensures RotationDue(sizeFile, size) <==> sizeFile > 0 && SizeRotation.SizeRotationPolicy(sizeFile).Rotate(size)
    ensures size == sizeFile ==> !RotationDue(sizeFile, size)
    ensures sizeFile <= 0 ==> !RotationDue(sizeFile, size)
  {
  }

  /** The plugin's tests: size_file 1024 with sizes 2024001 and 100; size_file 200 and 0. */
  lemma RotationExamples()
    ensures RotationDue(1024, 2024001) && !RotationDue(1024, 100)
    ensures WriteEventsToMultipleFiles(200) && !WriteEventsToMultipleFiles(0)
  {
  }
}
