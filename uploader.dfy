/**
 * Uploader#upload (lib/logstash/outputs/s3/uploader.rb:43-74): one upload
 * attempt after another until an attempt succeeds, the file turns out to be
 * missing (ENOENT, never retried), or a failed attempt finds the retry budget
 * spent (`tries < retry_count` false).  Then the on_complete callback, when
 * given, is called exactly once with the file; an exception it raises is
 * re-raised.
 *
 * The remote store is an oracle: `outcomes[i]` is what attempt i reports.
 * When the oracle runs out while the source would still be retrying, the
 * run ends as StillRetrying: the source is then still inside its retry loop
 * and has not reached on_complete.  The sleep between attempts is not
 * modelled.
 *
 * The uploader's TemporaryFile has a key, a path and a ctime and a
 * four-argument constructor (uploader.rb:88), unlike temporary_file.rb's
 * two-argument class; UploadFile models the uploader's view.
 */
module Uploading {
  import opened Wrappers

  /** What one call of bucket.object(key).upload_file(path) does. */
  datatype Attempt = Success | Failure | NoSuchFile

  /** retry_count: Float::INFINITY by default, or a finite count. */
  datatype RetryLimit = Unbounded | AtMost(count: nat)

  /** The retry guard `tries < @retry_count`. */
  predicate MayRetry(limit: RetryLimit, tries: nat) {
    limit.Unbounded? || tries < limit.count
  }

  datatype LoopEnd = Succeeded | FileMissing | GaveUp | StillRetrying

  /** How the loop ended, how many attempts it made and the final value of `tries`. */
  datatype UploadRun = UploadRun(attempts: nat, tries: nat, end: LoopEnd)

  datatype UploadFile = UploadFile(key: string, path: string, ctime: real)

  /** What happened after the loop: the files on_complete was called with, and whether it raised. */
  datatype Completion = Completion(calledWith: seq<UploadFile>, raised: bool)

  /** Index of the first attempt that does not fail with a generic error (|outcomes| if none). */
  function FirstNonFailure(outcomes: seq<Attempt>): (k: nat)
    ensures k <= |outcomes|
    ensures forall i :: 0 <= i < k ==> outcomes[i] == Failure
    ensures k < |outcomes| ==> outcomes[k] != Failure
  {
    if outcomes == [] || outcomes[0] != Failure then 0 else 1 + FirstNonFailure(outcomes[1..])
  }

  /**
   * The reference behaviour, stated without the loop: every generic failure
   * before the first non-failure is retried as long as the budget allows.
   */
  function Expected(outcomes: seq<Attempt>, limit: RetryLimit): UploadRun
  {
    var k := FirstNonFailure(outcomes);
    if k < |outcomes| && (limit.Unbounded? || k <= limit.count) then
      UploadRun(k + 1, k, if outcomes[k] == Success then Succeeded else FileMissing)
    else if limit.AtMost? && limit.count < |outcomes| then
      UploadRun(limit.count + 1, limit.count, GaveUp)
    else
      UploadRun(|outcomes|, |outcomes|, StillRetrying)
  }

  /**
   * upload(file, options): the begin/rescue/retry loop and the on_complete
   * call.  `onComplete` is None when no callback is given, Some(raises)
   * otherwise.
   */
  method Upload(file: UploadFile, outcomes: seq<Attempt>, limit: RetryLimit, onComplete: Option<bool>)
    returns (run: UploadRun, completion: Completion)
    ensures run == Expected(outcomes, limit)
    ensures run.end == StillRetrying ==> completion == Completion([], false)
    ensures run.end != StillRetrying ==>
              completion.calledWith == (if onComplete.Some? then [file] else []) &&
              completion.raised == (onComplete == Some(true))
  {
    var tries: nat := 0;
    var attempts: nat := 0;
    var end := StillRetrying;
    while end == StillRetrying && attempts < |outcomes|
      invariant attempts <= |outcomes|
      invariant end == StillRetrying ==> tries == attempts
      invariant end == StillRetrying ==> forall i :: 0 <= i < attempts ==> outcomes[i] == Failure
      invariant end == StillRetrying && limit.AtMost? ==> tries <= limit.count
      invariant end != StillRetrying ==> UploadRun(attempts, tries, end) == Expected(outcomes, limit)
      decreases |outcomes| - attempts, if end == StillRetrying then 1 else 0
    {
      var outcome := outcomes[attempts];
      attempts := attempts + 1;
      match outcome
      case Success =>
        end := Succeeded;
      case NoSuchFile =>
        end := FileMissing;
      case Failure =>
        if MayRetry(limit, tries) {
          tries := tries + 1;
        } else {
          end := GaveUp;
        }
    }
    run := UploadRun(attempts, tries, end);
    if end == StillRetrying {
      completion := Completion([], false);
    } else {
      match onComplete
      case None =>
        completion := Completion([], false);
      case Some(raises) =>
        completion := Completion([file], raises);
    }
  }

  /** At most retry_count + 1 attempts, and `tries` never passes retry_count. */
  lemma AttemptsBounded(outcomes: seq<Attempt>, limit: RetryLimit)
    ensures Expected(outcomes, limit).attempts <= |outcomes|
    ensures limit.AtMost? ==> Expected(outcomes, limit).attempts <= limit.count + 1
    ensures limit.AtMost? ==> Expected(outcomes, limit).tries <= limit.count
  {
  }

  /** Every retry is one failure: when the loop ended, tries is attempts minus one and all earlier attempts failed. */
  lemma TriesCountRetries(outcomes: seq<Attempt>, limit: RetryLimit)
    ensures var r := Expected(outcomes, limit);
            r.end != StillRetrying ==>
              r.attempts >= 1 && r.tries == r.attempts - 1 &&
              (forall i :: 0 <= i < r.tries ==> outcomes[i] == Failure) &&
              (r.end == Succeeded ==> outcomes[r.tries] == Success) &&
              (r.end == FileMissing ==> outcomes[r.tries] == NoSuchFile) &&
              (r.end == GaveUp ==> outcomes[r.tries] == Failure && !MayRetry(limit, r.tries))
  {
  }

  /** The loop stops at the first success: a failure followed by a success is exactly two attempts. */
  lemma FailureThenSuccess(rest: seq<Attempt>, limit: RetryLimit)
    requires MayRetry(limit, 0)
    ensures Expected([Failure, Success] + rest, limit) == UploadRun(2, 1, Succeeded)
  {
    var o := [Failure, Success] + rest;
    assert o[0] == Failure && o[1] == Success;
    assert FirstNonFailure(o) == 1;
  }

  /** ENOENT is never retried: a missing file on the first attempt ends the loop at once. */
  lemma MissingNotRetried(rest: seq<Attempt>, limit: RetryLimit)
    ensures Expected([NoSuchFile] + rest, limit) == UploadRun(1, 0, FileMissing)
  {
    assert ([NoSuchFile] + rest)[0] == NoSuchFile;
  }

  /** With the default unbounded retry count the loop never gives up: it ends only on success or ENOENT. */
  lemma UnboundedNeverGivesUp(outcomes: seq<Attempt>)
    ensures Expected(outcomes, Unbounded).end in {Succeeded, FileMissing, StillRetrying}
    ensures Expected(outcomes, Unbounded).end == StillRetrying <==> forall i :: 0 <= i < |outcomes| ==> outcomes[i] == Failure
  {
  }

  /** Two failures and then a success with retry_count 5: on_complete runs once, after the third attempt. */
  method TwoFailuresThenSuccess(file: UploadFile) returns (run: UploadRun, completion: Completion)
    ensures run.attempts == 3 && run.end == Succeeded
    ensures completion.calledWith == [file] && !completion.raised
  {
    var o := [Failure, Failure, Success];
    assert FirstNonFailure(o) == 2;
    run, completion := Upload(file, o, AtMost(5), Some(false));
  }

  const GzipSuffix := ".gz"

  /**
   * encode_file's renaming (uploader.rb:81-88): key and path both gain ".gz".
   * The source does this with String#concat, which also changes the
   * original file's key and path strings in place; the model returns a new
   * value.  The compression itself is not modelled.
   */
  function EncodeFile(file: UploadFile): (encoded: UploadFile)
    ensures encoded.ctime == file.ctime
    ensures |encoded.key| == |file.key| + 3 && encoded.key[..|file.key|] == file.key
    ensures |encoded.path| == |file.path| + 3 && encoded.path[..|file.path|] == file.path
  {
    UploadFile(file.key + GzipSuffix, file.path + GzipSuffix, file.ctime)
  }

  /** Drops a trailing ".gz", the inverse of the renaming. */
  function StripGzip(s: string): string
  {
    if |s| >= 3 && s[|s| - 3..] == GzipSuffix then s[..|s| - 3] else s
  }

  lemma EncodeFileRoundTrip(file: UploadFile)
    ensures StripGzip(EncodeFile(file).key) == file.key
    ensures StripGzip(EncodeFile(file).path) == file.path
    ensures EncodeFile(file).key[|file.key|..] == GzipSuffix && EncodeFile(file).path[|file.path|..] == GzipSuffix
  {
    var e := EncodeFile(file);
    assert e.key[|e.key| - 3..] == GzipSuffix;
    assert e.path[|e.path| - 3..] == GzipSuffix;
  }
}
