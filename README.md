# Logstash S3 output plugin — a Dafny model

This project models the core of the Logstash S3 output plugin. The plugin
appends encoded events to a local temporary file and rotates that file by
size or by time. It queues each finished file for upload, and upload
workers send queued files to an S3 bucket and then delete them.

The source contains two generations of the code, and both are modelled:

- **The monolithic plugin** (`lib/logstash/outputs/s3.rb`). It is modelled as the class
  `S3Plugin.S3Output` and its state is:
  - the page counter;
  - the current temporary file;
  - the temporary directory, as a map from path to bytes;
  - the upload queue (file paths and the SHUTDOWN sentinel);
  - the bucket.

  `handle_event`, the rotation it shares with the periodic timer, one upload-worker iteration, `register` and the helpers they call are its methods. Each
  transition is also a function on a `Store` value. The main result is a
  no-loss invariant (`S3Plugin.NoLoss`): the handled events are exactly the bytes of the temporary files, in
  creation order. The last file is the current one, and every earlier one is either still queued
  with its bytes intact on disk or already in the bucket.
  - Appending an event, every upload-worker iteration and queueing SHUTDOWN keep the invariant unconditionally.
  - A rotation keeps it unless the next page's path is already on disk. The files of this run can never collide: a ghost record of the host and time each page was named with shows that the next page's name is new (`S3Plugin.NextPageNew`).
  - `register` establishes it from a fresh plugin whose first path is not on disk.

  While no worker has taken a file, the queue is the restored leftovers followed by the finished files in creation order (`S3Plugin.Ordered`).
  The pure helpers (file names, extension, remote key, endpoint, rotation period, prefix check) are in `S3Naming`.
- **The newer components** (`lib/logstash/outputs/s3/*.rb`):
  - `TemporaryFile`: a class over its bytes, split into the bytes in the file and the bytes still in Ruby's write buffer, with on-disk and closed flags.
  - `TemporaryFileFactory`: a class with the part counter, plus the pure naming scheme.
  - The size and time rotation policies.
  - `PathValidator`.
  - `FileRepository`: a map from prefix key to a `PrefixedValue` entry, with one stale sweep.
  - `Uploader#upload`: a retry loop over an oracle of attempt outcomes, proved against a reference function.

The host name, the formatted time and the clock are parameters. So are the
outcome of every S3 write and file deletion, and whether Ruby's IO buffer is
written out during a write. Instants are real numbers of seconds, since the
difference of two Ruby `Time` values is a fractional number of seconds.

## Model

| member | source | states |
|---|---|---|
| PathValidation.Valid | lib/logstash/outputs/s3/path_validator.rb:6-10 | a name is valid exactly when none of its characters is `^`, `` ` ``, `>` or `<` |
| PathValidation.InvalidIffWitness | lib/logstash/outputs/s3/path_validator.rb:8-10 | a name is invalid iff some position holds one of the four characters |
| PathValidation.EmptyIsValid | lib/logstash/outputs/s3/path_validator.rb:9 | the empty name is valid |
| PathValidation.ValidConcat | lib/logstash/outputs/s3/path_validator.rb:9 | a concatenation is valid iff both parts are |
| PathValidation.RegisterTestPrefixInvalid | spec/outputs/s3_spec.rb:57-67 | the prefix of the register test is invalid |
| SizeRotation.SizeRotationPolicy.Rotate | lib/logstash/outputs/s3/size_rotation_policy.rb:12-14 | rotate when the size exceeds max_size, never at or below it |
| SizeRotation.RotateIff | lib/logstash/outputs/s3/size_rotation_policy.rb:12-14 | rotate iff the size is strictly greater than max_size; a file of exactly max_size bytes stays |
| SizeRotation.RotateMonotone | lib/logstash/outputs/s3/size_rotation_policy.rb:13 | if a size rotates, every larger size rotates |
| SizeRotation.RotateExamples | spec/outputs/s3/size_rotation_policy_spec.rb:20-27 | with max_size 10 an empty file stays and a 5000-byte file rotates |
| TimeRotation.TimeRotationPolicy.Rotate | lib/logstash/outputs/s3/time_rotation_policy.rb:12-14 | due iff now minus the file's `File.ctime` (on Unix its status-change time, which every write reaching the file moves forward) is at least max_age |
| TimeRotation.RotateBoundary | lib/logstash/outputs/s3/time_rotation_policy.rb:12-14 | the age test is inclusive: age exactly max_age rotates, any younger age does not |
| TimeRotation.RotateMonotone | lib/logstash/outputs/s3/time_rotation_policy.rb:13 | once due, a file stays due at every later instant |
| TimeRotation.RotateFreshAndOld | spec/outputs/s3/time_rotation_policy_spec.rb:21-28 | with positive max_age a file checked at the instant of its ctime stays, and is due after twice max_age |
| TempFiles.TemporaryFile.constructor | lib/logstash/outputs/s3/temporary_file.rb:12-18 | a new file keeps the given directory and name, is on disk, open, and empty (mode "w+" truncates) |
| TempFiles.TemporaryFile.Name | lib/logstash/outputs/s3/temporary_file.rb:10-15 | name is exactly the constructor's name |
| TempFiles.TemporaryFile.Path | lib/logstash/outputs/s3/temporary_file.rb:13-22 | the path's base name is the file's name (for a name without '/') |
| TempFiles.TemporaryFile.Write | lib/logstash/outputs/s3/temporary_file.rb:24-26 | an open file gets the content appended after all earlier bytes and reports its length; the bytes reach the file only when the buffer is written out, otherwise the file itself is unchanged; a closed one raises and changes nothing |
| TempFiles.TemporaryFile.Close | lib/logstash/outputs/s3/temporary_file.rb:28-30 | afterwards the file is closed and holds every byte written, with nothing left in the buffer (closing twice is harmless) |
| TempFiles.TemporaryFile.Size | lib/logstash/outputs/s3/temporary_file.rb:32-34 | the length of the file itself while the path exists: at most the bytes written, and all of them once closed; ENOENT once deleted |
| TempFiles.TemporaryFile.Delete | lib/logstash/outputs/s3/temporary_file.rb:40-42 | afterwards the path is gone; it succeeds iff the path existed, otherwise ENOENT |
| TempFiles.WriteCloseScenario | spec/outputs/s3/temporary_file_spec.rb:21-37 | write then close leaves exactly the content on disk, with a positive size |
| TempFiles.BufferedSizeScenario | lib/logstash/outputs/s3/temporary_file.rb:24-34 | a write that stays in the buffer reads as size 0, and after close the size is the content's length |
| TempFiles.DeleteTwiceScenario | spec/outputs/s3/temporary_file_spec.rb:27-31 | after delete! the file is gone and a second delete! reports ENOENT |
| FileFactory.CurrentTime | lib/logstash/outputs/s3/temporary_file_factory.rb:36-38 | the time part has at least 16 characters, all digits or "-", "T", "." |
| FileFactory.PadRoundTrip | lib/logstash/outputs/s3/temporary_file_factory.rb:12 | a zero-padded strftime field reads back as the number it renders |
| FileFactory.CurrentTimeShape | lib/logstash/outputs/s3/temporary_file_factory.rb:12-38 | the time part ignores seconds, has 16 characters laid out YYYY-MM-DDTHH.MM, and reads back to its year and minute |
| FileFactory.Extension | lib/logstash/outputs/s3/temporary_file_factory.rb:24-30 | "txt.gz" iff the encoding is gzip, "txt" otherwise |
| FileFactory.NameLayout | lib/logstash/outputs/s3/temporary_file_factory.rb:40-47 | a name starts with ls.s3.<host>.<time>, followed by .tag_<tags joined by '.'> when there are tags and by .part straight away when there are none |
| FileFactory.GenerateName | lib/logstash/outputs/s3/temporary_file_factory.rb:40-48 | the part number can be read back from every generated name |
| FileFactory.GeneratedNamesDistinct | lib/logstash/outputs/s3/temporary_file_factory.rb:40-48 | different counters give different names, whatever the host, time and tags |
| FileFactory.GenerateNameAsWrittenAlwaysRaises | lib/logstash/outputs/s3/temporary_file_factory.rb:43-47 | as written, both branches of generate_name raise NameError |
| FileFactory.TemporaryFileFactory.constructor | lib/logstash/outputs/s3/temporary_file_factory.rb:16-22 | the counter starts at 0 and the settings are copied |
| FileFactory.TemporaryFileFactory.IncrementCounter | lib/logstash/outputs/s3/temporary_file_factory.rb:32-34 | the counter goes up by exactly one |
| FileFactory.TemporaryFileFactory.Filename | lib/logstash/outputs/s3/temporary_file_factory.rb:50-52 | the path's base name is the generated name |
| FileFactory.TemporaryFileFactory.Get | lib/logstash/outputs/s3/temporary_file_factory.rb:62-66 | a fresh empty file named with the current counter, the counter then one higher, and no later counter can produce that name again |
| Repository.IsStale | lib/logstash/outputs/s3/file_repository.rb:28-30 | stale only when the file reads as empty on disk, and never before stale_time has passed |
| Repository.NonEmptyNeverStale | lib/logstash/outputs/s3/file_repository.rb:28-30 | an entry whose current file has bytes in the file itself is never stale, however old |
| Repository.BufferedOnlyCanBeStale | lib/logstash/outputs/s3/file_repository.rb:28-30 | a file whose bytes are all still buffered reads as empty, so it is stale once old enough |
| Repository.StaleBoundary | lib/logstash/outputs/s3/file_repository.rb:28-30 | the age comparison is strict, and an empty file that is stale stays stale later |
| Repository.StaleExamples | spec/outputs/s3/file_repository_spec.rb:100-124 | stale time 1: empty and 5 s old is stale; 200 bytes, or a ctime in the future, is not |
| Repository.PrefixedValue.constructor | lib/logstash/outputs/s3/file_repository.rb:16-20 | an entry holds its key, a new factory's first file and the stale time |
| Repository.PrefixedValue.Stale | lib/logstash/outputs/s3/file_repository.rb:28-30 | the entry is stale iff its factory's current file is, which needs an empty file on disk |
| Repository.PrefixedValue.WithLock | lib/logstash/outputs/s3/file_repository.rb:22-26 | the block's step is applied to the entry's factory |
| Repository.FileRepository.constructor | lib/logstash/outputs/s3/file_repository.rb:33-48 | the map starts empty with the given settings |
| Repository.FileRepository.GetFactory | lib/logstash/outputs/s3/file_repository.rb:63-66 | an existing key returns its own entry and leaves the map as it was; a missing key adds exactly one fresh entry; no other entry changes |
| Repository.FileRepository.GetFile | lib/logstash/outputs/s3/file_repository.rb:68-70 | the block sees the key's current file (part 0 for a new key) |
| Repository.FileRepository.Keys | lib/logstash/outputs/s3/file_repository.rb:52-54 | exactly the keys in the map |
| Repository.FileRepository.Size | lib/logstash/outputs/s3/file_repository.rb:76-78 | the number of keys in the map |
| Repository.FileRepository.EachFiles | lib/logstash/outputs/s3/file_repository.rb:56-60 | exactly the current file of every entry |
| Repository.FileRepository.DeletePair | lib/logstash/outputs/s3/file_repository.rb:85 | removes the key iff it still maps to that very entry |
| Repository.FileRepository.Sweep | lib/logstash/outputs/s3/file_repository.rb:84-86 | exactly the stale entries go, the others stay unchanged, and no entry whose file has bytes on disk is removed |
| Repository.TwoKeysScenario | spec/outputs/s3/file_repository_spec.rb:80-89 | after a write and a rotate on one key and a write on another, two seconds later the first is stale and the second is stale iff its bytes are still buffered |
| Repository.CleanStaleScenario | spec/outputs/s3/file_repository_spec.rb:80-91 | one sweep leaves only the other key when its bytes left the buffer, and no key otherwise |
| Uploading.FirstNonFailure | lib/logstash/outputs/s3/uploader.rb:47-62 | every attempt before the index failed generically; the one at the index did not |
| Uploading.Upload | lib/logstash/outputs/s3/uploader.rb:43-74 | the loop ends exactly as the reference behaviour says; on_complete, when given, is called once with the file after the loop (also after ENOENT or giving up), and an exception it raises is re-raised |
| Uploading.AttemptsBounded | lib/logstash/outputs/s3/uploader.rb:46-66 | at most retry_count + 1 attempts, and tries never exceeds retry_count |
| Uploading.TriesCountRetries | lib/logstash/outputs/s3/uploader.rb:58-62 | tries is the number of retried failures, and the loop gives up only on a failure with tries == retry_count |
| Uploading.FailureThenSuccess | spec/outputs/s3/uploader_spec.rb:47-56 | a failure followed by a success is exactly two attempts |
| Uploading.MissingNotRetried | lib/logstash/outputs/s3/uploader.rb:50-51 | ENOENT ends the loop at once, without a retry |
| Uploading.UnboundedNeverGivesUp | lib/logstash/outputs/s3/uploader.rb:23-62 | with the default infinite retry count the loop ends only on success or ENOENT |
| Uploading.TwoFailuresThenSuccess | spec/outputs/s3/uploader_spec.rb:40-45 | the callback runs once, with the file, after the upload (as the callback test expects); the two failures before the success, which make three attempts, are this model's own example |
| Uploading.EncodeFile | lib/logstash/outputs/s3/uploader.rb:81-88 | key and path gain ".gz" at the end; ctime is kept |
| Uploading.EncodeFileRoundTrip | lib/logstash/outputs/s3/uploader.rb:82-88 | stripping ".gz" gives back the original key and path |
| S3Naming.GetTempfileExtension | lib/logstash/outputs/s3.rb:299-302 | "txt.gz" iff the encoding is gzip, "txt" otherwise |
| S3Naming.TemporaryFilenameParses | lib/logstash/outputs/s3.rb:305-314 | the page counter can be read back from every temporary name |
| S3Naming.FilenameGenerationsAgree | lib/logstash/outputs/s3.rb:304-314 | the plugin's temporary names and the factory's names are the same for the same inputs |
| S3Naming.TemporaryFilenamesDistinct | lib/logstash/outputs/s3.rb:304-314 | different page counters give different temporary names |
| S3Naming.RemoteFilename | lib/logstash/outputs/s3.rb:169 | the remote key starts with the prefix |
| S3Naming.RemoteFilenameOfTempfile | lib/logstash/outputs/s3.rb:165-169 | a temporary file is stored under prefix + its name, or under its local name when the prefix is empty |
| S3Naming.AwsServiceEndpoint | lib/logstash/outputs/s3.rb:158-162 | s3.amazonaws.com for us-east-1; otherwise "s3-", the region, then ".amazonaws.com" |
| S3Naming.EndpointInjective | lib/logstash/outputs/s3.rb:158-162 | different regions never share an endpoint |
| S3Naming.EndpointExamples | spec/outputs/s3_spec.rb:22-33 | us-east-1 maps to s3.amazonaws.com, sa-east-1 to s3-sa-east-1.amazonaws.com |
| S3Naming.TimerRuns | lib/logstash/outputs/s3.rb:401 | the number of timer runs by `now`: every run is due (k intervals after start) and the next one is not yet |
| S3Naming.LastTimerRotation | lib/logstash/outputs/s3.rb:397-412 | the timer's last run by `now` (or start, before the first) lies at most `now` and less than one periodic_interval before it; no file current at `now` was opened before it |
| S3Naming.TimerKeepsFilesYoung | lib/logstash/outputs/s3.rb:295-297 | with the timer on, a file whose ctime is at or after the last run (which includes files from later size rotations) is less than periodic_interval old, so a TimeRotationPolicy with that max_age would not find it due |
| S3Naming.PrefixCheckMatchesValidator | lib/logstash/outputs/s3.rb:77 | the prefix check and PathValidator.valid? use the same character class |
| S3Naming.CheckPrefix | lib/logstash/outputs/s3.rb:223-226 | register's prefix check fails exactly when the prefix is not valid |
| S3Naming.WriteEventsToMultipleFiles | lib/logstash/outputs/s3.rb:341-343 | size rotation is on iff some file size can trigger it |
| S3Naming.RotationDue | lib/logstash/outputs/s3.rb:376-378 | the size test agrees with SizeRotationPolicy when size_file > 0, and never fires at or below size_file |
| S3Naming.RotationDueIff | lib/logstash/outputs/s3.rb:376-378 | rotation is due iff size_file > 0 and the size is strictly above it (it agrees with SizeRotationPolicy); equal size or size_file <= 0 never rotates |
| S3Naming.RotationExamples | spec/outputs/s3_spec.rb:132-176 | size_file 1024: 2024001 bytes rotates, 100 does not; size_file 200 enables size rotation, 0 does not |
| S3Plugin.FilesMembership | lib/logstash/outputs/s3.rb:270-274 | a restored path is queued iff the glob found it |
| S3Plugin.Deleted | lib/logstash/outputs/s3.rb:284-291 | the path is removed iff it exists and deletion is permitted; ENOENT and EACCES leave everything else as it was |
| S3Plugin.MoveFile | lib/logstash/outputs/s3.rb:278-292 | raises iff the file is not empty-and-present and is missing or the write fails; a raise changes nothing; a non-empty file goes to the bucket under prefix + basename; an empty or missing file never reaches the bucket; no other path changes |
| S3Plugin.WorkerStep | lib/logstash/outputs/s3.rb:434-456 | the worker continues unless it took SHUTDOWN; SHUTDOWN goes back to the end of the queue; the queue never grows |
| S3Plugin.FailedUploadRequeued | lib/logstash/outputs/s3.rb:448-455 | a failed upload puts the file at the back of the queue with disk and bucket unchanged |
| S3Plugin.SuccessfulUploadDelivers | lib/logstash/outputs/s3.rb:278-292 | a successful upload adds the file's bytes under its remote name, then the file leaves disk and queue |
| S3Plugin.EmptyFileNotUploaded | lib/logstash/outputs/s3.rb:279-286 | an empty file is deleted without touching the bucket |
| S3Plugin.RotatePreserves | lib/logstash/outputs/s3.rb:381-387 | rotating to an unused path keeps no-loss and adds no handled bytes |
| S3Plugin.AppendPreserves | lib/logstash/outputs/s3.rb:346-357 | appending an event to the current file keeps no-loss |
| S3Plugin.ShutdownPreserves | lib/logstash/outputs/s3.rb:370-373 | queueing SHUTDOWN keeps no-loss |
| S3Plugin.RequeuePreserves | lib/logstash/outputs/s3.rb:448-455 | re-enqueuing a file whose move raised keeps no-loss |
| S3Plugin.ShutdownRequeuePreserves | lib/logstash/outputs/s3.rb:439-442 | a worker passing SHUTDOWN on keeps no-loss |
| S3Plugin.DeliverPreserves | lib/logstash/outputs/s3.rb:443-447 | a move that did not raise delivers the dequeued file and keeps no-loss |
| S3Plugin.WorkerPreserves | lib/logstash/outputs/s3.rb:434-456 | every upload-worker iteration keeps no-loss, whatever S3 and the file system do |
| S3Plugin.RegisterEstablishes | lib/logstash/outputs/s3.rb:234-236 | no-loss holds once the first file is opened at an unused path |
| S3Plugin.RestoredQueueUnique | lib/logstash/outputs/s3.rb:267-275 | restored files are queued once each |
| S3Plugin.QueuedThenCurrent | lib/logstash/outputs/s3.rb:376-394 | when the queue is the restored leftovers followed by the finished files in creation order, the bytes on disk of those files and then the current one are exactly the handled events |
| S3Plugin.JoinPathInjective | lib/logstash/outputs/s3.rb:193 | distinct names give distinct paths in one directory |
| S3Plugin.TempPathsDistinct | lib/logstash/outputs/s3.rb:192-193 | temporary files of different pages never share a path, whatever host and time each was named with |
| S3Plugin.NextPageNew | lib/logstash/outputs/s3.rb:459-461 | the next page's path is none of the files this run created |
| S3Plugin.RotateKeepsOrder | lib/logstash/outputs/s3.rb:381-387 | a rotation queues the file it finished behind the earlier ones, keeping the queue in creation order |
| S3Plugin.RotateToFreshPath | lib/logstash/outputs/s3.rb:381-387 | rotating to a path that is not on disk and not one of this run's files keeps no-loss |
| S3Plugin.StartEstablishes | lib/logstash/outputs/s3.rb:234-236 | from a fresh plugin, with the leftovers on disk once each and the first path not on disk, no-loss holds and the queue is in creation order |
| S3Plugin.S3Output.constructor | lib/logstash/outputs/s3.rb:88-134 | the plugin before register: its configuration, the directory's files, an empty queue and bucket |
| S3Plugin.S3Output.NextPage | lib/logstash/outputs/s3.rb:459-461 | the page counter goes up by one |
| S3Plugin.S3Output.ResetPageCounter | lib/logstash/outputs/s3.rb:464-466 | the page counter is 0 |
| S3Plugin.S3Output.CreateTemporaryFile | lib/logstash/outputs/s3.rb:192-208 | the current page's path becomes current; it keeps an existing file's bytes in append mode and starts empty under gzip |
| S3Plugin.S3Output.MoveFileToBucketAsync | lib/logstash/outputs/s3.rb:469-472 | the path joins the end of the queue |
| S3Plugin.S3Output.WriteToTempfile | lib/logstash/outputs/s3.rb:346-357 | the event lands at the end of the current file |
| S3Plugin.S3Output.TempfileSize | lib/logstash/outputs/s3.rb:330-338 | the current file's length (0 when it is missing) |
| S3Plugin.S3Output.RotateEventsLog | lib/logstash/outputs/s3.rb:323-327 | true iff SizeRotationPolicy(size_file) says the current file must rotate |
| S3Plugin.S3Output.SwitchFile | lib/logstash/outputs/s3.rb:381-387 | the counter goes up by one, the next page's file is current, then the previous file is queued; the new state is the `Rotated` store |
| S3Plugin.S3Output.RotateNow | lib/logstash/outputs/s3.rb:404-410 | the periodic timer's run (the same steps as handle_event's rotation): the new state is the `Rotated` store, no-loss is kept unless the next path is already on disk, and the queue stays in creation order |
| S3Plugin.S3Output.HandleEvent | lib/logstash/outputs/s3.rb:376-394 | rotates iff size_file > 0 and the current file is larger; on rotation the counter goes up by one, the old file is queued and the event goes to the new file; otherwise only the event is appended; no-loss is kept unless a rotation finds the next path already on disk; the queue stays in creation order |
| S3Plugin.S3Output.MoveFileToBucket | lib/logstash/outputs/s3.rb:278-292 | carries out MoveFile on the plugin's state |
| S3Plugin.S3Output.UploadWorker | lib/logstash/outputs/s3.rb:434-456 | carries out WorkerStep on the plugin's state and keeps no-loss |
| S3Plugin.S3Output.ShutdownUploadWorkers | lib/logstash/outputs/s3.rb:370-373 | SHUTDOWN joins the queue, keeping no-loss |
| S3Plugin.S3Output.RestoreFromCrashes | lib/logstash/outputs/s3.rb:267-275 | every found path is queued, in order |
| S3Plugin.S3Output.TestS3Write | lib/logstash/outputs/s3.rb:249-264 | the test file's bytes, ending in "test", go to the bucket under the prefix when the write succeeds; the test file is deleted either way; nothing else changes |
| S3Plugin.S3Output.Start | lib/logstash/outputs/s3.rb:234-236 | the new state is page 0's file opened after the leftovers were queued (when restore is set); from a fresh plugin whose first path is not on disk, no-loss holds and the queue is in creation order |
| S3Plugin.S3Output.Register | lib/logstash/outputs/s3.rb:211-243 | ConfigurationError iff the prefix is invalid (nothing changes); an error when the test write fails, with the test file gone; otherwise the new state is the test write followed by the start, and from a fresh plugin no-loss holds and the queue is in creation order |
| S3Plugin.FirstEventScenario | lib/logstash/outputs/s3.rb:211-243 | register on an empty directory then one event: page 0 holds the event, nothing is queued, no-loss holds |
| S3Plugin.SizeRotationScenario | lib/logstash/outputs/s3.rb:376-394 | size_file 1: the second event rotates, queues page 0's file and starts page 1 holding just that event; no-loss holds and the queue is in creation order |

## Left out

- Threads and locks are not modelled. This covers:
  - every `Mutex#synchronize`;
  - the `Stud::Task` periodic rotation and upload-worker threads (`configure_periodic_rotation`, `configure_upload_workers`);
  - the `Concurrent::TimerTask` sweeper (`start_stale_sweeper`, `stop_stale_sweeper`, `shutdown`);
  - the uploader's thread pool (`upload_async`, `stop`).

  Each operation is one sequential step. `S3Plugin.S3Output.UploadWorker` and `S3Plugin.S3Output.RotateNow` (one timer run) are one iteration each, and the environment repeats them.
- S3Naming.TimerRuns, `LastTimerRotation` and `TimerKeepsFilesYoung` describe the timer's schedule only. The clock is not part of the plugin's state, so the model does not tie the firing instants to the pages that `S3Plugin.S3Output.RotateNow` opens or to their stamps.
- S3Naming.LastTimerRotation: the timer's schedule counts whole intervals from the start; the time a rotation itself takes, which delays the next `sleep` in `Stud.interval`, is not modelled.
- An empty upload queue blocks `@upload_queue.deq`. The model shows a blocked worker as a step that changes nothing and continues.
- AWS plumbing is out: `aws_s3_config`, `full_options`, `signature_options`, `write_bucket_permission_validator.rb`, the ACL and encryption options, and the request itself. Each S3 write and each `upload_file` attempt is an oracle outcome.
- Compression is out (`Zlib::GzipWriter`, the Java gzip helpers, the body of `encode_file`).
  - Under gzip, the model stores the uncompressed bytes.
  - Its size is `GzipWriter#tell`, the number of uncompressed bytes.
- S3Plugin.EmptyFileNotUploaded: under gzip, closing a rotated file that received no event writes the gzip header and trailer, so the file on disk is not empty and the source uploads it. The model stores uncompressed bytes, so it sees an empty file and deletes it without an upload. The lemma holds for the plain-text encoding only.
- Ruby's IO buffer is not modelled byte by byte. Whether a write drains the buffer is a parameter (`drains`) of `TempFiles.TemporaryFile.Write` and of `Repository.WriteBytes`; when it drains, everything buffered so far reaches the file.
- Float rounding is not modelled. Instants and ages are exact real numbers of seconds.
- `Uploading.EncodeFile`: `String#concat` in the source also changes the original file's key and path strings in place. The model returns a new value instead.
- The clock, `Socket.gethostname`, `File.ctime` and `sleep` are not modelled. Host, time and "now" are parameters.
- `TempFiles.TemporaryFile`: `ctime` is not modelled. `File.ctime` is the inode's status-change time on Unix: every write that reaches the file, and every metadata change, moves it forward. The repository's file view and `TimeRotation.TimeRotationPolicy.Rotate` take it as a value, and a flushed write in the model does not move it. For `stale?` this changes nothing, because a flushed write also makes the file non-empty (`Repository.NonEmptyNeverStale`). For the time policy it means the source measures the age from the last status change, not from creation, so under steady flushed writes the source's time policy may never fire.
- S3Naming.PeriodicInterval: `time_file` is a whole number of minutes. Fractional values, which the source accepts, are not modelled.
- `restore_from_crashes` globs the temporary directory. That listing is the `found` parameter.
- `register` does a `mkdir_p` of the temporary directory, and `writable_directory_validator.rb` checks it is writable. Neither is modelled.
- `close` (`s3.rb:360-367`) and the ENOSPC rescue in `write_to_tempfile` are not modelled. A full disk is not modelled either.
- `File.delete` in `move_file_to_bucket` can fail in three modelled ways: it succeeds, reports ENOENT, or reports EACCES. Any other exception after a successful upload would be rescued by `upload_worker` and the file re-enqueued; that path is not modelled.
- In `test_s3_write`, the model's deletion of the test file always succeeds.
- `TemporaryFileFactory#new_file` is not modelled; nothing in the factory calls it.
- `size_and_time_rotation_policy.rb` is not part of this model.
- S3Plugin.S3Output.HandleEvent: no-loss after a rotation needs the next page's path to be absent from disk. `create_temporary_file` opens in append mode, so a leftover file with the same name (same host, same minute, same page) would be appended to rather than started fresh. A collision with this run's own files is ruled out by proof.
- S3Plugin.S3Output.RotateNow: the same on-disk condition as HandleEvent.
- S3Plugin.S3Output.Start: no-loss is promised from a fresh plugin whose page-0 path is not on disk and whose restored leftovers are listed once each and are on disk.
- S3Plugin.S3Output.Register: the same conditions as Start, and no leftover may be the test file's path.
- The model treats the current temporary file as its directory entry, and this differs from the source in one case. When an upload worker deletes the current file, a later write re-creates it in the model. The source would keep writing to the unlinked descriptor. This needs a queue entry that names the current file, which no-loss rules out.
- `Uploading.Upload`: the oracle of attempt outcomes is finite. When it runs out while the source would still be retrying, the run ends as StillRetrying and on_complete is not reached.
- `Repository`: a factory is seen only through its key and its current file: part number, bytes in the file, bytes still buffered, and ctime. Writes to it and `rotate!` are the abstract steps of `FactoryOp`.

## Findings

| source | as written | input that shows it | evidently intended | confidence | as-written member | corrected member |
|---|---|---|---|---|---|---|
| lib/logstash/outputs/s3/temporary_file_factory.rb:40-48 | `generate_name` reads `page_counter` when there are tags and `counter` when there are none. The class defines neither; its accessor is declared as `conter` (line 14). | any call, e.g. tags `["a"]` or tags `[]` | the name uses `@counter`, the part counter that `get` increments | high (not executed) | FileFactory.GenerateNameAsWrittenAlwaysRaises | FileFactory.GenerateName |

## Notes on the source

- The newer classes `TemporaryFileFactory` and `PathValidator` are declared under the misspelt namespace `LogStash::Ouputs::S3`.
- `TemporaryFileFactory#get` passes one argument to the two-argument `TemporaryFile.new` (temporary_file_factory.rb:63). `FileFactory.TemporaryFileFactory.Get` passes the directory and the name.
- `FileRepository#get_factory` builds a factory with a four-argument `TemporaryFileFactory.new(prefix_key, tags, encoding, temporary_directory)` (file_repository.rb:64), while the factory class shown takes a single settings object (temporary_file_factory.rb:16). The model's new entry starts at part 0 with an empty file, as the factory's own initialisation does.
- The uploader's `TemporaryFile` has a key, a path and a ctime (uploader.rb:88). `Uploading.UploadFile` models that view.
- spec/outputs/s3/size_and_time_rotation_policy_spec.rb:17-30 expects the combined policy to reject a zero or negative `size_file` or `time_file`. The policy classes shown do no validation, and the model follows the code.
- `TemporaryFile#size` is `File.size` of the path, which does not flush Ruby's write buffer. Until the buffer is written out, a file that received data reads as empty, so the stale sweeper can drop an entry whose bytes are all buffered (`Repository.BufferedOnlyCanBeStale`). The "clean stale factories" test (file_repository_spec.rb:80-91) keeps the second key only if its "hello" reached the file; with a buffered write the sweep removes both keys (`Repository.CleanStaleScenario`). The size-policy test at size_rotation_policy_spec.rb:20-23 has the same dependency: it writes 5000 bytes and expects `rotate?` to see them (`SizeRotation.RotateExamples` states the policy on the size it is given). The monolithic plugin is unaffected: its `tempfile_size` calls `File#size` on the open file, which flushes.
- A queued path that is missing from disk makes `move_file_to_bucket` raise, because `File.zero?` is false for a missing file. `upload_worker` then re-enqueues the path, forever. The ENOENT rescue around `File.delete` is only reachable when another party removes the file between the upload and the delete.
