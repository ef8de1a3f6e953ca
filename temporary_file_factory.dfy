/**
 * TemporaryFileFactory (lib/logstash/outputs/s3/temporary_file_factory.rb):
 * a part counter starting at 0 plus the name scheme
 *   ls.s3.<host>.<time>[.tag_<tags joined by '.'>].part<n>.<ext>
 * with <time> formatted "%Y-%m-%dT%H.%M" and <ext> "txt.gz" under gzip
 * encoding, "txt" otherwise.  The host name and the clock are parameters.
 *
 * The source file is visibly unfinished, and this model takes the evident
 * intent wherever it and the code part ways:
 *  - the class sits in the misspelt namespace LogStash::Ouputs::S3 (line 5);
 *  - the accessor is declared as `conter` (line 14) while the state is @counter;
 *  - generate_name reads `page_counter` (line 44) and `counter` (line 46),
 *    neither of which the class defines; GenerateNameAsWritten records that
 *    both branches raise, GenerateName uses @counter as intended;
 *  - get passes one argument to the two-argument TemporaryFile.new (line 63);
 *    Get passes the temporary directory and the name.
 */
module FileFactory {
  import opened Text
  import opened Wrappers
  import opened TempFiles

  const GzipEncoding := "gzip"
  const GzipExtension := "txt.gz"
  const TxtExtension := "txt"

  // ---------------------------------------------------------------------
  // current_time: Time.now.strftime("%Y-%m-%dT%H.%M")
  // ---------------------------------------------------------------------

  /** A reading of the clock, broken into calendar fields. */
  datatype Clock = Clock(year: nat, month: nat, day: nat, hour: nat, minute: nat, second: nat)

  function Zeros(k: nat): (z: string)
    ensures |z| == k && forall i :: 0 <= i < k ==> z[i] == '0'
  {
    if k == 0 then "" else "0" + Zeros(k - 1)
  }

  /** strftime's zero-padded decimal field of at least `width` digits. */
  function Pad(n: nat, width: nat): (r: string)
    ensures |r| == if |NatToString(n)| < width then width else |NatToString(n)|
    ensures forall i :: 0 <= i < |r| ==> IsDigit(r[i])
  {
    var d := NatToString(n);
    if |d| < width then Zeros(width - |d|) + d else d
  }

  lemma {:induction false} ZerosValue(k: nat)
    ensures DigitsToNat(Zeros(k)) == 0
    decreases k
  {
    if k > 0 {
      ZerosValue(k - 1);
      assert Zeros(k)[..k - 1] == Zeros(k - 1);
    }
  }

  /** Leading zeros do not change the value a digit string denotes. */
  lemma {:induction false} LeadingZerosValue(k: nat, d: string)
    requires forall i :: 0 <= i < |d| ==> IsDigit(d[i])
    ensures DigitsToNat(Zeros(k) + d) == DigitsToNat(d)
    decreases |d|
  {
    if d == [] {
      assert Zeros(k) + d == Zeros(k);
      ZerosValue(k);
    } else {
      var s := Zeros(k) + d;
      assert s[..|s| - 1] == Zeros(k) + d[..|d| - 1];
      LeadingZerosValue(k, d[..|d| - 1]);
    }
  }

  /** A padded field reads back as the number it renders. */
  lemma PadRoundTrip(n: nat, width: nat)
    ensures DigitsToNat(Pad(n, width)) == n
  {
    var d := NatToString(n);
    DigitsRoundTrip(n);
    if |d| < width {
      LeadingZerosValue(width - |d|, d);
    }
  }

  /** The time part of a name: year, month, day, hour and minute, never the seconds. */
  function CurrentTime(c: Clock): (t: string)
    ensures |t| >= 16
    ensures forall i :: 0 <= i < |t| ==> IsDigit(t[i]) || t[i] in "-T."
  {
    Pad(c.year, 4) + "-" + Pad(c.month, 2) + "-" + Pad(c.day, 2) + "T" + Pad(c.hour, 2) + "." + Pad(c.minute, 2)
  }

  /** A number below 10^w needs at most w digits. */
  lemma {:induction false} NatToStringLength(n: nat, w: nat)
    requires 1 <= w && n < Pow10(w)
    ensures |NatToString(n)| <= w
    decreases n
  {
    if n >= 10 {
      assert w >= 2;
      assert n / 10 < Pow10(w - 1);
      NatToStringLength(n / 10, w - 1);
    }
  }

  lemma PadLength(n: nat, w: nat)
    requires 1 <= w && n < Pow10(w)
    ensures |Pad(n, w)| == w
  {
    NatToStringLength(n, w);
  }

  /**
   * Minute granularity: two instants of the same minute give the same time
   * part, which for fields in range has 16 characters in the layout
   * YYYY-MM-DDTHH.MM and reads back to the year and the minute.
   */
  lemma CurrentTimeShape(c: Clock, second: nat)
    requires c.year <= 9999 && c.month < 100 && c.day < 100 && c.hour < 100 && c.minute < 100
    ensures CurrentTime(c) == CurrentTime(c.(second := second))
    ensures |CurrentTime(c)| == 16
    ensures CurrentTime(c)[4] == '-' && CurrentTime(c)[7] == '-' && CurrentTime(c)[10] == 'T' && CurrentTime(c)[13] == '.'
    ensures DigitsToNat(CurrentTime(c)[..4]) == c.year && DigitsToNat(CurrentTime(c)[14..]) == c.minute
  {
    assert Pow10(2) == 100 && Pow10(4) == 10000;
    PadLength(c.year, 4);
    PadLength(c.month, 2);
    PadLength(c.day, 2);
    PadLength(c.hour, 2);
    PadLength(c.minute, 2);
    PadRoundTrip(c.year, 4);
    PadRoundTrip(c.minute, 2);
    var t := CurrentTime(c);
    var y, mo, d, h, mi := Pad(c.year, 4), Pad(c.month, 2), Pad(c.day, 2), Pad(c.hour, 2), Pad(c.minute, 2);
    assert t == y + "-" + mo + "-" + d + "T" + h + "." + mi;
    assert t[..4] == y;
    assert t[14..] == mi;
  }

  function Pow10(k: nat): (p: nat)
    ensures p >= 1
  {
    if k == 0 then 1 else 10 * Pow10(k - 1)
  }

  // ---------------------------------------------------------------------
  // extension, gzip?, generate_name
  // ---------------------------------------------------------------------

  /** gzip?: the encoding is exactly "gzip". */
  predicate IsGzip(encoding: string) {
    encoding == GzipEncoding
  }

  /** extension: "txt.gz" exactly when the encoding is gzip, "txt" otherwise. */
  function Extension(encoding: string): (ext: string)
    ensures ext == GzipExtension <==> IsGzip(encoding)
    ensures ext == TxtExtension <==> !IsGzip(encoding)
  {
    if IsGzip(encoding) then GzipExtension else TxtExtension
  }

  /** The tag segment of a name: ".tag_" and the tags joined by '.'. */
  function TagSegment(tags: seq<string>): string {
    ".tag_" + Join(tags, ".")
  }

  /** Everything of a name before its part number: ls.s3.<host>.<time>[.tag_<tags>].part */
  function NameStem(host: string, time: string, tags: seq<string>): (stem: string)
    ensures |stem| >= 5 && stem[|stem| - 5..] == ".part"
  {
    var head := "ls.s3." + host + "." + time;
    if |tags| > 0 then head + TagSegment(tags) + ".part" else head + ".part"
  }

  /** generate_name, reading the counter as intended: the part number can be read back from the name. */
  function GenerateName(host: string, time: string, tags: seq<string>, counter: nat, encoding: string): (name: string)
    ensures ParsePart(name, Extension(encoding)) == Some(counter)
  {
    ParseAfterStem(NameStem(host, time, tags), counter, Extension(encoding));
    NameStem(host, time, tags) + NatToString(counter) + "." + Extension(encoding)
  }

  /** The longest suffix of s made only of digits. */
  function TrailingDigits(s: string): (d: string)
    ensures |d| <= |s| && d == s[|s| - |d|..]
    ensures forall i :: 0 <= i < |d| ==> IsDigit(d[i])
  {
    if s == [] || !IsDigit(s[|s| - 1]) then "" else TrailingDigits(s[..|s| - 1]) + [s[|s| - 1]]
  }

  lemma {:induction false} TrailingDigitsOf(p: string, d: string)
    requires |p| > 0 && !IsDigit(p[|p| - 1])
    requires forall i :: 0 <= i < |d| ==> IsDigit(d[i])
    ensures TrailingDigits(p + d) == d
    decreases |d|
  {
    var s := p + d;
    if d == [] {
      assert s == p;
    } else {
      assert s[..|s| - 1] == p + d[..|d| - 1];
      TrailingDigitsOf(p, d[..|d| - 1]);
      assert d[..|d| - 1] + [d[|d| - 1]] == d;
    }
  }

  /** Reads the part number back out of a file name with the given extension. */
  function ParsePart(name: string, ext: string): Option<nat>
  {
    var suffix := "." + ext;
    if |name| < |suffix| || name[|name| - |suffix|..] != suffix then None
    else ParseBody(name[..|name| - |suffix|])
  }

  /** The part number at the end of a name without its extension: digits right after ".part". */
  function ParseBody(body: string): Option<nat>
  {
    var digits := TrailingDigits(body);
    var stem := body[..|body| - |digits|];
    if |digits| > 0 && |stem| >= 5 && stem[|stem| - 5..] == ".part" then Some(DigitsToNat(digits)) else None
  }

  lemma ParseStripsExtension(body: string, ext: string)
    ensures ParsePart(body + "." + ext, ext) == ParseBody(body)
  {
    var suffix := "." + ext;
    var name := body + "." + ext;
    assert name == body + suffix;
    assert name[|name| - |suffix|..] == suffix;
    assert name[..|name| - |suffix|] == body;
  }

  lemma ParseBodyAfterStem(stem: string, counter: nat)
    requires |stem| >= 5 && stem[|stem| - 5..] == ".part"
    ensures ParseBody(stem + NatToString(counter)) == Some(counter)
  {
    var d := NatToString(counter);
    var body := stem + d;
    assert stem[|stem| - 1] == stem[|stem| - 5..][4] == 't';
    TrailingDigitsOf(stem, d);
    assert body[..|body| - |d|] == stem;
    DigitsRoundTrip(counter);
  }

  lemma ParseAfterStem(stem: string, counter: nat, ext: string)
    requires |stem| >= 5 && stem[|stem| - 5..] == ".part"
    ensures ParsePart(stem + NatToString(counter) + "." + ext, ext) == Some(counter)
  {
    ParseStripsExtension(stem + NatToString(counter), ext);
    ParseBodyAfterStem(stem, counter);
  }

  /**
   * Names generated with different counters differ, whatever the host, time,
   * tags and encoding; with everything else equal they share the same stem
   * and extension and differ only in the part number.
   */
  lemma GeneratedNamesDistinct(host: string, time: string, tags: seq<string>, m: nat, n: nat, encoding: string,
                               host': string, time': string, tags': seq<string>)
    requires m != n
    ensures GenerateName(host, time, tags, m, encoding) != GenerateName(host', time', tags', n, encoding)
  {
  }

  /**
   * A name starts with ls.s3.<host>.<time>; right after that comes the tag
   * segment when there are tags, and ".part" straight away when there are none.
   */
  lemma NameLayout(host: string, time: string, tags: seq<string>, counter: nat, encoding: string)
    ensures var name := GenerateName(host, time, tags, counter, encoding);
            var head := "ls.s3." + host + "." + time;
            |name| > |head| + 5 && name[..|head|] == head &&
            (|tags| > 0 ==> |name| > |head| + |TagSegment(tags)| &&
                            name[|head|..|head| + |TagSegment(tags)|] == TagSegment(tags)) &&
            (|tags| == 0 ==> name[|head|..|head| + 5] == ".part")
  {
    var head := "ls.s3." + host + "." + time;
    var d, e := NatToString(counter), Extension(encoding);
    if |tags| > 0 {
      SegmentSlices(head, TagSegment(tags), d, e);
    } else {
      SegmentSlices(head, "", d, e);
      assert head + "" == head;
    }
  }

  /** Where the pieces of head + seg + ".part" + d + "." + e sit. */
  lemma SegmentSlices(head: string, seg: string, d: string, e: string)
    ensures var name := head + seg + ".part" + d + "." + e;
            |name| > |head| + |seg| + 5 && name[..|head|] == head &&
            name[|head|..|head| + |seg|] == seg && name[|head| + |seg|..|head| + |seg| + 5] == ".part"
  {
    var name := head + seg + ".part" + d + "." + e;
    var tail := ".part" + d + "." + e;
    assert name == head + (seg + tail);
    assert (seg + tail)[..|seg|] == seg;
    assert (seg + tail)[|seg|..|seg| + 5] == ".part";
  }

  /** What generate_name does as written: both branches call a method the class does not define. */
  datatype NameError = NameError(missing: string)

  function GenerateNameAsWritten(host: string, time: string, tags: seq<string>, counter: nat, encoding: string): (r: Result<string, NameError>)
  {
    if |tags| > 0 then Err(NameError("page_counter")) else Err(NameError("counter"))
  }

  /** As written, generate_name can never produce a name (line 44 and line 46 both raise). */
  lemma GenerateNameAsWrittenAlwaysRaises(host: string, time: string, tags: seq<string>, counter: nat, encoding: string)
    ensures GenerateNameAsWritten(host, time, tags, counter, encoding).Err?
  {
  }

  // ---------------------------------------------------------------------
  // The factory object
  // ---------------------------------------------------------------------

  class TemporaryFileFactory {
    var counter: nat
    const tags: seq<string>
    const prefix: string
    const encoding: string
    const temporaryDirectory: string

    /** initialize: copies the settings and starts the counter at 0. */
    constructor (tags: seq<string>, prefix: string, encoding: string, temporaryDirectory: string)
      ensures counter == 0
      ensures this.tags == tags && this.prefix == prefix
      ensures this.encoding == encoding && this.temporaryDirectory == temporaryDirectory
    {
      counter := 0;
      this.tags := tags;
      this.prefix := prefix;
      this.encoding := encoding;
      this.temporaryDirectory := temporaryDirectory;
    }

    /** increment_counter: the counter goes up by exactly one. */
    method IncrementCounter()
      modifies this`counter
      ensures counter == old(counter) + 1
    {
      counter := counter + 1;
    }

    /** filename: temporary_directory joined with the generated name. */
    function Filename(host: string, time: string): (path: string)
      reads this
      ensures '/' !in GenerateName(host, time, tags, counter, encoding) ==>
                Basename(path) == GenerateName(host, time, tags, counter, encoding)
    {
      var name := GenerateName(host, time, tags, counter, encoding);
      var p := JoinPath(temporaryDirectory, name);
      assert '/' !in name ==> Basename(p) == name by {
        if '/' !in name { BasenameOfJoin(temporaryDirectory, name); }
      }
      p
    }

    /**
     * get: a new empty temporary file named with the current counter, after
     * which the counter goes up by one, so no later get reuses the name.
     */
    method Get(host: string, time: string) returns (file: TemporaryFile)
      modifies this`counter
      ensures fresh(file)
      ensures file.name == GenerateName(host, time, tags, old(counter), encoding)
      ensures file.temporaryDirectory == temporaryDirectory
      ensures file.flushed == [] && file.pending == [] && file.onDisk && !file.closed && file.Valid()
      ensures counter == old(counter) + 1
      ensures forall k: nat, h: string, t: string :: k >= counter ==> GenerateName(h, t, tags, k, encoding) != file.name
    {
      file := new TemporaryFile(temporaryDirectory, GenerateName(host, time, tags, counter, encoding));
      IncrementCounter();
      forall k: nat, h: string, t: string | k >= counter
        ensures GenerateName(h, t, tags, k, encoding) != file.name
      {
        GeneratedNamesDistinct(h, t, tags, k, old(counter), encoding, host, time, tags);
      }
    }
  }
}
