/** plugins/utils.py: the duration formatter, the progress-argument tuple,
    the filename guess made from a HEAD response, and the chunk loop of the
    streaming download.  The HTTP session is replaced by its observable
    results (status, headers, the chunk sequence). */
module Utils {
  import opened Text

  // ---------------------------------------------------------------------
  // TimeFormatter

  /** A duration in milliseconds broken into calendar-free units. */
  datatype Duration = Duration(days: int, hours: int, minutes: int, seconds: int, millis: int)

  /** The `divmod` chain of `TimeFormatter`.  Python's `divmod` floors, and
      all divisors are positive, so Dafny's `/` and `%` agree with it for
      negative inputs too. */
  function Breakdown(n: int): (d: Duration)
    ensures 0 <= d.hours < 24 && 0 <= d.minutes < 60 && 0 <= d.seconds < 60 && 0 <= d.millis < 1000
    ensures d.days * 86400000 + d.hours * 3600000 + d.minutes * 60000 + d.seconds * 1000 + d.millis == n
    ensures d.days >= 0 <==> n >= 0
  {
    var secs := n / 1000;
    var mins := secs / 60;
    var hrs := mins / 60;
    var d := Duration(hrs / 24, hrs % 24, mins % 60, secs % 60, n % 1000);
    assert n == secs * 1000 + d.millis;
    assert secs == mins * 60 + d.seconds;
    assert mins == hrs * 60 + d.minutes;
    assert hrs == d.days * 24 + d.hours;
    d
  }

  /** One `f"{v}{unit}" if v else ""` piece of the formatted text. */
  function Part(v: int, unit: string): (r: string)
    ensures v == 0 <==> r == []
    ensures v != 0 ==> |r| > |unit|
  {
    if v != 0 then IntToString(v) + unit else ""
  }

  /** `TimeFormatter(milliseconds)`: non-zero days, hours, minutes and
      seconds in that order; milliseconds are dropped, and "0s" stands for a
      duration of less than a second. */
  function TimeFormatter(milliseconds: int): (r: string)
    ensures r != []
    ensures r == "0s" <==> 0 <= milliseconds < 1000
  {
    var d := Breakdown(milliseconds);
    var tmp := Part(d.days, "d, ") + Part(d.hours, "h, ") + Part(d.minutes, "m, ") + Part(d.seconds, "s");
    if tmp == [] then "0s"
    else
      assert tmp == "0s" ==> d.days == 0 && d.hours == 0 && d.minutes == 0 && IntToString(d.seconds) == "0" by {
        if tmp == "0s" {
          assert |tmp| == 2;
          assert d.days == 0 && d.hours == 0 && d.minutes == 0;
          assert tmp == IntToString(d.seconds) + "s";
          assert IntToString(d.seconds) == tmp[..1];
        }
      }
      IntToStringZero(d.seconds);
      tmp
  }

  /** Everything below a whole second is dropped. */
  lemma TimeFormatterIgnoresMillis(n: int)
    ensures TimeFormatter(n) == TimeFormatter(n - n % 1000)
  {
    var m := n - n % 1000;
    assert m % 1000 == 0;
    assert m / 1000 == n / 1000;
  }

  // ---------------------------------------------------------------------
  // progressArgs

  const ProgressBarTemplate: string :=
    "\nPercentage: {percentage} | {current}\nTotal Completed: {total}%\nCurrent Speed: {speed}/s\nEstimated Time: {est_time}\n"
  const FilledMark: string := "▓"
  const EmptyMark: string := "░"

  /** `progressArgs(action, progress_message, start_time)`: the three
      arguments followed by the template and the two bar characters. */
  function ProgressArgs<M, T>(action: string, progressMessage: M, startTime: T)
    : (r: (string, M, T, string, string, string))
    ensures r.0 == action && r.1 == progressMessage && r.2 == startTime
    ensures r.3 == ProgressBarTemplate && r.4 == FilledMark && r.5 == EmptyMark
  {
    (action, progressMessage, startTime, ProgressBarTemplate, FilledMark, EmptyMark)
  }

  // ---------------------------------------------------------------------
  // get_filename

  const DispositionPrefix: string := "filename=\""

  /** The prefix at `i`, followed by the first `j` characters of `line`
      (which starts right after the prefix) and the quote at `line[j]`,
      is an occurrence of the whole quoted match. */
  lemma QuotedAt(cd: string, i: nat, line: string, j: nat)
    requires i <= |cd| && StartsWith(cd[i..], DispositionPrefix)
    requires |line| <= |cd| - i - |DispositionPrefix|
    requires line == cd[i + |DispositionPrefix|..][..|line|]
    requires j < |line| && line[j] == '"'
    ensures OccursAt(cd, DispositionPrefix + line[..j] + "\"", i)
  {
    var n := |DispositionPrefix|;
    assert cd[i..i + n] == DispositionPrefix;
    assert line[..j + 1] == cd[i + n..][..j + 1];
    assert cd[i + n..][..j + 1] == cd[i + n..i + n + j + 1];
    assert line[..j + 1] == line[..j] + "\"";
    assert cd[i..i + n + j + 1] == cd[i..i + n] + cd[i + n..i + n + j + 1];
  }

  /** The rest of the line after the prefix at `i`: `.` does not match a
      newline, so this is all a match starting at `i` can capture from. */
  function LineAfterPrefix(cd: string, i: nat): string
    requires i <= |cd| && StartsWith(cd[i..], DispositionPrefix)
  {
    FirstPart(cd[i + |DispositionPrefix|..], '\n')
  }

  /** The match of the regular expression `filename="(.+)"` that starts at
      index `i` of `cd`, if there is one.  `.` stops at a newline and `.+`
      is greedy, so the capture runs to the last quote of the line, which
      must not be the first character after the prefix. */
  function MatchAt(cd: string, i: nat): (r: Option<string>)
    requires i <= |cd|
    ensures r.Some? ==> |r.value| >= 1 && '\n' !in r.value
    ensures r.Some? ==> OccursAt(cd, DispositionPrefix + r.value + "\"", i)
  {
    if !StartsWith(cd[i..], DispositionPrefix) then None
    else
      var line := LineAfterPrefix(cd, i);
      match LastIndexOf(line, '"')
      case None => None
      case Some(j) =>
        if j == 0 then None
        else
          var v := line[..j];
          QuotedAt(cd, i, line, j);
          Some(v)
  }

  /** A match starts at `i` exactly when the prefix is there and a quote
      follows on the same line after at least one character; the capture
      is the line up to its last quote. */
  lemma MatchAtExact(cd: string, i: nat)
    requires i <= |cd|
    ensures MatchAt(cd, i).Some? ==> StartsWith(cd[i..], DispositionPrefix)
    ensures StartsWith(cd[i..], DispositionPrefix) ==>
      (MatchAt(cd, i).Some? <==>
        exists j :: 1 <= j < |LineAfterPrefix(cd, i)| && LineAfterPrefix(cd, i)[j] == '"')
    ensures MatchAt(cd, i).Some? ==>
      (var v, line := MatchAt(cd, i).value, LineAfterPrefix(cd, i);
       |v| < |line| && v == line[..|v|] && line[|v|] == '"' && '"' !in line[|v| + 1..])
  {
    if StartsWith(cd[i..], DispositionPrefix) {
      var line := LineAfterPrefix(cd, i);
      match LastIndexOf(line, '"')
      case None =>
      case Some(j) =>
        NotAfterLast(line, '"', j);
    }
  }

  /** The first element of `re.findall('filename="(.+)"', cd[i..])`: the
      match at the leftmost start position from `i` on that has one. */
  function FirstMatch(cd: string, i: nat): (r: Option<string>)
    requires i <= |cd|
    ensures r.None? <==> forall k :: i <= k <= |cd| ==> MatchAt(cd, k).None?
    ensures r.Some? ==> exists k :: i <= k <= |cd| && MatchAt(cd, k) == r
    decreases |cd| - i
  {
    if MatchAt(cd, i).Some? then MatchAt(cd, i)
    else if i == |cd| then None
    else FirstMatch(cd, i + 1)
  }

  /** The match found is the one at the leftmost matching position, which
      `findall()[0]` returns: the result is the match at `k` and no
      position before `k` matches. */
  lemma {:induction false} FirstMatchLeftmost(cd: string, i: nat) returns (k: nat)
    requires i <= |cd|
    requires FirstMatch(cd, i).Some?
    ensures i <= k <= |cd| && MatchAt(cd, k) == FirstMatch(cd, i)
    ensures forall k' :: i <= k' < k ==> MatchAt(cd, k').None?
    decreases |cd| - i
  {
    if MatchAt(cd, i).Some? {
      k := i;
    } else {
      k := FirstMatchLeftmost(cd, i + 1);
      forall k' | i <= k' < k ensures MatchAt(cd, k').None? {
        if k' != i {
          assert i + 1 <= k' < k;
        }
      }
    }
  }

  /** The filename a Content-Disposition header names, if any: the leftmost
      match, and none exactly when no position matches. */
  function DispositionFilename(cd: string): (r: Option<string>)
    ensures r.Some? ==> |r.value| >= 1 && '\n' !in r.value && Occurs(cd, DispositionPrefix + r.value + "\"")
    ensures r.None? <==> forall k :: 0 <= k <= |cd| ==> MatchAt(cd, k).None?
  {
    FirstMatch(cd, 0)
  }

  /** A header whose first `filename="` with a quote later on its line is
      at `i` names the file captured there: the rest of that line up to
      its last quote. */
  lemma DispositionFound(cd: string, i: nat)
    requires i <= |cd| && StartsWith(cd[i..], DispositionPrefix)
    requires exists j :: 1 <= j < |LineAfterPrefix(cd, i)| && LineAfterPrefix(cd, i)[j] == '"'
    requires forall k :: 0 <= k < i ==> MatchAt(cd, k).None?
    ensures DispositionFilename(cd) == MatchAt(cd, i) && MatchAt(cd, i).Some?
    ensures var v, line := DispositionFilename(cd).value, LineAfterPrefix(cd, i);
      |v| < |line| && v == line[..|v|] && line[|v|] == '"' && '"' !in line[|v| + 1..]
  {
    MatchAtExact(cd, i);
    var k := FirstMatchLeftmost(cd, 0);
    assert k == i by {
      if k < i {
        assert false;
      }
      assert !(i < k) by {
        if i < k {
          assert false;
        }
      }
    }
  }

  /** `url.split('/')[-1].split('?')[0]`. */
  function FallbackName(url: string): (r: string)
    ensures '/' !in r && '?' !in r
    ensures var seg := LastPart(url, '/'); |r| <= |seg| && seg[..|r|] == r && (r == seg || seg[|r|] == '?')
  {
    FirstPart(LastPart(url, '/'), '?')
  }

  /** The HEAD request of `get_filename`: it raised, or it answered with
      these headers. */
  datatype HeadResponse = HeadFailed | HeadOk(contentDisposition: Option<string>)

  /** `get_filename(url)`: a quoted filename in Content-Disposition wins;
      otherwise, or when the request failed, the name comes from the URL. */
  function GetFilename(url: string, head: HeadResponse): (r: string)
    ensures head.HeadOk? && head.contentDisposition.Some? && DispositionFilename(head.contentDisposition.value).Some?
      ==> r == DispositionFilename(head.contentDisposition.value).value && |r| >= 1
    ensures head.HeadFailed? || head.contentDisposition.None? ==> r == FallbackName(url) && '/' !in r && '?' !in r
    ensures head.HeadOk? && head.contentDisposition.Some? && DispositionFilename(head.contentDisposition.value).None?
      ==> r == FallbackName(url)
  {
    match head
    case HeadFailed => FallbackName(url)
    case HeadOk(cd) =>
      if cd.Some? && cd.value != [] && DispositionFilename(cd.value).Some? then
        DispositionFilename(cd.value).value
      else FallbackName(url)
  }

  // ---------------------------------------------------------------------
  // async_download_file

  newtype byte = b: int | 0 <= b < 256

  /** All bytes of the chunks, in order. */
  function Concat(chunks: seq<seq<byte>>): seq<byte> {
    if chunks == [] then [] else Concat(chunks[..|chunks| - 1]) + chunks[|chunks| - 1]
  }

  /** One call of the progress callback: bytes so far and the header size. */
  datatype ProgressCall = ProgressCall(current: int, total: int)

  /** The calls the callback receives, one per chunk. */
  function Reports(chunks: seq<seq<byte>>, total: int): seq<ProgressCall> {
    seq(|chunks|, k requires 0 <= k < |chunks| => ProgressCall(|Concat(chunks[..k + 1])|, total))
  }

  lemma ReportsSnoc(chunks: seq<seq<byte>>, total: int)
    requires chunks != []
    ensures Reports(chunks, total)
      == Reports(chunks[..|chunks| - 1], total) + [ProgressCall(|Concat(chunks)|, total)]
  {
    var init := chunks[..|chunks| - 1];
    forall k | 0 <= k < |init| ensures Reports(init, total)[k] == Reports(chunks, total)[k] {
      assert init[..k + 1] == chunks[..k + 1];
    }
    assert chunks[..|chunks|] == chunks;
  }

  lemma {:induction false} ConcatGrows(chunks: seq<seq<byte>>, i: nat, j: nat)
    requires i <= j <= |chunks|
    ensures |Concat(chunks[..i])| <= |Concat(chunks[..j])|
    decreases j - i
  {
    if i < j {
      ConcatGrows(chunks, i, j - 1);
      assert chunks[..j][..j - 1] == chunks[..j - 1];
    }
  }

  /** The callback sees a running total that never decreases and that ends
      at the number of bytes written. */
  lemma ReportsMonotone(chunks: seq<seq<byte>>, total: int)
    ensures |Reports(chunks, total)| == |chunks|
    ensures forall a, b :: 0 <= a <= b < |chunks| ==>
      Reports(chunks, total)[a].current <= Reports(chunks, total)[b].current
    ensures chunks != [] ==> Reports(chunks, total)[|chunks| - 1].current == |Concat(chunks)|
  {
    forall a, b | 0 <= a <= b < |chunks|
      ensures Reports(chunks, total)[a].current <= Reports(chunks, total)[b].current
    {
      ConcatGrows(chunks, a + 1, b + 1);
    }
    assert chunks[..|chunks|] == chunks;
  }

  datatype DownloadResult = Downloaded(path: string) | DownloadFailed

  /** `os.path.join("Download", filename)`: an absolute name replaces the
      directory. */
  function DownloadPath(filename: string): string {
    if StartsWith(filename, "/") then filename else "Download/" + filename
  }

  /** `async_download_file`: a non-200 status raises before anything is
      written; otherwise every chunk is appended to the file and, when a
      callback is given, reported with the running byte count. */
  method DownloadFile(filename: string, status: int, totalSize: int, chunks: seq<seq<byte>>, hasProgress: bool)
    returns (r: DownloadResult, written: seq<byte>, calls: seq<ProgressCall>)
    ensures status != 200 ==> r == DownloadFailed && written == [] && calls == []
    ensures status == 200 ==> r == Downloaded(DownloadPath(filename))
    ensures status == 200 ==> written == Concat(chunks)
    ensures status == 200 ==> calls == if hasProgress then Reports(chunks, totalSize) else []
  {
    written, calls := [], [];
    if status != 200 {
      return DownloadFailed, written, calls;
    }
    var downloaded := 0;
    for i := 0 to |chunks|
      invariant written == Concat(chunks[..i])
      invariant downloaded == |written|
      invariant calls == if hasProgress then Reports(chunks[..i], totalSize) else []
    {
      assert chunks[..i + 1][..i] == chunks[..i];
      written := written + chunks[i];
      downloaded := downloaded + |chunks[i]|;
      if hasProgress {
        calls := calls + [ProgressCall(downloaded, totalSize)];
        ReportsSnoc(chunks[..i + 1], totalSize);
      }
    }
    assert chunks[..|chunks|] == chunks;
    r := Downloaded(DownloadPath(filename));
  }
}
