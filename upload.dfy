/** The self-contained decisions of uploder.py's download/upload pipeline:
    how the saved file is named, which upload call a file goes through,
    which downloader a URL goes to, when a direct download counts as failed
    or incomplete, how a yt-dlp error is reported, and how full the
    progress bar is drawn. */
module Upload {
  import opened Text

  // ---------------------------------------------------------------------
  // Filename derivation in handle_download_or_upload

  /** `\w`, restricted to ASCII letters, digits and the underscore. */
  predicate IsWordChar(c: char) {
    'a' <= c <= 'z' || 'A' <= c <= 'Z' || '0' <= c <= '9' || c == '_'
  }

  /** The character class `[\w\-_\. ]` the sanitiser keeps. */
  predicate IsSafeChar(c: char) {
    IsWordChar(c) || c == '-' || c == '_' || c == '.' || c == ' '
  }

  /** `re.sub(r'[^\w\-_\. ]', '_', name)`: same length, safe characters
      kept in place, every other character replaced by an underscore. */
  function Sanitize(name: string): (r: string)
    ensures |r| == |name|
    ensures forall k :: 0 <= k < |r| ==> IsSafeChar(r[k])
    ensures forall k :: 0 <= k < |r| ==> if IsSafeChar(name[k]) then r[k] == name[k] else r[k] == '_'
  {
    if name == [] then []
    else [if IsSafeChar(name[0]) then name[0] else '_'] + Sanitize(name[1..])
  }

  /** A name that is already safe is left alone, so sanitising twice is
      sanitising once. */
  lemma SanitizeIdempotent(name: string)
    ensures Sanitize(Sanitize(name)) == Sanitize(name)
  {
    var once := Sanitize(name);
    assert forall k :: 0 <= k < |once| ==> Sanitize(once)[k] == once[k];
  }

  /** A dot survives sanitising, and no dot is introduced. */
  lemma SanitizeKeepsDots(name: string)
    ensures '.' in Sanitize(name) <==> '.' in name
  {
    var r := Sanitize(name);
    if '.' in name {
      var k :| 0 <= k < |name| && name[k] == '.';
      assert r[k] == '.';
    }
    if '.' in r {
      var k :| 0 <= k < |r| && r[k] == '.';
      assert name[k] == '.';
    }
  }

  /** A Python value is truthy here when it is present and non-empty. */
  predicate IsTruthy(s: Option<string>) {
    s.Some? && s.value != []
  }

  /** The name before sanitising: the custom name if one was given,
      otherwise the last `/`-segment of the URL, otherwise the fresh id
      (`str(uuid.uuid4())` in the source, drawn by the caller). */
  function BaseName(customName: Option<string>, url: string, freshId: string): (r: string)
    ensures IsTruthy(customName) ==> r == customName.value
    ensures !IsTruthy(customName) && url != [] && url[|url| - 1] != '/' ==>
      r != [] && '/' !in r && |r| <= |url| && url[|url| - |r|..] == r && (r == url || url[|url| - |r| - 1] == '/')
    ensures !IsTruthy(customName) && (url == [] || url[|url| - 1] == '/') ==> r == freshId
  {
    if IsTruthy(customName) then customName.value
    else
      var segment := LastPart(url, '/');
      if segment != [] then segment else freshId
  }

  const DefaultExtension: string := ".bin"

  /** The name the file is saved and uploaded under: the sanitised base
      name, with `.bin` appended exactly when it holds no dot. */
  function UploadFilename(customName: Option<string>, url: string, freshId: string): (r: string)
    ensures '.' in r
    ensures forall k :: 0 <= k < |r| ==> IsSafeChar(r[k])
    ensures var base := BaseName(customName, url, freshId);
      |base| <= |r| && r[..|base|] == Sanitize(base)
      && (r == Sanitize(base) <==> '.' in base)
      && ('.' !in base ==> r == Sanitize(base) + DefaultExtension)
  {
    var base := BaseName(customName, url, freshId);
    var filename := Sanitize(base);
    SanitizeKeepsDots(base);
    if '.' in filename then filename
    else
      assert DefaultExtension[0] == '.';
      var r := filename + DefaultExtension;
      assert r[|filename|] == '.';
      r
  }

  // ---------------------------------------------------------------------
  // Upload kind by extension

  /** The part of `path` after its last `/`, start index of the basename. */
  function BaseStart(p: string): (i: nat)
    ensures i <= |p|
    ensures '/' !in p[i..]
    ensures i > 0 ==> p[i - 1] == '/'
  {
    match LastIndexOf(p, '/')
    case None => 0
    case Some(j) => j + 1
  }

  predicate HasNonDot(s: string) {
    exists k :: 0 <= k < |s| && s[k] != '.'
  }

  /** Where `os.path.splitext` cuts `p`, if it does: the last dot of the
      basename, provided something other than dots precedes it there (a
      hidden file such as `.bashrc` has no extension). */
  function ExtensionStart(p: string): (r: Option<nat>)
    ensures r.Some? ==> BaseStart(p) <= r.value < |p| && p[r.value] == '.' && '.' !in p[r.value + 1..]
    ensures r.Some? ==> HasNonDot(p[BaseStart(p)..r.value])
    ensures r.None? ==>
      forall d :: BaseStart(p) <= d < |p| && p[d] == '.' ==> !HasNonDot(p[BaseStart(p)..d])
  {
    var start := BaseStart(p);
    match LastIndexOf(p, '.')
    case None => None
    case Some(dot) =>
      if start <= dot && HasNonDot(p[start..dot]) then Some(dot)
      else
        NotAfterLast(p, '.', dot);
        if start <= dot then DotsOnlyBefore(p, start, dot); None else None
  }

  /** Every prefix of a run of dots is a run of dots. */
  lemma DotsOnlyBefore(p: string, start: nat, dot: nat)
    requires start <= dot <= |p| && !HasNonDot(p[start..dot])
    ensures forall d :: start <= d <= dot ==> !HasNonDot(p[start..d])
  {
    forall d | start <= d <= dot ensures !HasNonDot(p[start..d]) {
      forall k | 0 <= k < d - start ensures p[start..d][k] == '.' {
        assert p[start..d][k] == p[start..dot][k];
      }
    }
  }

  /** `os.path.splitext(p)` for POSIX paths. */
  function SplitExt(p: string): (r: (string, string))
    ensures r.0 + r.1 == p
    ensures r.1 == [] || (r.1[0] == '.' && '/' !in r.1 && '.' !in r.1[1..])
    ensures ExtensionStart(p).None? ==> r == (p, [])
    ensures ExtensionStart(p).Some? ==> r.1 != [] && r.0 == p[..ExtensionStart(p).value]
  {
    match ExtensionStart(p)
    case None => (p, [])
    case Some(dot) =>
      ExtensionAt(p, BaseStart(p), dot);
      (p[..dot], p[dot..])
  }

  /** Cutting at a dot after which the rest of `p` holds no `/` and no
      further dot leaves an extension of the form `splitext` returns. */
  lemma ExtensionAt(p: string, start: nat, dot: nat)
    requires start <= dot < |p| && '/' !in p[start..]
    requires p[dot] == '.' && '.' !in p[dot + 1..]
    ensures p[..dot] + p[dot..] == p
    ensures p[dot..][0] == '.' && '/' !in p[dot..] && '.' !in p[dot..][1..]
  {
    assert p[dot..] == p[start..][dot - start..];
    assert p[dot..][1..] == p[dot + 1..];
  }

  datatype UploadKind = Video | Audio | Document

  const VideoExtensions: seq<string> := [".mp4", ".avi", ".mkv", ".mov", ".webm"]
  const AudioExtensions: seq<string> := [".mp3", ".wav", ".flac", ".ogg"]

  /** The send call an extension selects. */
  function KindOfExtension(ext: string): (k: UploadKind)
    ensures k == Video <==> ext in VideoExtensions
    ensures k == Audio <==> ext in AudioExtensions
  {
    if ext in VideoExtensions then Video
    else if ext in AudioExtensions then Audio
    else Document
  }

  /** The send call a downloaded file goes through, by its lower-cased
      extension. */
  function KindOf(path: string): (k: UploadKind)
    ensures k == Video <==> Lower(SplitExt(path).1) in VideoExtensions
    ensures k == Audio <==> Lower(SplitExt(path).1) in AudioExtensions
  {
    KindOfExtension(Lower(SplitExt(path).1))
  }

  lemma {:induction false} LastIndexOfLower(s: string, c: char)
    requires !('A' <= c <= 'Z') && !('a' <= c <= 'z')
    ensures LastIndexOf(Lower(s), c) == LastIndexOf(s, c)
    decreases |s|
  {
    if s != [] {
      var init := s[..|s| - 1];
      assert Lower(s)[..|s| - 1] == Lower(init);
      LastIndexOfLower(init, c);
    }
  }

  lemma LowerSlice(p: string, i: nat, j: nat)
    requires i <= j <= |p|
    ensures Lower(p)[i..j] == Lower(p[i..j])
  {
    assert forall k :: 0 <= k < j - i ==> Lower(p)[i..j][k] == LowerChar(p[i + k]);
  }

  lemma ExtensionStartLower(p: string)
    ensures ExtensionStart(Lower(p)) == ExtensionStart(p)
  {
    var q := Lower(p);
    LastIndexOfLower(p, '/');
    LastIndexOfLower(p, '.');
    var start := BaseStart(p);
    assert BaseStart(q) == start;
    match LastIndexOf(p, '.')
    case None =>
    case Some(dot) =>
      if start <= dot {
        LowerSlice(p, start, dot);
        LowerHasNonDot(p[start..dot]);
      }
  }

  lemma SplitExtLower(p: string)
    ensures SplitExt(Lower(p)).1 == Lower(SplitExt(p).1)
  {
    ExtensionStartLower(p);
    match ExtensionStart(p)
    case None =>
      assert SplitExt(p).1 == [];
    case Some(dot) =>
      LowerSuffix(p, dot);
  }

  lemma LowerSuffix(p: string, i: nat)
    requires i <= |p|
    ensures Lower(p)[i..] == Lower(p[i..])
  {
    LowerSlice(p, i, |p|);
    assert p[i..|p|] == p[i..];
  }

  lemma LowerIdempotent(s: string)
    ensures Lower(Lower(s)) == Lower(s)
  {
  }

  lemma LowerHasNonDot(s: string)
    ensures HasNonDot(Lower(s)) <==> HasNonDot(s)
  {
    if HasNonDot(s) {
      var k :| 0 <= k < |s| && s[k] != '.';
      assert Lower(s)[k] != '.';
    }
    if HasNonDot(Lower(s)) {
      var k :| 0 <= k < |s| && Lower(s)[k] != '.';
      assert s[k] != '.';
    }
  }

  /** Upper- and lower-case spellings of a name go through the same call. */
  lemma KindIgnoresCase(path: string)
    ensures KindOf(Lower(path)) == KindOf(path)
  {
    SplitExtLower(path);
    LowerIdempotent(SplitExt(path).1);
  }

  // ---------------------------------------------------------------------
  // Routing between yt-dlp and the direct downloader

  datatype Route = YoutubeDownload | DirectDownload

  /** `"youtube.com" in url or "youtu.be" in url`. */
  function RouteOf(url: string): (r: Route)
    ensures r == YoutubeDownload <==> Occurs(url, "youtube.com") || Occurs(url, "youtu.be")
  {
    if Contains(url, "youtube.com") || Contains(url, "youtu.be") then YoutubeDownload else DirectDownload
  }

  // ---------------------------------------------------------------------
  // Outcome of download_file

  datatype DirectOutcome = HttpError(status: int) | Incomplete(actual: int, expected: int) | Complete(actual: int)

  /** The size the download is checked against: the HEAD size, or the GET
      Content-Length when the HEAD gave 0. */
  function ExpectedSize(headSize: int, contentLength: int): int {
    if headSize == 0 then contentLength else headSize
  }

  /** `download_file` after the transfer: only 200 and 206 are accepted,
      and a positive expected size that was not reached fails the download. */
  function DirectDownloadOutcome(status: int, headSize: int, contentLength: int, actualSize: int): (r: DirectOutcome)
    ensures r.HttpError? <==> status != 200 && status != 206
    ensures r.HttpError? ==> r.status == status
    ensures r.Complete? <==>
      (status == 200 || status == 206)
      && (ExpectedSize(headSize, contentLength) <= 0 || actualSize >= ExpectedSize(headSize, contentLength))
    ensures r.Complete? ==> r.actual == actualSize
    ensures r.Incomplete? ==> r.expected > 0 && r.actual == actualSize < r.expected
  {
    if status != 200 && status != 206 then HttpError(status)
    else
      var expected := ExpectedSize(headSize, contentLength);
      if expected > 0 && actualSize < expected then Incomplete(actualSize, expected)
      else Complete(actualSize)
  }

  // ---------------------------------------------------------------------
  // yt-dlp error classification

  datatype YoutubeError = PrivateVideo | VideoUnavailable | VideoGeoblocked | OtherError(message: string)

  /** The first of the three known phrases found in the message, in the
      order the source tests them. */
  function ClassifyYoutubeError(message: string): (e: YoutubeError)
    ensures e == PrivateVideo <==> Occurs(message, "Private video")
    ensures e == VideoUnavailable <==> !Occurs(message, "Private video") && Occurs(message, "Unavailable video")
    ensures e == VideoGeoblocked <==>
      !Occurs(message, "Private video") && !Occurs(message, "Unavailable video") && Occurs(message, "Geoblocked")
    ensures e.OtherError? <==>
      !Occurs(message, "Private video") && !Occurs(message, "Unavailable video") && !Occurs(message, "Geoblocked")
    ensures e.OtherError? ==> e.message == message
  {
    if Contains(message, "Private video") then PrivateVideo
    else if Contains(message, "Unavailable video") then VideoUnavailable
    else if Contains(message, "Geoblocked") then VideoGeoblocked
    else OtherError(message)
  }

  // ---------------------------------------------------------------------
  // Progress bar of progress_for_pyrogram

  const BarLength: int := 20

  /** Python's `a // b`, which rounds toward negative infinity. */
  function FloorDiv(a: int, b: int): (q: int)
    requires b != 0
    ensures b > 0 ==> q * b <= a < q * b + b
    ensures b < 0 ==> q * b >= a > q * b + b
  {
    if b > 0 then a / b else (-a) / (-b)
  }

  /** `int(20 * current // total)`; there is no bar when `current == 0`
      (the update returns early) or `total == 0` (the division raises and
      the update is abandoned). */
  function FilledLength(current: int, total: int): (r: Option<int>)
    ensures r.Some? <==> current != 0 && total != 0
    ensures r.Some? && total > 0 ==> r.value * total <= BarLength * current < r.value * total + total
  {
    if current == 0 || total == 0 then None else Some(FloorDiv(BarLength * current, total))
  }

  /** The bar text: `'█' * filled + '░' * (20 - filled)`, where a
      negative count repeats nothing. */
  function Bar(current: int, total: int): (r: Option<string>)
    ensures r.Some? <==> FilledLength(current, total).Some?
    ensures r.Some? ==> var f := FilledLength(current, total).value;
      |r.value| == (if f < 0 then 0 else f) + (if BarLength - f < 0 then 0 else BarLength - f)
    ensures r.Some? ==> var f := FilledLength(current, total).value;
      forall k :: 0 <= k < |r.value| ==> r.value[k] == if k < f then '█' else '░'
  {
    match FilledLength(current, total)
    case None => None
    case Some(filled) => Some(Repeat('█', filled) + Repeat('░', BarLength - filled))
  }

  lemma ProductSign(x: int, t: int)
    requires t > 0
    ensures x * t <= 0 ==> x <= 0
    ensures x * t > 0 ==> x > 0
  {
  }

  /** While the transfer is within its size the bar is exactly 20 cells,
      and it is full exactly when the transfer is complete. */
  lemma BarShape(current: int, total: int)
    requires 0 < current <= total
    ensures FilledLength(current, total).Some?
    ensures 0 <= FilledLength(current, total).value <= BarLength
    ensures FilledLength(current, total).value == BarLength <==> current == total
    ensures |Bar(current, total).value| == BarLength
    ensures forall k :: 0 <= k < BarLength ==>
      Bar(current, total).value[k] == if k < FilledLength(current, total).value then '█' else '░'
  {
    var f := FilledLength(current, total).value;
    assert f * total <= BarLength * current < f * total + total;
    assert (f - BarLength) * total == f * total - BarLength * total;
    ProductSign(f - BarLength, total);
    assert (f + 1) * total == f * total + total;
    ProductSign(f + 1, total);
    assert current == total ==> (f - BarLength + 1) * total > 0;
    ProductSign(f - BarLength + 1, total);
  }

  /** More bytes never draw a shorter bar. */
  lemma BarMonotone(c1: int, c2: int, total: int)
    requires 0 < c1 <= c2 && total > 0
    ensures FilledLength(c1, total).value <= FilledLength(c2, total).value
  {
    var f1, f2 := FilledLength(c1, total).value, FilledLength(c2, total).value;
    assert f1 * total <= BarLength * c1 <= BarLength * c2 < f2 * total + total;
    assert (f2 - f1 + 1) * total == f2 * total + total - f1 * total;
    ProductSign(f2 - f1 + 1, total);
  }
}
