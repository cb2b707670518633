/** uploder.py's `process_youtube` keyboard: the mp4 formats that have a
    height are sorted tallest first, one button is kept per resolution, the
    buttons are packed two to a row, and the Audio / Custom Name and Cancel
    rows close the keyboard.  The format list is what yt_dlp reported for
    the link; the chat-client calls around it are not modelled. */
module Quality {
  import opened Text

  /** One entry of `full_info["formats"]`: the keys the keyboard reads. */
  datatype Format = Format(height: Option<int>, ext: Option<string>, formatId: Option<string>)

  /** An `InlineKeyboardButton(text, callback_data=callback)`. */
  datatype Button = Button(text: string, callback: string)

  /** `f.get('height') and f.get('ext') == 'mp4'`: a height is truthy when
      it is present and non-zero. */
  predicate IsQualityFormat(f: Format) {
    f.height.Some? && f.height.value != 0 && f.ext == Some("mp4")
  }

  /** The sort key `x.get('height', 0)`. */
  function Height(f: Format): int {
    if f.height.Some? then f.height.value else 0
  }

  /** `f"{height}p"`. */
  function Resolution(h: int): (r: string)
    ensures |r| >= 2 && r[|r| - 1] == 'p'
  {
    IntToString(h) + "p"
  }

  /** Two heights share a resolution label only when they are equal. */
  lemma ResolutionInjective(a: int, b: int)
    requires Resolution(a) == Resolution(b)
    ensures a == b
  {
    assert IntToString(a) == Resolution(a)[..|Resolution(a)| - 1];
    assert IntToString(b) == Resolution(b)[..|Resolution(b)| - 1];
    IntToStringInjective(a, b);
  }

  // ---------------------------------------------------------------------
  // The list comprehension and the sort

  /** `[f for f in formats if f.get('height') and f.get('ext') == 'mp4']`. */
  function QualityFormats(formats: seq<Format>): (r: seq<Format>)
    ensures forall f :: f in r <==> f in formats && IsQualityFormat(f)
    ensures |r| <= |formats|
  {
    if formats == [] then []
    else (if IsQualityFormat(formats[0]) then [formats[0]] else []) + QualityFormats(formats[1..])
  }

  /** A qualifying format of height `h`. */
  predicate QualifiesWith(f: Format, h: int) {
    IsQualityFormat(f) && Height(f) == h
  }

  /** The first qualifying format of height `h` among the formats the
      comprehension keeps, one entry at a time. */
  lemma QualityFormatsStep(formats: seq<Format>, h: int)
    requires formats != []
    ensures FirstWith(QualityFormats(formats), h) ==
      if QualifiesWith(formats[0], h) then Some(formats[0]) else FirstWith(QualityFormats(formats[1..]), h)
  {
    var q, rest := QualityFormats(formats), QualityFormats(formats[1..]);
    if IsQualityFormat(formats[0]) {
      assert q == [formats[0]] + rest;
      assert q[1..] == rest;
    } else {
      assert q == rest;
    }
  }

  /** The comprehension keeps yt_dlp's order: the first qualifying format
      of height `h` is the earliest entry of `formats` that qualifies with
      that height, and there is none exactly when no entry does. */
  lemma {:induction false} QualityFormatsFirst(formats: seq<Format>, h: int)
    ensures FirstWith(QualityFormats(formats), h).None? <==>
      forall i :: 0 <= i < |formats| ==> !QualifiesWith(formats[i], h)
    ensures FirstWith(QualityFormats(formats), h).Some? ==>
      exists i :: 0 <= i < |formats| && FirstWith(QualityFormats(formats), h) == Some(formats[i])
        && QualifiesWith(formats[i], h) && forall j :: 0 <= j < i ==> !QualifiesWith(formats[j], h)
  {
    if formats != [] {
      var tail := formats[1..];
      QualityFormatsStep(formats, h);
      if QualifiesWith(formats[0], h) {
        assert FirstWith(QualityFormats(formats), h) == Some(formats[0]);
      } else {
        QualityFormatsFirst(tail, h);
        assert forall i :: 1 <= i < |formats| ==> formats[i] == tail[i - 1];
        if FirstWith(QualityFormats(tail), h).Some? {
          var i :| 0 <= i < |tail| && FirstWith(QualityFormats(tail), h) == Some(tail[i])
            && QualifiesWith(tail[i], h) && forall j :: 0 <= j < i ==> !QualifiesWith(tail[j], h);
          assert formats[i + 1] == tail[i];
        }
      }
    }
  }

  /** Heights never increase along `s`. */
  predicate Descending(s: seq<Format>) {
    forall i, j :: 0 <= i < j < |s| ==> Height(s[i]) >= Height(s[j])
  }

  /** Places `x` in front of the first element that is not taller. */
  function Insert(x: Format, s: seq<Format>): (r: seq<Format>)
    ensures multiset(r) == multiset(s) + multiset{x}
  {
    if s == [] || Height(s[0]) <= Height(x) then [x] + s
    else
      assert s == [s[0]] + s[1..];
      [s[0]] + Insert(x, s[1..])
  }

  /** Inserting into a list sorted tallest first keeps it sorted. */
  lemma {:induction false} InsertDescending(x: Format, s: seq<Format>)
    requires Descending(s)
    ensures Descending(Insert(x, s))
  {
    if s != [] && Height(s[0]) > Height(x) {
      var rest := Insert(x, s[1..]);
      InsertDescending(x, s[1..]);
      forall j | 0 <= j < |rest| ensures Height(rest[j]) <= Height(s[0]) {
        assert rest[j] in multiset(rest);
        if rest[j] != x {
          assert rest[j] in multiset(s[1..]);
          var k :| 0 <= k < |s[1..]| && s[1..][k] == rest[j];
          assert s[k + 1] == rest[j];
        }
      }
      assert Insert(x, s) == [s[0]] + rest;
    }
  }

  /** `video_formats.sort(key=lambda x: x.get('height', 0), reverse=True)`:
      Python's sort is stable under `reverse=True` too, so formats of equal
      height keep the order yt_dlp listed them in. */
  function SortDesc(s: seq<Format>): (r: seq<Format>)
    ensures multiset(r) == multiset(s)
    ensures Descending(r)
  {
    if s == [] then []
    else
      assert s == [s[0]] + s[1..];
      InsertDescending(s[0], SortDesc(s[1..]));
      Insert(s[0], SortDesc(s[1..]))
  }

  /** The first format of `s` with height `h`, if any. */
  function FirstWith(s: seq<Format>, h: int): (r: Option<Format>)
    ensures r.Some? ==> r.value in s && Height(r.value) == h
    ensures r.None? <==> forall g :: g in s ==> Height(g) != h
  {
    if s == [] then None
    else if Height(s[0]) == h then Some(s[0])
    else FirstWith(s[1..], h)
  }

  lemma {:induction false} InsertFirstWith(x: Format, s: seq<Format>, h: int)
    ensures FirstWith(Insert(x, s), h) == if Height(x) == h then Some(x) else FirstWith(s, h)
  {
    if s == [] || Height(s[0]) <= Height(x) {
      assert ([x] + s)[1..] == s;
    } else {
      assert ([s[0]] + Insert(x, s[1..]))[1..] == Insert(x, s[1..]);
      if Height(s[0]) != h {
        InsertFirstWith(x, s[1..], h);
      }
    }
  }

  /** The sort is stable: for every height, the first format of that height
      is the same before and after sorting. */
  lemma {:induction false} SortDescStable(s: seq<Format>, h: int)
    ensures FirstWith(SortDesc(s), h) == FirstWith(s, h)
  {
    if s != [] {
      SortDescStable(s[1..], h);
      InsertFirstWith(s[0], SortDesc(s[1..]), h);
    }
  }

  // ---------------------------------------------------------------------
  // One button per resolution

  /** The labels already in `seen_resolutions` after choosing `d`. */
  function Resolutions(d: seq<Format>): set<string> {
    if d == [] then {} else Resolutions(d[..|d| - 1]) + {Resolution(Height(d[|d| - 1]))}
  }

  /** A label is in the set exactly when some chosen format has it. */
  lemma {:induction false} ResolutionsMember(d: seq<Format>, r: string)
    ensures r in Resolutions(d) <==> exists g :: g in d && Resolution(Height(g)) == r
  {
    if d != [] {
      var init := d[..|d| - 1];
      ResolutionsMember(init, r);
      assert d == init + [d[|d| - 1]];
    }
  }

  /** The formats the loop turns into buttons: each one whose resolution
      has not been seen before it. */
  function Dedup(s: seq<Format>): (r: seq<Format>)
    ensures forall g :: g in r ==> g in s
    ensures |r| <= |s|
  {
    if s == [] then []
    else
      var d := Dedup(s[..|s| - 1]);
      var f := s[|s| - 1];
      if Resolution(Height(f)) in Resolutions(d) then d else d + [f]
  }

  lemma LastSplit<T>(s: seq<T>)
    requires s != []
    ensures s == s[..|s| - 1] + [s[|s| - 1]]
  {
  }

  lemma FirstWithSnoc(s: seq<Format>, f: Format, h: int)
    ensures FirstWith(s + [f], h)
      == if FirstWith(s, h).Some? then FirstWith(s, h) else if Height(f) == h then Some(f) else None
  {
    if s != [] {
      assert (s + [f])[1..] == s[1..] + [f];
      FirstWithSnoc(s[1..], f, h);
    } else {
      assert [f][1..] == [];
    }
  }

  /** A format whose resolution is already chosen adds nothing new: some
      chosen format has its height. */
  lemma SeenHeight(d: seq<Format>, f: Format)
    requires Resolution(Height(f)) in Resolutions(d)
    ensures FirstWith(d, Height(f)).Some?
  {
    ResolutionsMember(d, Resolution(Height(f)));
    var g :| g in d && Resolution(Height(g)) == Resolution(Height(f));
    ResolutionInjective(Height(g), Height(f));
  }

  /** Deduplication keeps, for every height, the first format with it. */
  lemma {:induction false} DedupFirstWith(s: seq<Format>, h: int)
    ensures FirstWith(Dedup(s), h) == FirstWith(s, h)
  {
    if s != [] {
      var init, f := s[..|s| - 1], s[|s| - 1];
      var d := Dedup(init);
      LastSplit(s);
      DedupFirstWith(init, h);
      FirstWithSnoc(init, f, h);
      if Resolution(Height(f)) in Resolutions(d) {
        assert Dedup(s) == d;
        SeenHeight(d, f);
        if FirstWith(init, h).None? {
          assert Height(f) != h;
        }
      } else {
        assert Dedup(s) == d + [f];
        FirstWithSnoc(d, f, h);
      }
    }
  }

  /** Heights strictly decrease along `d`. */
  predicate StrictlyDescending(d: seq<Format>) {
    forall i, j :: 0 <= i < j < |d| ==> Height(d[i]) > Height(d[j])
  }

  /** A format that is no taller than any chosen one and whose resolution
      is new is strictly shorter than all of them. */
  lemma ShorterThanChosen(d: seq<Format>, f: Format)
    requires forall g :: g in d ==> Height(g) >= Height(f)
    requires Resolution(Height(f)) !in Resolutions(d)
    ensures forall i :: 0 <= i < |d| ==> Height(d[i]) > Height(f)
  {
    forall i | 0 <= i < |d| ensures Height(d[i]) > Height(f) {
      ResolutionsMember(d, Resolution(Height(d[i])));
    }
  }

  lemma StrictlyDescendingSnoc(d: seq<Format>, f: Format)
    requires StrictlyDescending(d)
    requires forall i :: 0 <= i < |d| ==> Height(d[i]) > Height(f)
    ensures StrictlyDescending(d + [f])
  {
  }

  /** Out of a list sorted tallest first, deduplication leaves heights that
      strictly decrease: no resolution appears twice. */
  lemma {:induction false} DedupStrictlyDescending(s: seq<Format>)
    requires Descending(s)
    ensures StrictlyDescending(Dedup(s))
  {
    if s != [] {
      LastSplit(s);
      var init, f := s[..|s| - 1], s[|s| - 1];
      var d := Dedup(init);
      assert Descending(init);
      DedupStrictlyDescending(init);
      if Resolution(Height(f)) !in Resolutions(d) {
        forall g | g in d ensures Height(g) >= Height(f) {
          assert g in init;
          var k :| 0 <= k < |init| && init[k] == g;
          assert s[k] == g;
        }
        ShorterThanChosen(d, f);
        StrictlyDescendingSnoc(d, f);
        assert Dedup(s) == d + [f];
      } else {
        assert Dedup(s) == d;
      }
    }
  }

  /** The formats that get a quality button, in button order. */
  function Chosen(formats: seq<Format>): seq<Format> {
    Dedup(SortDesc(QualityFormats(formats)))
  }

  /** The quality buttons are exactly one per distinct height of an mp4
      format, tallest first, and each carries the first format yt_dlp
      listed with that height. */
  lemma ChosenFormats(formats: seq<Format>)
    ensures StrictlyDescending(Chosen(formats))
    ensures forall g :: g in Chosen(formats) ==> g in formats && IsQualityFormat(g)
    ensures forall h :: FirstWith(Chosen(formats), h) == FirstWith(QualityFormats(formats), h)
  {
    var q := QualityFormats(formats);
    DedupStrictlyDescending(SortDesc(q));
    forall g | g in Chosen(formats) ensures g in formats && IsQualityFormat(g) {
      assert g in multiset(SortDesc(q));
    }
    forall h ensures FirstWith(Chosen(formats), h) == FirstWith(q, h) {
      DedupFirstWith(SortDesc(q), h);
      SortDescStable(q, h);
    }
  }

  /** There is a quality button for height `h` exactly when some mp4 format
      has that height. */
  lemma ChosenHeights(formats: seq<Format>, h: int)
    ensures (exists g :: g in Chosen(formats) && Height(g) == h)
        <==> (exists f :: f in formats && IsQualityFormat(f) && Height(f) == h)
  {
    ChosenFormats(formats);
    var q := QualityFormats(formats);
    assert FirstWith(Chosen(formats), h) == FirstWith(q, h);
    if exists f :: f in formats && IsQualityFormat(f) && Height(f) == h {
      var f :| f in formats && IsQualityFormat(f) && Height(f) == h;
      assert f in q;
    }
  }

  // ---------------------------------------------------------------------
  // The keyboard

  /** `fmt.get('format_id', '')`. */
  function FormatIdText(f: Format): string {
    if f.formatId.Some? then f.formatId.value else ""
  }

  function VideoButton(f: Format, url: string): Button {
    Button("🎥 " + Resolution(Height(f)), "ytdl_video_quality|" + url + "|" + FormatIdText(f))
  }

  /** The quality buttons for the chosen formats `d`, in order. */
  function QualityButtons(d: seq<Format>, url: string): (r: seq<Button>)
    ensures |r| == |d|
    ensures forall i :: 0 <= i < |d| ==> r[i] == VideoButton(d[i], url)
  {
    if d == [] then [] else QualityButtons(d[..|d| - 1], url) + [VideoButton(d[|d| - 1], url)]
  }

  /** The two rows every keyboard ends with. */
  function FixedRows(url: string): seq<seq<Button>> {
    [[Button("🎵 Audio", "ytdl_audio|" + url), Button("✏️ Custom Name", "ytdl|" + url + "|rename")],
     [Button("❌ Cancel", "cancel")]]
  }

  /** All buttons of `rows`, row by row. */
  function Flatten(rows: seq<seq<Button>>): seq<Button> {
    if rows == [] then [] else Flatten(rows[..|rows| - 1]) + rows[|rows| - 1]
  }

  /** Every row holds two buttons. */
  predicate AllPairs(rows: seq<seq<Button>>) {
    forall k :: 0 <= k < |rows| ==> |rows[k]| == 2
  }

  lemma AllPairsSnoc(rows: seq<seq<Button>>, row: seq<Button>)
    requires AllPairs(rows) && |row| == 2
    ensures AllPairs(rows + [row])
  {
  }

  lemma AppendAssoc<T>(a: seq<T>, b: seq<T>, c: seq<T>)
    ensures a + (b + c) == (a + b) + c
  {
  }

  lemma FlattenSnoc(rows: seq<seq<Button>>, row: seq<Button>)
    ensures Flatten(rows + [row]) == Flatten(rows) + row
  {
    assert (rows + [row])[..|rows|] == rows;
  }

  /** One more step of the loop over `s`, at index `i`. */
  lemma DedupStep(s: seq<Format>, i: nat)
    requires i < |s|
    ensures Dedup(s[..i + 1]) == if Resolution(Height(s[i])) in Resolutions(Dedup(s[..i]))
                                  then Dedup(s[..i]) else Dedup(s[..i]) + [s[i]]
  {
    assert s[..i + 1][..i] == s[..i];
  }

  lemma ResolutionsSnoc(d: seq<Format>, f: Format)
    ensures Resolutions(d + [f]) == Resolutions(d) + {Resolution(Height(f))}
  {
    assert (d + [f])[..|d|] == d;
  }

  lemma QualityButtonsSnoc(d: seq<Format>, f: Format, url: string)
    ensures QualityButtons(d + [f], url) == QualityButtons(d, url) + [VideoButton(f, url)]
  {
    assert (d + [f])[..|d|] == d;
  }

  /** `current_row.append(button)`, and the row closed into
      `video_buttons` once it holds two buttons. */
  method AddButton(videoButtons: seq<seq<Button>>, currentRow: seq<Button>, button: Button)
    returns (videoButtons': seq<seq<Button>>, currentRow': seq<Button>)
    requires AllPairs(videoButtons) && |currentRow| < 2
    ensures Flatten(videoButtons') + currentRow' == Flatten(videoButtons) + currentRow + [button]
    ensures AllPairs(videoButtons') && |currentRow'| < 2
    ensures 2 * |videoButtons'| + |currentRow'| == 2 * |videoButtons| + |currentRow| + 1
  {
    AppendAssoc(Flatten(videoButtons), currentRow, [button]);
    videoButtons', currentRow' := videoButtons, currentRow + [button];
    if |currentRow'| == 2 {
      FlattenSnoc(videoButtons', currentRow');
      AllPairsSnoc(videoButtons', currentRow');
      videoButtons', currentRow' := videoButtons' + [currentRow'], [];
    }
  }

  /** The button loop of `process_youtube` over the sorted formats
      `videoFormats`: a button for each format whose resolution is not yet
      in `seen_resolutions`.  It ends with the closed rows and the row still
      being filled. */
  method QualityRows(videoFormats: seq<Format>, url: string)
    returns (videoButtons: seq<seq<Button>>, currentRow: seq<Button>)
    ensures Flatten(videoButtons) + currentRow == QualityButtons(Dedup(videoFormats), url)
    ensures AllPairs(videoButtons) && |currentRow| < 2
    ensures 2 * |videoButtons| + |currentRow| == |Dedup(videoFormats)|
  {
    var seen: set<string> := {};
    currentRow := [];
    videoButtons := [];
    ghost var chosen: seq<Format> := [];
    for i := 0 to |videoFormats|
      invariant chosen == Dedup(videoFormats[..i])
      invariant seen == Resolutions(chosen)
      invariant Flatten(videoButtons) + currentRow == QualityButtons(chosen, url)
      invariant AllPairs(videoButtons) && |currentRow| < 2
      invariant 2 * |videoButtons| + |currentRow| == |chosen|
    {
      var fmt := videoFormats[i];
      DedupStep(videoFormats, i);
      var resolution := Resolution(Height(fmt));
      if resolution !in seen {
        ResolutionsSnoc(chosen, fmt);
        QualityButtonsSnoc(chosen, fmt, url);
        chosen := chosen + [fmt];
        seen := seen + {resolution};
        videoButtons, currentRow := AddButton(videoButtons, currentRow, VideoButton(fmt, url));
      }
    }
    assert videoFormats[..|videoFormats|] == videoFormats;
  }

  /** `if current_row: video_buttons.append(current_row)`. */
  method CloseRows(videoButtons: seq<seq<Button>>, currentRow: seq<Button>) returns (rows: seq<seq<Button>>)
    requires AllPairs(videoButtons) && |currentRow| < 2
    ensures Flatten(rows) == Flatten(videoButtons) + currentRow
    ensures |rows| == (2 * |videoButtons| + |currentRow| + 1) / 2
    ensures forall k :: 0 <= k < |rows| - 1 ==> |rows[k]| == 2
    ensures rows != [] ==> 1 <= |rows[|rows| - 1]| <= 2
  {
    rows := videoButtons;
    if currentRow != [] {
      FlattenSnoc(videoButtons, currentRow);
      rows := videoButtons + [currentRow];
    } else {
      assert Flatten(videoButtons) + currentRow == Flatten(videoButtons);
    }
  }

  /** The keyboard `process_youtube` builds for `url` from the formats of
      the video: the quality rows, every one of two buttons except possibly
      the last, then the fixed rows. */
  method QualityKeyboard(formats: seq<Format>, url: string) returns (rows: seq<seq<Button>>)
    ensures |rows| >= 2 && rows[|rows| - 2..] == FixedRows(url)
    ensures Flatten(rows[..|rows| - 2]) == QualityButtons(Chosen(formats), url)
    ensures |rows| - 2 == (|Chosen(formats)| + 1) / 2
    ensures forall k :: 0 <= k < |rows| - 3 ==> |rows[k]| == 2
    ensures |rows| > 2 ==> 1 <= |rows[|rows| - 3]| <= 2
  {
    var videoFormats := SortDesc(QualityFormats(formats));
    var videoButtons, currentRow := QualityRows(videoFormats, url);
    videoButtons := CloseRows(videoButtons, currentRow);
    rows := videoButtons + FixedRows(url);
    assert rows[..|rows| - 2] == videoButtons;
    assert rows[|rows| - 2..] == FixedRows(url);
  }
}
