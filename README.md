# URL uploader bot — a Dafny model of its core

The bot is a Telegram bot (Pyrogram) that downloads a file from a direct
URL or from YouTube (yt-dlp) and uploads it back to the chat. This project
models the parts of `uploder.py` and `plugins/utils.py` that make decisions.
It keeps the bot's state and its rules; the network, the file system and
the chat client become parameters:

- **Message handler** (`Handlers`, `handle_message`). A text message first
  trims the sender's tracked messages. Then it either answers a pending
  rename, ignores a command, hands a YouTube link to the downloader, offers
  the three download options for a direct URL (provided it is at most 2 GiB),
  or answers that the link is invalid.
- **Button handler** (`Pending`, `callback_handler`). This covers the two
  process-wide dictionaries `pending_downloads` and `pending_renames`, and
  the `default|id`, `rename|id`, `cancel|id`, menu and close buttons.
- **Message tracking** (`Tracking`, `recent_bot_messages`,
  `clean_previous_messages`, `send_tracked_message`). For each user the bot
  keeps the ids of its newest three messages and deletes older ones.
- **Download and upload decisions** (`Upload`). These are:
  - the sanitised upload filename;
  - the send call chosen by extension;
  - the YouTube-or-direct routing;
  - the outcome of a direct download;
  - the yt-dlp error classification;
  - the progress bar.
- **YouTube quality keyboard** (`Quality`, part of `process_youtube`). The
  mp4 formats that have a height are sorted by height, one is kept per
  resolution, and they are laid out two buttons to a row, followed by the
  Audio / Custom Name row and the Cancel row.
- **Broadcast** (`Broadcast`, `broadcast_handler`). The owner's reply is
  sent to every user, and sends, failures and blocked users are counted.
- **Helpers in `plugins/utils.py`** (`Utils`). These are:
  - `TimeFormatter`;
  - `progressArgs`;
  - `get_filename`, which uses the Content-Disposition header and falls
    back to the URL;
  - the chunk loop of `async_download_file`.
- **String primitives** (`Text`). These are Python's `in`, `split`,
  `strip`, `lower`, `startswith` and `str(int)`, each with its
  specification.

State that the source mutates is modelled by classes:
- `Tracking.Tracker` holds `recent_bot_messages`;
- `Pending.PendingState` holds the two pending dictionaries.

Their loops (the deletion loop, the broadcast loop, the keyboard loop and
the chunk loop) are methods, each proved against a specification function.

Button strings such as `ytdl_video_quality|…`, `ytdl_audio|…`,
`ytdl|…|rename` and the bare `cancel` are put on the quality keyboard by
`process_youtube`. `callback_handler` has no branch for any of them, so
pressing one answers "Invalid button". `Pending.PendingState.OnCallback`
states exactly that: any data outside the handled forms yields
`InvalidButton`.

## Model

| member | source | states |
|---|---|---|
| Text.Contains | uploder.py:402 | Python's `sub in s` is true exactly when `sub` occurs at some index of `s` |
| Text.SplitOn | uploder.py:1229 | `s.split(sep)` has at least one part. No part contains the separator. There is a single part exactly when the separator is absent. Joining the parts with the separator gives `s` back |
| Text.SplitJoin | uploder.py:1229 | splitting a join of separator-free parts gives back exactly those parts |
| Text.LastPart | uploder.py:382 | `s.split(sep)[-1]` is a separator-free suffix of `s`. A separator precedes it unless it is the whole string, which happens exactly when `s` has no separator |
| Text.FirstPart | plugins/utils.py:74 | `s.split(sep)[0]` is a separator-free prefix of `s`. A separator follows it unless it is the whole string |
| Text.Lower | uploder.py:1307 | `lower()` keeps the length and lowercases each character independently (ASCII letters only) |
| Text.Strip | uploder.py:1300 | `strip()` is no longer than `s`, neither starts nor ends with whitespace, and is empty exactly when `s` is all whitespace |
| Text.StripRemovesSpace | uploder.py:1300 | every character `strip()` removes, on either side, is whitespace |
| Text.IntToString | plugins/utils.py:129-132 | `str(i)` is non-empty and starts with `-` exactly for negative numbers |
| Text.ParseNatToString | uploder.py:145 | reading the digits of `str(n)` back gives `n` |
| Text.IntToStringInjective | uploder.py:145 | distinct integers render as distinct strings |
| Text.IntToStringZero | plugins/utils.py:129-132 | `str(i)` is `"0"` exactly when `i` is zero |
| Utils.Breakdown | plugins/utils.py:123-126 | the `divmod` chain gives hours < 24, minutes < 60, seconds < 60 and millis < 1000. The parts add back up to the input. Days are negative exactly for negative inputs (floor division) |
| Utils.Part | plugins/utils.py:129-132 | a unit's piece is empty exactly when its value is zero |
| Utils.TimeFormatter | plugins/utils.py:122-134 | the result is never empty, and it is `"0s"` exactly when the duration is less than one second and not negative |
| Utils.TimeFormatterIgnoresMillis | plugins/utils.py:123 | the text does not depend on the sub-second part |
| Utils.ProgressArgs | plugins/utils.py:14-22 | the tuple holds the three arguments, then the template and the two bar characters |
| Utils.MatchAt | plugins/utils.py:70 | a match of `filename="(.+)"` at index `i` captures a non-empty text without a newline, and the whole quoted pattern occurs at `i` |
| Utils.MatchAtExact | plugins/utils.py:70 | a match at `i` exists exactly when `filename="` occurs there and its line has a quote after at least one character. The capture is greedy: it runs up to the last quote of that line |
| Utils.FirstMatch | plugins/utils.py:70-72 | `findall(...)[0]`: there is no result exactly when no index matches, and a result is the match at some index |
| Utils.FirstMatchLeftmost | plugins/utils.py:70-72 | `findall(...)[0]` is the match at the leftmost matching index: no earlier index matches |
| Utils.DispositionFilename | plugins/utils.py:68-72 | a filename taken from the header is non-empty, has no newline, and appears quoted after `filename="`. There is none exactly when no index of the header matches |
| Utils.DispositionFound | plugins/utils.py:68-72 | when the first match is at `i`, the header's filename is the text from after `filename="` to the last quote of that line |
| Utils.FallbackName | plugins/utils.py:74 | the URL's last `/`-segment, cut at its first `?`, contains neither `/` nor `?` |
| Utils.GetFilename | plugins/utils.py:64-77 | a quoted header filename wins. A failed request, a missing header, or a header without a match falls back to the URL name |
| Utils.ReportsMonotone | plugins/utils.py:40-44 | the progress callback gets one call per chunk, with a byte count that never decreases and ends at the total written |
| Utils.DownloadFile | plugins/utils.py:24-46 | a non-200 status writes nothing and reports nothing. Otherwise the file holds the concatenated chunks under `Download/`, and each chunk is reported when a callback is given |
| Upload.Sanitize | uploder.py:385 | the sanitised name has the same length. Safe characters stay in place and every other character becomes `_` |
| Upload.SanitizeIdempotent | uploder.py:385 | sanitising twice is the same as sanitising once |
| Upload.SanitizeKeepsDots | uploder.py:385-389 | the sanitised name contains a dot exactly when the original does |
| Upload.BaseName | uploder.py:378-382 | a truthy custom name is used as is. Otherwise the URL's non-empty last segment (a `/`-free suffix) is used. An empty segment gives the fresh id |
| Upload.UploadFilename | uploder.py:378-389 | the upload name always contains a dot and only safe characters. It starts with the sanitised base name, and `.bin` is added exactly when the base has no dot |
| Upload.ExtensionStart | uploder.py:437 | `splitext` cuts at the last dot of the basename, and only when something other than dots precedes it. When there is no cut, no dot of the basename has a non-dot before it |
| Upload.SplitExt | uploder.py:437 | the two parts concatenate back to the path. The extension is empty exactly when there is no cut, and otherwise is one dot followed by no `/` and no dot, starting at the cut |
| Upload.KindOfExtension | uploder.py:441-467 | video exactly for the five video extensions, audio exactly for the four audio ones, and a document otherwise |
| Upload.KindOf | uploder.py:437-467 | the send call follows the lowercased extension |
| Upload.KindIgnoresCase | uploder.py:437 | the same path in any letter case goes through the same send call |
| Upload.RouteOf | uploder.py:402 | yt-dlp is used exactly when the URL contains `youtube.com` or `youtu.be` |
| Upload.DirectDownloadOutcome | uploder.py:545-580 | a status other than 200 or 206 is an HTTP error. A positive expected size (HEAD size, else GET Content-Length) that was not reached is an incomplete download. Everything else completes |
| Upload.ClassifyYoutubeError | uploder.py:799-807 | the first known phrase, in source order, decides the class. Any other message is reported verbatim |
| Upload.FloorDiv | uploder.py:643 | Python's `//` rounds toward negative infinity, for either sign of divisor |
| Upload.FilledLength | uploder.py:625-643 | there is a bar exactly when `current` and `total` are non-zero, and its filled length is `⌊20·current/total⌋` |
| Upload.Bar | uploder.py:644 | a bar text exists exactly when a filled length does. It holds the filled count of `█` cells (none when negative) and then `20 - filled` cells of `░` |
| Upload.BarShape | uploder.py:642-644 | for `0 < current <= total` the bar has exactly 20 cells, the first `filled` of them `█` and the rest `░`, and it is full exactly when the transfer is complete |
| Upload.BarMonotone | uploder.py:643 | more bytes never draw a shorter bar |
| Tracking.KeepNewest | uploder.py:899-900 | at most `max` ids are kept, and never more than there were |
| Tracking.KeepNewestSuffix | uploder.py:899-907 | what is kept is a suffix: the whole list when it fits, otherwise exactly `max` ids |
| Tracking.Cleaned | uploder.py:896-907 | after clean-up the user's entry holds the newest `max` of their old ids. The user becomes a key, and every other user's entry is unchanged |
| Tracking.KeepNewestAppend | uploder.py:946-949 | appending one id and keeping `max + 1` keeps the newest `max` old ids, then the new one |
| Tracking.TrackedKeepsNewest | uploder.py:940-949 | after a tracked send the new id is the newest entry. The list holds 1 to 3 ids: the newest two old ones, then the new one |
| Tracking.TrackedOthersUnchanged | uploder.py:940-949 | tracking a message for one user leaves every other user's list unchanged |
| Tracking.Tracker.constructor | uploder.py:883 | the tracker starts empty |
| Tracking.Tracker.Clean | uploder.py:885-909 | the deleted ids followed by the kept ones are the old list. A non-negative bound stores `Cleaned`. A negative bound empties an existing list and stores nothing new |
| Tracking.Tracker.SendTracked | uploder.py:911-954 | a sent message for a truthy user is appended and trimmed, with every removed id deleted. A failed send or a missing user changes nothing |
| Pending.ButtonsDistinct | uploder.py:1147-1271 | at most one branch of the button handler matches a callback string |
| Pending.CallbackFileId | uploder.py:1229 | the id read from the button contains no `\|` |
| Pending.CallbackFileIdRoundTrip | uploder.py:1361-1378 | an option button built for an id is recognised as its action, and the handler reads back exactly that id |
| Pending.PendingState.constructor | uploder.py:79-80 | both dictionaries start empty |
| Pending.PendingState.PendingUrl | uploder.py:1230-1232 | a URL is found exactly when the id is pending with a non-empty URL |
| Pending.PendingState.OnCallback | uploder.py:1108-1289 | Empty data is ignored. A press without a message is invalid. Menus and close are recognised. `default\|id` downloads a pending URL or says the link expired. `rename\|id` stores a direct rename request once the prompt is shown. `cancel\|id` forgets the id. Anything else is an invalid button. No other state changes |
| Pending.PendingState.OnFileButton | uploder.py:1227-1275 | the same, for the three option buttons and the final else branch |
| Handlers.SendReply | uploder.py:1308-1313 | a tracked reply updates the tracked list exactly as `send_tracked_message` does |
| Handlers.AnswerRename | uploder.py:1306-1327 | the pending rename is consumed. `/cancel` in any case cancels it. Otherwise the text becomes the filename of the stored URL, through the downloader of the stored type |
| Handlers.UrlReply | uploder.py:1339-1399 | For the size from `get_file_size` (0 when the HEAD request fails): more than 2 GiB is refused, unless `humanbytes` raises on it (1024^9 bytes or more), which is the URL error. Sizes from 0 to 2 GiB are offered under the fresh id. A negative size makes `humanbytes` raise, so it is the URL error |
| Handlers.AnswerText | uploder.py:1329-1408 | Commands are ignored. A YouTube link goes to yt-dlp. A non-URL is invalid. A URL gets `UrlReply`. The fresh id is added to `pending_downloads` exactly when the size is at most 2 GiB, negative sizes included, since the id is stored before `humanbytes` raises |
| Handlers.HandleMessage | uploder.py:1292-1415 | The stripped text is handled by the rename branch or by the classification above, with the same `pending_downloads` update. The tracked list is cleaned first and then records the tracked reply |
| Handlers.RenameConversation | uploder.py:1243-1327 | a URL is offered, then "Custom Name" is pressed, then a name is sent. The result is a download of that same URL under the stripped name, or a cancellation on `/cancel` |
| Quality.Resolution | uploder.py:145 | the resolution label ends in `p` |
| Quality.ResolutionInjective | uploder.py:145-146 | two heights share a label only when they are equal, so the seen-set deduplicates by height |
| Quality.QualityFormats | uploder.py:134-137 | a format is kept exactly when it is in the list, has a truthy height and has extension `mp4` |
| Quality.QualityFormatsFirst | uploder.py:134-137 | the filter keeps the input order: the first kept format of a height is the first qualifying format of that height in the input, and there is none exactly when no format qualifies with it |
| Quality.Insert | uploder.py:140 | inserting adds the element and nothing else (multiset) |
| Quality.InsertDescending | uploder.py:140 | insertion keeps the list sorted by descending height |
| Quality.SortDesc | uploder.py:140 | the sort is a permutation ordered by descending height |
| Quality.SortDescStable | uploder.py:140 | the sort is stable: the first format of each height is unchanged |
| Quality.ResolutionsMember | uploder.py:143-147 | a label is in the seen-set exactly when some kept format has that resolution |
| Quality.Dedup | uploder.py:143-147 | deduplication keeps only formats that were in the list |
| Quality.DedupFirstWith | uploder.py:143-147 | deduplication keeps, for every height, the first format of that height |
| Quality.DedupStrictlyDescending | uploder.py:140-147 | after a descending sort, the kept formats have strictly descending heights |
| Quality.ChosenFormats | uploder.py:134-147 | The offered formats have strictly descending heights. Each is a qualifying format of the input. For every height, the first qualifying format is the one offered |
| Quality.ChosenHeights | uploder.py:134-147 | a height is offered exactly when some qualifying format has it |
| Quality.QualityButtons | uploder.py:148-153 | there is one button per offered format, in order, labelled with its resolution and carrying `ytdl_video_quality\|url\|format_id` |
| Quality.AddButton | uploder.py:148-158 | adding a button keeps every full row at two buttons and the open row below two, and the flattened buttons grow by exactly the new one |
| Quality.QualityRows | uploder.py:142-158 | the loop lays out exactly the deduplicated buttons, in order, two to a full row |
| Quality.CloseRows | uploder.py:160-162 | a non-empty open row is appended. Every row but the last has two buttons, and the last has one or two |
| Quality.QualityKeyboard | uploder.py:130-173 | The keyboard holds the offered formats' buttons in order, two per row, with only the last quality row possibly holding one. Then come the Audio / Custom Name row and the Cancel row |
| Broadcast.DeliveryOf | uploder.py:1465-1476 | text is sent when the message has non-empty text. A non-empty caption alone is copied. Otherwise nothing is sent |
| Broadcast.CallsFor | uploder.py:1463-1495 | each user gets no call when there is nothing to send. Otherwise they get one call, or two after a FloodWait |
| Broadcast.CountReached | uploder.py:1463-1478 | a message with neither text nor caption counts every user as reached |
| Broadcast.CountFailed | uploder.py:1449-1503 | every user is counted once, as a success or as a failure |
| Broadcast.CountBlocked | uploder.py:1497-1501 | every blocked user is also counted as a failure |
| Broadcast.TallyStep | uploder.py:1462-1503 | handling one more user adds that user's outcome to each count and that user's calls to the call list |
| Broadcast.NothingToSend | uploder.py:1463-1478 | a message with neither text nor caption makes no call at all |
| Broadcast.CallBounds | uploder.py:1462-1503 | with something to send, the broadcast makes between one and two calls per user |
| Broadcast.BroadcastHandler | uploder.py:1427-1512 | Only the owner may broadcast, and only by replying to a message. A failed user lookup stops it. Otherwise the totals are the per-user counts, with successful + failed = total and blocked ≤ failed, and the calls are exactly the per-user calls |

## Left out

- `\w`, `str.lower()` and `str.isspace()` are modelled for ASCII only. Python applies them to all of Unicode.
- `URL_REGEX` and `YOUTUBE_REGEX` are not matched. Whether each one matches is an input of `Handlers.HandleMessage`.
- The `download_youtube` calls at uploder.py:1319 and uploder.py:1335 pass arguments that do not fit its signature. The model records only the decision to call it, as the `YoutubeRenamedDownload` and `YoutubeLinkDownload` replies.
- All Pyrogram calls are left out: sending, editing, deleting and answering messages. A send appears only as the message id it returned (or none). Reply texts and menu texts are not modelled.
- aiohttp, yt-dlp and the file system (`makedirs`, `os.remove`, `os.path.getsize`, `os.path.exists`) are left out. Their results are parameters: the status, the headers, the chunks, the actual size.
- The uploads themselves are left out, as is the rest of `handle_download_or_upload` (uploder.py:345-511): progress messages, thumbnails, clean-up. Only its decisions are modelled (name, route, send call).
- Floating-point formatting is left out: the text of `humanbytes`, `file_size_format`, and the speed, ETA and percentage in `progress_for_pyrogram` and in `progress` (plugins/utils.py:79-120).
- The throttling of progress updates in `progress_for_pyrogram` (its `last_update` bookkeeping) is left out.
- Broadcast.BroadcastHandler: departs from the code on a FloodWait on purpose. uploder.py:1481 reads `e.x`, but the Pyrogram 2 that uploder.py:22 imports names the wait `e.value`. As written, that line would raise inside the `except` and end the handler. The model follows the evident intent instead: wait, then retry once. The wait itself is not modelled.
- `get_file_size` (uploder.py:263-272) becomes an input: the size it returns, which is 0 when the request fails, the status is not 200, or Content-Length is unparsable. `humanbytes` is modelled only by whether it raises. Its float logarithm may misjudge sizes right next to 1024^9, and that boundary is left out. So is the HEAD request inside `handle_download_or_upload` (uploder.py:393-397), where an unparsable Content-Length falls back to 0.
- `get_filename`'s result in `handle_message` only appears in the reply text and is not modelled.
- Handler registration order and Pyrogram filters are left out. So are `settings.py`, `config.py` and `help_ytdlfunctions.py`, which are not part of this model.
- The start, help, about and settings menus are reduced to `ShowMenu`, and the close button to `CloseMessage`. Their texts and keyboards are not modelled.
- `extract_youtube_info`, `download_youtube` and the extraction-failure path of `process_youtube` are left out. Only the quality keyboard is modelled.
- A `format_id` that is present but `None` renders as `"None"` in the source. The model uses the empty string for an absent id and the given text otherwise.
- `get_all_users` is an input (`UserList`).
- `Utils.ProgressArgs` is generic in the message and time types, which Python leaves untyped.
- The `except Exception` around the whole of `handle_message` is not modelled. The only raises it could catch inside the modelled logic come from the chat client.
