/** uploder.py's `handle_message`: every private text message first trims
    the sender's tracked messages, then either answers a pending rename,
    ignores a command, hands a YouTube link to the downloader, offers the
    options for a direct URL, or rejects the text.  The two regular
    expressions are inputs (whether each matched), and so are the size the
    HEAD request reported and the result of the chat client's send. */
module Handlers {
  import opened Text
  import opened Tracking
  import opened Pending

  /** 2 GiB, the size above which a URL is refused. */
  const MaxFileSize: int := 2 * 1024 * 1024 * 1024

  /** `humanbytes` looks its unit up in a table of nine names, so it
      raises IndexError from 1024^9 bytes on. */
  const HumanbytesLimit: int := 1024 * 1024 * 1024 * 1024 * 1024 * 1024 * 1024 * 1024 * 1024

  /** `humanbytes(size)` raises: the logarithm of a negative size is a
      math domain error, and a size of 1024^9 or more has no unit name. */
  predicate HumanbytesRaises(size: int) {
    size < 0 || size >= HumanbytesLimit
  }

  /** The answer to a URL whose HEAD request reported `size` bytes (0 when
      the request failed, the status was not 200 or no Content-Length was
      sent; `get_file_size` never raises).  A size above 2 GiB is refused,
      anything else is stored and offered; formatting the size in either
      message can raise, which ends in the "Error processing URL" reply. */
  function UrlReply(size: int, freshId: string): (reply: Reply)
    ensures reply.FileTooLarge? <==> size > MaxFileSize && !HumanbytesRaises(size)
    ensures reply.DownloadOptions? <==> 0 <= size <= MaxFileSize
    ensures reply.UrlFailed? <==> HumanbytesRaises(size)
    ensures reply.FileTooLarge? ==> reply.size == size
    ensures reply.DownloadOptions? ==> reply.fileId == freshId
  {
    if size != 0 && size > MaxFileSize then
      if HumanbytesRaises(size) then UrlFailed else FileTooLarge(size)
    else if size != 0 && HumanbytesRaises(size) then UrlFailed
    else DownloadOptions(freshId)
  }

  /** The URL is stored under the fresh id exactly when it is within the
      limit, even when the reply then fails. */
  predicate StoresUrl(size: int) {
    size <= MaxFileSize
  }

  /** What `handle_message` does with one text. */
  datatype Reply =
    | RenameCancelled                               // tracked "Rename Process Cancelled"
    | RenamedDownload(url: string, name: string)    // handle_download_or_upload(url, custom_filename=name)
    | YoutubeRenamedDownload(url: string, name: string)
    | CommandIgnored
    | YoutubeLinkDownload(url: string)
    | FileTooLarge(size: int)                       // tracked refusal
    | DownloadOptions(fileId: string)               // tracked message with the three option buttons
    | UrlFailed                                     // tracked "Error processing URL" (humanbytes raised)
    | InvalidLink                                   // tracked "Please send me a valid ... link"
  {
    /** The replies that go out through `send_tracked_message`. */
    predicate IsTracked() {
      RenameCancelled? || FileTooLarge? || DownloadOptions? || UrlFailed? || InvalidLink?
    }
  }

  /** The callback strings on the option buttons offered for a pending id. */
  function OptionButtons(fileId: string): seq<string> {
    [CallbackData("default", fileId), CallbackData("rename", fileId), CallbackData("cancel", fileId)]
  }

  /** The user's tracked list after a reply: when the reply is tracked and
      was sent, its id is appended. */
  function AfterReply(m: map<int, seq<int>>, user: int, reply: Reply, sent: Option<int>): map<int, seq<int>> {
    if reply.IsTracked() && sent.Some? && user != 0 then Tracked(m, user, sent.value) else m
  }

  /** The user's tracked list after the handler: cleaned first, then the
      reply tracked. */
  function TrackedAfter(m: map<int, seq<int>>, user: int, reply: Reply, sent: Option<int>): map<int, seq<int>> {
    AfterReply(Cleaned(m, user, DefaultMaxMessages), user, reply, sent)
  }

  /** `send_tracked_message` for a tracked reply; its result is not used. */
  method SendReply(tracker: Tracker, user: int, reply: Reply, sent: Option<int>)
    requires reply.IsTracked()
    modifies tracker
    ensures tracker.recent == AfterReply(old(tracker.recent), user, reply, sent)
  {
    var _, _ := tracker.SendTracked(Some(user), sent);
  }

  /** The pending-rename branch of `handle_message`: the stripped text
      becomes the filename, unless it is `/cancel` in any letter case. */
  method AnswerRename(tracker: Tracker, pending: PendingState, user: int, chat: int, text: string, sent: Option<int>)
    returns (reply: Reply)
    requires chat in pending.renames
    modifies tracker, pending
    ensures tracker.recent == AfterReply(old(tracker.recent), user, reply, sent)
    ensures pending.renames == old(pending.renames) - {chat} && pending.downloads == old(pending.downloads)
    ensures var request := old(pending.renames)[chat];
      reply == if Lower(text) == "/cancel" then RenameCancelled
               else if request.kind == YoutubeRename then YoutubeRenamedDownload(request.url, text)
               else RenamedDownload(request.url, text)
  {
    if Lower(text) == "/cancel" {
      reply := RenameCancelled;
      SendReply(tracker, user, reply, sent);
      pending.renames := pending.renames - {chat};
      return;
    }
    var request := pending.renames[chat];
    pending.renames := pending.renames - {chat};
    if request.kind == YoutubeRename {
      reply := YoutubeRenamedDownload(request.url, text);
    } else {
      reply := RenamedDownload(request.url, text);
    }
  }

  /** The rest of `handle_message`: commands are left alone, a YouTube
      link goes to the downloader, and a URL of `size` bytes is answered by
      `UrlReply`; anything else is an invalid link. */
  method AnswerText(
    tracker: Tracker, pending: PendingState, user: int, text: string,
    isYoutubeLink: bool, isUrl: bool, size: int, freshId: string, sent: Option<int>)
    returns (reply: Reply)
    modifies tracker, pending
    ensures tracker.recent == AfterReply(old(tracker.recent), user, reply, sent)
    ensures pending.renames == old(pending.renames)
    ensures StartsWith(text, "/") ==> reply == CommandIgnored
    ensures !StartsWith(text, "/") ==>
      reply == if isYoutubeLink then YoutubeLinkDownload(text)
               else if !isUrl then InvalidLink
               else UrlReply(size, freshId)
    ensures pending.downloads ==
      if !StartsWith(text, "/") && !isYoutubeLink && isUrl && StoresUrl(size)
      then old(pending.downloads)[freshId := text]
      else old(pending.downloads)
  {
    if StartsWith(text, "/") {
      return CommandIgnored;
    }
    if isYoutubeLink {
      return YoutubeLinkDownload(text);
    }
    if !isUrl {
      reply := InvalidLink;
    } else if size != 0 && size > MaxFileSize {
      reply := if HumanbytesRaises(size) then UrlFailed else FileTooLarge(size);
    } else {
      pending.downloads := pending.downloads[freshId := text];
      reply := if size != 0 && HumanbytesRaises(size) then UrlFailed else DownloadOptions(freshId);
    }
    SendReply(tracker, user, reply, sent);
  }

  /** `handle_message(client, message)` for a text `rawText` from `user` in
      `chat`.  `isYoutubeLink` and `isUrl` say whether YOUTUBE_REGEX and
      URL_REGEX match the stripped text, `size` is what `get_file_size`
      returned,
      `freshId` the uuid4 string the handler would draw, and `sent` the id
      of the tracked reply, if Telegram accepted it. */
  method HandleMessage(
    tracker: Tracker, pending: PendingState,
    user: int, chat: int, rawText: string,
    isYoutubeLink: bool, isUrl: bool, size: int, freshId: string, sent: Option<int>)
    returns (reply: Reply)
    modifies tracker, pending
    ensures tracker.recent == TrackedAfter(old(tracker.recent), user, reply, sent)
    // A pending rename consumes the text, whatever it is.
    ensures chat in old(pending.renames) ==>
      pending.renames == old(pending.renames) - {chat} && pending.downloads == old(pending.downloads)
    ensures chat in old(pending.renames) ==>
      var request := old(pending.renames)[chat];
      var text := Strip(rawText);
      reply == if Lower(text) == "/cancel" then RenameCancelled
               else if request.kind == YoutubeRename then YoutubeRenamedDownload(request.url, text)
               else RenamedDownload(request.url, text)
    // Otherwise the text is classified in the order the source tests it.
    ensures chat !in old(pending.renames) ==> pending.renames == old(pending.renames)
    ensures chat !in old(pending.renames) && StartsWith(Strip(rawText), "/") ==> reply == CommandIgnored
    ensures chat !in old(pending.renames) && !StartsWith(Strip(rawText), "/") ==>
      reply == if isYoutubeLink then YoutubeLinkDownload(Strip(rawText))
               else if !isUrl then InvalidLink
               else UrlReply(size, freshId)
    // Only a URL within the limit is remembered, under the fresh id.
    ensures chat !in old(pending.renames) ==>
      pending.downloads ==
        if !StartsWith(Strip(rawText), "/") && !isYoutubeLink && isUrl && StoresUrl(size)
        then old(pending.downloads)[freshId := Strip(rawText)]
        else old(pending.downloads)
  {
    var text := Strip(rawText);
    var _ := tracker.Clean(user, DefaultMaxMessages);
    if chat in pending.renames {
      reply := AnswerRename(tracker, pending, user, chat, text, sent);
    } else {
      reply := AnswerText(tracker, pending, user, text, isYoutubeLink, isUrl, size, freshId, sent);
    }
  }

  /** A whole rename conversation on a fresh bot: a URL arrives and is
      offered under `fileId`, the user presses "Custom Name", and the next
      text becomes the filename of that same URL.  Afterwards nothing is
      waiting for a rename and the offer is still pending. */
  method RenameConversation(
    user: int, chat: int, url: string, fileId: string, size: int, name: string, sent: Option<int>)
    returns (reply: Reply)
    requires Strip(url) != [] && !StartsWith(Strip(url), "/")
    requires '|' !in fileId
    requires 0 <= size <= MaxFileSize
    ensures Lower(Strip(name)) != "/cancel" ==> reply == RenamedDownload(Strip(url), Strip(name))
    ensures Lower(Strip(name)) == "/cancel" ==> reply == RenameCancelled
  {
    var tracker := new Tracker();
    var pending := new PendingState();
    var offered := HandleMessage(tracker, pending, user, chat, url, false, true, size, fileId, sent);
    assert offered == DownloadOptions(fileId);
    assert pending.PendingUrl(fileId) == Some(Strip(url));

    var button := OptionButtons(fileId)[1];
    CallbackFileIdRoundTrip("rename", fileId);
    var action := pending.OnCallback(button, true, chat, true);
    assert action == RenamePrompted;
    assert pending.renames == map[chat := RenameRequest(Strip(url), DirectRename)];

    reply := HandleMessage(tracker, pending, user, chat, name, false, false, 0, fileId, sent);
  }
}
