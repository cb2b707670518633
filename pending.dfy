/** uploder.py's two process-wide dictionaries and the inline-button
    handler that drives them.  `pending_downloads` maps the id offered on a
    URL's option buttons to the URL; `pending_renames` maps a chat to the
    URL waiting for a custom filename.  Chat-client calls that only show or
    delete messages are reduced to the action the handler takes. */
module Pending {
  import opened Text

  /** The `"type"` entry of a rename request. */
  datatype RenameKind = DirectRename | YoutubeRename

  /** A `pending_renames` value: `{"url": url, "type": kind}`. */
  datatype RenameRequest = RenameRequest(url: string, kind: RenameKind)

  /** What `callback_handler` does with one button press. */
  datatype CallbackAction =
    | Ignored                      // no callback data
    | InvalidCallback              // no message attached to the press
    | ShowMenu(name: string)       // start, help, about, settings
    | CloseMessage
    | LinkExpired                  // the id is not (or no longer) pending
    | QuickDownload(url: string)   // handle_download_or_upload(url)
    | RenamePrompted               // the "send me the new file name" prompt
    | CallbackFailed               // an exception inside the branch, reported
    | SelectionCancelled
    | InvalidButton

  /** The callback strings of the start, help, about and settings menus. */
  predicate IsMenu(data: string) {
    data == "start" || data == "help" || data == "about" || data == "settings"
  }

  /** `data.startswith(action + "|")`. */
  predicate IsButton(data: string, action: string) {
    |data| > |action| && data[..|action|] == action && data[|action|] == '|'
  }

  /** At most one branch of `callback_handler` matches a callback string. */
  lemma ButtonsDistinct(data: string)
    ensures IsButton(data, "default") ==> !IsMenu(data) && data != "close"
    ensures IsButton(data, "rename") ==> !IsMenu(data) && data != "close" && !IsButton(data, "default")
    ensures IsButton(data, "cancel") ==>
      !IsMenu(data) && data != "close" && !IsButton(data, "default") && !IsButton(data, "rename")
  {
    if IsButton(data, "default") {
      assert data[0] == 'd' && data[7] == '|';
    }
    if IsButton(data, "rename") {
      assert data[0] == 'r' && data[6] == '|';
    }
    if IsButton(data, "cancel") {
      assert data[0] == 'c' && data[1] == 'a' && data[6] == '|';
    }
  }

  /** The id after the action name: `data.split("|")[1]`. */
  function CallbackFileId(data: string): (id: string)
    requires '|' in data
    ensures '|' !in id
  {
    SplitOn(data, '|')[1]
  }

  /** The callback string of an option button: `f"{action}|{file_id}"`. */
  function CallbackData(action: string, fileId: string): string {
    action + "|" + fileId
  }

  /** The buttons built for a URL carry an id the handler reads back intact,
      as long as neither part holds a `|` (a uuid4 string never does). */
  lemma CallbackFileIdRoundTrip(action: string, fileId: string)
    requires '|' !in action && '|' !in fileId
    ensures '|' in CallbackData(action, fileId)
    ensures IsButton(CallbackData(action, fileId), action)
    ensures CallbackFileId(CallbackData(action, fileId)) == fileId
  {
    var data := CallbackData(action, fileId);
    assert data[|action|] == '|';
    assert Join([action, fileId], '|') == data by {
      assert [action, fileId][1..] == [fileId];
    }
    SplitJoin([action, fileId], '|');
  }

  class PendingState {
    /** `pending_downloads`: offered id to URL. */
    var downloads: map<string, string>
    /** `pending_renames`: chat id to the URL awaiting a filename. */
    var renames: map<int, RenameRequest>

    constructor ()
      ensures downloads == map[] && renames == map[]
    {
      downloads, renames := map[], map[];
    }

    /** `pending_downloads.get(file_id)` when it is truthy. */
    function PendingUrl(fileId: string): (r: Option<string>)
      reads this
      ensures r.Some? <==> fileId in downloads && downloads[fileId] != []
      ensures r.Some? ==> r.value == downloads[fileId]
    {
      if fileId in downloads && downloads[fileId] != [] then Some(downloads[fileId]) else None
    }

    /** `callback_handler` for the press of a button carrying `data` in chat
        `chatId`.  `promptShown` says whether editing the message into the
        rename prompt succeeded; when it raises, the request is not stored. */
    method OnCallback(data: string, hasMessage: bool, chatId: int, promptShown: bool) returns (action: CallbackAction)
      modifies this
      ensures data == [] ==> action == Ignored
      ensures data != [] && !hasMessage ==> action == InvalidCallback
      ensures hasMessage && IsMenu(data) ==> action == ShowMenu(data)
      ensures hasMessage && data == "close" ==> action == CloseMessage
      ensures hasMessage && data != [] && !IsMenu(data) && data != "close"
        && !IsButton(data, "default") && !IsButton(data, "rename") && !IsButton(data, "cancel")
        ==> action == InvalidButton
      ensures hasMessage && IsButton(data, "cancel") ==>
        downloads == old(downloads) - {CallbackFileId(data)} && action == SelectionCancelled
      ensures !(hasMessage && IsButton(data, "cancel")) ==> downloads == old(downloads)
      ensures hasMessage && IsButton(data, "default") ==>
        action == match old(PendingUrl(CallbackFileId(data)))
                  case None => LinkExpired
                  case Some(url) => QuickDownload(url)
      ensures hasMessage && IsButton(data, "rename") ==>
        match old(PendingUrl(CallbackFileId(data)))
        case None => action == LinkExpired && renames == old(renames)
        case Some(url) =>
          if promptShown then action == RenamePrompted && renames == old(renames)[chatId := RenameRequest(url, DirectRename)]
          else action == CallbackFailed && renames == old(renames)
      ensures !(hasMessage && IsButton(data, "rename")) ==> renames == old(renames)
    {
      if data == [] {
        return Ignored;
      }
      if !hasMessage {
        return InvalidCallback;
      }
      ButtonsDistinct(data);
      if IsMenu(data) {
        action := ShowMenu(data);
      } else if data == "close" {
        action := CloseMessage;
      } else {
        action := OnFileButton(data, chatId, promptShown);
      }
    }

    /** The `default|id`, `rename|id` and `cancel|id` branches of
        `callback_handler`, and the answer to any other button. */
    method OnFileButton(data: string, chatId: int, promptShown: bool) returns (action: CallbackAction)
      modifies this
      ensures !IsButton(data, "default") && !IsButton(data, "rename") && !IsButton(data, "cancel")
        ==> action == InvalidButton
      ensures IsButton(data, "cancel") ==>
        downloads == old(downloads) - {CallbackFileId(data)} && action == SelectionCancelled
      ensures !IsButton(data, "cancel") ==> downloads == old(downloads)
      ensures IsButton(data, "default") ==>
        action == match old(PendingUrl(CallbackFileId(data)))
                  case None => LinkExpired
                  case Some(url) => QuickDownload(url)
      ensures IsButton(data, "rename") ==>
        match old(PendingUrl(CallbackFileId(data)))
        case None => action == LinkExpired && renames == old(renames)
        case Some(url) =>
          if promptShown then action == RenamePrompted && renames == old(renames)[chatId := RenameRequest(url, DirectRename)]
          else action == CallbackFailed && renames == old(renames)
      ensures !IsButton(data, "rename") ==> renames == old(renames)
    {
      ButtonsDistinct(data);
      if IsButton(data, "default") {
        var fileId := CallbackFileId(data);
        var url := PendingUrl(fileId);
        if url.None? {
          return LinkExpired;
        }
        action := QuickDownload(url.value);
      } else if IsButton(data, "rename") {
        var fileId := CallbackFileId(data);
        var url := PendingUrl(fileId);
        if url.None? {
          return LinkExpired;
        }
        if !promptShown {
          return CallbackFailed;
        }
        renames := renames[chatId := RenameRequest(url.value, DirectRename)];
        action := RenamePrompted;
      } else if IsButton(data, "cancel") {
        var fileId := CallbackFileId(data);
        downloads := downloads - {fileId};
        action := SelectionCancelled;
      } else {
        action := InvalidButton;
      }
    }
  }
}
