/** uploder.py's `recent_bot_messages`: for each user, the ids of the bot's
    recent messages, oldest first.  `send_tracked_message` appends the id of
    each message it sends and `clean_previous_messages` deletes from the
    front until at most `max_messages` remain.  The Telegram calls become
    inputs (the id a send returned, or none when it raised) and outputs
    (the ids handed to `delete_messages`). */
module Tracking {
  import opened Text

  /** `max_messages` as `send_tracked_message` and `handle_message` use it. */
  const DefaultMaxMessages: nat := 3

  /** `recent_bot_messages.get(user, [])`. */
  function MessagesOf(m: map<int, seq<int>>, user: int): seq<int> {
    if user in m then m[user] else []
  }

  /** The newest `max` ids of `s`, in their original order. */
  function KeepNewest(s: seq<int>, max: nat): (r: seq<int>)
    ensures |r| <= max && |r| <= |s|
  {
    if |s| <= max then s else s[|s| - max..]
  }

  /** What is kept is a suffix: the whole list when it fits, else exactly
      `max` ids. */
  lemma KeepNewestSuffix(s: seq<int>, max: nat)
    ensures s[|s| - |KeepNewest(s, max)|..] == KeepNewest(s, max)
    ensures |s| <= max <==> KeepNewest(s, max) == s
    ensures |s| > max ==> |KeepNewest(s, max)| == max
  {
  }

  /** The whole map after a successful clean-up of `user` with a
      non-negative bound: only that user's list changes. */
  function Cleaned(m: map<int, seq<int>>, user: int, max: nat): (r: map<int, seq<int>>)
    ensures user in r && r[user] == KeepNewest(MessagesOf(m, user), max)
    ensures r.Keys == m.Keys + {user}
    ensures forall u :: u != user ==> MessagesOf(r, u) == MessagesOf(m, u)
  {
    m[user := KeepNewest(MessagesOf(m, user), max)]
  }

  /** A user id is tracked only when it is given and truthy (non-zero). */
  predicate IsTruthyId(user: Option<int>) {
    user.Some? && user.value != 0
  }

  /** The map after `send_tracked_message` sent message `id` for `user`:
      the id is appended and the list cut back to the default bound. */
  function Tracked(m: map<int, seq<int>>, user: int, id: int): map<int, seq<int>> {
    Cleaned(m[user := MessagesOf(m, user) + [id]], user, DefaultMaxMessages)
  }

  /** Appending one id and keeping the newest `max + 1` keeps the newest
      `max` of the old ids and then the new one. */
  lemma KeepNewestAppend(before: seq<int>, id: int, max: nat)
    ensures KeepNewest(before + [id], max + 1) == KeepNewest(before, max) + [id]
  {
    var s := before + [id];
    if |s| > max + 1 {
      assert s[|s| - (max + 1)..] == before[|before| - max..] + [id];
    }
  }

  /** Tracking a message keeps it: the new id is the newest one on the
      list, the list holds at most three ids, and they are the newest two of
      the old list followed by the new one. */
  lemma TrackedKeepsNewest(m: map<int, seq<int>>, user: int, id: int)
    ensures user in Tracked(m, user, id)
    ensures Tracked(m, user, id)[user] == KeepNewest(MessagesOf(m, user), DefaultMaxMessages - 1) + [id]
    ensures 1 <= |Tracked(m, user, id)[user]| <= DefaultMaxMessages
  {
    var s := MessagesOf(m, user) + [id];
    assert MessagesOf(m[user := s], user) == s;
    KeepNewestAppend(MessagesOf(m, user), id, DefaultMaxMessages - 1);
  }

  /** Tracking a message for one user leaves every other user's list alone. */
  lemma TrackedOthersUnchanged(m: map<int, seq<int>>, user: int, id: int, other: int)
    requires other != user
    ensures MessagesOf(Tracked(m, user, id), other) == MessagesOf(m, other)
  {
    var m' := m[user := MessagesOf(m, user) + [id]];
    assert Tracked(m, user, id) == m'[user := KeepNewest(MessagesOf(m', user), DefaultMaxMessages)];
  }

  class Tracker {
    /** `recent_bot_messages`: user id to message ids, oldest first. */
    var recent: map<int, seq<int>>

    constructor ()
      ensures recent == map[]
    {
      recent := map[];
    }

    /** `clean_previous_messages(client, chat_id, user, max_messages)`.
        With a non-negative bound the oldest ids are popped and deleted
        until the bound holds, and the shortened list is stored for `user`
        (an empty one if there was none).  With a negative bound the loop
        pops everything and then raises on the empty list; the exception is
        swallowed before the store, but an existing list was emptied in
        place all the same. */
    method Clean(user: int, maxMessages: int) returns (deleted: seq<int>)
      modifies this
      ensures deleted + MessagesOf(recent, user) == MessagesOf(old(recent), user)
      ensures maxMessages >= 0 ==> recent == Cleaned(old(recent), user, maxMessages)
      ensures maxMessages < 0 ==> deleted == MessagesOf(old(recent), user)
      ensures maxMessages < 0 ==> recent == if user in old(recent) then old(recent)[user := []] else old(recent)
    {
      var present := user in recent;
      var messages := MessagesOf(recent, user);
      deleted := [];
      while |messages| > maxMessages
        invariant deleted + messages == MessagesOf(old(recent), user)
        invariant present ==> recent == old(recent)[user := messages]
        invariant !present ==> recent == old(recent)
        invariant deleted != [] ==> |messages| >= maxMessages
        decreases |messages|
      {
        if messages == [] {
          // `pop(0)` on the empty list raises; the handler logs it and the
          // list is never stored back.
          return;
        }
        var oldest := messages[0];
        messages := messages[1..];
        if present {
          recent := recent[user := messages];
        }
        deleted := deleted + [oldest];
      }
      if maxMessages >= 0 {
        assert messages == KeepNewest(MessagesOf(old(recent), user), maxMessages);
      }
      recent := recent[user := messages];
    }

    /** `send_tracked_message(client, chat_id, text, user)`.  `sent` is the id
        of the message Telegram returned, or `None` when sending raised (the
        method then returns `None` and tracks nothing). */
    method SendTracked(user: Option<int>, sent: Option<int>) returns (message: Option<int>, deleted: seq<int>)
      modifies this
      ensures message == sent
      ensures sent.Some? && IsTruthyId(user) ==> recent == Tracked(old(recent), user.value, sent.value)
      ensures sent.Some? && IsTruthyId(user) ==>
        deleted + MessagesOf(recent, user.value) == MessagesOf(old(recent), user.value) + [sent.value]
      ensures sent.None? || !IsTruthyId(user) ==> recent == old(recent) && deleted == []
    {
      message, deleted := sent, [];
      if sent.None? {
        return;
      }
      if IsTruthyId(user) {
        var u := user.value;
        if u !in recent {
          recent := recent[u := []];
        }
        recent := recent[u := recent[u] + [sent.value]];
        assert recent == old(recent)[u := MessagesOf(old(recent), u) + [sent.value]];
        deleted := Clean(u, DefaultMaxMessages);
      }
    }
  }
}
