/** uploder.py's `broadcast_handler`: the owner replies to a message with
    /broadcast, and the bot forwards that message to every known user while
    counting deliveries, failures and users that blocked the bot.  What
    Telegram answers to each send is an input; the wait before a retry is
    not modelled. */
module Broadcast {
  import opened Text

  /** The message being broadcast: its text and its caption. */
  datatype Original = Original(text: Option<string>, caption: Option<string>)

  /** How the message reaches a user: `send_message` with its text,
      `copy_message` of a captioned media message, or no call at all. */
  datatype Delivery = SendText(text: string) | CopyMessage | NoDelivery

  /** What Telegram does with the send to one user: it succeeds, answers
      FloodWait and then the retry succeeds or fails, or raises another
      error whose text is `message`. */
  datatype SendOutcome = Accepted | FloodWaitThen(retryAccepted: bool) | SendError(message: string)

  /** One send call made by the handler. */
  datatype Call = Call(user: int, delivery: Delivery)

  /** `get_all_users()`: it raised, or it returned these ids. */
  datatype UserList = UsersFailed(error: string) | Users(ids: seq<int>)

  datatype BroadcastResult =
    | NotAuthorized                 // "You are not authorized to use this command."
    | NeedsReply                    // "Please reply to a message you want to broadcast."
    | UsersUnavailable(error: string)
    | Complete(total: nat, successful: nat, failed: nat, blocked: nat)

  /** `if broadcast_msg.text: ... elif broadcast_msg.caption: ...`: an
      empty text or caption counts as absent. */
  function DeliveryOf(original: Original): (d: Delivery)
    ensures d.SendText? <==> original.text.Some? && original.text.value != []
    ensures d.CopyMessage? <==> !d.SendText? && original.caption.Some? && original.caption.value != []
  {
    if original.text.Some? && original.text.value != [] then SendText(original.text.value)
    else if original.caption.Some? && original.caption.value != [] then CopyMessage
    else NoDelivery
  }

  /** The user counts as reached.  Without a text or a caption nothing is
      sent, nothing can fail, and the user still counts as reached. */
  predicate Reached(o: SendOutcome, d: Delivery) {
    d.NoDelivery? || o.Accepted? || (o.FloodWaitThen? && o.retryAccepted)
  }

  /** The failure was a send error whose text, lowercased, mentions
      "blocked". */
  predicate Blocked(o: SendOutcome, d: Delivery) {
    !d.NoDelivery? && o.SendError? && Contains(Lower(o.message), "blocked")
  }

  /** The calls made for one user: one send, and a second one after a
      FloodWait. */
  function CallsFor(user: int, o: SendOutcome, d: Delivery): (r: seq<Call>)
    ensures d.NoDelivery? ==> r == []
    ensures !d.NoDelivery? ==> 1 <= |r| <= 2 && r[0] == Call(user, d)
    ensures |r| == 2 <==> !d.NoDelivery? && o.FloodWaitThen?
  {
    if d.NoDelivery? then []
    else if o.FloodWaitThen? then [Call(user, d), Call(user, d)]
    else [Call(user, d)]
  }

  /** The users counted as reached.  A message with neither text nor
      caption reaches everyone. */
  function CountReached(outcomes: seq<SendOutcome>, d: Delivery): (n: nat)
    ensures d.NoDelivery? ==> n == |outcomes|
  {
    if outcomes == [] then 0
    else CountReached(outcomes[..|outcomes| - 1], d) + (if Reached(outcomes[|outcomes| - 1], d) then 1 else 0)
  }

  /** The users counted as failed: each user is counted once, as reached
      or as failed. */
  function CountFailed(outcomes: seq<SendOutcome>, d: Delivery): (n: nat)
    ensures CountReached(outcomes, d) + n == |outcomes|
  {
    if outcomes == [] then 0
    else CountFailed(outcomes[..|outcomes| - 1], d) + (if Reached(outcomes[|outcomes| - 1], d) then 0 else 1)
  }

  /** The users counted as blocked, each of whom is also a failure. */
  function CountBlocked(outcomes: seq<SendOutcome>, d: Delivery): (n: nat)
    ensures n <= CountFailed(outcomes, d)
  {
    if outcomes == [] then 0
    else CountBlocked(outcomes[..|outcomes| - 1], d) + (if Blocked(outcomes[|outcomes| - 1], d) then 1 else 0)
  }

  /** Every call of the broadcast, user by user. */
  function AllCalls(ids: seq<int>, outcomes: seq<SendOutcome>, d: Delivery): seq<Call>
    requires |ids| == |outcomes|
  {
    if ids == [] then []
    else AllCalls(ids[..|ids| - 1], outcomes[..|ids| - 1], d) + CallsFor(ids[|ids| - 1], outcomes[|ids| - 1], d)
  }

  /** Adding the user at index `i` to the tallies and the calls. */
  lemma TallyStep(ids: seq<int>, outcomes: seq<SendOutcome>, d: Delivery, i: nat)
    requires |ids| == |outcomes| && i < |ids|
    ensures CountReached(outcomes[..i + 1], d) == CountReached(outcomes[..i], d) + (if Reached(outcomes[i], d) then 1 else 0)
    ensures CountFailed(outcomes[..i + 1], d) == CountFailed(outcomes[..i], d) + (if Reached(outcomes[i], d) then 0 else 1)
    ensures CountBlocked(outcomes[..i + 1], d) == CountBlocked(outcomes[..i], d) + (if Blocked(outcomes[i], d) then 1 else 0)
    ensures AllCalls(ids[..i + 1], outcomes[..i + 1], d) == AllCalls(ids[..i], outcomes[..i], d) + CallsFor(ids[i], outcomes[i], d)
  {
    assert outcomes[..i + 1][..i] == outcomes[..i];
    assert ids[..i + 1][..i] == ids[..i];
  }

  /** A message with neither text nor caption reaches everyone without a
      single call. */
  lemma {:induction false} NothingToSend(ids: seq<int>, outcomes: seq<SendOutcome>)
    requires |ids| == |outcomes|
    ensures AllCalls(ids, outcomes, NoDelivery) == []
  {
    if ids != [] {
      NothingToSend(ids[..|ids| - 1], outcomes[..|ids| - 1]);
    }
  }

  /** Every user that is sent anything gets at least one call and at most
      two. */
  lemma {:induction false} CallBounds(ids: seq<int>, outcomes: seq<SendOutcome>, d: Delivery)
    requires |ids| == |outcomes| && !d.NoDelivery?
    ensures |ids| <= |AllCalls(ids, outcomes, d)| <= 2 * |ids|
  {
    if ids != [] {
      CallBounds(ids[..|ids| - 1], outcomes[..|ids| - 1], d);
    }
  }

  /** `broadcast_handler` for a /broadcast from `sender`.  `replyTo` is the
      message it replies to, `users` what `get_all_users` gave, and
      `outcomes[i]` what Telegram does with the send to `users.ids[i]`. */
  method BroadcastHandler(
    sender: int, ownerId: int, replyTo: Option<Original>, users: UserList, outcomes: seq<SendOutcome>)
    returns (result: BroadcastResult, calls: seq<Call>)
    requires users.Users? ==> |outcomes| == |users.ids|
    ensures sender != ownerId ==> result == NotAuthorized && calls == []
    ensures sender == ownerId && replyTo.None? ==> result == NeedsReply && calls == []
    ensures sender == ownerId && replyTo.Some? && users.UsersFailed? ==>
      result == UsersUnavailable(users.error) && calls == []
    ensures sender == ownerId && replyTo.Some? && users.Users? ==>
      var d := DeliveryOf(replyTo.value);
      result == Complete(|users.ids|, CountReached(outcomes, d), CountFailed(outcomes, d), CountBlocked(outcomes, d))
      && calls == AllCalls(users.ids, outcomes, d)
    ensures result.Complete? ==>
      result.successful + result.failed == result.total && result.blocked <= result.failed
  {
    calls := [];
    if sender != ownerId {
      return NotAuthorized, calls;
    }
    if replyTo.None? {
      return NeedsReply, calls;
    }
    var delivery := DeliveryOf(replyTo.value);
    var totalUsers, successful, failed, blockedUsers := 0, 0, 0, 0;
    if users.UsersFailed? {
      return UsersUnavailable(users.error), calls;
    }
    var ids := users.ids;
    for i := 0 to |ids|
      invariant totalUsers == i
      invariant successful == CountReached(outcomes[..i], delivery)
      invariant failed == CountFailed(outcomes[..i], delivery)
      invariant blockedUsers == CountBlocked(outcomes[..i], delivery)
      invariant calls == AllCalls(ids[..i], outcomes[..i], delivery)
    {
      TallyStep(ids, outcomes, delivery, i);
      var outcome := outcomes[i];
      if delivery.NoDelivery? {
        successful := successful + 1;
      } else {
        calls := calls + [Call(ids[i], delivery)];
        match outcome
        case Accepted =>
          successful := successful + 1;
        case FloodWaitThen(retryAccepted) =>
          calls := calls + [Call(ids[i], delivery)];
          if retryAccepted {
            successful := successful + 1;
          } else {
            failed := failed + 1;
          }
        case SendError(message) =>
          if Contains(Lower(message), "blocked") {
            blockedUsers := blockedUsers + 1;
          }
          failed := failed + 1;
      }
      totalUsers := totalUsers + 1;
    }
    assert outcomes[..|ids|] == outcomes;
    assert ids[..|ids|] == ids;
    assert failed == CountFailed(outcomes, delivery);
    result := Complete(totalUsers, successful, failed, blockedUsers);
  }
}
