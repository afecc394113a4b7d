/** The session state of bot.js and the handlers that change it: the user registry
    `allUsers`, the delivery record `processedUsers`, the relay sessions
    `activeManagerChats` and the start guard `processingUsers`, with the
    handlers `bot_started` and `/start`, `get_checklist`, `check_subscription`
    (through `sendChecklist`), `ask_question`, `order_services`, `end_chat`,
    `message_created`, `/broadcast` and `/stats`.

    Each handler returns the effects it asks of the platform, in order: replies
    in the caller's chat, messages to a given user, and the two oracle calls it
    makes (the channel member query and the checklist file lookup). The outcomes
    of those calls are inputs. */
module BotCore {
  import opened Base
  import opened JsText
  import OrderedMap
  import Membership
  import Router

  /** The text `showMenuAgain` shows above its single "main menu" button. */
  datatype MenuNote = AnythingElse | ChecklistSent | SubscriptionConfirmed

  /** Message kinds; the Russian wording and the keyboards are not modelled. */
  datatype Msg =
    | MainMenu
    | MenuAgain(note: MenuNote)
    | AlreadyReceived
    | SubscribePrompt
    | SubscriptionNotFound
    | Checklist(fileToken: string)
    | ChecklistUnavailable
    | SupportOpened
    | NoManagers
    | SupportRequest(user: nat)
    | OrderOpened
    | OrderUnavailable
    | OrderRequest(user: nat)
    | ChatEnded
    | UserLeftChat(user: nat)
    | PermissionDenied
    | BroadcastUsage
    | NoUsers
    | BroadcastStarted(recipients: nat)
    | Announcement(text: string)
    | BroadcastDone(succeeded: nat, failed: nat)
    | Stats(users: nat, delivered: nat, sessions: nat)

  datatype Effect =
    | Reply(msg: Msg)
    | SendTo(target: nat, msg: Msg)
    | QueryMembers
    | ResolveFileToken

  /** `if (ADMIN_ID)`: the operator id is configured and truthy. */
  predicate HasManager(admin: Option<nat>) {
    admin.Some? && admin.value != 0
  }

  /** `!userId` fails for a missing id and for 0. */
  predicate TruthyId(id: Option<nat>) {
    id.Some? && id.value != 0
  }

  /** `if (fileToken)`: a token exists and is not the empty string. */
  predicate TruthyToken(token: Option<string>) {
    token.Some? && token.value != []
  }

  /** What `sendChecklist` emits after deciding to deliver: the token lookup, the
      file or the apology, and the main menu. */
  function DeliveryEffects(token: Option<string>): (r: seq<Effect>)
    ensures |r| == 3 && r[0] == ResolveFileToken && r[2] == Reply(MainMenu)
    ensures r[1].Reply? && (r[1].msg.Checklist? <==> TruthyToken(token))
    ensures r[1].msg.Checklist? ==> r[1].msg.fileToken == token.value
    ensures !r[1].msg.Checklist? ==> r[1].msg == ChecklistUnavailable
  {
    [ResolveFileToken,
     Reply(if TruthyToken(token) then Checklist(token.value) else ChecklistUnavailable),
     Reply(MainMenu)]
  }

  /** `ctx.message?.body?.text?.replace('/broadcast', '').trim()`, or None where
      the result is falsy (no text, or nothing left after trimming). */
  function BroadcastText(raw: Option<string>): (r: Option<string>)
    ensures r.Some? ==> r.value != [] && !IsSpace(r.value[0])
    ensures r.None? <==> raw.None? || All(ReplaceFirst(raw.value, "/broadcast", []), IsSpace)
  {
    if raw.None? then None
    else
      var text := Trim(ReplaceFirst(raw.value, "/broadcast", []));
      if text == [] then None else Some(text)
  }

  /** "/broadcast" followed by whitespace only is the usage error; with a body, the
      body is sent with its surrounding whitespace removed. */
  lemma BroadcastCommandText(pad: string, body: string, tail: string)
    requires All(pad, IsSpace) && All(tail, IsSpace)
    requires body != [] && !IsSpace(body[0]) && !IsSpace(body[|body| - 1])
    ensures BroadcastText(Some("/broadcast" + pad)) == None
    ensures BroadcastText(Some("/broadcast" + pad + body + tail)) == Some(body)
  {
    BroadcastUsageText(pad);
    BroadcastBodyText(pad, body, tail);
  }

  lemma BroadcastUsageText(pad: string)
    requires All(pad, IsSpace)
    ensures BroadcastText(Some("/broadcast" + pad)) == None
  {
    ReplaceLeading("/broadcast", pad);
    assert ReplaceFirst("/broadcast" + pad, "/broadcast", []) == pad;
  }

  lemma BroadcastBodyText(pad: string, body: string, tail: string)
    requires All(pad, IsSpace) && All(tail, IsSpace)
    requires body != [] && !IsSpace(body[0]) && !IsSpace(body[|body| - 1])
    ensures BroadcastText(Some("/broadcast" + pad + body + tail)) == Some(body)
  {
    var rest := pad + body + tail;
    assert "/broadcast" + pad + body + tail == "/broadcast" + rest;
    ReplaceLeading("/broadcast", rest);
    TrimKeepsCore(pad, body, tail);
    assert ReplaceFirst("/broadcast" + rest, "/broadcast", []) == rest;
  }

  /** One announcement per registered user, in registry order. */
  function Fanout(users: seq<nat>, text: string): (r: seq<Effect>)
    ensures |r| == |users|
    ensures forall i :: 0 <= i < |r| ==> r[i] == SendTo(users[i], Announcement(text))
  {
    if users == [] then [] else Fanout(users[..|users| - 1], text) + [SendTo(users[|users| - 1], Announcement(text))]
  }

  lemma FanoutSnoc(users: seq<nat>, text: string, i: nat)
    requires i < |users|
    ensures Fanout(users[..i + 1], text) == Fanout(users[..i], text) + [SendTo(users[i], Announcement(text))]
  {
  }

  lemma CountTrueSnoc(bs: seq<bool>, i: nat)
    requires i < |bs|
    ensures CountTrue(bs[..i + 1]) == CountTrue(bs[..i]) + (if bs[i] then 1 else 0)
  {
    assert bs[..i + 1][..i] == bs[..i];
  }

  /** Over a duplicate-free registry the fan-out reaches every user exactly
      once: the send targets are the registry itself. */
  lemma FanoutReachesEachOnce(users: seq<nat>, text: string)
    requires NoDup(users)
    ensures forall i, j :: 0 <= i < j < |users| ==> Fanout(users, text)[i].target != Fanout(users, text)[j].target
    ensures forall u :: u in users ==> SendTo(u, Announcement(text)) in Fanout(users, text)
  {
  }

  class Bot {
    /** `ADMIN_ID`: None when unset or not a number. */
    const admin: Option<nat>
    /** `allUsers`, in insertion order (the order `for ... of` visits it). */
    var users: seq<nat>
    /** The snapshots `saveUsers` wrote, oldest first. */
    ghost var saves: seq<seq<nat>>
    /** `processedUsers`: users the checklist step has been completed for. */
    var processed: set<nat>
    /** The users a checklist file was actually sent to, in order. */
    ghost var filesSent: seq<nat>
    /** `activeManagerChats`: user to manager, in insertion order. */
    var chats: seq<(nat, nat)>
    /** `processingUsers`: ids inside the start guard window. */
    var processing: set<nat>

    ghost predicate Valid()
      reads this
    {
      && NoDup(users)
      && OrderedMap.DistinctKeys(chats)
      && (forall i :: 0 <= i < |chats| ==> HasManager(admin) && chats[i].1 == admin.value)
      && (forall u :: u in processing ==> u in users)
      && NoDup(filesSent)
      && (forall i :: 0 <= i < |filesSent| ==> filesSent[i] in processed)
    }

    /** Process start: `allUsers = loadUsers()` over the stored list (empty when
        the file is missing or unreadable); everything else starts empty. */
    constructor (stored: seq<nat>, adminId: Option<nat>)
      ensures Valid()
      ensures admin == adminId && users == Dedup(stored)
      ensures saves == [] && processed == {} && filesSent == [] && chats == [] && processing == {}
    {
      admin := adminId;
      users := Dedup(stored);
      saves := [];
      processed := {};
      filesSent := [];
      chats := [];
      processing := {};
    }

    /** `bot_started` and `/start`: register a new user, always show the main menu,
        and suppress a repeat while the id is inside the guard window. */
    method Start(id: Option<nat>) returns (out: seq<Effect>)
      requires Valid()
      modifies this
      ensures Valid()
      ensures processed == old(processed) && filesSent == old(filesSent) && chats == old(chats)
      ensures old(users) <= users && |users| <= |old(users)| + 1
      ensures !TruthyId(id) || id.value in old(processing) ==>
                && out == [] && users == old(users) && saves == old(saves)
                && processing == old(processing)
      ensures TruthyId(id) && id.value !in old(processing) ==>
                && out == [Reply(MainMenu)]
                && processing == old(processing) + {id.value}
                && (id.value in old(users) ==> users == old(users) && saves == old(saves))
                && (id.value !in old(users) ==> users == old(users) + [id.value] && saves == old(saves) + [users])
    {
      if !TruthyId(id) || id.value in processing {
        return [];
      }
      var u := id.value;
      processing := processing + {u};
      if u !in users {
        NoDupSnoc(users, u);
        users := users + [u];
        saves := saves + [users];
      }
      out := [Reply(MainMenu)];
    }

    /** The guard's timer firing for `id` (a second after a start was handled). */
    method Leave(id: nat)
      requires Valid()
      modifies this`processing
      ensures Valid()
      ensures processing == old(processing) - {id}
    {
      processing := processing - {id};
    }

    /** `sendChecklist`: deliver once, record the user whether or not the file
        could be found, and never send again to a recorded user. */
    method SendChecklist(user: nat, token: Option<string>) returns (out: seq<Effect>)
      requires Valid()
      modifies this`processed, this`filesSent
      ensures Valid()
      ensures old(user in processed) ==>
                out == [Reply(MainMenu)] && processed == old(processed) && filesSent == old(filesSent)
      ensures old(user !in processed) ==>
                && out == DeliveryEffects(token)
                && processed == old(processed) + {user}
                && filesSent == old(filesSent) + (if TruthyToken(token) then [user] else [])
    {
      if user in processed {
        return [Reply(MainMenu)];
      }
      if TruthyToken(token) {
        NoDupSnoc(filesSent, user);
        filesSent := filesSent + [user];
      }
      processed := processed + {user};
      out := DeliveryEffects(token);
    }

    /** `get_checklist`: a recorded user is told so without a member query; anyone
        else is queried, and delivered to only when the query finds them. */
    method GetChecklist(user: nat, reply: Membership.MembersReply, token: Option<string>) returns (out: seq<Effect>)
      requires Valid()
      modifies this`processed, this`filesSent
      ensures Valid()
      ensures old(user in processed) ==>
                && out == [Reply(AlreadyReceived), Reply(MenuAgain(AnythingElse))]
                && processed == old(processed) && filesSent == old(filesSent)
      ensures old(user !in processed) && !Membership.IsUserSubscribed(user, reply) ==>
                && out == [QueryMembers, Reply(SubscribePrompt)]
                && processed == old(processed) && filesSent == old(filesSent)
      ensures old(user !in processed) && Membership.IsUserSubscribed(user, reply) ==>
                && out == [QueryMembers] + DeliveryEffects(token) + [Reply(MenuAgain(ChecklistSent))]
                && processed == old(processed) + {user}
                && filesSent == old(filesSent) + (if TruthyToken(token) then [user] else [])
    {
      if user in processed {
        return [Reply(AlreadyReceived), Reply(MenuAgain(AnythingElse))];
      }
      if Membership.IsUserSubscribed(user, reply) {
        var sent := SendChecklist(user, token);
        out := [QueryMembers] + sent + [Reply(MenuAgain(ChecklistSent))];
      } else {
        out := [QueryMembers, Reply(SubscribePrompt)];
      }
    }

    /** `check_subscription`: always queries; a member goes through `sendChecklist`
        (which shows only the main menu to a recorded user), anyone else is
        prompted again. */
    method CheckSubscription(user: nat, reply: Membership.MembersReply, token: Option<string>) returns (out: seq<Effect>)
      requires Valid()
      modifies this`processed, this`filesSent
      ensures Valid()
      ensures !Membership.IsUserSubscribed(user, reply) ==>
                && out == [QueryMembers, Reply(SubscriptionNotFound)]
                && processed == old(processed) && filesSent == old(filesSent)
      ensures Membership.IsUserSubscribed(user, reply) && old(user in processed) ==>
                && out == [QueryMembers, Reply(MainMenu), Reply(MenuAgain(SubscriptionConfirmed))]
                && processed == old(processed) && filesSent == old(filesSent)
      ensures Membership.IsUserSubscribed(user, reply) && old(user !in processed) ==>
                && out == [QueryMembers] + DeliveryEffects(token) + [Reply(MenuAgain(SubscriptionConfirmed))]
                && processed == old(processed) + {user}
                && filesSent == old(filesSent) + (if TruthyToken(token) then [user] else [])
    {
      if Membership.IsUserSubscribed(user, reply) {
        var sent := SendChecklist(user, token);
        out := [QueryMembers] + sent + [Reply(MenuAgain(SubscriptionConfirmed))];
      } else {
        out := [QueryMembers, Reply(SubscriptionNotFound)];
      }
    }

    /** `ask_question`: with a manager configured, open (or reopen) the user's
        session with that manager and notify the manager. */
    method AskQuestion(user: nat) returns (out: seq<Effect>)
      requires Valid()
      modifies this`chats
      ensures Valid()
      ensures !HasManager(admin) ==>
                out == [Reply(NoManagers), Reply(MenuAgain(AnythingElse))] && chats == old(chats)
      ensures HasManager(admin) ==>
                && out == [Reply(SupportOpened), SendTo(admin.value, SupportRequest(user))]
                && chats == OrderedMap.Put(old(chats), user, admin.value)
    {
      if !HasManager(admin) {
        return [Reply(NoManagers), Reply(MenuAgain(AnythingElse))];
      }
      OpenSession(user);
      out := [Reply(SupportOpened), SendTo(admin.value, SupportRequest(user))];
    }

    /** `order_services`: like `ask_question`, with the order wording. */
    method OrderServices(user: nat) returns (out: seq<Effect>)
      requires Valid()
      modifies this`chats
      ensures Valid()
      ensures !HasManager(admin) ==>
                out == [Reply(OrderUnavailable), Reply(MenuAgain(AnythingElse))] && chats == old(chats)
      ensures HasManager(admin) ==>
                && out == [Reply(OrderOpened), SendTo(admin.value, OrderRequest(user))]
                && chats == OrderedMap.Put(old(chats), user, admin.value)
    {
      if !HasManager(admin) {
        return [Reply(OrderUnavailable), Reply(MenuAgain(AnythingElse))];
      }
      OpenSession(user);
      out := [Reply(OrderOpened), SendTo(admin.value, OrderRequest(user))];
    }

    /** `activeManagerChats.set(user, ADMIN_ID)`. */
    method OpenSession(user: nat)
      requires Valid() && HasManager(admin)
      modifies this`chats
      ensures Valid()
      ensures chats == OrderedMap.Put(old(chats), user, admin.value)
      ensures |chats| == if OrderedMap.Has(old(chats), user) then |old(chats)| else |old(chats)| + 1
    {
      var before := chats;
      OrderedMap.PutKeepsDistinct(before, user, admin.value);
      chats := OrderedMap.Put(before, user, admin.value);
      forall i | 0 <= i < |chats| ensures chats[i].1 == admin.value {
        OrderedMap.GetFromEntry(chats, i);
        var got := OrderedMap.Get(chats, chats[i].0);
        if chats[i].0 != user {
          assert got == OrderedMap.Get(before, chats[i].0);
          var k :| 0 <= k < |before| && before[k] == (chats[i].0, got.value);
          assert before[k].1 == admin.value;
        }
      }
    }

    /** `end_chat`: close the sender's session if there is one and notify exactly
        the manager it was with; otherwise nothing changes and nobody is notified. */
    method EndChat(user: nat) returns (out: seq<Effect>)
      requires Valid()
      modifies this`chats
      ensures Valid()
      ensures !OrderedMap.Has(old(chats), user) ==> out == [Reply(MenuAgain(AnythingElse))] && chats == old(chats)
      ensures OrderedMap.Has(old(chats), user) ==>
                && out == [Reply(ChatEnded), Reply(MenuAgain(AnythingElse)),
                           SendTo(OrderedMap.Get(old(chats), user).value, UserLeftChat(user))]
                && chats == OrderedMap.Delete(old(chats), user)
                && |chats| == |old(chats)| - 1
    {
      match OrderedMap.Get(chats, user)
      case None =>
        out := [Reply(MenuAgain(AnythingElse))];
      case Some(manager) =>
        var before := chats;
        OrderedMap.DeleteKeepsDistinct(before, user);
        chats := OrderedMap.Delete(before, user);
        forall i | 0 <= i < |chats| ensures HasManager(admin) && chats[i].1 == admin.value {
          OrderedMap.GetFromEntry(chats, i);
          var got := OrderedMap.Get(chats, chats[i].0);
          assert got == OrderedMap.Get(before, chats[i].0);
          var k :| 0 <= k < |before| && before[k] == (chats[i].0, got.value);
          assert HasManager(admin) && before[k].1 == admin.value;
        }
        out := [Reply(ChatEnded), Reply(MenuAgain(AnythingElse)), SendTo(manager, UserLeftChat(user))];
    }

    /** `message_created`: the relay decision over the current sessions; the
        handler changes no state. */
    method MessageCreated(sender: nat, text: Option<string>) returns (action: Router.Action)
      ensures action == Router.Route(chats, admin, sender, text)
    {
      action := Router.Route(chats, admin, sender, text);
    }

    /** `/broadcast`: operator only, needs a text and a non-empty registry; then one
        send per registered user, counting the outcomes without stopping.
        `results[i]` is whether the send to the i-th user succeeded. */
    method Broadcast(sender: nat, raw: Option<string>, results: seq<bool>)
      returns (out: seq<Effect>, successCount: nat, errorCount: nat)
      requires |results| == |users|
      ensures admin != Some(sender) ==> out == [Reply(PermissionDenied)] && successCount == errorCount == 0
      ensures admin == Some(sender) && BroadcastText(raw).None? ==>
                out == [Reply(BroadcastUsage)] && successCount == errorCount == 0
      ensures admin == Some(sender) && BroadcastText(raw).Some? && users == [] ==>
                out == [Reply(NoUsers)] && successCount == errorCount == 0
      ensures admin == Some(sender) && BroadcastText(raw).Some? && users != [] ==>
                && successCount == CountTrue(results)
                && successCount + errorCount == |users|
                && out == [Reply(BroadcastStarted(|users|))]
                          + Fanout(users, BroadcastText(raw).value)
                          + [Reply(BroadcastDone(successCount, errorCount))]
    {
      if admin != Some(sender) {
        return [Reply(PermissionDenied)], 0, 0;
      }
      var text := BroadcastText(raw);
      if text.None? {
        return [Reply(BroadcastUsage)], 0, 0;
      }
      if |users| == 0 {
        return [Reply(NoUsers)], 0, 0;
      }
      var sent;
      sent, successCount, errorCount := SendToAll(text.value, results);
      out := [Reply(BroadcastStarted(|users|))] + sent + [Reply(BroadcastDone(successCount, errorCount))];
    }

    /** The `for ... of allUsers` loop of `/broadcast`: one send per user in
        registry order, a failure counted and the loop carried on. */
    method SendToAll(text: string, results: seq<bool>) returns (sent: seq<Effect>, successCount: nat, errorCount: nat)
      requires |results| == |users|
      ensures sent == Fanout(users, text)
      ensures successCount == CountTrue(results)
      ensures errorCount == |users| - CountTrue(results)
    {
      sent, successCount, errorCount := [], 0, 0;
      var i := 0;
      while i < |users|
        invariant 0 <= i <= |users|
        invariant successCount == CountTrue(results[..i])
        invariant successCount + errorCount == i
        invariant sent == Fanout(users[..i], text)
      {
        FanoutSnoc(users, text, i);
        CountTrueSnoc(results, i);
        sent := sent + [SendTo(users[i], Announcement(text))];
        if results[i] {
          successCount := successCount + 1;
        } else {
          errorCount := errorCount + 1;
        }
        i := i + 1;
      }
      assert users[..i] == users;
      assert results[..i] == results;
    }

    /** `/stats`: the three collection sizes, for the operator only. */
    method Stats(sender: nat) returns (out: seq<Effect>)
      requires Valid()
      ensures admin != Some(sender) ==> out == [Reply(PermissionDenied)]
      ensures admin == Some(sender) ==> out == [Reply(Msg.Stats(|users|, |processed|, |chats|))]
    {
      if admin != Some(sender) {
        return [Reply(PermissionDenied)];
      }
      out := [Reply(Msg.Stats(|users|, |processed|, |chats|))];
    }
  }

  /** The same start event twice inside the guard window: one registration and
      one main menu; the second event is dropped without a reply. */
  method RepeatedStart(bot: Bot, id: nat) returns (first: seq<Effect>, second: seq<Effect>)
    requires bot.Valid() && id != 0
    modifies bot
    ensures bot.Valid()
    ensures first == (if id in old(bot.processing) then [] else [Reply(MainMenu)])
    ensures second == []
    ensures id in bot.users && id in bot.processing
    ensures |bot.users| == |old(bot.users)| + (if id in old(bot.users) then 0 else 1)
    ensures |bot.saves| == |old(bot.saves)| + (if id in old(bot.users) then 0 else 1)
  {
    first := bot.Start(Some(id));
    second := bot.Start(Some(id));
  }

  /** After a successful delivery, a second request is answered "already
      received" with no member query, and no file is sent twice. */
  method RepeatedChecklistRequest(bot: Bot, user: nat, reply: Membership.MembersReply,
                                  later: Membership.MembersReply, token: Option<string>)
    returns (second: seq<Effect>)
    requires bot.Valid() && user !in bot.processed
    requires Membership.IsUserSubscribed(user, reply)
    modifies bot
    ensures bot.Valid() && user in bot.processed
    ensures second == [Reply(AlreadyReceived), Reply(MenuAgain(AnythingElse))]
    ensures bot.filesSent == old(bot.filesSent) + (if TruthyToken(token) then [user] else [])
  {
    var first := bot.GetChecklist(user, reply, token);
    second := bot.GetChecklist(user, later, token);
  }

  /** A user the member query does not list is never recorded nor sent a file,
      however often they ask. */
  method NonMemberNeverServed(bot: Bot, user: nat, reply: Membership.MembersReply, token: Option<string>)
    requires bot.Valid() && user !in bot.processed
    requires !Membership.IsUserSubscribed(user, reply)
    modifies bot
    ensures bot.Valid() && user !in bot.processed && bot.filesSent == old(bot.filesSent)
  {
    var first := bot.GetChecklist(user, reply, token);
    var second := bot.CheckSubscription(user, reply, token);
  }
}
