# Session and routing core of the MAX checklist bot, in Dafny

`bot.js` is a chat bot for the MAX messenger. It does three things. It hands out a
PDF checklist once per user, and only to members of a channel. It relays free
text between many users and one operator (`ADMIN_ID`). It keeps a registry of
everyone who started the bot, so the operator can broadcast to them all.

This project models the in-memory state behind those handlers and proves what
the handlers promise about it. The platform calls are not modelled.

- `base.dfy` (`Base`): `Option`, duplicate-free sequences, `CountTrue`, and
  `Dedup`, which is what `new Set(array)` keeps.
- `js_text.dfy` (`JsText`): the ECMAScript pieces the handlers use. These are the
  classes `\d` and `\s`, `trim`, replacing the first occurrence of a literal,
  `parseInt` on digits, and the decimal rendering of a number.
- `ordered_map.dfy` (`OrderedMap`): a JavaScript `Map` as an association list in
  insertion order, with `Get`, `Put` (`set`) and `Delete`. The order matters
  because the operator's ambiguous-reply list is written in it.
- `membership.dfy` (`Membership`): `isUserSubscribed` as a fail-closed test over
  the shape of the members response.
- `router.dfy` (`Router`): the `message_created` decision, as a function
  returning an `Action`. It includes the `^(\d+)\s+(.+)$` prefix parse (with the
  `s` flag) that lets the operator address one user.
- `bot.dfy` (`BotCore`): the class `Bot`. It holds `allUsers` (as an
  insertion-ordered sequence), `processedUsers`, `activeManagerChats` and
  `processingUsers`. Its methods are the handlers. Each method returns the
  effects it asks of the platform, in order: replies, sends to a user, the member
  query and the file-token lookup. Two ghost logs sit next to the state. `saves`
  holds the snapshots `saveUsers` wrote. `filesSent` holds the users a file went
  to. The invariant `Valid()` says:
  - the registry holds no duplicates;
  - the sessions map holds no duplicate keys, and every session points to the
    configured operator;
  - every id in the start guard is registered;
  - no user was ever sent the file twice, and everyone who got it is recorded as
    processed.

The outcomes of the oracle calls are inputs. The member query is a
`Membership.MembersReply`. The checklist file token is an `Option<string>`. Each
broadcast send's success is one entry of a `seq<bool>`. Replies in the caller's
chat (`ctx.reply`) are assumed to succeed. The paths a failed reply takes are
listed under "Left out".

Where the code and the intended design differ, the model follows the code:
- There is no stored "pending subscription" state. A user is either in
  `processedUsers` or not.
- `check_subscription` queries membership even for a user who already has the
  checklist. `sendChecklist` then shows only the main menu, but the handler still
  says "subscription confirmed, checklist sent".
- The file token is not cached. `getChecklistFileToken` runs again on every
  delivery: it checks the environment token first, then uploads again.
- Nothing requires a processed user to be registered. A button press from an id
  that never sent a start event is served the same way.

## Model

| member | source | states |
|---|---|---|
| `BotCore.Bot.constructor` | bot.js:34-69 | The registry is the stored list with duplicates removed, first occurrence kept. The other three collections start empty and the invariant holds. |
| `BotCore.Bot.Start` | bot.js:139-187 | A missing id, id 0, or an id already in the guard changes nothing and shows nothing. Otherwise the id enters the guard and the main menu is shown. A new id is appended to the registry with exactly one snapshot saved; a known id causes no save. The registry only grows, by at most one. |
| `BotCore.Bot.Leave` | bot.js:161 | The guard timer removes exactly that id from `processingUsers`; all other state is unchanged. |
| `BotCore.Bot.SendChecklist` | bot.js:416-446 | A processed user gets only the main menu: no token lookup, no file, no state change. Anyone else is recorded as processed whether or not a token exists. The file is attached, and logged as sent, only for a non-empty token; otherwise an apology is sent. |
| `BotCore.Bot.GetChecklist` | bot.js:190-239 | A processed user gets "already received" plus the menu, with no member query and no state change. Otherwise the member query is made. A non-member gets the subscribe prompt and nothing changes. A member goes through the delivery steps and then "checklist sent". |
| `BotCore.Bot.CheckSubscription` | bot.js:242-283 | Always queries. A non-member gets "subscription not found" and nothing changes. A processed member gets only the main menu and the confirmation. An unprocessed member is delivered to exactly as in `SendChecklist`. |
| `BotCore.Bot.AskQuestion` | bot.js:510-560 | Without a truthy `ADMIN_ID`: the "no managers" reply and the sessions are unchanged. With one: the session `user -> ADMIN_ID` is upserted, the user is told, and the operator is notified of that user. |
| `BotCore.Bot.OrderServices` | bot.js:291-343 | The same as `AskQuestion`, with the order-request messages and the "orders unavailable" fallback. |
| `BotCore.Bot.OpenSession` | bot.js:520 | `activeManagerChats.set(user, ADMIN_ID)`: the map becomes the upsert. Its size grows by one exactly when the user had no session. Keys stay distinct and every session stays with the operator. |
| `BotCore.Bot.EndChat` | bot.js:563-584 | With a session: the key is removed, the size drops by one, and exactly the removed manager is notified. Without one: only the menu, the map is unchanged and nobody is notified. |
| `BotCore.Bot.MessageCreated` | bot.js:587-673 | The handler's action is `Router.Route` over the current sessions, and no state changes. |
| `BotCore.Bot.Broadcast` | bot.js:449-489 | A non-operator gets permission denied. An empty or whitespace-only text gets the usage reply. An empty registry gets the "no users" reply. None of these sends anything. Otherwise: the start notice, one announcement per registered user in registry order, then the tally. Successes equal the successful sends, and successes plus failures equal the registry size. |
| `BotCore.Bot.SendToAll` | bot.js:472-486 | The loop sends exactly the fan-out over the registry. It counts successes as the number of successful sends and failures as the rest, and never stops early. |
| `BotCore.Bot.Stats` | bot.js:492-507 | For the operator: the sizes of the registry, the delivery record and the sessions map. The invariant keeps the registry and the map free of repeated keys, so these lengths are the JavaScript sizes. For anyone else: permission denied. |
| `BotCore.BroadcastText` | bot.js:458-463 | The text is rejected exactly when it is missing, or when only whitespace is left after removing the first "/broadcast". An accepted text starts with a non-whitespace character. |
| `BotCore.BroadcastCommandText` | bot.js:458 | "/broadcast" plus whitespace is rejected. "/broadcast" plus whitespace, a body and whitespace yields exactly the body. |
| `BotCore.Fanout` | bot.js:475-478 | One announcement per registered user, the i-th to the i-th user in registry order, all with the same text. |
| `BotCore.DeliveryEffects` | bot.js:423-445 | A delivery step looks up the token, sends one reply and then shows the main menu. That reply carries the file with that very token exactly when the token is non-empty. Otherwise it is the apology. |
| `BotCore.FanoutReachesEachOnce` | bot.js:475-486 | Over the duplicate-free registry, the broadcast sends reach every registered user, and no user twice, whatever the registry size. |
| `BotCore.RepeatedStart` | bot.js:144-161 | The same start event twice inside the guard window gives exactly one main menu, or none if the id was already in the guard. The second event gets no reply. The user ends up registered and in the guard. The registry and the saved snapshots each grow by exactly one for a new id and not at all for a known one. |
| `BotCore.RepeatedChecklistRequest` | bot.js:195-199 | After a member's delivery, a second request gets only "already received" and the menu: no member query and no second file. |
| `BotCore.NonMemberNeverServed` | bot.js:202-282 | A user the query does not list is never recorded and never sent the file, by `get_checklist` or by `check_subscription`. |
| `Membership.IsUserSubscribed` | bot.js:72-106 | True exactly when the request answered, the chosen member field is an array, and some entry's `user_id` equals the user with no `null` entry ahead of it. A `null` entry reached first makes `.some` throw, and the inner `catch` turns that into "not subscribed". A true result implies the request did not fail. |
| `Membership.SelectMembers` | bot.js:86 | A truthy `data.members` is chosen as it is. A falsy one gives way to `members`. |
| `Membership.Lists` | bot.js:91-99 | True exactly when some object entry has this user's id and no `null` entry comes before it. A `null` entry reached first throws, and the caught error gives false. |
| `Membership.FailClosed` | bot.js:94-104 | A failed request, or a member field that is not an array, is never "subscribed". |
| `Membership.DataMembersShadow` | bot.js:86-88 | A truthy non-array `data.members` hides a `members` array that does list the user, and the user counts as not subscribed. |
| `Membership.TopLevelMembersDecide` | bot.js:86-93 | With `data.members` absent, a `members` array listing the user, with no `null` entry ahead of it, makes the user subscribed. |
| `Membership.NullEntryOrder` | bot.js:91-101 | `[null, {user_id: u}]` gives "not subscribed", because `.some` throws on the `null` entry. `[{user_id: u}, null]` gives "subscribed", because the search stops before reaching it. |
| `Router.ParsePrefix` | bot.js:623-628 | A match starts with a digit. Its body is a non-empty proper suffix of the text. |
| `Router.ParsePrefixSound` | bot.js:623-628 | Every match is a split that `^(\d+)\s+(.+)$`/s accepts: digits, then whitespace, then a non-empty rest. The target is the value of the digits and the body is the rest. |
| `Router.ParsePrefixComplete` | bot.js:623-628 | Whenever the pattern accepts some split, the parse matches and reads the same target. Its body is no longer than that split's rest, because the whitespace run is greedy. |
| `Router.ParseAddressed` | bot.js:623-628 | A rendered id, one space and a body not starting with whitespace parse back to exactly that id and body. The body may span lines. |
| `Router.OperatorReply` | bot.js:616-671 | An operator text no session claims is acknowledged as sent exactly when it parses and the parsed target has a session. Any reply goes to a user with a session. "Not in chat" names a user without one. The list is the key order of a map with more than one session. Doing nothing happens only with no sessions at all. The text is never relayed to a manager. |
| `Router.Route` | bot.js:587-673 | A text is relayed to a manager exactly when it is not a command and the sender has a session. Any action at all needs a non-command text from a session user or from the operator. |
| `Router.RouteRespectsSessions` | bot.js:587-673 | Relays to a manager go only to the sender's own mapped manager. Replies to users go only to users with a session other than the sender, and only when the operator sent the text. "Not in chat" names a user without a session. The list names exactly the open sessions, only when there are more than one. Commands produce no action. |
| `Router.SessionTakesPrecedence` | bot.js:598-613 | A non-command from a sender with a session goes to that session's manager, even when the sender is the operator. |
| `Router.StrangerIgnored` | bot.js:616 | A sender with no session who is not the operator produces no action. |
| `Router.PrefixedReply` | bot.js:623-645 | Every operator text that `^(\d+)\s+(.+)$`/s accepts is routed by the parsed target alone. It goes to that target with the parsed body when the target has a session, otherwise it gets a "not in active chat" reply. The unprefixed branch never runs. |
| `Router.PrefixVariants` | bot.js:623-627 | Leading zeros, a line break, or several tabs after the id still parse: "007\nhi" addresses user 7 with "hi", and "12\t\tok" addresses user 12 with "ok". |
| `Router.AddressedReply` | bot.js:623-645 | The usual form, a rendered id, one space and a body, is routed to that id with exactly that body when it has a session, otherwise it gets "not in active chat". |
| `Router.UnaddressedReply` | bot.js:647-671 | An operator text without a prefix does nothing with zero sessions. With one session it goes verbatim to that session's user. With more than one, nothing is forwarded and the operator gets the list of session users. |
| `Router.TwoSessions` | bot.js:623-668 | With sessions for a and b, "a hello" sends "hello" to a alone with an acknowledgement, and "hi" forwards nothing but lists [a, b]. |
| `Router.OneSession` | bot.js:648-660 | With the single session a, "hi" from the operator reaches a verbatim. |
| `Router.OpenedSessionRelays` | bot.js:598-613 | After a session is upserted for a user, that user's non-command texts reach the manager it was opened with. |
| `Router.ClosedSessionSilent` | bot.js:566-568 | After a user's session is deleted, that user's texts produce no action, unless the user is the operator. |
| `Router.OtherSessionsUnaffected` | bot.js:566-568 | Opening or closing one user's session does not change how any other session user is routed. |
| `OrderedMap.Get` | bot.js:567 | `get` finds a value exactly when the key is present, and the value is the one stored with that key. |
| `OrderedMap.Put` | bot.js:296 | `set` keeps the key order when the key exists and appends the key otherwise. Afterwards the key maps to the new value and every other key is unchanged. |
| `OrderedMap.Delete` | bot.js:568 | `delete` takes the key out and leaves every other key unchanged. Deleting an absent key leaves the map identical. |
| `OrderedMap.DeleteAt` | bot.js:568 | Deleting a present key removes just its entry. The remaining entries keep their order, which the session list at bot.js:665 is written in. |
| `OrderedMap.PutKeepsDistinct` | bot.js:520 | `set` keeps the keys distinct, and the size grows by one exactly for a new key. |
| `OrderedMap.DeleteKeepsDistinct` | bot.js:566-568 | `delete` keeps the keys distinct, and the size drops by one exactly for a present key. |
| `JsText.Trim` | bot.js:458 | `trim` yields nothing exactly when the text is all whitespace. Otherwise the result neither starts nor ends with whitespace. |
| `JsText.TrimKeepsCore` | bot.js:458 | `trim` of whitespace, a core and whitespace is exactly the core. |
| `JsText.IndexOf` | bot.js:458 | The index found is the first occurrence of the pattern, and "not found" means it occurs nowhere. |
| `JsText.ReplaceFirst` | bot.js:458 | A text in which the pattern occurs nowhere is returned unchanged. |
| `JsText.ReplaceFirstAt` | bot.js:458 | At the first occurrence of the pattern, exactly that occurrence is replaced and the rest of the text is kept. |
| `JsText.ReplaceLeading` | bot.js:458 | Replacing a leading pattern with nothing removes exactly that prefix, even when the pattern occurs again later. |
| `JsText.DecimalRoundTrip` | bot.js:627 | `parseInt` of a rendered number gives the number back. |
| `Base.Dedup` | bot.js:38 | `new Set(list)` has no duplicates and holds exactly the list's values. |
| `Base.DedupFirstOrder` | bot.js:38 | `new Set(list)` keeps values in the order of their first occurrence: each value comes before every value first seen after it. |
| `Base.DedupOfDistinct` | bot.js:47-53 | Loading a snapshot that `saveUsers` wrote gives back the same registry, order included. |

## Left out

- Platform transport (`ctx.reply`, `sendMessageToUser`, `FileAttachment`, `uploadFile`, the members request): these are foreign library calls. Handlers return them as `Effect` values. The outcomes of the members request, the file lookup and the broadcast sends are inputs. Replies in the caller's chat are taken to succeed, as the `BotCore.Bot.Start` and `BotCore.Bot.SendChecklist` lines below explain.
- Send failures of individual notifications (operator notices, relayed messages, the "reply sent" acknowledgement): each is caught and only logged, so it changes no state. `Router.Action` records the decision, not whether the send then failed.
- `getChecklistFileToken` (bot.js:109-136): file-system checks and upload. It is the `token` input, recorded by `ResolveFileToken` each time `sendChecklist` delivers, since the code does not cache it.
- `loadUsers`/`saveUsers` JSON file I/O and its errors (bot.js:34-53): the constructor takes the stored id list, and `saves` logs each snapshot written.
- `setTimeout` expiry of the start guard (bot.js:161, bot.js:186): modelled as the explicit `Leave` step, with no clock.
- Concurrency: the handlers are async and can interleave at each `await`. The model runs each handler to completion, one at a time.
- `show_menu` (bot.js:286-288): it only replies with the main menu and touches no state.
- Configuration and start-up (`dotenv`, `BOT_TOKEN`/`CHANNEL_ID` checks, `process.exit`), `bot.catch`, logging, and the health-check HTTP server (bot.js:680-697).
- Message wording, Markdown formatting and keyboards: abstracted to `Msg` kinds.
- Identities are natural numbers. A button callback or message without a user id (`undefined`), string ids, and the loose `==` between string and number ids are not modelled. Only the start handlers' falsy-id test is kept, as `Option<nat>` with 0 falsy.
- `Router.ParsePrefix`: reads the digit run exactly, because `parseInt` rounds only above 2^53, beyond real user ids. It also treats text as Unicode code points rather than UTF-16 code units; the pattern and `trim` only look at characters in the Basic Multilingual Plane.
- `BotCore.Bot.Start`: every `ctx.reply` is taken to succeed. In the source, if `sendMainMenu` throws (bot.js:158, bot.js:183), the `setTimeout` at bot.js:161/186 is never armed. The id then stays in `processingUsers` for the life of the process, and every later start from that user is dropped at bot.js:144/170. The model's `Leave` can run at any moment, so this stuck-guard path is not captured.
- `BotCore.Bot.SendChecklist`: if the file reply or the apology reply throws (bot.js:428, bot.js:436), `processedUsers.add` (bot.js:434, bot.js:441) never runs. The user stays unrecorded and the main menu is not shown. The model always records the user.
- `BotCore.Bot.Broadcast`: takes one send outcome per registered user (`|results| == |users|`). In the source these outcomes come from the network.
