# Live-chat session router

This project models the session routing and assignment engine of a Telegram
live-chat bot (`bot.py`). The bot keeps six module-level tables:
`admin_target_user` (admin → user), `user_active_admin` (user → admin),
`user_greeted`, `admin_status` (admin → idle/busy, built from `ADMIN_IDS`),
`waiting_users` (a FIFO list) and `user_ratings`. Seven event handlers and the
drain routine `assign_next_user` read and update these tables and send
messages to users and admins.

The model is the class `LiveChat.Router`. Its fields are those tables, plus
the admin's reply mode (the aiogram FSM state `ReplyState.waiting_for_reply`)
and an `outbox` holding every outbound message as an intent: to a user or to
an admin, with an abstract message tag and the inline keyboard attached.
Each handler is one method that runs as one atomic step. Its contract gives
the new value of every table it touches, in terms of the old values. It also
says whether the method keeps the session invariant `Router.Coherent()`,
which has four parts:

- the two pairing maps are inverse to each other;
- a registered admin is idle exactly when it has no target;
- no queued user has a session;
- nobody waits while some admin is idle.

Python's dictionaries keep insertion order, and two scans depend on that
order. One is the search for the first idle admin. The other is the rating
handler's loop over `admin_target_user`. So `admin_status` and
`admin_target_user` are modelled as `Dicts.Dict`, a key order plus a map
with Python's rules:

- assigning to a new key appends it;
- assigning to an existing key keeps its place;
- `pop` removes the key, and assigning it again puts it at the end.

Chat ids are the type `Routing.Id`, the non-zero integers. The handlers test
ids for truthiness (`if old_admin`, `if idle_admin`, `if user_id`,
`if not admin_id`), and with no id equal to 0 each of those tests is a
presence test.

The model keeps these behaviours of `bot.py` as written:

- Ratings are stored as any integer. The code does not check the range 1–5.
- The reply button overwrites both maps unconditionally. It does not bind
  only when the pair is unbound, and it does not mark the admin busy.
- The "session has lapsed" redirect is skipped when the text starts with
  `/start`, ignoring case.
- "First idle admin" means first in `admin_status` insertion order. An
  admin-side handler that runs for an id outside `ADMIN_IDS` appends that id
  to `admin_status`, as Python does. The configured admins still come first, in
  configuration order: `Router.Valid()` keeps the registry's key order as a
  prefix of `admin_status`. So whenever a configured admin is idle, the scan
  picks the first idle one in configuration order
  (`IdleAdminInConfigOrder`).
- Only the two sends to the user in `handle_admin_end_chat` are inside the
  `try`. The admin's acknowledgement and the drain happen even when the
  sends to the user fail.

## Model

| member | source | states |
|---|---|---|
| `Routing.Registry` | bot.py:22 | `admin_status` starts with exactly the configured admins as keys, each one idle, as a well-formed ordered dict |
| `Routing.RegistryInConfigOrder` | bot.py:22 | with distinct configured ids, the registry's key order is the configuration order |
| `Routing.FirstIdle` | bot.py:119 | the generator with `next(..., None)`: what it yields is an admin in `admin_status` that is idle |
| `Routing.FirstIdleOfPrefix` | bot.py:119 | if some admin in a prefix of the key order is idle, the scan over the whole order gives the same answer as over the prefix; later keys never win |
| `Routing.FirstIdleIsEarliest` | bot.py:119 | the idle-admin generator finds nobody exactly when no admin is idle; it finds `a` exactly when `a` is idle and every admin before it in key order is busy |
| `Routing.FirstTargeting` | bot.py:219-222 | the `for`/`break` loop over `admin_target_user`: what it finds is a key whose target is the user |
| `Routing.FirstTargetingFindsTarget` | bot.py:218-222 | the rating loop finds nothing exactly when no admin targets the user; it finds `a` exactly when `a` targets the user and no admin before it in `admin_target_user` order does (the `break`) |
| `Routing.RatedAdmin` | bot.py:217-222 | the user's active admin when there is one; otherwise an admin whose target is the user, or nobody exactly when no admin targets the user |
| `Routing.RatedAdminWhenPaired` | bot.py:217-222 | when the two maps are inverse, the admin told of a rating is the user's active admin, or nobody; the fallback loop adds nothing |
| `Routing.QueuedMeansNoIdleAdmin` | bot.py:119-139 | with coherent tables and a non-empty queue, the idle-admin scan fails, so a message never jumps the queue |
| `Routing.IdleAdminIsFree` | bot.py:119-123 | with coherent tables, the admin the scan picks is idle, has no target, and the queue is empty |
| `Routing.EndSessionReadiesDrain` | bot.py:169-172 | ending a session (the admin serves the user, or both are free) and setting the admin idle leaves the tables coherent, except that this one admin may be idle while users wait |
| `Routing.ConnectHeadKeepsCoherent` | bot.py:231-236 | from that state, connecting the queue head to the freed admin restores the full invariant |
| `Routing.BindIdleKeepsCoherent` | bot.py:120-123 | binding a user without a session to an idle admin, in both maps, with status busy, keeps the invariant |
| `Routing.RebindSameKeepsCoherent` | bot.py:145-146 | re-binding an admin to the user it already serves keeps the invariant |
| `Routing.EnqueueKeepsCoherent` | bot.py:135-136 | appending a user without a session while every admin is busy keeps the invariant |
| `Routing.DequeueKeepsCoherent` | bot.py:79-80 | removing a user from the queue keeps the invariant |
| `Dicts.RemoveFirst` | bot.py:79-80 | `list.remove` guarded by `in`: drops one copy of the user; everything else stays; on a list without duplicates the user is gone and no duplicates appear |
| `Dicts.RemoveFirstAt` | bot.py:79-80 | removing the first occurrence at index `i` keeps the rest of the list in order (`s[..i] + s[i+1..]`) |
| `Dicts.Dict.Put` | bot.py:121-122 | `d[k] = v`: the value is set; an existing key keeps its place; a new key is appended; the old key order is a prefix of the new one; well-formedness is kept |
| `Dicts.Dict.Remove` | bot.py:191-192 | `d.pop(k, None)`: the key and its value are gone, the other keys keep their order, well-formedness is kept |
| `Routing.LowerAscii` | bot.py:98 | the `lower()` step on one character: no capital letter is left; a capital becomes its lower-case letter; anything else is unchanged |
| `Routing.StartCommandSpelled` | bot.py:98 | the test `IsStartCommand`, i.e. `text.lower().startswith('/start')`, holds exactly when the text is at least six characters long and begins with `/start` in any mix of upper and lower case |
| `LiveChat.Router.Lapsed` | bot.py:94-99 | a lapsed user has no session, is not waiting and was greeted, and the text does not begin with a literal `/start`; a greeted user with no session who is not waiting and whose text does not begin with `/` always lapses |
| `LiveChat.Router.IdleAdminInConfigOrder` | bot.py:119 | with distinct configured ids and some configured admin idle, the scan picks the first idle admin in configuration order, even after foreign ids were appended to `admin_status` |
| `LiveChat.Router.constructor` | bot.py:19-24 | the initial state: every configured admin idle in the registry, all other tables empty, coherent |
| `LiveChat.Router.FindIdleAdmin` | bot.py:119 | the loop returns the first idle admin in the registry's key order (`FirstIdle`), or none |
| `LiveChat.Router.FindRatedAdmin` | bot.py:217-222 | returns exactly `RatedAdmin`: the user's active admin if any, else the earliest admin in `admin_target_user` order whose target is the user (`FirstTargetingFindsTarget`), else none |
| `LiveChat.Router.AssignNextUser` | bot.py:231-250 | empty queue: nothing changes. Otherwise it pops the head `h`, keeps the rest in order, marks the admin busy, sets `target[a] = h` and `active[h] = a`, and sends both notices. From a freed admin it restores coherence |
| `LiveChat.Router.ReleaseUser` | bot.py:68-77 | the shared "user leaves" step: pops the user's admin and that admin's target, sets the admin idle, notifies it, drains; a user without an admin changes nothing; keeps coherence, after which the user has no admin |
| `LiveChat.Router.JoinChat` | bot.py:64-88 | the previous admin, if any, loses its target, is set idle and then drained; the user leaves the queue and the greeted set; coherence is kept and the user then has no admin; the join toast and prompt are sent |
| `LiveChat.Router.RouteMessage` | bot.py:111-139 | user with an admin: only a forward to that admin. Otherwise it binds the first idle admin (busy, both maps), or appends the user to the queue only if absent (a repeat changes nothing and gets the "still waiting" notice). Keeps coherence |
| `LiveChat.Router.UserMessage` | bot.py:91-139 | lapsed user (no admin, not queued, greeted, text not `/start`): only the redirect and the menu. Otherwise the user is greeted once, with welcome and questions, then routed as `RouteMessage` states. Keeps coherence |
| `LiveChat.Router.ReplyButton` | bot.py:142-149 | sets both maps for the pair, leaves status alone, enters reply mode, prompts the admin; keeps coherence when the admin already serves that user |
| `LiveChat.Router.AdminReply` | bot.py:152-164 | forwards the text to the admin's target with the end-chat button and acknowledges, or reports "no target"; always leaves reply mode; no table changes |
| `LiveChat.Router.UserEndChat` | bot.py:167-185 | the user's admin, if any, is unbound, set idle, notified and drained; the user is told the session ended and asked for a rating even with no session; keeps coherence |
| `LiveChat.Router.AdminEndChat` | bot.py:188-205 | both map entries are removed unconditionally and the admin set idle; the user is notified unless sending fails; the admin is acknowledged and drained in both cases; keeps coherence when the admin served that user or both were free |
| `LiveChat.Router.Rating` | bot.py:208-229 | overwrites the stored rating, acknowledges the user, and notifies exactly the admin `RatedAdmin` gives, or nobody |
| `Scenarios.TwoArrivals` | bot.py:119-139 | one admin: the first user is bound to it, and the second user is queued, not bound |
| `Scenarios.ThreeArrivals` | bot.py:135-137 | users who arrive while the admin is busy are queued in arrival order |
| `Scenarios.OneAdminHandover` | bot.py:188-205 | the admin closes the first session; the first user is asked for a rating; the waiting user is connected in the same step; the queue empties |
| `Scenarios.FirstComeFirstServed` | bot.py:231-236 | as the admin frees up twice, the waiting users are connected in the order they came |
| `Scenarios.RepeatWhileQueued` | bot.py:135-139 | a second message from a waiting user leaves the queue unchanged, and the last message sent is the still-waiting notice |
| `Scenarios.TwoAdminsFirstServed` | bot.py:119-123 | two idle admins: the first user goes to the first configured admin, and the second admin stays idle |
| `Scenarios.StaleReplyButton` | bot.py:142-149 | another admin presses an old reply button: the user is re-bound to that admin, which stays idle, and the previous admin still targets the user, so coherence is lost |
| `Scenarios.RatingOverwrite` | bot.py:212 | a second rating replaces the first, and the serving admin is notified |
| `Scenarios.RejoinFreesAdmin` | bot.py:67-82 | a served user who rejoins frees the admin; the admin takes the next waiting user; the rejoining user is neither served nor queued |

## Left out

- The aiogram plumbing is not modelled: bot and dispatcher setup, handler decorators and `executor.start_polling`. Only the decorators' own filters survive, as preconditions: `UserMessage` requires a chat id outside `ADMIN_IDS`; `AdminReply` requires reply mode. aiogram's default state filter on the other handlers is not modelled: a handler registered without `state=` matches only the default state, so while an admin is in `ReplyState.waiting_for_reply` the source ignores that admin's `reply:` and `end_chat_admin:` presses, whereas `ReplyButton` and `AdminEndChat` accept them in `AwaitingReplyText`. The model thus admits more runs than the source; each step's contract still holds for the runs the source allows.
- `UserMessage`: a `/start` command is taken by `handle_start`, which is registered first (bot.py:47-48), so it never reaches `handle_user_message`. The model does not exclude such text: `UserMessage(u, "/start")` forwards or routes it.
- `ReleaseUser`, `JoinChat`, `UserEndChat`, `RouteMessage`, `UserMessage`, `AdminReply`, `ReplyButton`, `Rating`, `AssignNextUser` and `AdminEndChat` model every send outside the `try` at bot.py:194-202 as delivered. In the source such a send can raise, for example `BotBlocked` (imported at bot.py:8), and the exception aborts the rest of the handler. If the notice to the old admin at bot.py:72 fails, for instance, `assign_next_user` (bot.py:77) and `user_greeted.discard` (bot.py:82) never run, and the admin is left idle while users wait. The contracts, and their coherence claims, describe only runs in which these sends succeed. In `handle_admin_end_chat` likewise, if `callback.message.answer` (bot.py:203) or `callback.answer()` (bot.py:204) raises, `assign_next_user` (bot.py:205) never runs.
- `handle_start` is not modelled as a handler. The redirect in `handle_user_message` emits its menu message as the `MainMenu` intent, with the menu buttons.
- Message delivery (`bot.send_message`, `message.answer`, `callback.answer`, `edit_text`) becomes outbox intents. Empty `callback.answer()` calls emit nothing. The wording, the Markdown formatting and the sender's display name are left out.
- The rating handler's acknowledgements are addressed to the user named in the callback data. That user is the only one who receives those buttons; the presser's own id is not modelled.
- The keyboard builders `user_end_chat_button` and `rating_buttons` are UI. They appear only as the `Controls` tag on an intent.
- The file reads `load_welcome_message` and `load_common_questions` are I/O. They appear only as the `WelcomeText` and `CommonQuestions` intents.
- `asyncio.sleep` and the interleaving of handlers at `await` points are concurrency. Each handler is one atomic step.
- Parsing `callback.data` with `int(...)`, and the `ValueError` it can raise, are left out. The methods take parsed ids.
- Non-text messages (`message.text` being `None`) are left out.
- `AdminEndChat`: a send that fails is modelled only as the user being unreachable, so neither user message is sent. The case where the first send succeeds and the second fails is not modelled.
- `IsStartCommand` lowercases only ASCII letters, which is enough to decide whether text starts with `/start`. Python's full Unicode `lower()` is not modelled.
- An id of 0 is excluded by the `Id` type. With it, the source's truthiness tests would skip a popped admin and break the pairing.
