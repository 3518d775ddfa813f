/** Values of the live-chat router: identities, statuses, the outbound intents
    it emits, the two scans it performs over its dictionaries, and the
    consistency conditions that tie its tables together. */
module Routing {
  import opened Dicts

  /** A Telegram chat id. The handlers test ids for truthiness (`if old_admin`,
      `if idle_admin`, `if user_id`), which agrees with a presence test only
      because no id is 0. */
  type Id = x: int | x != 0 witness 1

  datatype Option<T> = None | Some(value: T)

  /** The values of `admin_status`. */
  datatype Status = Idle | Busy

  /** The aiogram FSM state of an admin: `ReplyState.waiting_for_reply` or none. */
  datatype Mode = Normal | AwaitingReplyText

  /** The inline keyboard attached to an outbound message. */
  datatype Controls =
    | NoControls
    | MenuButtons              // "Join Live Chat" and the web-site link
    | EndChatButton            // user_end_chat_button()
    | ReplyAndEnd(user: Id)    // "reply:<user>" and "end_chat_admin:<user>"
    | RatingButtons(user: Id)  // rating_buttons(user): "rate:<user>:1" .. "rate:<user>:5"

  /** What an outbound message says, without its wording. */
  datatype Msg =
    | MainMenu
    | SessionOver
    | WelcomeText
    | CommonQuestions
    | UserText(from: Id, text: string)
    | SentToAdmin
    | QueueEntered
    | StillQueued
    | TypeYourReply
    | AdminText(text: string)
    | ReplyDelivered
    | NoTargetUser
    | UserRestarted(user: Id)
    | JoinedToast
    | SendYourMessage
    | UserLeft(user: Id)
    | SessionEnded
    | RatePrompt
    | ClosedByAdmin
    | SessionClosed
    | RatingThanks
    | RatingRecorded
    | RatingReceived(user: Id, rating: int)
    | QueuedUserConnected(user: Id)
    | ConnectedToAdmin

  /** An outbound message the transport is asked to deliver. */
  datatype Intent =
    | ToUser(user: Id, msg: Msg, controls: Controls)
    | ToAdmin(admin: Id, msg: Msg, controls: Controls)

  /** `{admin: 'idle' for admin in ADMIN_IDS}`: one idle entry per configured
      admin. */
  function Registry(config: seq<Id>): (d: Dict<Id, Status>)
    ensures d.Valid()
    ensures forall a :: a in d.items <==> a in config
    ensures forall a :: a in d.items ==> d.items[a] == Idle
    decreases |config|
  {
    if config == [] then Empty()
    else
      var init := config[..|config| - 1];
      assert forall a :: a in config <==> a in init || a == config[|config| - 1] by {
        assert config == init + [config[|config| - 1]];
      }
      Registry(init).Put(config[|config| - 1], Idle)
  }

  /** With distinct admin ids the registry lists them in configuration order. */
  lemma {:induction false} RegistryInConfigOrder(config: seq<Id>)
    requires Distinct(config)
    ensures Registry(config).keys == config
  {
    if config != [] {
      var init := config[..|config| - 1];
      var last := config[|config| - 1];
      assert Distinct(init) by {
        forall i, j | 0 <= i < j < |init| ensures init[i] != init[j] {
          assert init[i] == config[i] && init[j] == config[j];
        }
      }
      RegistryInConfigOrder(init);
      assert last !in init by {
        forall k | 0 <= k < |init| ensures init[k] != last {
          assert init[k] == config[k];
        }
      }
      var before := Registry(init);
      assert last !in before.items;
      assert Registry(config) == before.Put(last, Idle);
      assert before.Put(last, Idle).keys == init + [last];
      assert config == init + [last];
    }
  }

  ghost predicate IsIdle(status: map<Id, Status>, a: Id) {
    a in status && status[a] == Idle
  }

  /** `next((a for a, s in admin_status.items() if s == 'idle'), None)`,
      over the registry's key order. */
  function FirstIdle(keys: seq<Id>, status: map<Id, Status>): (r: Option<Id>)
    ensures r.Some? ==> r.value in keys && IsIdle(status, r.value)
  {
    if keys == [] then None
    else if keys[0] in status && status[keys[0]] == Idle then Some(keys[0])
    else FirstIdle(keys[1..], status)
  }

  /** The scan finds an idle admin exactly when there is one, and the one it
      finds is the earliest in key order. */
  lemma {:induction false} FirstIdleIsEarliest(keys: seq<Id>, status: map<Id, Status>)
    ensures FirstIdle(keys, status) == None <==> forall a :: a in keys ==> !IsIdle(status, a)
    ensures forall a :: FirstIdle(keys, status) == Some(a) <==>
      exists i :: 0 <= i < |keys| && keys[i] == a && IsIdle(status, a) &&
        forall j :: 0 <= j < i ==> !IsIdle(status, keys[j])
  {
    if keys != [] {
      FirstIdleIsEarliest(keys[1..], status);
      assert forall a :: a in keys <==> a == keys[0] || a in keys[1..];
      forall a
        ensures FirstIdle(keys, status) == Some(a) <==>
          exists i :: 0 <= i < |keys| && keys[i] == a && IsIdle(status, a) &&
            forall j :: 0 <= j < i ==> !IsIdle(status, keys[j])
      {
        if !IsIdle(status, keys[0]) {
          if FirstIdle(keys, status) == Some(a) {
            var i :| 0 <= i < |keys[1..]| && keys[1..][i] == a && IsIdle(status, a) &&
              forall j :: 0 <= j < i ==> !IsIdle(status, keys[1..][j]);
            assert keys[i + 1] == a;
            forall j | 0 <= j < i + 1 ensures !IsIdle(status, keys[j]) {
              if j > 0 { assert keys[j] == keys[1..][j - 1]; }
            }
          }
          if exists i :: 0 <= i < |keys| && keys[i] == a && IsIdle(status, a) &&
               forall j :: 0 <= j < i ==> !IsIdle(status, keys[j]) {
            var i :| 0 <= i < |keys| && keys[i] == a && IsIdle(status, a) &&
              forall j :: 0 <= j < i ==> !IsIdle(status, keys[j]);
            assert i > 0;
            assert keys[1..][i - 1] == a;
            forall j | 0 <= j < i - 1 ensures !IsIdle(status, keys[1..][j]) {
              assert keys[1..][j] == keys[j + 1];
            }
          }
        } else {
          if exists i :: 0 <= i < |keys| && keys[i] == a && IsIdle(status, a) &&
               forall j :: 0 <= j < i ==> !IsIdle(status, keys[j]) {
            var i :| 0 <= i < |keys| && keys[i] == a && IsIdle(status, a) &&
              forall j :: 0 <= j < i ==> !IsIdle(status, keys[j]);
            assert i == 0;
          }
        }
      }
    }
  }

  /** When some admin of `prefix` is idle, scanning any extension of `prefix`
      stops inside it: admins appended later never win over earlier ones. */
  lemma {:induction false} FirstIdleOfPrefix(prefix: seq<Id>, keys: seq<Id>, status: map<Id, Status>)
    requires prefix <= keys && FirstIdle(prefix, status).Some?
    ensures FirstIdle(keys, status) == FirstIdle(prefix, status)
  {
    assert keys[0] == prefix[0];
    if !(keys[0] in status && status[keys[0]] == Idle) {
      assert prefix[1..] <= keys[1..];
      FirstIdleOfPrefix(prefix[1..], keys[1..], status);
    }
  }

  ghost predicate Targets(target: map<Id, Id>, a: Id, u: Id) {
    a in target && target[a] == u
  }

  /** The `for aid, uid in admin_target_user.items()` loop with its `break`. */
  function FirstTargeting(keys: seq<Id>, target: map<Id, Id>, u: Id): (r: Option<Id>)
    ensures r.Some? ==> r.value in keys && Targets(target, r.value, u)
  {
    if keys == [] then None
    else if keys[0] in target && target[keys[0]] == u then Some(keys[0])
    else FirstTargeting(keys[1..], target, u)
  }

  /** The loop finds nothing exactly when no admin targets `u`, and what it
      finds is the earliest admin in key order that targets `u`. */
  lemma {:induction false} FirstTargetingFindsTarget(keys: seq<Id>, target: map<Id, Id>, u: Id)
    ensures FirstTargeting(keys, target, u) == None <==>
      forall a :: a in keys ==> !Targets(target, a, u)
    ensures forall a :: FirstTargeting(keys, target, u) == Some(a) <==>
      exists i :: 0 <= i < |keys| && keys[i] == a && Targets(target, a, u) &&
        forall j :: 0 <= j < i ==> !Targets(target, keys[j], u)
  {
    if keys != [] {
      FirstTargetingFindsTarget(keys[1..], target, u);
      assert forall a :: a in keys <==> a == keys[0] || a in keys[1..];
      forall a
        ensures FirstTargeting(keys, target, u) == Some(a) <==>
          exists i :: 0 <= i < |keys| && keys[i] == a && Targets(target, a, u) &&
            forall j :: 0 <= j < i ==> !Targets(target, keys[j], u)
      {
        if !Targets(target, keys[0], u) {
          if FirstTargeting(keys, target, u) == Some(a) {
            var i :| 0 <= i < |keys[1..]| && keys[1..][i] == a && Targets(target, a, u) &&
              forall j :: 0 <= j < i ==> !Targets(target, keys[1..][j], u);
            assert keys[i + 1] == a;
            forall j | 0 <= j < i + 1 ensures !Targets(target, keys[j], u) {
              if j > 0 { assert keys[j] == keys[1..][j - 1]; }
            }
          }
          if exists i :: 0 <= i < |keys| && keys[i] == a && Targets(target, a, u) &&
               forall j :: 0 <= j < i ==> !Targets(target, keys[j], u) {
            var i :| 0 <= i < |keys| && keys[i] == a && Targets(target, a, u) &&
              forall j :: 0 <= j < i ==> !Targets(target, keys[j], u);
            assert i > 0;
            assert keys[1..][i - 1] == a;
            forall j | 0 <= j < i - 1 ensures !Targets(target, keys[1..][j], u) {
              assert keys[1..][j] == keys[j + 1];
            }
          }
        } else {
          if exists i :: 0 <= i < |keys| && keys[i] == a && Targets(target, a, u) &&
               forall j :: 0 <= j < i ==> !Targets(target, keys[j], u) {
            var i :| 0 <= i < |keys| && keys[i] == a && Targets(target, a, u) &&
              forall j :: 0 <= j < i ==> !Targets(target, keys[j], u);
            assert i == 0;
          }
        }
      }
    }
  }

  /** The admin `handle_rating` notifies: the user's active admin if any,
      otherwise the first admin whose target is the user. */
  function RatedAdmin(active: map<Id, Id>, target: Dict<Id, Id>, u: Id): (r: Option<Id>)
    ensures u in active ==> r == Some(active[u])
    ensures u !in active && r.Some? ==> r.value in target.keys && Targets(target.items, r.value, u)
    ensures u !in active && r == None ==> forall a :: a in target.keys ==> !Targets(target.items, a, u)
  {
    FirstTargetingFindsTarget(target.keys, target.items, u);
    if u in active then Some(active[u]) else FirstTargeting(target.keys, target.items, u)
  }

  /** `str.lower()` on the characters that can begin "/start". */
  function LowerAscii(c: char): (r: char)
    ensures !('A' <= r <= 'Z')
    ensures 'A' <= c <= 'Z' ==> 'a' <= r <= 'z' && r as int - c as int == 'a' as int - 'A' as int
    ensures !('A' <= c <= 'Z') ==> r == c
  {
    if 'A' <= c <= 'Z' then (c as int + 32) as char else c
  }

  /** `text.lower().startswith('/start')` */
  predicate IsStartCommand(text: string) {
    |text| >= 6 && forall i :: 0 <= i < 6 ==> LowerAscii(text[i]) == "/start"[i]
  }

  /** The test accepts "/start" in any mix of upper and lower case, followed
      by anything, and nothing else. */
  lemma StartCommandSpelled(text: string)
    ensures IsStartCommand(text) <==>
      && |text| >= 6 && text[0] == '/'
      && (text[1] == 's' || text[1] == 'S') && (text[2] == 't' || text[2] == 'T')
      && (text[3] == 'a' || text[3] == 'A') && (text[4] == 'r' || text[4] == 'R')
      && (text[5] == 't' || text[5] == 'T')
  {
    if |text| >= 6 {
      assert "/start"[0] == '/' && "/start"[1] == 's' && "/start"[2] == 't';
      assert "/start"[3] == 'a' && "/start"[4] == 'r' && "/start"[5] == 't';
    }
  }

  // ---------------------------------------------------------------------------
  // Consistency of the session tables

  /** `admin_target_user` and `user_active_admin` are inverse to each other. */
  ghost predicate Paired(target: map<Id, Id>, active: map<Id, Id>) {
    (forall a :: a in target ==> target[a] in active && active[target[a]] == a) &&
    (forall u :: u in active ==> active[u] in target && target[active[u]] == u)
  }

  /** Every admin with a target is registered, and a registered admin is idle
      exactly when it has no target. */
  ghost predicate IdleExactlyWhenFree(status: map<Id, Status>, target: map<Id, Id>) {
    (forall a :: a in target ==> a in status) &&
    (forall a :: a in status ==> (status[a] == Idle <==> a !in target))
  }

  /** No queued user is in a session. */
  ghost predicate WaitingUnserved(queue: seq<Id>, active: map<Id, Id>) {
    forall u :: u in queue ==> u !in active
  }

  /** Nobody waits while an admin is idle. */
  ghost predicate NoIdleWhileWaiting(status: map<Id, Status>, queue: seq<Id>) {
    queue != [] ==> forall a :: a in status ==> status[a] == Busy
  }

  ghost predicate SessionsCoherent(status: map<Id, Status>, target: map<Id, Id>,
                                   active: map<Id, Id>, queue: seq<Id>) {
    && Paired(target, active)
    && IdleExactlyWhenFree(status, target)
    && WaitingUnserved(queue, active)
    && NoIdleWhileWaiting(status, queue)
  }

  /** Under coherent tables a waiting user means the idle-admin scan fails. */
  lemma QueuedMeansNoIdleAdmin(status: Dict<Id, Status>, target: map<Id, Id>,
                               active: map<Id, Id>, queue: seq<Id>)
    requires status.Valid() && SessionsCoherent(status.items, target, active, queue)
    requires queue != []
    ensures FirstIdle(status.keys, status.items) == None
  {
    FirstIdleIsEarliest(status.keys, status.items);
  }

  /** Under coherent tables the admin the scan finds has no target and nobody
      is waiting. */
  lemma IdleAdminIsFree(status: Dict<Id, Status>, target: map<Id, Id>,
                        active: map<Id, Id>, queue: seq<Id>)
    requires status.Valid() && SessionsCoherent(status.items, target, active, queue)
    requires FirstIdle(status.keys, status.items).Some?
    ensures var a := FirstIdle(status.keys, status.items).value;
      a in status.items && status.items[a] == Idle && a !in target && queue == []
  {
    FirstIdleIsEarliest(status.keys, status.items);
  }

  /** When the pairing is consistent the rating loop never finds anything the
      active-admin lookup did not: the admin notified is the user's active
      admin, or nobody. */
  lemma RatedAdminWhenPaired(active: map<Id, Id>, target: Dict<Id, Id>, u: Id)
    requires Paired(target.items, active)
    ensures RatedAdmin(active, target, u) == if u in active then Some(active[u]) else None
  {
    FirstTargetingFindsTarget(target.keys, target.items, u);
  }

  /** What holds once admin `a` has been freed and before the queue is
      drained for it: coherent, except that `a` may be idle while users wait. */
  ghost predicate DrainReady(status: map<Id, Status>, target: map<Id, Id>,
                             active: map<Id, Id>, queue: seq<Id>, a: Id) {
    && Paired(target, active)
    && IdleExactlyWhenFree(status, target)
    && WaitingUnserved(queue, active)
    && a !in target
    && (queue != [] ==> forall b :: b in status && b != a ==> status[b] == Busy)
  }

  /** Ending the session between `a` and `u` (or clearing an admin and a user
      that are both free) leaves the tables ready for a drain. */
  lemma EndSessionReadiesDrain(status: map<Id, Status>, target: map<Id, Id>,
                               active: map<Id, Id>, queue: seq<Id>, a: Id, u: Id)
    requires SessionsCoherent(status, target, active, queue)
    requires (a in target && target[a] == u) || (a !in target && u !in active)
    ensures DrainReady(status[a := Idle], target - {a}, active - {u}, queue, a)
  {
  }

  /** Connecting the head of the queue to the freed admin restores coherence. */
  lemma ConnectHeadKeepsCoherent(status: map<Id, Status>, target: map<Id, Id>,
                                 active: map<Id, Id>, queue: seq<Id>, a: Id)
    requires DrainReady(status, target, active, queue, a) && Distinct(queue) && queue != []
    ensures SessionsCoherent(status[a := Busy], target[a := queue[0]], active[queue[0] := a], queue[1..])
  {
    var h := queue[0];
    assert h !in active;
    forall v | v in queue[1..] ensures v != h {
      var k :| 0 <= k < |queue[1..]| && queue[1..][k] == v;
      assert queue[k + 1] == v;
    }
  }

  /** Binding a user without a session to an idle admin keeps coherence. */
  lemma BindIdleKeepsCoherent(status: map<Id, Status>, target: map<Id, Id>,
                              active: map<Id, Id>, queue: seq<Id>, a: Id, u: Id)
    requires SessionsCoherent(status, target, active, queue)
    requires IsIdle(status, a) && u !in active
    ensures SessionsCoherent(status[a := Busy], target[a := u], active[u := a], queue)
  {
    assert queue == [];
  }

  /** Queueing a user without a session while every admin is busy keeps coherence. */
  lemma EnqueueKeepsCoherent(status: map<Id, Status>, target: map<Id, Id>,
                             active: map<Id, Id>, queue: seq<Id>, u: Id)
    requires SessionsCoherent(status, target, active, queue)
    requires u !in active && forall a :: a in status ==> status[a] == Busy
    ensures SessionsCoherent(status, target, active, queue + [u])
  {
  }

  /** Re-binding an admin to the user it already serves keeps coherence. */
  lemma RebindSameKeepsCoherent(status: map<Id, Status>, target: map<Id, Id>,
                                active: map<Id, Id>, queue: seq<Id>, a: Id, u: Id)
    requires SessionsCoherent(status, target, active, queue)
    requires Targets(target, a, u)
    ensures SessionsCoherent(status, target[a := u], active[u := a], queue)
  {
    assert target[a := u] == target && active[u := a] == active;
  }

  /** Taking a user out of the queue keeps coherence. */
  lemma DequeueKeepsCoherent(status: map<Id, Status>, target: map<Id, Id>,
                             active: map<Id, Id>, queue: seq<Id>, u: Id)
    requires SessionsCoherent(status, target, active, queue)
    ensures SessionsCoherent(status, target, active, RemoveFirst(queue, u))
  {
  }

  // ---------------------------------------------------------------------------
  // Outbound message bundles

  /** The welcome text and the common questions, sent on a user's first message. */
  function Greeting(u: Id): (out: seq<Intent>) {
    [ToUser(u, WelcomeText, NoControls), ToUser(u, CommonQuestions, EndChatButton)]
  }

  /** What `assign_next_user(a)` sends when it connects `h`. */
  function Connected(a: Id, h: Id): (out: seq<Intent>) {
    [ToAdmin(a, QueuedUserConnected(h), ReplyAndEnd(h)), ToUser(h, ConnectedToAdmin, EndChatButton)]
  }

  /** The toast and the prompt that answer a join request. */
  function JoinReplies(u: Id): (out: seq<Intent>) {
    [ToUser(u, JoinedToast, NoControls), ToUser(u, SendYourMessage, EndChatButton)]
  }

  /** The rating request sent at the end of every session. */
  function RatingRequest(u: Id): (out: Intent) {
    ToUser(u, RatePrompt, RatingButtons(u))
  }
}
