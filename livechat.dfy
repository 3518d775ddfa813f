/** The module-level state of bot.py and its event handlers. Each handler is
    one atomic step that updates the tables in place and appends the messages
    it would send to `outbox`. */
module LiveChat {
  import opened Dicts
  import opened Routing

  class Router {
    /** ADMIN_IDS */
    const config: seq<Id>
    /** The key order `admin_status` was built with. */
    ghost const registry: seq<Id> := Registry(config).keys
    /** admin_status, in insertion order */
    var status: Dict<Id, Status>
    /** admin_target_user, in insertion order */
    var target: Dict<Id, Id>
    /** user_active_admin */
    var active: map<Id, Id>
    /** user_greeted */
    var greeted: set<Id>
    /** waiting_users */
    var queue: seq<Id>
    /** user_ratings */
    var ratings: map<Id, int>
    /** The FSM state of each admin; a missing entry means no state. */
    var mode: map<Id, Mode>
    /** Every message sent so far, oldest first. */
    var outbox: seq<Intent>

    /** Well-formedness every handler keeps: both dictionaries are well formed,
        the queue, which only ever appends an absent user, has no duplicates,
        and `admin_status` still begins with the registry it was built as
        (status updates keep a key's place or append a new one). */
    ghost predicate Valid()
      reads this
    {
      status.Valid() && target.Valid() && Distinct(queue) && registry <= status.keys
    }

    /** With distinct configured ids, whenever a configured admin is idle the
        scan picks the first idle admin in configuration order, whatever ids
        `admin_status` has gained since. */
    lemma IdleAdminInConfigOrder()
      requires Valid() && Distinct(config)
      requires exists a :: a in config && IsIdle(status.items, a)
      ensures IdleAdmin() == FirstIdle(config, status.items)
      ensures IdleAdmin().Some? && IdleAdmin().value in config
    {
      RegistryInConfigOrder(config);
      FirstIdleIsEarliest(config, status.items);
      FirstIdleOfPrefix(config, status.keys, status.items);
    }

    /** The session invariant: the pairing maps are inverse, an admin is idle
        exactly when it has no target, queued users have no session, and
        nobody waits while an admin is idle. */
    ghost predicate Coherent()
      reads this
    {
      SessionsCoherent(status.items, target.items, active, queue)
    }

    /** What holds just after an admin `a` has been freed and before the
        queue is drained for it: coherent, except that `a` may be idle while
        users wait. */
    ghost predicate ReadyToDrain(a: Id)
      reads this
    {
      DrainReady(status.items, target.items, active, queue, a)
    }

    /** `admin` is serving `u`, or neither has a session. */
    ghost predicate ServesOrBothFree(admin: Id, u: Id)
      reads this
    {
      || (admin in target.items && target.items[admin] == u)
      || (admin !in target.items && u !in active)
    }

    function ModeOf(a: Id): (m: Mode)
      reads this
    {
      if a in mode then mode[a] else Normal
    }

    /** The first idle admin in the registry's order. */
    ghost function IdleAdmin(): (r: Option<Id>)
      reads this
    {
      FirstIdle(status.keys, status.items)
    }

    /** The first branch of handle_user_message: the user has no session, is
        not queued, was greeted before, and did not type /start. */
    ghost function Lapsed(u: Id, text: string): (r: bool)
      reads this
      ensures r ==> u !in active && u !in queue && u in greeted
      ensures r ==> !(|text| >= 6 && text[..6] == "/start")
      ensures u !in active && u !in queue && u in greeted && (|text| == 0 || text[0] != '/') ==> r
    {
      StartCommandSpelled(text);
      u !in active && u !in queue && u in greeted && !IsStartCommand(text)
    }

    /** The module state at import time. */
    constructor (config: seq<Id>)
      ensures Valid() && Coherent()
      ensures this.config == config && status == Registry(config)
      ensures forall a :: a in status.items <==> a in config
      ensures forall a :: a in status.items ==> status.items[a] == Idle
      ensures target == Empty() && active == map[] && greeted == {} && queue == []
      ensures ratings == map[] && mode == map[] && outbox == []
    {
      this.config := config;
      status := Registry(config);
      target := Empty();
      active := map[];
      greeted := {};
      queue := [];
      ratings := map[];
      mode := map[];
      outbox := [];
    }

    /** The generator expression that picks an idle admin. */
    method FindIdleAdmin() returns (r: Option<Id>)
      requires Valid()
      ensures r == FirstIdle(status.keys, status.items)
    {
      var i := 0;
      while i < |status.keys|
        invariant 0 <= i <= |status.keys|
        invariant FirstIdle(status.keys, status.items) == FirstIdle(status.keys[i..], status.items)
      {
        var a := status.keys[i];
        assert status.keys[i..][1..] == status.keys[i + 1..];
        if status.items[a] == Idle {
          return Some(a);
        }
        i := i + 1;
      }
      return None;
    }

    /** The lookup of the admin handle_rating notifies. */
    method FindRatedAdmin(u: Id) returns (r: Option<Id>)
      requires Valid()
      ensures r == RatedAdmin(active, target, u)
    {
      if u in active {
        return Some(active[u]);
      }
      var i := 0;
      while i < |target.keys|
        invariant 0 <= i <= |target.keys|
        invariant FirstTargeting(target.keys, target.items, u) == FirstTargeting(target.keys[i..], target.items, u)
      {
        var a := target.keys[i];
        assert target.keys[i..][1..] == target.keys[i + 1..];
        if target.items[a] == u {
          return Some(a);
        }
        i := i + 1;
      }
      return None;
    }

    /** assign_next_user: connect admin `a` to the head of the queue, if any. */
    method AssignNextUser(a: Id)
      requires Valid()
      modifies this`status, this`target, this`active, this`queue, this`outbox
      ensures Valid()
      ensures old(queue) == [] ==>
        status == old(status) && target == old(target) && active == old(active) &&
        queue == [] && outbox == old(outbox)
      ensures old(queue) != [] ==>
        var h := old(queue[0]);
        && status == old(status).Put(a, Busy)
        && target == old(target).Put(a, h)
        && active == old(active)[h := a]
        && queue == old(queue[1..])
        && outbox == old(outbox) + Connected(a, h)
      ensures old(ReadyToDrain(a)) ==> Coherent()
    {
      if queue != [] {
        var h := queue[0];
        if ReadyToDrain(a) {
          ConnectHeadKeepsCoherent(status.items, target.items, active, queue, a);
        }
        queue := queue[1..];
        status := status.Put(a, Busy);
        target := target.Put(a, h);
        active := active[h := a];
        outbox := outbox + Connected(a, h);
      }
    }

    /** The sequence handle_join_chat and handle_user_end_chat share: pop the
        user's admin, pop that admin's target, set the admin idle, tell it
        `notice`, and drain the queue for it. Nothing happens when the user
        has no admin. */
    method ReleaseUser(u: Id, notice: Msg)
      requires Valid()
      modifies this`status, this`target, this`active, this`queue, this`outbox
      ensures Valid()
      ensures old(u !in active) ==>
        status == old(status) && target == old(target) && active == old(active) &&
        queue == old(queue) && outbox == old(outbox)
      ensures old(u in active) && old(queue) == [] ==>
        var a := old(active[u]);
        && status == old(status).Put(a, Idle)
        && target == old(target).Remove(a)
        && active == old(active) - {u}
        && queue == []
        && outbox == old(outbox) + [ToAdmin(a, notice, NoControls)]
      ensures old(u in active) && old(queue) != [] ==>
        var a, h := old(active[u]), old(queue[0]);
        && status == old(status).Put(a, Busy)
        && target == old(target).Remove(a).Put(a, h)
        && active == (old(active) - {u})[h := a]
        && queue == old(queue[1..])
        && outbox == old(outbox) + [ToAdmin(a, notice, NoControls)] + Connected(a, h)
      ensures old(Coherent()) ==> Coherent() && u !in active
    {
      if u in active {
        var a := active[u];
        if Coherent() {
          EndSessionReadiesDrain(status.items, target.items, active, queue, a, u);
        }
        status.PutPut(a, Idle, Busy);
        active := active - {u};
        target := target.Remove(a);
        status := status.Put(a, Idle);
        outbox := outbox + [ToAdmin(a, notice, NoControls)];
        AssignNextUser(a);
      }
    }

    /** handle_join_chat: end the user's current session, if any, and drain
        the queue for its admin; take the user out of the queue and forget
        the greeting. */
    method JoinChat(u: Id)
      requires Valid()
      modifies this`greeted, this`status, this`target, this`active, this`queue, this`outbox
      ensures Valid()
      ensures greeted == old(greeted) - {u}
      ensures u !in queue
      ensures old(u !in active) ==>
        && status == old(status) && target == old(target) && active == old(active)
        && queue == RemoveFirst(old(queue), u)
        && outbox == old(outbox) + JoinReplies(u)
      ensures old(u in active) && old(queue) == [] ==>
        var a := old(active[u]);
        && status == old(status).Put(a, Idle)
        && target == old(target).Remove(a)
        && active == old(active) - {u}
        && queue == []
        && outbox == old(outbox) + [ToAdmin(a, UserRestarted(u), NoControls)] + JoinReplies(u)
      ensures old(u in active) && old(queue) != [] ==>
        var a, h := old(active[u]), old(queue[0]);
        && status == old(status).Put(a, Busy)
        && target == old(target).Remove(a).Put(a, h)
        && active == (old(active) - {u})[h := a]
        && queue == RemoveFirst(old(queue[1..]), u)
        && outbox == old(outbox) + [ToAdmin(a, UserRestarted(u), NoControls)] + Connected(a, h) + JoinReplies(u)
      ensures old(Coherent()) ==> Coherent() && u !in active
    {
      ReleaseUser(u, UserRestarted(u));
      if u in queue {
        if Coherent() {
          DequeueKeepsCoherent(status.items, target.items, active, queue, u);
        }
        queue := RemoveFirst(queue, u);
      }
      greeted := greeted - {u};
      outbox := outbox + JoinReplies(u);
    }

    /** The routing part of handle_user_message: forward to the user's
        admin, or bind the user to the first idle admin, or queue the user. */
    method RouteMessage(u: Id, text: string)
      requires Valid()
      modifies this`status, this`target, this`active, this`queue, this`outbox
      ensures Valid()
      ensures old(u in active) ==>
        && status == old(status) && target == old(target) && active == old(active)
        && queue == old(queue)
        && outbox == old(outbox) + [ToAdmin(old(active[u]), UserText(u, text), NoControls)]
      ensures old(u !in active) && old(IdleAdmin()).Some? ==>
        var a := old(IdleAdmin()).value;
        && status == old(status).Put(a, Busy)
        && target == old(target).Put(a, u)
        && active == old(active)[u := a]
        && queue == old(queue)
        && outbox == old(outbox) + [ToAdmin(a, UserText(u, text), ReplyAndEnd(u)), ToUser(u, SentToAdmin, EndChatButton)]
      ensures old(u !in active) && old(IdleAdmin()) == None ==>
        && status == old(status) && target == old(target) && active == old(active)
        && queue == (if old(u in queue) then old(queue) else old(queue) + [u])
        && outbox == old(outbox) + [ToUser(u, if old(u in queue) then StillQueued else QueueEntered, NoControls)]
      ensures old(Coherent()) ==> Coherent()
    {
      if u in active {
        outbox := outbox + [ToAdmin(active[u], UserText(u, text), NoControls)];
      } else {
        var idle := FindIdleAdmin();
        FirstIdleIsEarliest(status.keys, status.items);
        match idle
        case Some(a) =>
          if Coherent() {
            BindIdleKeepsCoherent(status.items, target.items, active, queue, a, u);
          }
          status := status.Put(a, Busy);
          target := target.Put(a, u);
          active := active[u := a];
          outbox := outbox + [ToAdmin(a, UserText(u, text), ReplyAndEnd(u)), ToUser(u, SentToAdmin, EndChatButton)];
        case None =>
          if u !in queue {
            if Coherent() {
              EnqueueKeepsCoherent(status.items, target.items, active, queue, u);
            }
            queue := queue + [u];
            outbox := outbox + [ToUser(u, QueueEntered, NoControls)];
          } else {
            outbox := outbox + [ToUser(u, StillQueued, NoControls)];
          }
      }
    }

    /** handle_user_message for a user who is not a configured admin. */
    method UserMessage(u: Id, text: string)
      requires Valid() && u !in config
      modifies this`greeted, this`status, this`target, this`active, this`queue, this`outbox
      ensures Valid()
      ensures old(Lapsed(u, text)) ==>
        && greeted == old(greeted) && status == old(status) && target == old(target)
        && active == old(active) && queue == old(queue)
        && outbox == old(outbox) + [ToUser(u, SessionOver, NoControls), ToUser(u, MainMenu, MenuButtons)]
      ensures !old(Lapsed(u, text)) ==> greeted == old(greeted) + {u}
      ensures !old(Lapsed(u, text)) && old(u in active) ==>
        && status == old(status) && target == old(target) && active == old(active)
        && queue == old(queue)
        && outbox == old(outbox) + (if old(u in greeted) then [] else Greeting(u)) +
                     [ToAdmin(old(active[u]), UserText(u, text), NoControls)]
      ensures !old(Lapsed(u, text)) && old(u !in active) && old(IdleAdmin()).Some? ==>
        var a := old(IdleAdmin()).value;
        && status == old(status).Put(a, Busy)
        && target == old(target).Put(a, u)
        && active == old(active)[u := a]
        && queue == old(queue)
        && outbox == old(outbox) + (if old(u in greeted) then [] else Greeting(u)) +
                     [ToAdmin(a, UserText(u, text), ReplyAndEnd(u)), ToUser(u, SentToAdmin, EndChatButton)]
      ensures !old(Lapsed(u, text)) && old(u !in active) && old(IdleAdmin()) == None ==>
        && status == old(status) && target == old(target) && active == old(active)
        && queue == (if old(u in queue) then old(queue) else old(queue) + [u])
        && outbox == old(outbox) + (if old(u in greeted) then [] else Greeting(u)) +
                     [ToUser(u, if old(u in queue) then StillQueued else QueueEntered, NoControls)]
      ensures old(Coherent()) ==> Coherent()
    {
      if u !in active && u !in queue && u in greeted && !IsStartCommand(text) {
        outbox := outbox + [ToUser(u, SessionOver, NoControls), ToUser(u, MainMenu, MenuButtons)];
        return;
      }
      if u !in greeted {
        greeted := greeted + {u};
        outbox := outbox + Greeting(u);
      }
      RouteMessage(u, text);
    }

    /** handle_reply_button: bind admin and user in both maps, without
        touching the admin's status, and wait for the reply text. */
    method ReplyButton(admin: Id, u: Id)
      requires Valid()
      modifies this`target, this`active, this`mode, this`outbox
      ensures Valid()
      ensures target == old(target).Put(admin, u)
      ensures active == old(active)[u := admin]
      ensures mode == old(mode)[admin := AwaitingReplyText]
      ensures outbox == old(outbox) + [ToAdmin(admin, TypeYourReply, NoControls)]
      ensures old(Coherent() && admin in target.items && target.items[admin] == u) ==> Coherent()
    {
      if Coherent() && admin in target.items && target.items[admin] == u {
        RebindSameKeepsCoherent(status.items, target.items, active, queue, admin, u);
      }
      target := target.Put(admin, u);
      active := active[u := admin];
      outbox := outbox + [ToAdmin(admin, TypeYourReply, NoControls)];
      mode := mode[admin := AwaitingReplyText];
    }

    /** handle_admin_reply, reached only while the admin awaits reply text. */
    method AdminReply(admin: Id, text: string)
      requires Valid() && ModeOf(admin) == AwaitingReplyText
      modifies this`mode, this`outbox
      ensures Valid() && ModeOf(admin) == Normal
      ensures mode == old(mode)[admin := Normal]
      ensures admin in target.items ==>
        outbox == old(outbox) + [ToUser(target.items[admin], AdminText(text), EndChatButton),
                                 ToAdmin(admin, ReplyDelivered, NoControls)]
      ensures admin !in target.items ==>
        outbox == old(outbox) + [ToAdmin(admin, NoTargetUser, NoControls)]
    {
      if admin in target.items {
        var u := target.items[admin];
        outbox := outbox + [ToUser(u, AdminText(text), EndChatButton), ToAdmin(admin, ReplyDelivered, NoControls)];
      } else {
        outbox := outbox + [ToAdmin(admin, NoTargetUser, NoControls)];
      }
      mode := mode[admin := Normal];
    }

    /** handle_user_end_chat: end the user's session, if any, drain the queue
        for its admin, and ask the user for a rating in every case. */
    method UserEndChat(u: Id)
      requires Valid()
      modifies this`status, this`target, this`active, this`queue, this`outbox
      ensures Valid()
      ensures old(u !in active) ==>
        && status == old(status) && target == old(target) && active == old(active)
        && queue == old(queue)
        && outbox == old(outbox) + [ToUser(u, SessionEnded, NoControls), RatingRequest(u)]
      ensures old(u in active) && old(queue) == [] ==>
        var a := old(active[u]);
        && status == old(status).Put(a, Idle)
        && target == old(target).Remove(a)
        && active == old(active) - {u}
        && queue == []
        && outbox == old(outbox) + [ToAdmin(a, UserLeft(u), NoControls),
                                    ToUser(u, SessionEnded, NoControls), RatingRequest(u)]
      ensures old(u in active) && old(queue) != [] ==>
        var a, h := old(active[u]), old(queue[0]);
        && status == old(status).Put(a, Busy)
        && target == old(target).Remove(a).Put(a, h)
        && active == (old(active) - {u})[h := a]
        && queue == old(queue[1..])
        && outbox == old(outbox) + [ToAdmin(a, UserLeft(u), NoControls)] + Connected(a, h) +
                     [ToUser(u, SessionEnded, NoControls), RatingRequest(u)]
      ensures old(Coherent()) ==> Coherent()
    {
      ReleaseUser(u, UserLeft(u));
      outbox := outbox + [ToUser(u, SessionEnded, NoControls), RatingRequest(u)];
    }

    /** handle_admin_end_chat: clear both directions unconditionally, free the
        admin, tell the user (unless sending to the user fails, which the
        source swallows) and drain the queue for the admin in every case. */
    method AdminEndChat(admin: Id, u: Id, userBlocked: bool)
      requires Valid()
      modifies this`status, this`target, this`active, this`queue, this`outbox
      ensures Valid()
      ensures var told := if userBlocked then [] else [ToUser(u, ClosedByAdmin, NoControls), RatingRequest(u)];
        if old(queue) == [] then
          && status == old(status).Put(admin, Idle)
          && target == old(target).Remove(admin)
          && active == old(active) - {u}
          && queue == []
          && outbox == old(outbox) + told + [ToAdmin(admin, SessionClosed, NoControls)]
        else
          var h := old(queue[0]);
          && status == old(status).Put(admin, Busy)
          && target == old(target).Remove(admin).Put(admin, h)
          && active == (old(active) - {u})[h := admin]
          && queue == old(queue[1..])
          && outbox == old(outbox) + told + [ToAdmin(admin, SessionClosed, NoControls)] + Connected(admin, h)
      ensures old(Coherent() && ServesOrBothFree(admin, u)) ==> Coherent()
    {
      if Coherent() && ServesOrBothFree(admin, u) {
        EndSessionReadiesDrain(status.items, target.items, active, queue, admin, u);
      }
      status.PutPut(admin, Idle, Busy);
      target := target.Remove(admin);
      active := active - {u};
      status := status.Put(admin, Idle);
      var told := if userBlocked then [] else [ToUser(u, ClosedByAdmin, NoControls), RatingRequest(u)];
      outbox := outbox + told + [ToAdmin(admin, SessionClosed, NoControls)];
      AssignNextUser(admin);
    }

    /** handle_rating: overwrite the stored rating, thank the user, and tell
        the admin RatedAdmin picks, if any. */
    method Rating(u: Id, value: int)
      requires Valid()
      modifies this`ratings, this`outbox
      ensures Valid()
      ensures ratings == old(ratings)[u := value]
      ensures outbox == old(outbox) + [ToUser(u, RatingThanks, NoControls), ToUser(u, RatingRecorded, NoControls)] +
        match RatedAdmin(active, target, u)
        case Some(a) => [ToAdmin(a, RatingReceived(u, value), NoControls)]
        case None => []
    {
      ratings := ratings[u := value];
      outbox := outbox + [ToUser(u, RatingThanks, NoControls), ToUser(u, RatingRecorded, NoControls)];
      var r := FindRatedAdmin(u);
      if r.Some? {
        outbox := outbox + [ToAdmin(r.value, RatingReceived(u, value), NoControls)];
      }
    }
  }
}
