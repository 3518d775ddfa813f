/** Client runs of the router, proved from the handlers' contracts alone. */
module Scenarios {
  import opened Dicts
  import opened Routing
  import opened LiveChat

  const A1: Id := 101
  const A2: Id := 102
  const U1: Id := 201
  const U2: Id := 202
  const U3: Id := 203

  /** One admin; U1 arrives first and is served, U2 arrives while the admin
      is busy and waits. */
  method TwoArrivals() returns (r: Router)
    ensures fresh(r) && r.Valid() && r.Coherent() && r.config == [A1]
    ensures r.status == Dict([A1], map[A1 := Busy])
    ensures r.target == Dict([A1], map[A1 := U1]) && r.active == map[U1 := A1]
    ensures r.queue == [U2] && r.greeted == {U1, U2}
  {
    r := new Router([A1]);
    RegistryInConfigOrder([A1]);
    assert r.IdleAdmin() == Some(A1);
    r.UserMessage(U1, "halo");
    assert r.status == Dict([A1], map[A1 := Busy]);
    FirstIdleIsEarliest(r.status.keys, r.status.items);
    r.UserMessage(U2, "halo");
  }

  /** One admin, two users: the first is served, the second waits, and when
      the admin closes the first session the second is connected at once
      while the first is asked for a rating. */
  method OneAdminHandover() returns (r: Router)
    ensures r.Coherent()
    ensures r.active == map[U2 := A1] && r.target.items == map[A1 := U2] && r.queue == []
    ensures r.status.items == map[A1 := Busy]
    ensures RatingRequest(U1) in r.outbox
  {
    r := TwoArrivals();
    r.AdminEndChat(A1, U1, false);
    assert r.outbox[|r.outbox| - 4] == RatingRequest(U1);
  }

  /** One admin; U1 arrives first and is served, U2 and U3 arrive while it
      is busy and wait in arrival order. */
  method ThreeArrivals() returns (r: Router)
    ensures fresh(r) && r.Valid() && r.Coherent() && r.config == [A1]
    ensures r.status == Dict([A1], map[A1 := Busy])
    ensures r.target == Dict([A1], map[A1 := U1]) && r.active == map[U1 := A1]
    ensures r.queue == [U2, U3] && r.greeted == {U1, U2, U3}
  {
    r := TwoArrivals();
    FirstIdleIsEarliest(r.status.keys, r.status.items);
    r.UserMessage(U3, "halo");
  }

  /** Waiting users are served in arrival order as the admin frees up. */
  method FirstComeFirstServed() returns (first: Id, second: Id)
    ensures first == U2 && second == U3
  {
    var r := ThreeArrivals();
    r.UserEndChat(U1);
    assert r.queue == [U3];
    first := r.target.items[A1];
    r.UserEndChat(first);
    second := r.target.items[A1];
  }

  /** A second message from a waiting user leaves the queue as it was and
      only repeats the waiting notice. */
  method RepeatWhileQueued() returns (r: Router)
    ensures r.queue == [U2, U3]
    ensures |r.outbox| > 0 && r.outbox[|r.outbox| - 1] == ToUser(U2, StillQueued, NoControls)
  {
    r := ThreeArrivals();
    FirstIdleIsEarliest(r.status.keys, r.status.items);
    r.UserMessage(U2, "masih?");
  }

  /** Two admins, both idle: the first in configuration order takes U1. */
  method TwoAdminsFirstServed() returns (r: Router)
    ensures fresh(r) && r.Valid() && r.Coherent()
    ensures A2 in r.status.items && r.status.items[A2] == Idle
    ensures r.target.items == map[A1 := U1] && r.active == map[U1 := A1]
  {
    r := new Router([A1, A2]);
    RegistryInConfigOrder([A1, A2]);
    assert r.status.keys == [A1, A2];
    assert r.IdleAdmin() == Some(A1);
    r.UserMessage(U1, "halo");
  }

  /** Pressing an old reply button of the other admin then binds the user to
      that admin without marking it busy, and the two maps stop being inverse. */
  method StaleReplyButton() returns (r: Router)
    ensures !r.Coherent()
    ensures U1 in r.active && r.active[U1] == A2
    ensures A1 in r.target.items && r.target.items[A1] == U1
    ensures A2 in r.target.items && r.target.items[A2] == U1
    ensures A2 in r.status.items && r.status.items[A2] == Idle
  {
    r := TwoAdminsFirstServed();
    r.ReplyButton(A2, U1);
    assert r.target.items[A1] == U1 && r.active[U1] == A2;
    assert !Paired(r.target.items, r.active);
  }

  /** A second rating replaces the first, and the serving admin hears of both. */
  method RatingOverwrite() returns (r: Router)
    ensures r.ratings == map[U1 := 5]
    ensures |r.outbox| > 0 && r.outbox[|r.outbox| - 1] == ToAdmin(A1, RatingReceived(U1, 5), NoControls)
  {
    r := new Router([A1]);
    r.UserMessage(U1, "halo");
    r.Rating(U1, 3);
    r.Rating(U1, 5);
  }

  /** A user who rejoins while being served frees the admin, which then takes
      the next waiting user; the rejoining user is neither served nor queued. */
  method RejoinFreesAdmin() returns (r: Router)
    ensures r.Coherent()
    ensures r.active == map[U2 := A1] && r.queue == [U3] && U1 !in r.greeted
  {
    r := ThreeArrivals();
    r.JoinChat(U1);
  }
}
