/** Friend requests and friendships over whole runs. */
module ContactBook {
  import opened Bytes
  import opened Protocol
  import opened Tables
  import opened Machine
  import opened Invariant
  import opened Groups
  import opened PrivateChats
  import opened Effects

  ghost predicate Friends(db: Db, a: nat, b: nat) {
    (a, b) in db.contacts && (b, a) in db.contacts
  }

  lemma ContactsGrow(env: Env, db: Db, uid: nat, req: Request, dice: Dice)
    ensures db.contacts <= DbAfter(env, db, uid, req, dice).contacts
  {
  }

  /** Friendship is mutual, never with oneself and never undone, on every run. */
  lemma {:induction false} FriendsForever(env: Env, s: State, es: seq<Event>)
    requires Inv(s) && PossibleRun(env, s, es)
    ensures var r := Run(env, s, es).db;
            && s.db.contacts <= r.contacts
            && forall k :: k in r.contacts ==> Friends(r, k.0, k.1) && k.0 != k.1
  {
    RunKeepsInv(env, s, es);
    if es != [] {
      var n := |es| - 1;
      var mid := Run(env, s, es[..n]);
      FriendsForever(env, s, es[..n]);
      var who := Sender(mid, es[n]);
      if who.Some? {
        ContactsGrow(env, mid.db, who.value, es[n].req, es[n].dice);
      }
    }
  }

  /** Some step of the run was an accept of b by a connection logged in as a. */
  ghost predicate Accepted(env: Env, s: State, es: seq<Event>, a: nat, b: nat) {
    es != [] &&
    var e := es[|es| - 1];
    || Accepted(env, s, es[..|es| - 1], a, b)
    || (Sender(Run(env, s, es[..|es| - 1]), e) == Some(a) && e.req == DecideRequest(b, true))
  }

  /** Only accepting touches the contacts. */
  lemma ContactsStep(env: Env, db: Db, uid: nat, req: Request, dice: Dice)
    requires DbInv(db)
    ensures DbAfter(env, db, uid, req, dice).contacts
         == if req.DecideRequest? && req.accepted && uid != req.target
            then db.contacts + {(uid, req.target), (req.target, uid)} else db.contacts
  {
    if req.DecideRequest? && req.accepted {
      FriendshipKeeps(db, uid, req.target);
    }
  }

  /**
   * After every possible run two users are friends if and only if they differ and one of them
   * accepted the other in some step; whether there was a request to accept plays no part.
   */
  lemma {:induction false} FriendsIffAccepted(env: Env, es: seq<Event>, a: nat, b: nat)
    requires PossibleRun(env, START, es)
    ensures (a, b) in Run(env, START, es).db.contacts
       <==> a != b && (Accepted(env, START, es, a, b) || Accepted(env, START, es, b, a))
  {
    if es != [] {
      var n := |es| - 1;
      var mid := Run(env, START, es[..n]);
      FriendsIffAccepted(env, es[..n], a, b);
      StartInv();
      RunKeepsInv(env, START, es[..n]);
      var who := Sender(mid, es[n]);
      if who.Some? {
        ContactsStep(env, mid.db, who.value, es[n].req, es[n].dice);
      }
    }
  }

  /**
   * A request from a to b is pending: a sent b's friend code, and b has not decided about a since.
   */
  ghost predicate Pending(env: Env, s: State, es: seq<Event>, a: nat, b: nat) {
    es != [] &&
    PendingAfter(Run(env, s, es[..|es| - 1]), es[|es| - 1], a, b, Pending(env, s, es[..|es| - 1], a, b))
  }

  predicate PendingAfter(mid: State, e: Event, a: nat, b: nat, before: bool) {
    if Files(mid, e, a, b) then true else before && !Decides(mid, e, a, b)
  }

  predicate Files(mid: State, e: Event, a: nat, b: nat) {
    && a != b && Sender(mid, e) == Some(a) && e.req.AddByCode?
    && b in mid.db.users && mid.db.users[b].code == e.req.code
  }

  predicate Decides(mid: State, e: Event, a: nat, b: nat) {
    Sender(mid, e) == Some(b) && e.req.DecideRequest? && e.req.target == a
  }

  lemma OthersKeepRequests(env: Env, db: Db, uid: nat, req: Request, dice: Dice)
    requires !req.AddByCode? && !req.DecideRequest?
    ensures DbAfter(env, db, uid, req, dice).requests == db.requests
  {
  }

  lemma RequestsStep(env: Env, s: State, e: Event, a: nat, b: nat)
    requires Inv(s)
    ensures (a, b) in Next(env, s, e).db.requests <==> PendingAfter(s, e, a, b, (a, b) in s.db.requests)
  {
    var who := Sender(s, e);
    if who.Some? {
      if e.req.AddByCode? {
        FilingStep(env, s.db, who.value, e.req.code, e.dice);
      } else if e.req.DecideRequest? {
        DecidingStep(env, s.db, who.value, e.req.target, e.req.accepted, e.dice);
      } else {
        OthersKeepRequests(env, s.db, who.value, e.req, e.dice);
      }
    }
  }

  lemma FilingStep(env: Env, db: Db, uid: nat, code: string, dice: Dice)
    requires DbInv(db)
    ensures forall a, b :: (a, b) in DbAfter(env, db, uid, AddByCode(code), dice).requests
              <==> (a, b) in db.requests || (a == uid && a != b && b in db.users && db.users[b].code == code)
  {
    if v :| v in db.users && db.users[v].code == code {
      AddByCodeEffect(env, db, uid, code, v, dice);
      assert forall b :: b in db.users && db.users[b].code == code ==> b == v;
    } else {
      AddNoContactEffect(env, db, uid, code, dice);
    }
  }

  lemma DecidingStep(env: Env, db: Db, uid: nat, target: nat, accepted: bool, dice: Dice)
    requires DbInv(db)
    ensures DbAfter(env, db, uid, DecideRequest(target, accepted), dice).requests == db.requests - {(target, uid)}
  {
    if !accepted {
      DenyEffect(env, db, uid, target, dice);
    } else if uid != target {
      AcceptEffect(env, db, uid, target, dice);
    } else {
      AcceptingOneself(db, uid);
      assert (uid, uid) !in db.requests;
    }
  }

  /** After every possible run, the requests are exactly the ones pending by what was sent. */
  lemma {:induction false} RequestsArePending(env: Env, es: seq<Event>, a: nat, b: nat)
    requires PossibleRun(env, START, es)
    ensures (a, b) in Run(env, START, es).db.requests <==> Pending(env, START, es, a, b)
  {
    if es != [] {
      var n := |es| - 1;
      RequestsArePending(env, es[..n], a, b);
      StartInv();
      RunKeepsInv(env, START, es[..n]);
      RequestsStep(env, Run(env, START, es[..n]), es[n], a, b);
    }
  }

  /** The private chat that accepting leaves: the one there was, or a new one of the two. */
  lemma AcceptingOpens(db: Db, uid: nat, target: nat)
    requires DbInv(db) && uid != target
    ensures var r := AfterDecide(db, uid, target, true);
            if Shared(db, uid, target) != {}
            then r.nextConv == db.nextConv && Shared(r, uid, target) == Shared(db, uid, target)
            else
              && r.nextConv == db.nextConv + 1 && Shared(r, uid, target) == {db.nextConv}
              && MembersOf(r, db.nextConv) == {uid, target} && forall u :: !IsAdmin(r, db.nextConv, u)
  {
    var friends := AddFriendship(db, uid, target);
    FriendshipKeeps(db, uid, target);
    SameShared(db, friends, uid, target);
    var middle := Befriended(db, uid, target);
    var r := AfterDecide(db, uid, target, true);
    SameShared(middle, r, uid, target);
    if Shared(db, uid, target) == {} {
      var uids := [uid, target];
      assert forall u :: u in uids <==> u in {uid, target};
      CreateRows(friends, PRIVATE, "Private Chat", "", uids);
      SharedAfterCreate(friends, PRIVATE, "Private Chat", "", uids, uid, target);
    }
  }

  /**
   * Everything accepting does, from any reachable tables: friendship both ways, a shared
   * private chat, the request gone, and no other row added, changed or removed. A new chat is
   * made only if none was shared and has exactly the two users, neither as admin.
   */
  lemma AcceptingDoes(db: Db, uid: nat, target: nat)
    requires DbInv(db) && uid != target
    ensures var r := AfterDecide(db, uid, target, true);
            && Friends(r, uid, target) && r.contacts == db.contacts + {(uid, target), (target, uid)}
            && r.requests == db.requests - {(target, uid)}
            && r.users == db.users && r.messages == db.messages
            && (forall c: nat :: c < db.nextConv ==> GroupOf(r, c) == GroupOf(db, c))
            && if Shared(db, uid, target) != {}
               then r.nextConv == db.nextConv && Shared(r, uid, target) == Shared(db, uid, target)
               else
                 && r.nextConv == db.nextConv + 1 && Shared(r, uid, target) == {db.nextConv}
                 && MembersOf(r, db.nextConv) == {uid, target} && forall u :: !IsAdmin(r, db.nextConv, u)
  {
    FriendshipKeeps(db, uid, target);
    AcceptingOpens(db, uid, target);
    forall c: nat | c < db.nextConv ensures GroupOf(AfterDecide(db, uid, target, true), c) == GroupOf(db, c) {
      DecideElsewhere(db, uid, target, true, c);
    }
  }

  lemma AcceptingAgain(db: Db, uid: nat, target: nat)
    requires DbInv(db) && Friends(db, uid, target) && Shared(db, uid, target) != {}
    ensures AfterDecide(db, target, uid, true) == RemoveRequest(db, uid, target)
  {
    SharedSymmetric(db, uid, target);
  }

  lemma NextDecides(env: Env, s: State, e: Event, uid: nat)
    requires e.Receive? && e.req.DecideRequest? && Sender(s, e) == Some(uid)
    ensures Next(env, s, e).db == AfterDecide(s.db, uid, e.req.target, e.req.accepted)
  {
  }

  /** What an accept settles for the rest of the run. */
  lemma AcceptSettles(env: Env, s: State, e: Event, uid: nat, target: nat)
    requires Inv(s) && e.Receive? && e.req == DecideRequest(target, true) && Sender(s, e) == Some(uid) && uid != target
    ensures var r := Next(env, s, e).db; (uid, target) in r.contacts && Shared(r, uid, target) != {}
  {
    NextDecides(env, s, e, uid);
    AcceptingDoes(s.db, uid, target);
  }

  lemma SettledStays(env: Env, s: State, es: seq<Event>, uid: nat, target: nat)
    requires Inv(s) && PossibleRun(env, s, es) && (uid, target) in s.db.contacts && Shared(s.db, uid, target) != {}
    ensures var r := Run(env, s, es).db; DbInv(r) && Friends(r, uid, target) && Shared(r, uid, target) != {}
  {
    RunKeepsInv(env, s, es);
    FriendsForever(env, s, es);
    SharedForever(env, s, es, uid, target);
  }

  /**
   * On every run: after one user accepted another, and whatever happened since, accepting the
   * mirror request changes nothing but that request row.
   */
  lemma MirrorAcceptOnlyClears(env: Env, before: seq<Event>, e: Event, after: seq<Event>,
                                                  uid: nat, target: nat)
    requires PossibleRun(env, START, before + [e] + after)
    requires e.Receive? && e.req == DecideRequest(target, true)
    requires Sender(Run(env, START, before), e) == Some(uid) && uid != target
    ensures var r := Run(env, START, before + [e] + after).db;
            AfterDecide(r, target, uid, true) == RemoveRequest(r, uid, target)
  {
    var s := Run(env, START, before);
    var t := Run(env, START, before + [e]);
    StartInv();
    PossibleSplit(env, START, before + [e], after);
    PossibleSplit(env, START, before, [e]);
    RunKeepsInv(env, START, before);
    RunKeepsInv(env, START, before + [e]);
    RunLast(env, START, before, e);
    AcceptSettles(env, s, e, uid, target);
    SettledStays(env, t, after, uid, target);
    RunSplit(env, START, before + [e], after);
    AcceptingAgain(Run(env, t, after).db, uid, target);
  }

  /** Accepting oneself makes no friend; it opens at most a private chat of one. */
  lemma AcceptingOneself(db: Db, uid: nat)
    requires DbInv(db)
    ensures var r := AfterDecide(db, uid, uid, true);
            && r.contacts == db.contacts && r.requests == db.requests
            && (forall c: nat :: c < db.nextConv ==> GroupOf(r, c) == GroupOf(db, c))
            && (Shared(db, uid, uid) != {} ==> r == db)
            && (Shared(db, uid, uid) == {} ==> MembersOf(r, db.nextConv) == {uid})
  {
    FriendshipKeeps(db, uid, uid);
    var r := AfterDecide(db, uid, uid, true);
    assert (uid, uid) !in db.requests;
    assert db.requests - {(uid, uid)} == db.requests;
    forall c: nat | c < db.nextConv ensures GroupOf(r, c) == GroupOf(db, c) {
      DecideElsewhere(db, uid, uid, true, c);
    }
    if Shared(db, uid, uid) == {} {
      CreateRows(db, PRIVATE, "Private Chat", "", [uid, uid]);
      assert forall u :: u in [uid, uid] <==> u == uid;
    }
  }
}
