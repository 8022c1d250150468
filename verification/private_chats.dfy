/** Private chats over whole runs: they are permanent, and when two users share only one. */
module PrivateChats {
  import opened Protocol
  import opened Tables
  import opened Machine
  import opened Invariant
  import opened Groups

  /** Any two distinct users share at most one private conversation. */
  ghost predicate PairsUnique(db: Db) {
    forall a, b, c, d :: a != b && c in Shared(db, a, b) && d in Shared(db, a, b) ==> c == d
  }

  /**
   * The creation handle_create_conv does not check for: a private chat listing more than two
   * uids, two of whom share one already.
   */
  ghost predicate Duplicates(db: Db, req: Request) {
    && req.CreateConv? && req.ctype == PRIVATE && |ListedUids(req)| > 2
    && exists a, b :: a in ListedUids(req) && b in ListedUids(req) && a != b && Shared(db, a, b) != {}
  }

  ghost predicate DuplicatesAt(s: State, e: Event) {
    Sender(s, e).Some? && Duplicates(s.db, e.req)
  }

  ghost predicate NeverDuplicates(env: Env, s: State, es: seq<Event>) {
    es == [] || (NeverDuplicates(env, s, es[..|es| - 1]) && !DuplicatesAt(Run(env, s, es[..|es| - 1]), es[|es| - 1]))
  }

  lemma SharedSymmetric(db: Db, a: nat, b: nat)
    ensures Shared(db, a, b) == Shared(db, b, a)
  {
  }

  /** Private conversations have no admin, so no request takes a participant out of one. */
  lemma SharedStays(env: Env, db: Db, uid: nat, req: Request, dice: Dice, a: nat, b: nat)
    requires DbInv(db)
    ensures Shared(db, a, b) <= Shared(DbAfter(env, db, uid, req, dice), a, b)
  {
    var r := DbAfter(env, db, uid, req, dice);
    forall c | c in Shared(db, a, b) ensures c in Shared(r, a, b) {
      if GroupOf(r, c) != GroupOf(db, c) {
        OnlyAdminChanges(env, db, uid, req, dice, c);
      }
      assert a in GroupOf(db, c).roles && b in GroupOf(db, c).roles && GroupOf(db, c).info.Some?;
    }
  }

  /** Creating adds the new id to exactly the pairs it lists. */
  lemma SharedAfterCreate(db: Db, ctype: nat, name: string, desc: string, uids: seq<nat>, a: nat, b: nat)
    requires DbInv(db)
    ensures var r := CreateConversation(db, ctype, name, desc, uids);
            Shared(r, a, b)
            == Shared(db, a, b) + if ctype == PRIVATE && a in uids && b in uids then {db.nextConv} else {}
  {
    CreateRows(db, ctype, name, desc, uids);
    var r := CreateConversation(db, ctype, name, desc, uids);
    forall c | c in Shared(r, a, b) && c != db.nextConv ensures c in Shared(db, a, b) { }
  }

  /** The exact condition under which creating a conversation keeps pairs unique. */
  lemma CreateUniqueIff(db: Db, ctype: nat, name: string, desc: string, uids: seq<nat>)
    requires DbInv(db) && PairsUnique(db)
    ensures PairsUnique(CreateConversation(db, ctype, name, desc, uids)) <==>
            !(ctype == PRIVATE && exists a, b :: a in uids && b in uids && a != b && Shared(db, a, b) != {})
  {
    var r := CreateConversation(db, ctype, name, desc, uids);
    forall a, b ensures Shared(r, a, b)
                     == Shared(db, a, b) + if ctype == PRIVATE && a in uids && b in uids then {db.nextConv} else {}
    {
      SharedAfterCreate(db, ctype, name, desc, uids, a, b);
    }
    NewIdIff(db, r, db.nextConv, if ctype == PRIVATE then uids else []);
  }

  lemma NewIdIff(db: Db, r: Db, n: nat, uids: seq<nat>)
    requires PairsUnique(db) && n !in db.convs
    requires forall a, b :: Shared(r, a, b) == Shared(db, a, b) + if a in uids && b in uids then {n} else {}
    ensures PairsUnique(r) <==> !exists a, b :: a in uids && b in uids && a != b && Shared(db, a, b) != {}
  {
    if a, b :| a in uids && b in uids && a != b && Shared(db, a, b) != {} {
      var c :| c in Shared(db, a, b);
      assert c in Shared(r, a, b) && n in Shared(r, a, b) && c != n;
    }
  }

  /** Requests other than creating and accepting leave every surviving private chat alone. */
  lemma PrivateUntouched(env: Env, db: Db, uid: nat, req: Request, dice: Dice, c: nat)
    requires DbInv(db) && !req.CreateConv? && !req.DecideRequest?
    ensures var r := DbAfter(env, db, uid, req, dice);
            c in r.convs && r.convs[c].ctype == PRIVATE ==> GroupOf(r, c) == GroupOf(db, c)
  {
    var r := DbAfter(env, db, uid, req, dice);
    if GroupOf(r, c) != GroupOf(db, c) && c in r.convs {
      CounterStays(env, db, uid, req, dice);
      DbStep(env, db, uid, req, dice);
      OnlyAdminChanges(env, db, uid, req, dice, c);
      AdminSurvives(env, db, uid, req, dice, c, uid);
    }
  }

  lemma PairsFromGroups(db: Db, r: Db)
    requires PairsUnique(db)
    requires forall c :: c in r.convs && r.convs[c].ctype == PRIVATE ==> GroupOf(r, c) == GroupOf(db, c)
    ensures PairsUnique(r)
  {
    forall a, b, c | c in Shared(r, a, b) ensures c in Shared(db, a, b) {
      assert a in GroupOf(r, c).roles && b in GroupOf(r, c).roles && GroupOf(r, c).info == GroupOf(db, c).info;
    }
  }

  lemma OthersKeepPairs(env: Env, db: Db, uid: nat, req: Request, dice: Dice)
    requires DbInv(db) && PairsUnique(db) && !req.CreateConv? && !req.DecideRequest?
    ensures PairsUnique(DbAfter(env, db, uid, req, dice))
  {
    var r := DbAfter(env, db, uid, req, dice);
    forall c | c in r.convs && r.convs[c].ctype == PRIVATE ensures GroupOf(r, c) == GroupOf(db, c) {
      PrivateUntouched(env, db, uid, req, dice, c);
    }
    PairsFromGroups(db, r);
  }

  lemma SamePairs(db: Db, r: Db)
    requires r.convs == db.convs && r.parts == db.parts
    ensures PairsUnique(r) <==> PairsUnique(db)
  {
    assert forall a, b :: Shared(r, a, b) == Shared(db, a, b);
  }

  lemma BefriendedKeepsPairs(db: Db, uid: nat, target: nat)
    requires DbInv(db) && PairsUnique(db)
    ensures PairsUnique(Befriended(db, uid, target))
  {
    var friends := AddFriendship(db, uid, target);
    FriendshipKeeps(db, uid, target);
    SamePairs(db, friends);
    if Shared(friends, uid, target) == {} {
      var uids := [uid, target];
      forall a, b | a in uids && b in uids && a != b ensures Shared(friends, a, b) == {} {
        NoPairListed(friends, uids, a, b);
      }
      CreateUniqueIff(friends, PRIVATE, "Private Chat", "", uids);
    }
  }

  lemma DecideKeepsPairs(db: Db, uid: nat, target: nat, accepted: bool)
    requires DbInv(db) && PairsUnique(db)
    ensures PairsUnique(AfterDecide(db, uid, target, accepted))
  {
    if accepted {
      BefriendedKeepsPairs(db, uid, target);
      SamePairs(Befriended(db, uid, target), AfterDecide(db, uid, target, true));
    } else {
      SamePairs(db, AfterDecide(db, uid, target, false));
    }
  }

  /** Up to two uids give no sharing pair once the lookup came back empty. */
  lemma NoPairListed(db: Db, uids: seq<nat>, a: nat, b: nat)
    requires |uids| <= 2 && (|uids| == 2 ==> Shared(db, uids[0], uids[1]) == {})
    requires a in uids && b in uids && a != b
    ensures Shared(db, a, b) == {}
  {
    SharedSymmetric(db, a, b);
  }

  lemma CreateStepIff(db: Db, req: Request)
    requires DbInv(db) && PairsUnique(db) && req.CreateConv?
    ensures PairsUnique(AfterCreate(db, req)) <==> !Duplicates(db, req)
  {
    var uids := ListedUids(req);
    if !FindsExisting(db, req) {
      CreateUniqueIff(db, req.ctype, req.name, req.desc, uids);
      if |uids| <= 2 && req.ctype == PRIVATE {
        forall a, b | a in uids && b in uids && a != b ensures Shared(db, a, b) == {} {
          NoPairListed(db, uids, a, b);
        }
      }
    }
  }

  /** One request breaks uniqueness exactly when it is a duplicating creation. */
  lemma PairsStepIff(env: Env, db: Db, uid: nat, req: Request, dice: Dice)
    requires DbInv(db) && PairsUnique(db)
    ensures PairsUnique(DbAfter(env, db, uid, req, dice)) <==> !Duplicates(db, req)
  {
    match req {
      case CreateConv(_, _, _, _, _) => CreateStepIff(db, req);
      case DecideRequest(target, accepted) => DecideKeepsPairs(db, uid, target, accepted);
      case _ => OthersKeepPairs(env, db, uid, req, dice);
    }
  }

  lemma BrokenStaysBroken(env: Env, db: Db, uid: nat, req: Request, dice: Dice)
    requires DbInv(db) && !PairsUnique(db)
    ensures !PairsUnique(DbAfter(env, db, uid, req, dice))
  {
    var a, b, c, d :| a != b && c in Shared(db, a, b) && d in Shared(db, a, b) && c != d;
    SharedStays(env, db, uid, req, dice, a, b);
    var r := DbAfter(env, db, uid, req, dice);
    assert c in Shared(r, a, b) && d in Shared(r, a, b);
  }

  lemma PairsEventIff(env: Env, s: State, e: Event)
    requires Inv(s)
    ensures PairsUnique(Next(env, s, e).db) <==> PairsUnique(s.db) && !DuplicatesAt(s, e)
  {
    var who := Sender(s, e);
    if who.Some? {
      if PairsUnique(s.db) {
        PairsStepIff(env, s.db, who.value, e.req, e.dice);
      } else {
        BrokenStaysBroken(env, s.db, who.value, e.req, e.dice);
      }
    }
  }

  /**
   * After a run, any two users share at most one private chat if and only if no step of the
   * run created one listing more than two uids, two of whom shared one at the time.
   */
  lemma {:induction false} PairsUniqueIff(env: Env, es: seq<Event>)
    requires PossibleRun(env, START, es)
    ensures PairsUnique(Run(env, START, es).db) <==> NeverDuplicates(env, START, es)
  {
    StartInv();
    if es != [] {
      var n := |es| - 1;
      PairsUniqueIff(env, es[..n]);
      RunKeepsInv(env, START, es[..n]);
      PairsEventIff(env, Run(env, START, es[..n]), es[n]);
    }
  }

  /** The packets service_create_private sends never list more than two uids. */
  lemma {:induction false} TwoListedNeverDuplicate(env: Env, s: State, es: seq<Event>)
    requires forall i :: 0 <= i < |es| && es[i].Receive? && es[i].req.CreateConv? && es[i].req.ctype == PRIVATE ==>
               |ListedUids(es[i].req)| <= 2
    ensures NeverDuplicates(env, s, es)
  {
    if es != [] {
      TwoListedNeverDuplicate(env, s, es[..|es| - 1]);
    }
  }

  /** A shared private chat is shared in every later state. */
  lemma {:induction false} SharedForever(env: Env, s: State, es: seq<Event>, a: nat, b: nat)
    requires Inv(s) && PossibleRun(env, s, es)
    ensures Shared(s.db, a, b) <= Shared(Run(env, s, es).db, a, b)
  {
    if es != [] {
      var n := |es| - 1;
      var mid := Run(env, s, es[..n]);
      SharedForever(env, s, es[..n], a, b);
      RunKeepsInv(env, s, es[..n]);
      var who := Sender(mid, es[n]);
      if who.Some? {
        SharedStays(env, mid.db, who.value, es[n].req, es[n].dice, a, b);
      }
    }
  }

  /** A creation made without a lookup: private, of more than two uids, a and b among them. */
  predicate ListsBoth(req: Request, a: nat, b: nat) {
    && req.CreateConv? && req.ctype == PRIVATE && |ListedUids(req)| > 2
    && a in ListedUids(req) && b in ListedUids(req)
  }

  ghost predicate NeverListsBoth(env: Env, s: State, es: seq<Event>, a: nat, b: nat) {
    es == [] ||
    var mid := Run(env, s, es[..|es| - 1]);
    var e := es[|es| - 1];
    NeverListsBoth(env, s, es[..|es| - 1], a, b) && !(Sender(mid, e).Some? && ListsBoth(e.req, a, b))
  }

  lemma CreateSharedIff(db: Db, req: Request, a: nat, b: nat)
    requires DbInv(db) && req.CreateConv? && a != b && Shared(db, a, b) != {}
    ensures Shared(AfterCreate(db, req), a, b) == Shared(db, a, b) <==> !ListsBoth(req, a, b)
  {
    var uids := ListedUids(req);
    if !FindsExisting(db, req) {
      SharedAfterCreate(db, req.ctype, req.name, req.desc, uids, a, b);
      assert db.nextConv !in Shared(db, a, b);
      if req.ctype == PRIVATE && |uids| <= 2 && a in uids && b in uids {
        NoPairListed(db, uids, a, b);
        assert false;
      }
    }
  }

  lemma DecideSharedSame(db: Db, uid: nat, target: nat, accepted: bool, a: nat, b: nat)
    requires DbInv(db) && a != b && Shared(db, a, b) != {}
    ensures Shared(AfterDecide(db, uid, target, accepted), a, b) == Shared(db, a, b)
  {
    if accepted {
      BefriendedSharedSame(db, uid, target, a, b);
      SameShared(Befriended(db, uid, target), AfterDecide(db, uid, target, true), a, b);
    } else {
      SameShared(db, AfterDecide(db, uid, target, false), a, b);
    }
  }

  lemma SameShared(db: Db, r: Db, a: nat, b: nat)
    requires r.convs == db.convs && r.parts == db.parts
    ensures Shared(r, a, b) == Shared(db, a, b)
  {
  }

  lemma BefriendedSharedSame(db: Db, uid: nat, target: nat, a: nat, b: nat)
    requires DbInv(db) && a != b && Shared(db, a, b) != {}
    ensures Shared(Befriended(db, uid, target), a, b) == Shared(db, a, b)
  {
    var friends := AddFriendship(db, uid, target);
    FriendshipKeeps(db, uid, target);
    SameShared(db, friends, a, b);
    if Shared(friends, uid, target) == {} {
      if a in [uid, target] && b in [uid, target] {
        NoPairListed(friends, [uid, target], a, b);
        assert false;
      }
      SharedAfterCreate(friends, PRIVATE, "Private Chat", "", [uid, target], a, b);
    }
  }

  lemma OtherSharedSame(env: Env, db: Db, uid: nat, req: Request, dice: Dice, a: nat, b: nat)
    requires DbInv(db) && !req.CreateConv? && !req.DecideRequest?
    ensures Shared(DbAfter(env, db, uid, req, dice), a, b) == Shared(db, a, b)
  {
    var r := DbAfter(env, db, uid, req, dice);
    SharedStays(env, db, uid, req, dice, a, b);
    forall c | c in Shared(r, a, b) ensures c in Shared(db, a, b) {
      PrivateUntouched(env, db, uid, req, dice, c);
      assert a in GroupOf(r, c).roles && b in GroupOf(r, c).roles && GroupOf(r, c).info.Some?;
    }
  }

  /** Once two users share a chat, only a creation without a lookup that lists both adds another. */
  lemma SharedStepIff(env: Env, db: Db, uid: nat, req: Request, dice: Dice, a: nat, b: nat)
    requires DbInv(db) && a != b && Shared(db, a, b) != {}
    ensures Shared(DbAfter(env, db, uid, req, dice), a, b) == Shared(db, a, b) <==> !ListsBoth(req, a, b)
  {
    if req.CreateConv? {
      DbAfterCreate(env, db, uid, req, dice);
      CreateSharedIff(db, req, a, b);
    } else if req.DecideRequest? {
      DbAfterDecide(env, db, uid, req, dice);
      DecideSharedSame(db, uid, req.target, req.accepted, a, b);
    } else {
      OtherSharedSame(env, db, uid, req, dice, a, b);
    }
  }

  lemma SharedEventIff(env: Env, s: State, e: Event, a: nat, b: nat)
    requires Inv(s) && a != b && Shared(s.db, a, b) != {}
    ensures Shared(s.db, a, b) <= Shared(Next(env, s, e).db, a, b)
    ensures Shared(Next(env, s, e).db, a, b) == Shared(s.db, a, b)
       <==> !(Sender(s, e).Some? && ListsBoth(e.req, a, b))
  {
    var who := Sender(s, e);
    if who.Some? {
      SharedStays(env, s.db, who.value, e.req, e.dice, a, b);
      SharedStepIff(env, s.db, who.value, e.req, e.dice, a, b);
    }
  }

  /**
   * From any state in which two users share private chats: after a run they share the same ones
   * if and only if no step of it created a private chat listing both among more than two uids.
   */
  lemma {:induction false} SharedRunIff(env: Env, s: State, es: seq<Event>, a: nat, b: nat)
    requires Inv(s) && PossibleRun(env, s, es) && a != b && Shared(s.db, a, b) != {}
    ensures Shared(Run(env, s, es).db, a, b) == Shared(s.db, a, b) <==> NeverListsBoth(env, s, es, a, b)
  {
    if es != [] {
      var n := |es| - 1;
      SharedRunIff(env, s, es[..n], a, b);
      SharedForever(env, s, es[..n], a, b);
      RunKeepsInv(env, s, es[..n]);
      SharedEventIff(env, Run(env, s, es[..n]), es[n], a, b);
    }
  }

  /**
   * Once two users share chat c: after a further run c is the lookup's only possible answer, in
   * either argument order, if and only if it was so before and no step of the run created a
   * private chat listing both among more than two uids.
   */
  lemma LookupIsStable(env: Env, es: seq<Event>, fs: seq<Event>, a: nat, b: nat, c: nat)
    requires PossibleRun(env, START, es + fs)
    requires a != b && c in Shared(Run(env, START, es).db, a, b)
    ensures var s := Run(env, START, es);
            var r := Run(env, START, es + fs).db;
            && c != 0
            && (Shared(r, a, b) == {c} && Shared(r, b, a) == {c}
                <==> Shared(s.db, a, b) == {c} && NeverListsBoth(env, s, fs, a, b))
  {
    StartInv();
    PossibleSplit(env, START, es, fs);
    RunKeepsInv(env, START, es);
    SharedForever(env, Run(env, START, es), fs, a, b);
    SharedRunIff(env, Run(env, START, es), fs, a, b);
    RunSplit(env, START, es, fs);
    SharedSymmetric(Run(env, START, es + fs).db, a, b);
  }

  /** In particular when no two users are ever listed together while they share a chat. */
  lemma LookupNeverDuplicates(env: Env, es: seq<Event>, fs: seq<Event>, a: nat, b: nat, c: nat)
    requires PossibleRun(env, START, es + fs) && NeverDuplicates(env, START, es + fs)
    requires a != b && c in Shared(Run(env, START, es).db, a, b)
    ensures var r := Run(env, START, es + fs).db; Shared(r, a, b) == {c} && Shared(r, b, a) == {c}
  {
    StartInv();
    PossibleSplit(env, START, es, fs);
    RunKeepsInv(env, START, es);
    SharedForever(env, Run(env, START, es), fs, a, b);
    RunSplit(env, START, es, fs);
    PairsUniqueIff(env, es + fs);
    SharedSymmetric(Run(env, START, es + fs).db, a, b);
  }
}
