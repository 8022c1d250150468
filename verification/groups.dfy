/** Group chats over whole runs: who can change them, who administers them, how they end. */
module Groups {
  import opened Bytes
  import opened Protocol
  import opened Tables
  import opened Registry
  import opened Machine
  import opened Invariant

  /** Everything the tables say about conversation c apart from its messages. */
  datatype Group = Group(info: Option<Conv>, roles: map<nat, nat>)

  function GroupOf(db: Db, c: nat): (g: Group)
    ensures g.info.Some? <==> c in db.convs
    ensures forall u :: u in g.roles <==> (c, u) in db.parts
    ensures forall u :: u in g.roles ==> g.roles[u] == db.parts[(c, u)]
  {
    Group(if c in db.convs then Some(db.convs[c]) else None, map u | u in MembersOf(db, c) :: db.parts[(c, u)])
  }

  lemma SameGroup(db: Db, r: Db, c: nat)
    requires c in db.convs <==> c in r.convs
    requires c in db.convs ==> r.convs[c] == db.convs[c]
    requires forall u: nat :: (c, u) in r.parts <==> (c, u) in db.parts
    requires forall u: nat :: (c, u) in db.parts ==> r.parts[(c, u)] == db.parts[(c, u)]
    ensures GroupOf(r, c) == GroupOf(db, c)
  {
    assert GroupOf(r, c).roles == GroupOf(db, c).roles;
  }

  /** The four requests that act on an existing group. */
  predicate Commands(req: Request, c: nat) {
    || (req.UpdateGroup? && req.groupConv == c)
    || (req.AddMember? && req.addConv == c)
    || (req.KickMember? && req.kickConv == c)
    || (req.DeleteGroup? && req.deletedConv == c)
  }

  /** The uid a packet's sender is logged in as, if the packet reaches a handler. */
  function Sender(s: State, e: Event): Option<nat> {
    if e.Receive? && FdIndex(s.conns, e.fd) < |s.conns| then Some(s.conns[FdIndex(s.conns, e.fd)].uid) else None
  }

  lemma CreateElsewhere(db: Db, ctype: nat, name: string, desc: string, uids: seq<nat>, c: nat)
    requires DbInv(db) && c < db.nextConv
    ensures GroupOf(CreateConversation(db, ctype, name, desc, uids), c) == GroupOf(db, c)
  {
    CreateRows(db, ctype, name, desc, uids);
    SameGroup(db, CreateConversation(db, ctype, name, desc, uids), c);
  }

  lemma CreateStepElsewhere(db: Db, req: Request, c: nat)
    requires DbInv(db) && c < db.nextConv && req.CreateConv?
    ensures GroupOf(AfterCreate(db, req), c) == GroupOf(db, c)
  {
    CreateElsewhere(db, req.ctype, req.name, req.desc, ListedUids(req), c);
  }

  lemma DecideElsewhere(db: Db, uid: nat, target: nat, accepted: bool, c: nat)
    requires DbInv(db) && c < db.nextConv
    ensures GroupOf(AfterDecide(db, uid, target, accepted), c) == GroupOf(db, c)
  {
    if accepted {
      var friends := AddFriendship(db, uid, target);
      FriendshipKeeps(db, uid, target);
      SameGroup(db, friends, c);
      CreateElsewhere(friends, PRIVATE, "Private Chat", "", [uid, target], c);
      SameGroup(Befriended(db, uid, target), AfterDecide(db, uid, target, true), c);
    } else {
      SameGroup(db, AfterDecide(db, uid, target, false), c);
    }
  }

  lemma CreatesElsewhere(env: Env, db: Db, uid: nat, req: Request, dice: Dice, c: nat)
    requires DbInv(db) && c < db.nextConv && (req.CreateConv? || req.DecideRequest?)
    ensures GroupOf(DbAfter(env, db, uid, req, dice), c) == GroupOf(db, c)
  {
    if req.CreateConv? {
      DbAfterCreate(env, db, uid, req, dice);
      CreateStepElsewhere(db, req, c);
    } else {
      DbAfterDecide(env, db, uid, req, dice);
      DecideElsewhere(db, uid, req.target, req.accepted, c);
    }
  }

  /** One request changes an existing conversation only as a command from its admin. */
  lemma OnlyAdminChanges(env: Env, db: Db, uid: nat, req: Request, dice: Dice, c: nat)
    requires DbInv(db) && c < db.nextConv
    ensures GroupOf(DbAfter(env, db, uid, req, dice), c) != GroupOf(db, c) ==> IsAdmin(db, c, uid) && Commands(req, c)
  {
    if req.CreateConv? || req.DecideRequest? {
      CreatesElsewhere(env, db, uid, req, dice, c);
    } else if !(IsAdmin(db, c, uid) && Commands(req, c)) {
      Untouched(env, db, uid, req, dice, c);
    }
  }

  lemma Untouched(env: Env, db: Db, uid: nat, req: Request, dice: Dice, c: nat)
    requires !req.CreateConv? && !req.DecideRequest?
    requires !(IsAdmin(db, c, uid) && Commands(req, c))
    ensures GroupOf(DbAfter(env, db, uid, req, dice), c) == GroupOf(db, c)
  {
    SameGroup(db, DbAfter(env, db, uid, req, dice), c);
  }

  lemma CounterStays(env: Env, db: Db, uid: nat, req: Request, dice: Dice)
    requires !req.CreateConv? && !req.DecideRequest?
    ensures DbAfter(env, db, uid, req, dice).nextConv == db.nextConv
  {
  }

  lemma DbCounterGrows(env: Env, db: Db, uid: nat, req: Request, dice: Dice)
    ensures DbAfter(env, db, uid, req, dice).nextConv >= db.nextConv
  {
    if !req.CreateConv? && !req.DecideRequest? {
      CounterStays(env, db, uid, req, dice);
    }
  }

  lemma CounterGrows(env: Env, s: State, e: Event)
    ensures Next(env, s, e).db.nextConv >= s.db.nextConv
  {
    if Sender(s, e).Some? {
      DbCounterGrows(env, s.db, Sender(s, e).value, e.req, e.dice);
    }
  }

  lemma {:induction false} RunCounterGrows(env: Env, s: State, es: seq<Event>)
    ensures Run(env, s, es).db.nextConv >= s.db.nextConv
  {
    if es != [] {
      RunCounterGrows(env, s, es[..|es| - 1]);
      CounterGrows(env, Run(env, s, es[..|es| - 1]), es[|es| - 1]);
    }
  }

  lemma EventOnlyAdminChanges(env: Env, s: State, e: Event, c: nat)
    requires Inv(s) && c < s.db.nextConv
    ensures GroupOf(Next(env, s, e).db, c) != GroupOf(s.db, c) ==>
              Sender(s, e).Some? && IsAdmin(s.db, c, Sender(s, e).value) && Commands(e.req, c)
  {
    if Sender(s, e).Some? {
      OnlyAdminChanges(env, s.db, Sender(s, e).value, e.req, e.dice, c);
    }
  }

  /** In state mid, e is a command about c from a session of c's admin in tables db. */
  ghost predicate AdminCommand(db: Db, mid: State, e: Event, c: nat) {
    Sender(mid, e).Some? && IsAdmin(db, c, Sender(mid, e).value) && Commands(e.req, c)
  }

  lemma FirstChange(env: Env, s: State, mid: State, e: Event, c: nat)
    requires Inv(mid) && c < mid.db.nextConv
    requires GroupOf(mid.db, c) == GroupOf(s.db, c)
    ensures GroupOf(Next(env, mid, e).db, c) != GroupOf(s.db, c) ==> AdminCommand(s.db, mid, e, c)
  {
    EventOnlyAdminChanges(env, mid, e, c);
    SameAdmins(s.db, mid.db, c);
  }

  lemma SameAdmins(db: Db, r: Db, c: nat)
    requires GroupOf(r, c) == GroupOf(db, c)
    ensures forall u :: IsAdmin(r, c, u) <==> IsAdmin(db, c, u)
  {
    assert forall u :: (c, u) in r.parts <==> u in GroupOf(r, c).roles;
  }

  /** No step of the run is such a command. */
  ghost predicate LeftAlone(env: Env, s: State, es: seq<Event>, c: nat) {
    es == [] ||
    (LeftAlone(env, s, es[..|es| - 1], c) && !AdminCommand(s.db, Run(env, s, es[..|es| - 1]), es[|es| - 1], c))
  }

  /**
   * Non-interference: over a run in which c's admin sends no command about c, nobody changes
   * its participants, roles, name, description or existence. Conversations without an admin,
   * private ones included, never change at all.
   */
  lemma {:induction false} NonInterference(env: Env, s: State, es: seq<Event>, c: nat)
    requires Inv(s) && PossibleRun(env, s, es) && c < s.db.nextConv
    ensures LeftAlone(env, s, es, c) ==> GroupOf(Run(env, s, es).db, c) == GroupOf(s.db, c)
  {
    if es != [] && LeftAlone(env, s, es, c) {
      var init := es[..|es| - 1];
      NonInterference(env, s, init, c);
      RunKeepsInv(env, s, init);
      RunCounterGrows(env, s, init);
      FirstChange(env, s, Run(env, s, init), es[|es| - 1], c);
    }
  }

  /** Nobody can be c's admin in a run from a state in which c has none. */
  lemma NoAdminNoChange(env: Env, s: State, es: seq<Event>, c: nat)
    requires Inv(s) && PossibleRun(env, s, es) && c < s.db.nextConv
    requires forall u :: !IsAdmin(s.db, c, u)
    ensures GroupOf(Run(env, s, es).db, c) == GroupOf(s.db, c)
  {
    AloneWithoutAdmin(env, s, es, c);
    NonInterference(env, s, es, c);
  }

  lemma {:induction false} AloneWithoutAdmin(env: Env, s: State, es: seq<Event>, c: nat)
    requires forall u :: !IsAdmin(s.db, c, u)
    ensures LeftAlone(env, s, es, c)
  {
    if es != [] {
      AloneWithoutAdmin(env, s, es[..|es| - 1], c);
    }
  }

  // ---- the admin ----

  lemma AdminSurvives(env: Env, db: Db, uid: nat, req: Request, dice: Dice, c: nat, a: nat)
    requires DbInv(db) && IsAdmin(db, c, a)
    ensures var r := DbAfter(env, db, uid, req, dice); c in r.convs ==> IsAdmin(r, c, a)
  {
    var r := DbAfter(env, db, uid, req, dice);
    assert (c, a) in db.parts && c in db.convs;
    if GroupOf(r, c) == GroupOf(db, c) {
      SameAdmins(db, r, c);
    } else {
      OnlyAdminChanges(env, db, uid, req, dice, c);
      CommandKeepsAdmin(env, db, uid, req, dice, c, a);
    }
  }

  lemma CommandKeepsAdmin(env: Env, db: Db, uid: nat, req: Request, dice: Dice, c: nat, a: nat)
    requires DbInv(db) && IsAdmin(db, c, a) && IsAdmin(db, c, uid) && Commands(req, c)
    ensures var r := DbAfter(env, db, uid, req, dice); c in r.convs ==> IsAdmin(r, c, a)
  {
    if req.UpdateGroup? {
      DbAfterUpdate(env, db, uid, req, dice);
    } else if req.AddMember? {
      DbAfterAdd(env, db, uid, req, dice);
      if Resolve(db, req.memberCode).Some? {
        AddParticipantKeeps(db, c, uid, Resolve(db, req.memberCode).value);
      }
    } else if req.KickMember? {
      DbAfterKick(env, db, uid, req, dice);
      if req.kicked != uid {
        KickKeeps(db, c, uid, req.kicked);
      }
    } else {
      DbAfterDelete(env, db, uid, req, dice);
    }
  }

  lemma StaysGone(env: Env, db: Db, uid: nat, req: Request, dice: Dice, c: nat)
    requires DbInv(db) && c < db.nextConv && c !in db.convs
    ensures c !in DbAfter(env, db, uid, req, dice).convs
  {
    OnlyAdminChanges(env, db, uid, req, dice, c);
    assert GroupOf(db, c).info == None;
  }

  /** A deleted conversation never has a participant, an admin or a place in a list again. */
  lemma {:induction false} GoneForever(env: Env, s: State, es: seq<Event>, c: nat)
    requires Inv(s) && PossibleRun(env, s, es) && c < s.db.nextConv && c !in s.db.convs
    ensures var r := Run(env, s, es).db;
            c !in r.convs && MembersOf(r, c) == {} && forall u :: !IsAdmin(r, c, u) && c !in ConvsOf(r, u)
  {
    RunKeepsInv(env, s, es);
    if es != [] {
      var n := |es| - 1;
      var mid := Run(env, s, es[..n]);
      GoneForever(env, s, es[..n], c);
      RunKeepsInv(env, s, es[..n]);
      RunCounterGrows(env, s, es[..n]);
      var who := Sender(mid, es[n]);
      if who.Some? {
        StaysGone(env, mid.db, who.value, es[n].req, es[n].dice, c);
      }
    }
  }

  /** From any state of a run, a group keeps the admin it has for as long as it exists. */
  lemma {:induction false} AdminForLife(env: Env, s: State, es: seq<Event>, c: nat, a: nat)
    requires Inv(s) && PossibleRun(env, s, es) && IsAdmin(s.db, c, a)
    ensures var r := Run(env, s, es).db;
            if c in r.convs then forall u :: IsAdmin(r, c, u) <==> u == a else MembersOf(r, c) == {}
  {
    RunKeepsInv(env, s, es);
    if es != [] {
      var n := |es| - 1;
      var mid := Run(env, s, es[..n]);
      AdminForLife(env, s, es[..n], c, a);
      RunKeepsInv(env, s, es[..n]);
      RunCounterGrows(env, s, es[..n]);
      assert (c, a) in s.db.parts && c < s.db.nextConv;
      var who := Sender(mid, es[n]);
      if who.Some? {
        if c in mid.db.convs {
          AdminSurvives(env, mid.db, who.value, es[n].req, es[n].dice, c, a);
        } else {
          StaysGone(env, mid.db, who.value, es[n].req, es[n].dice, c);
        }
      }
    }
  }

  lemma {:induction false} RunSplit(env: Env, s: State, es: seq<Event>, fs: seq<Event>)
    ensures Run(env, s, es + fs) == Run(env, Run(env, s, es), fs)
  {
    if fs == [] {
      assert es + fs == es;
    } else {
      var n := |fs| - 1;
      RunSplit(env, s, es, fs[..n]);
      assert (es + fs)[..|es + fs| - 1] == es + fs[..n];
    }
  }

  lemma RunLast(env: Env, s: State, es: seq<Event>, e: Event)
    ensures Run(env, s, es + [e]) == Next(env, Run(env, s, es), e)
  {
    assert (es + [e])[..|es|] == es;
  }

  lemma {:induction false} PossibleSplit(env: Env, s: State, es: seq<Event>, fs: seq<Event>)
    requires PossibleRun(env, s, es + fs)
    ensures PossibleRun(env, s, es)
    ensures PossibleRun(env, Run(env, s, es), fs)
  {
    if fs == [] {
      assert es + fs == es;
    } else {
      var n := |fs| - 1;
      assert (es + fs)[..|es + fs| - 1] == es + fs[..n];
      PossibleSplit(env, s, es, fs[..n]);
      RunSplit(env, s, es, fs[..n]);
    }
  }

  lemma FounderAtFirst(env: Env, s: State, e: Event)
    requires Inv(s) && e.Receive? && e.req.CreateConv? && e.req.ctype == GROUP && ListedUids(e.req) != []
    requires Sender(s, e).Some?
    ensures IsAdmin(Next(env, s, e).db, s.db.nextConv, ListedUids(e.req)[0])
  {
    CreateRows(s.db, GROUP, e.req.name, e.req.desc, ListedUids(e.req));
  }

  /**
   * On every run: the first uid listed when a group was created is its one and only admin in
   * every later state in which the group exists; afterwards the group has no rows at all.
   */
  lemma FounderIsTheAdmin(env: Env, before: seq<Event>, e: Event, after: seq<Event>)
    requires PossibleRun(env, START, before + [e] + after)
    requires e.Receive? && e.req.CreateConv? && e.req.ctype == GROUP && ListedUids(e.req) != []
    requires Sender(Run(env, START, before), e).Some?
    ensures var c := Run(env, START, before).db.nextConv;
            var r := Run(env, START, before + [e] + after).db;
            if c in r.convs then forall u :: IsAdmin(r, c, u) <==> u == ListedUids(e.req)[0] else MembersOf(r, c) == {}
  {
    var s := Run(env, START, before);
    var t := Run(env, START, before + [e]);
    PossibleSplit(env, START, before + [e], after);
    PossibleSplit(env, START, before, [e]);
    StartInv();
    RunKeepsInv(env, START, before);
    RunKeepsInv(env, START, before + [e]);
    assert (before + [e])[..|before + [e]| - 1] == before;
    FounderAtFirst(env, s, e);
    AdminForLife(env, t, after, s.db.nextConv, ListedUids(e.req)[0]);
    RunSplit(env, START, before + [e], after);
  }

  /** Reachable groups with participants have exactly one admin, other conversations none. */
  lemma AdminsExactly(env: Env, es: seq<Event>, c: nat)
    requires PossibleRun(env, START, es)
    ensures var r := Run(env, START, es).db;
            && (MembersOf(r, c) != {} ==> c in r.convs && c < r.nextConv)
            && ((exists u :: IsAdmin(r, c, u)) <==> MembersOf(r, c) != {} && r.convs[c].ctype == GROUP)
            && (forall u, v :: IsAdmin(r, c, u) && IsAdmin(r, c, v) ==> u == v)
  {
    StartInv();
    RunKeepsInv(env, START, es);
    var r := Run(env, START, es).db;
    if MembersOf(r, c) != {} {
      var u :| u in MembersOf(r, c);
      assert (c, u) in r.parts;
      if r.convs[c].ctype == GROUP {
        assert HasAdmin(r.parts, (c, u).0);
        var a :| AdminRow(r.parts, c, a);
        assert IsAdmin(r, c, a);
      }
    }
    forall u | IsAdmin(r, c, u) ensures u in MembersOf(r, c) { }
  }
}
