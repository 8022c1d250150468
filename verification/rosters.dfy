/** Who takes part in a conversation, in which role, told from the packets sent. */
module Rosters {
  import opened Bytes
  import opened Protocol
  import opened Tables
  import opened Machine
  import opened Invariant
  import opened Groups
  import opened Effects

  /** u's role in c; None for somebody who does not take part. */
  ghost function RoleOf(env: Env, s: State, es: seq<Event>, c: nat, u: nat): (role: Option<nat>) {
    if es == [] then None
    else RoleAfter(Run(env, s, es[..|es| - 1]), es[|es| - 1], c, u, RoleOf(env, s, es[..|es| - 1], c, u))
  }

  /** The uids that a step makes the participants of a new conversation. */
  ghost function Opened(db: Db, uid: nat, req: Request): (uids: Option<seq<nat>>) {
    match req
    case CreateConv(ctype, _, _, count, listed) =>
      var uids := listed[..Read(count, listed)];
      if ctype == 0 && |uids| == 2 && exists c :: PrivateOf(db, c, uids[0], uids[1]) then None else Some(uids)
    case DecideRequest(target, accepted) =>
      if accepted && forall c :: !PrivateOf(db, c, uid, target) then Some([uid, target]) else None
    case _ => None
  }

  ghost function RoleAfter(mid: State, e: Event, c: nat, u: nat, before: Option<nat>): Option<nat> {
    var who := Sender(mid, e);
    if who.None? then before else RequestRole(mid.db, who.value, e.req, c, u, before)
  }

  ghost function RequestRole(db: Db, uid: nat, req: Request, c: nat, u: nat, before: Option<nat>): Option<nat> {
    var made := Opened(db, uid, req);
    if made.Some? then
      if c == db.nextConv && u in made.value
      then Some(if req.CreateConv? && req.ctype == 1 && u == made.value[0] then 1 else 0)
      else before
    else if !Administers(db, c, uid) then before
    else match req
         case AddMember(d, code) =>
           if d == c && before.None? && u in db.users && db.users[u].code == code then Some(0) else before
         case KickMember(d, target) => if d == c && target == u && u != uid then None else before
         case DeleteGroup(d) => if d == c then None else before
         case _ => before
  }

  function Row(db: Db, c: nat, u: nat): Option<nat> {
    if (c, u) in db.parts then Some(db.parts[(c, u)]) else None
  }

  lemma OpeningRole(db: Db, r: Db, ctype: nat, name: string, desc: string, uids: seq<nat>, c: nat, u: nat)
    requires NewConversation(db, r, ctype, name, desc, uids)
    ensures Row(r, c, u)
         == if c == db.nextConv && u in uids then Some(if ctype == 1 && u == uids[0] then 1 else 0) else Row(db, c, u)
  {
    assert (c, u) in r.parts <==> (c, u) in db.parts || (c == db.nextConv && u in uids);
    assert (c, u) in db.parts ==> c != db.nextConv && r.parts[(c, u)] == db.parts[(c, u)];
  }

  lemma CreateRole(env: Env, db: Db, uid: nat, req: Request, dice: Dice, c: nat, u: nat)
    requires DbInv(db) && req.CreateConv?
    ensures Row(DbAfter(env, db, uid, req, dice), c, u) == RequestRole(db, uid, req, c, u, Row(db, c, u))
  {
    CreateEffect(env, db, uid, req, dice);
    var made := Opened(db, uid, req);
    if made.Some? {
      OpeningRole(db, DbAfter(env, db, uid, req, dice), req.ctype, req.name, req.desc, made.value, c, u);
    }
  }

  lemma DecideRole(env: Env, db: Db, uid: nat, target: nat, accepted: bool, dice: Dice, c: nat, u: nat)
    requires DbInv(db)
    ensures var req := DecideRequest(target, accepted);
            Row(DbAfter(env, db, uid, req, dice), c, u) == RequestRole(db, uid, req, c, u, Row(db, c, u))
  {
    if accepted {
      AcceptRole(env, db, uid, target, dice, c, u);
    } else {
      DenyEffect(env, db, uid, target, dice);
    }
  }

  lemma AcceptRole(env: Env, db: Db, uid: nat, target: nat, dice: Dice, c: nat, u: nat)
    requires DbInv(db)
    ensures Row(DbAfter(env, db, uid, DecideRequest(target, true), dice), c, u)
         == if c == db.nextConv && u in [uid, target] && forall d :: !PrivateOf(db, d, uid, target) then Some(0)
            else Row(db, c, u)
  {
    var r := DbAfter(env, db, uid, DecideRequest(target, true), dice);
    AcceptParts(env, db, uid, target, dice);
    if forall d :: !PrivateOf(db, d, uid, target) {
      assert (c, u) in r.parts <==> (c, u) in db.parts || (c == db.nextConv && u in [uid, target]);
      assert (c, u) in db.parts ==> c != db.nextConv && r.parts[(c, u)] == db.parts[(c, u)];
    }
  }

  /** Accepting anybody, oneself included, opens a chat of the two unless they share one. */
  lemma AcceptParts(env: Env, db: Db, uid: nat, target: nat, dice: Dice)
    requires DbInv(db)
    ensures var r := DbAfter(env, db, uid, DecideRequest(target, true), dice);
            if exists d :: PrivateOf(db, d, uid, target) then r.parts == db.parts
            else
              && (forall d: nat, v: nat ::
                    (d, v) in r.parts <==> (d, v) in db.parts || (d == db.nextConv && v in [uid, target]))
              && (forall k :: k in db.parts ==> k.0 != db.nextConv && r.parts[k] == db.parts[k])
              && (forall v :: v in [uid, target] ==> r.parts[(db.nextConv, v)] == 0)
  {
    FriendshipKeeps(db, uid, target);
    var middle := AddFriendship(db, uid, target);
    SharedIs(db, uid, target);
    assert Shared(middle, uid, target) == Shared(db, uid, target);
    CreateConversationIs(middle, PRIVATE, "Private Chat", "", [uid, target]);
    DbAfterDecide(env, db, uid, DecideRequest(target, true), dice);
  }

  lemma CommandRole(env: Env, db: Db, uid: nat, req: Request, dice: Dice, c: nat, u: nat)
    requires DbInv(db) && (req.AddMember? || req.KickMember? || req.DeleteGroup?)
    ensures Row(DbAfter(env, db, uid, req, dice), c, u) == RequestRole(db, uid, req, c, u, Row(db, c, u))
  {
    if req.AddMember? {
      JoinRole(env, db, uid, req.addConv, req.memberCode, dice, c, u);
    } else if req.KickMember? {
      KickEffect(env, db, uid, req.kickConv, req.kicked, dice);
    } else {
      DeleteEffect(env, db, uid, req.deletedConv, dice);
    }
  }

  lemma JoinRole(env: Env, db: Db, uid: nat, d: nat, code: string, dice: Dice, c: nat, u: nat)
    requires DbInv(db)
    ensures var req := AddMember(d, code);
            Row(DbAfter(env, db, uid, req, dice), c, u) == RequestRole(db, uid, req, c, u, Row(db, c, u))
  {
    if v :| v in db.users && db.users[v].code == code {
      AddMemberEffect(env, db, uid, d, code, v, dice);
      assert forall w :: w in db.users && db.users[w].code == code ==> w == v;
    } else {
      AddNobodyEffect(env, db, uid, d, code, dice);
    }
  }

  lemma OthersKeepParts(env: Env, db: Db, uid: nat, req: Request, dice: Dice)
    requires !req.CreateConv? && !req.DecideRequest? && !req.AddMember? && !req.KickMember? && !req.DeleteGroup?
    ensures DbAfter(env, db, uid, req, dice).parts == db.parts
  {
  }

  lemma RoleStep(env: Env, db: Db, uid: nat, req: Request, dice: Dice, c: nat, u: nat)
    requires DbInv(db)
    ensures Row(DbAfter(env, db, uid, req, dice), c, u) == RequestRole(db, uid, req, c, u, Row(db, c, u))
  {
    if req.CreateConv? {
      CreateRole(env, db, uid, req, dice, c, u);
    } else if req.DecideRequest? {
      DecideRole(env, db, uid, req.target, req.accepted, dice, c, u);
    } else if req.AddMember? || req.KickMember? || req.DeleteGroup? {
      CommandRole(env, db, uid, req, dice, c, u);
    } else {
      OthersKeepParts(env, db, uid, req, dice);
    }
  }

  /**
   * After every possible run, u takes part in c in exactly the role the packets gave: by being
   * listed or accepted when c was opened, or added later, and not kicked or deleted since.
   */
  lemma {:induction false} RolesFollowPackets(env: Env, es: seq<Event>, c: nat, u: nat)
    requires PossibleRun(env, START, es)
    ensures var r := Run(env, START, es).db;
            RoleOf(env, START, es, c, u) == if (c, u) in r.parts then Some(r.parts[(c, u)]) else None
  {
    if es != [] {
      var n := |es| - 1;
      var mid := Run(env, START, es[..n]);
      RolesFollowPackets(env, es[..n], c, u);
      StartInv();
      RunKeepsInv(env, START, es[..n]);
      var who := Sender(mid, es[n]);
      if who.Some? {
        RoleStep(env, mid.db, who.value, es[n].req, es[n].dice, c, u);
      }
    }
  }
}
