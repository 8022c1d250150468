/**
 * What every reachable table contents satisfy: participants refer to conversations, groups
 * have one admin, friendship is mutual. No single statement enforces any of these.
 */
module Invariant {
  import opened Protocol
  import opened Tables
  import opened Registry
  import opened Machine

  type Parts = map<(nat, nat), nat>
  type Convs = map<nat, Conv>

  ghost predicate PartsOk(convs: Convs, parts: Parts) {
    && (forall k :: k in parts ==> k.0 in convs)
    && (forall k :: k in parts ==> parts[k] == MEMBER || (parts[k] == ADMIN && convs[k.0].ctype == GROUP))
  }

  ghost predicate HasAdmin(parts: Parts, c: nat) {
    exists u :: AdminRow(parts, c, u)
  }

  /** A group with participants has exactly one admin. */
  ghost predicate OneAdmin(convs: Convs, parts: Parts) {
    && (forall k :: k in parts && k.0 in convs && convs[k.0].ctype == GROUP ==> HasAdmin(parts, k.0))
    && (forall c, u, v :: AdminRow(parts, c, u) && AdminRow(parts, c, v) ==> u == v)
  }

  ghost predicate ContactsOk(contacts: set<(nat, nat)>, requests: set<(nat, nat)>) {
    && (forall k :: k in contacts ==> (k.1, k.0) in contacts && k.0 != k.1)
    && (forall k :: k in requests ==> k.0 != k.1)
  }

  ghost predicate GroupsOk(db: Db) {
    PartsOk(db.convs, db.parts) && OneAdmin(db.convs, db.parts)
  }

  ghost predicate DbInv(db: Db) {
    SchemaOk(db) && GroupsOk(db) && ContactsOk(db.contacts, db.requests)
  }

  /** Online exactly when logged in, as an existing user; descriptors are distinct. */
  ghost predicate SessionsOk(db: Db, cs: seq<Conn>) {
    && (forall i :: 0 <= i < |cs| ==> (cs[i].online <==> cs[i].uid != 0))
    && (forall i :: 0 <= i < |cs| && cs[i].uid != 0 ==> cs[i].uid in db.users)
    && (forall i, j :: 0 <= i < j < |cs| ==> cs[i].fd != cs[j].fd)
  }

  ghost predicate Inv(s: State) {
    DbInv(s.db) && SessionsOk(s.db, s.conns)
  }

  // ---- each kind of step keeps it ----

  lemma InsertUserKeeps(db: Db, email: string, username: string, hash: string, code: string)
    requires SchemaOk(db)
    ensures SchemaOk(InsertUser(db, email, username, hash, code))
  {
  }

  lemma ChangedUserKeeps(env: Env, db: Db, uid: nat, newUsername: string, newPassword: string, salt: string)
    requires SchemaOk(db)
    ensures SchemaOk(ChangedUser(env, db, uid, newUsername, newPassword, salt))
  {
    var renamed := if |newUsername| > 0 then SetUsername(db, uid, newUsername) else db;
    assert SchemaOk(renamed);
  }

  /** The rows of a new conversation, and no other rows, are new. */
  lemma CreateRows(db: Db, ctype: nat, name: string, desc: string, uids: seq<nat>)
    requires DbInv(db)
    ensures var r := CreateConversation(db, ctype, name, desc, uids);
            && (forall k :: k in r.parts <==> k in db.parts || (k.0 == db.nextConv && k.1 in uids))
            && (forall k :: k in db.parts ==> r.parts[k] == db.parts[k] && k.0 != db.nextConv)
            && (forall u :: IsAdmin(r, db.nextConv, u) <==> ctype == GROUP && uids != [] && u == uids[0])
  {
  }

  lemma CreateKeeps(db: Db, ctype: nat, name: string, desc: string, uids: seq<nat>)
    requires DbInv(db)
    ensures DbInv(CreateConversation(db, ctype, name, desc, uids))
  {
    CreateRows(db, ctype, name, desc, uids);
    CreateOneAdmin(db, ctype, name, desc, uids);
  }

  lemma CreateOneAdmin(db: Db, ctype: nat, name: string, desc: string, uids: seq<nat>)
    requires DbInv(db)
    ensures var r := CreateConversation(db, ctype, name, desc, uids); OneAdmin(r.convs, r.parts)
  {
    var c := db.nextConv;
    var r := CreateConversation(db, ctype, name, desc, uids);
    CreateRows(db, ctype, name, desc, uids);
    forall d: nat, u: nat | d != c ensures AdminRow(r.parts, d, u) == AdminRow(db.parts, d, u) {
    }
    forall k | k in r.parts && k.0 in r.convs && r.convs[k.0].ctype == GROUP
      ensures HasAdmin(r.parts, k.0)
    {
      if k.0 == c {
        assert AdminRow(r.parts, c, uids[0]);
      } else {
        var u :| AdminRow(db.parts, k.0, u);
        assert AdminRow(r.parts, k.0, u);
      }
    }
  }

  lemma UpdateGroupKeeps(db: Db, c: nat, name: string, desc: string)
    requires DbInv(db)
    ensures DbInv(SetGroupInfo(db, c, name, desc))
  {
  }

  lemma AddParticipantKeeps(db: Db, c: nat, uid: nat, u: nat)
    requires DbInv(db) && IsAdmin(db, c, uid)
    ensures DbInv(AddParticipant(db, c, u, MEMBER))
    ensures forall d, v :: IsAdmin(AddParticipant(db, c, u, MEMBER), d, v) <==> IsAdmin(db, d, v)
  {
    var r := AddParticipant(db, c, u, MEMBER);
    forall d: nat, v: nat ensures AdminRow(r.parts, d, v) <==> AdminRow(db.parts, d, v) { }
    forall k | k in r.parts && k.0 in r.convs && r.convs[k.0].ctype == GROUP
      ensures HasAdmin(r.parts, k.0)
    {
      var v :| AdminRow(db.parts, k.0, v);
      assert AdminRow(r.parts, k.0, v);
    }
  }

  /** Only because the admin cannot name themselves does the group keep its admin. */
  lemma KickKeeps(db: Db, c: nat, uid: nat, target: nat)
    requires DbInv(db) && IsAdmin(db, c, uid) && target != uid
    ensures DbInv(RemoveParticipant(db, c, target))
    ensures forall d, v :: IsAdmin(RemoveParticipant(db, c, target), d, v) <==> IsAdmin(db, d, v)
  {
    var r := RemoveParticipant(db, c, target);
    assert !AdminRow(db.parts, c, target);
    forall d: nat, v: nat ensures AdminRow(r.parts, d, v) <==> AdminRow(db.parts, d, v) { }
    forall k | k in r.parts && k.0 in r.convs && r.convs[k.0].ctype == GROUP
      ensures HasAdmin(r.parts, k.0)
    {
      var v :| AdminRow(db.parts, k.0, v);
      assert AdminRow(r.parts, k.0, v);
    }
  }

  lemma DeleteKeeps(db: Db, c: nat)
    requires DbInv(db)
    ensures DbInv(DeleteConversation(db, c))
    ensures forall d, v :: IsAdmin(DeleteConversation(db, c), d, v) <==> d != c && IsAdmin(db, d, v)
  {
    DeleteKeepsSchema(db, c);
    var r := DeleteConversation(db, c);
    forall d: nat, v: nat ensures AdminRow(r.parts, d, v) <==> d != c && AdminRow(db.parts, d, v) { }
    forall k | k in r.parts && k.0 in r.convs && r.convs[k.0].ctype == GROUP
      ensures HasAdmin(r.parts, k.0)
    {
      var v :| AdminRow(db.parts, k.0, v);
      assert AdminRow(r.parts, k.0, v);
    }
  }

  /** The two rows go in together or not at all, so friendship stays mutual. */
  lemma FriendshipKeeps(db: Db, a: nat, b: nat)
    requires DbInv(db)
    ensures DbInv(AddFriendship(db, a, b))
    ensures a != b ==> AddFriendship(db, a, b).contacts == db.contacts + {(a, b), (b, a)}
    ensures a == b ==> AddFriendship(db, a, b) == db
  {
  }

  lemma DecideKeeps(db: Db, uid: nat, target: nat, accepted: bool)
    requires DbInv(db)
    ensures DbInv(AfterDecide(db, uid, target, accepted))
  {
    if accepted {
      FriendshipKeeps(db, uid, target);
      CreateKeeps(AddFriendship(db, uid, target), PRIVATE, "Private Chat", "", [uid, target]);
      assert DbInv(Befriended(db, uid, target));
    }
  }

  lemma ConvStep(env: Env, db: Db, uid: nat, req: Request, dice: Dice)
    requires DbInv(db) && AboutConvs(req)
    ensures DbInv(DbAfter(env, db, uid, req, dice))
  {
    if req.CreateConv? {
      DbAfterCreate(env, db, uid, req, dice);
      CreateKeeps(db, req.ctype, req.name, req.desc, ListedUids(req));
    } else if req.UpdateGroup? {
      DbAfterUpdate(env, db, uid, req, dice);
      UpdateGroupKeeps(db, req.groupConv, req.newName, req.newDesc);
    } else if req.AddMember? {
      DbAfterAdd(env, db, uid, req, dice);
      if IsAdmin(db, req.addConv, uid) && Resolve(db, req.memberCode).Some? {
        AddParticipantKeeps(db, req.addConv, uid, Resolve(db, req.memberCode).value);
      }
    } else if req.KickMember? {
      DbAfterKick(env, db, uid, req, dice);
      if IsAdmin(db, req.kickConv, uid) && req.kicked != uid {
        KickKeeps(db, req.kickConv, uid, req.kicked);
      }
    } else {
      DbAfterDelete(env, db, uid, req, dice);
      DeleteKeeps(db, req.deletedConv);
    }
  }

  lemma UserStep(env: Env, db: Db, uid: nat, req: Request, dice: Dice)
    requires DbInv(db) && (req.Register? || req.UpdateUser?)
    ensures DbInv(DbAfter(env, db, uid, req, dice))
  {
    if req.Register? {
      InsertUserKeeps(db, req.email, req.username, env.crypt(req.password, dice.salt), dice.code);
    } else {
      ChangedUserKeeps(env, db, uid, req.newUsername, req.newPassword, dice.salt);
    }
  }

  lemma OtherStep(env: Env, db: Db, uid: nat, req: Request, dice: Dice)
    requires DbInv(db) && !AboutConvs(req) && !req.Register? && !req.UpdateUser?
    ensures DbInv(DbAfter(env, db, uid, req, dice))
  {
    if req.DecideRequest? {
      DecideKeeps(db, uid, req.target, req.accepted);
    }
  }

  /** Every request keeps the table invariant, whoever sends it. */
  lemma DbStep(env: Env, db: Db, uid: nat, req: Request, dice: Dice)
    requires DbInv(db)
    ensures DbInv(DbAfter(env, db, uid, req, dice))
  {
    if AboutConvs(req) {
      ConvStep(env, db, uid, req, dice);
    } else if req.Register? || req.UpdateUser? {
      UserStep(env, db, uid, req, dice);
    } else {
      OtherStep(env, db, uid, req, dice);
    }
  }

  lemma ConvsLeaveUsers(env: Env, db: Db, uid: nat, req: Request, dice: Dice)
    requires !req.Register? && !req.UpdateUser?
    ensures DbAfter(env, db, uid, req, dice).users == db.users
    ensures DbAfter(env, db, uid, req, dice).nextUid == db.nextUid
  {
  }

  ghost predicate SameAccounts(users: map<nat, User>, later: map<nat, User>) {
    forall u :: u in users ==> u in later && later[u].code == users[u].code && later[u].email == users[u].email
  }

  lemma AccountsStay(env: Env, db: Db, uid: nat, req: Request, dice: Dice)
    requires DbInv(db) && (req.Register? || req.UpdateUser?)
    ensures SameAccounts(db.users, DbAfter(env, db, uid, req, dice).users)
  {
    if req.Register? {
      InsertedStay(db, req.email, req.username, env.crypt(req.password, dice.salt), dice.code);
    } else {
      ChangedStay(env, db, uid, req.newUsername, req.newPassword, dice.salt);
    }
  }

  lemma InsertedStay(db: Db, email: string, username: string, hash: string, code: string)
    requires SchemaOk(db)
    ensures SameAccounts(db.users, InsertUser(db, email, username, hash, code).users)
  {
  }

  lemma ChangedStay(env: Env, db: Db, uid: nat, newUsername: string, newPassword: string, salt: string)
    ensures SameAccounts(db.users, ChangedUser(env, db, uid, newUsername, newPassword, salt).users)
  {
  }

  /** Users never disappear, and a user's email and friend code never change. */
  lemma UsersStay(env: Env, db: Db, uid: nat, req: Request, dice: Dice)
    requires DbInv(db)
    ensures var r := DbAfter(env, db, uid, req, dice);
            forall u :: u in db.users ==>
              u in r.users && r.users[u].code == db.users[u].code && r.users[u].email == db.users[u].email
  {
    if req.Register? || req.UpdateUser? {
      AccountsStay(env, db, uid, req, dice);
    } else {
      ConvsLeaveUsers(env, db, uid, req, dice);
    }
  }

  lemma SessionsStep(env: Env, db: Db, r: Db, cs: seq<Conn>, i: nat, req: Request)
    requires SessionsOk(db, cs) && i < |cs| && forall u :: u in db.users ==> u in r.users && u != 0
    ensures SessionsOk(r, cs[i := ConnAfter(env, db, cs[i], req)])
  {
  }

  lemma RemovedKeeps(db: Db, cs: seq<Conn>, fd: int)
    requires SessionsOk(db, cs)
    ensures SessionsOk(db, Removed(cs, fd))
  {
  }

  lemma Step(env: Env, s: State, e: Event)
    requires Inv(s) && Possible(s, e)
    ensures Inv(Next(env, s, e))
  {
    match e {
      case Accept(fd) =>
      case Close(fd) =>
        RemovedKeeps(s.db, s.conns, fd);
      case Receive(fd, req, dice) =>
        var i := FdIndex(s.conns, fd);
        if i < |s.conns| {
          DbStep(env, s.db, s.conns[i].uid, req, dice);
          UsersStay(env, s.db, s.conns[i].uid, req, dice);
          SessionsStep(env, s.db, DbAfter(env, s.db, s.conns[i].uid, req, dice), s.conns, i, req);
        }
    }
  }

  /** The invariant holds after every run. */
  lemma {:induction false} RunKeepsInv(env: Env, s: State, es: seq<Event>)
    requires Inv(s) && PossibleRun(env, s, es)
    ensures Inv(Run(env, s, es))
  {
    if es != [] {
      var n := |es| - 1;
      RunKeepsInv(env, s, es[..n]);
      Step(env, Run(env, s, es[..n]), es[n]);
    }
  }

  lemma StartInv()
    ensures Inv(START)
  {
  }
}
