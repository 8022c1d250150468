/**
 * What each request does, told row by row from the tables before it: which rows come, go and
 * change, what they then hold, and that nothing else changes.
 */
module Effects {
  import opened Bytes
  import opened Envelope
  import opened Protocol
  import opened Tables
  import opened Machine
  import opened Invariant

  // ---- accounts ----

  /** A row of users already holds one of the values. */
  predicate Taken(db: Db, email: string, username: string, code: string) {
    exists u :: u in db.users &&
                (db.users[u].username == username || db.users[u].email == email || db.users[u].code == code)
  }

  lemma RegisterEffect(env: Env, db: Db, uid: nat, email: string, username: string, password: string, dice: Dice)
    requires DbInv(db)
    ensures var r := DbAfter(env, db, uid, Register(email, username, password), dice);
            if Taken(db, email, username, dice.code) then r == db
            else
              && r == db.(users := r.users, nextUid := db.nextUid + 1)
              && (forall u :: u in r.users <==> u in db.users || u == db.nextUid)
              && (forall u :: u in db.users ==> u != db.nextUid && r.users[u] == db.users[u])
              && var row := r.users[db.nextUid];
              && row.username == username && row.email == email && row.code == dice.code
              && row.hash == env.crypt(password, dice.salt)
  {
  }

  /** Both halves of an update: the name if it is free, and the hash. */
  lemma UpdateUserEffect(env: Env, db: Db, uid: nat, newUsername: string, newPassword: string, dice: Dice)
    ensures var r := DbAfter(env, db, uid, UpdateUser(newUsername, newPassword), dice);
            && r == db.(users := r.users) && r.users.Keys == db.users.Keys
            && (forall u :: u in db.users && u != uid ==> r.users[u] == db.users[u])
            && (uid in db.users ==>
                  && var free := forall v :: v in db.users && v != uid ==> db.users[v].username != newUsername;
                  && r.users[uid].username
                     == (if newUsername != "" && free then newUsername else db.users[uid].username)
                  && r.users[uid].hash
                     == (if newPassword != "" then env.crypt(newPassword, dice.salt) else db.users[uid].hash)
                  && r.users[uid].email == db.users[uid].email && r.users[uid].code == db.users[uid].code)
  {
  }

  // ---- conversations ----

  /** The participants table says that u administers c. */
  predicate Administers(db: Db, c: nat, u: nat) {
    (c, u) in db.parts && db.parts[(c, u)] == 1
  }

  /** A private conversation that a and b both take part in. */
  predicate PrivateOf(db: Db, c: nat, a: nat, b: nat) {
    c in db.convs && db.convs[c].ctype == 0 && (c, a) in db.parts && (c, b) in db.parts
  }

  /** How many of the listed uids are read. */
  function Read(count: nat, listed: seq<nat>): (n: nat)
    ensures n <= |listed| && n <= count && n <= 10
    ensures n == |listed| || n == count || n == 10
  {
    var n := if count > 10 then 10 else count;
    if n <= |listed| then n else |listed|
  }

  /** The rows of a new conversation: the uids read, the first one a group's admin. */
  ghost predicate NewConversation(db: Db, r: Db, ctype: nat, name: string, desc: string, uids: seq<nat>) {
    var c := db.nextConv;
    && r == db.(convs := r.convs, parts := r.parts, nextConv := c + 1)
    && (forall d :: d in r.convs <==> d in db.convs || d == c)
    && (forall d :: d in db.convs ==> d != c && r.convs[d] == db.convs[d])
    && r.convs[c].ctype == ctype && r.convs[c].name == name && r.convs[c].desc == desc
    && (forall d: nat, u: nat :: (d, u) in r.parts <==> (d, u) in db.parts || (d == c && u in uids))
    && (forall k :: k in db.parts ==> k.0 != c && r.parts[k] == db.parts[k])
    && (forall u :: u in uids ==> r.parts[(c, u)] == if ctype == 1 && u == uids[0] then 1 else 0)
  }

  lemma CreateConversationIs(db: Db, ctype: nat, name: string, desc: string, uids: seq<nat>)
    requires DbInv(db)
    ensures NewConversation(db, CreateConversation(db, ctype, name, desc, uids), ctype, name, desc, uids)
  {
  }

  lemma ListedAre(req: Request)
    requires req.CreateConv?
    ensures ListedUids(req) == req.listed[..Read(req.count, req.listed)]
  {
  }

  lemma SharedIs(db: Db, a: nat, b: nat)
    ensures Shared(db, a, b) == {} <==> forall c :: !PrivateOf(db, c, a, b)
  {
    assert forall c :: PrivateOf(db, c, a, b) <==> c in Shared(db, a, b);
  }

  /** A private chat of exactly two uids is looked for first; everything else is created. */
  lemma CreateEffect(env: Env, db: Db, uid: nat, req: Request, dice: Dice)
    requires DbInv(db) && req.CreateConv?
    ensures var r := DbAfter(env, db, uid, req, dice);
            var uids := req.listed[..Read(req.count, req.listed)];
            if req.ctype == 0 && |uids| == 2 && exists c :: PrivateOf(db, c, uids[0], uids[1])
            then r == db
            else NewConversation(db, r, req.ctype, req.name, req.desc, uids)
  {
    var uids := ListedUids(req);
    DbAfterCreate(env, db, uid, req, dice);
    ListedAre(req);
    if |uids| == 2 {
      SharedIs(db, uids[0], uids[1]);
    }
    if !FindsExisting(db, req) {
      CreateConversationIs(db, req.ctype, req.name, req.desc, uids);
    }
  }

  lemma UpdateGroupEffect(env: Env, db: Db, uid: nat, c: nat, name: string, desc: string, dice: Dice)
    requires DbInv(db)
    ensures var r := DbAfter(env, db, uid, UpdateGroup(c, name, desc), dice);
            if !Administers(db, c, uid) then r == db
            else
              && r == db.(convs := r.convs) && r.convs.Keys == db.convs.Keys && c in r.convs
              && r.convs[c].name == name && r.convs[c].desc == desc && r.convs[c].ctype == db.convs[c].ctype
              && forall d :: d in db.convs && d != c ==> r.convs[d] == db.convs[d]
  {
    if Administers(db, c, uid) {
      assert (c, uid) in db.parts;
    }
  }

  /** The user whose friend code it is joins as a member, unless they are in already. */
  lemma AddMemberEffect(env: Env, db: Db, uid: nat, c: nat, code: string, v: nat, dice: Dice)
    requires DbInv(db) && v in db.users && db.users[v].code == code
    ensures var r := DbAfter(env, db, uid, AddMember(c, code), dice);
            if !Administers(db, c, uid) then r == db
            else
              && r == db.(parts := r.parts)
              && (forall d: nat, u: nat :: (d, u) in r.parts <==> (d, u) in db.parts || (d, u) == (c, v))
              && (forall k :: k in r.parts ==> r.parts[k] == if k in db.parts then db.parts[k] else 0)
  {
    DbAfterAdd(env, db, uid, AddMember(c, code), dice);
    ResolveIs(db, code, v);
  }

  lemma ResolveIs(db: Db, code: string, v: nat)
    requires DbInv(db) && v in db.users && db.users[v].code == code
    ensures Resolve(db, code) == Some(v)
  {
    assert v in ByCode(db, code);
  }

  lemma UnknownCode(db: Db, code: string)
    requires forall v :: v in db.users ==> db.users[v].code != code
    ensures Resolve(db, code) == None
  {
    assert ByCode(db, code) == {};
  }

  lemma AddNobodyEffect(env: Env, db: Db, uid: nat, c: nat, code: string, dice: Dice)
    requires forall v :: v in db.users ==> db.users[v].code != code
    ensures DbAfter(env, db, uid, AddMember(c, code), dice) == db
  {
    UnknownCode(db, code);
  }

  /** A kick takes away the target's row in that conversation and no other row anywhere. */
  lemma KickEffect(env: Env, db: Db, uid: nat, c: nat, target: nat, dice: Dice)
    ensures var r := DbAfter(env, db, uid, KickMember(c, target), dice);
            if !Administers(db, c, uid) || target == uid then r == db
            else
              && r == db.(parts := r.parts)
              && (forall d: nat, u: nat :: (d, u) in r.parts <==> (d, u) in db.parts && (d, u) != (c, target))
              && (forall k :: k in r.parts ==> r.parts[k] == db.parts[k])
  {
    DbAfterKick(env, db, uid, KickMember(c, target), dice);
  }

  /** Deleting takes away the conversation with its participants and messages, and no other rows. */
  lemma DeleteEffect(env: Env, db: Db, uid: nat, c: nat, dice: Dice)
    requires DbInv(db)
    ensures var r := DbAfter(env, db, uid, DeleteGroup(c), dice);
            if !Administers(db, c, uid) then r == db
            else
              && r == db.(convs := r.convs, parts := r.parts, messages := r.messages)
              && (forall d :: d in r.convs <==> d in db.convs && d != c)
              && (forall d :: d in r.convs ==> r.convs[d] == db.convs[d])
              && (forall d: nat, u: nat :: (d, u) in r.parts <==> (d, u) in db.parts && d != c)
              && (forall k :: k in r.parts ==> r.parts[k] == db.parts[k])
              && (forall m :: m in r.messages <==> m in db.messages && m.conv != c) && IdOrder(r.messages)
  {
    DbAfterDelete(env, db, uid, DeleteGroup(c), dice);
    WithoutMembers(db.messages, c);
    WithoutSorted(db.messages, c);
  }

  // ---- messages ----

  /** One row more, with the step's clock reading as its stamp. */
  lemma SendTextEffect(env: Env, db: Db, uid: nat, c: nat, text: Text, dice: Dice)
    ensures var r := DbAfter(env, db, uid, SendText(c, text), dice);
            && r == db.(messages := r.messages, nextMsg := db.nextMsg + 1)
            && |r.messages| == |db.messages| + 1 && r.messages[..|db.messages|] == db.messages
            && var m := r.messages[|db.messages|];
            && m.id == db.nextMsg && m.conv == c && m.sender == uid && m.stamp == dice.now
            && Open(env.cipher, m.text) == Plain(text)
  {
    SealOpens(env.cipher, dice.iv, text);
  }

  // ---- contacts ----

  /** The new row goes from the sender to the user whose friend code it is. */
  lemma AddByCodeEffect(env: Env, db: Db, uid: nat, code: string, v: nat, dice: Dice)
    requires DbInv(db) && v in db.users && db.users[v].code == code
    ensures var r := DbAfter(env, db, uid, AddByCode(code), dice);
            && r == db.(requests := r.requests)
            && r.requests == if uid == v then db.requests else db.requests + {(uid, v)}
  {
    ResolveIs(db, code, v);
  }

  lemma AddNoContactEffect(env: Env, db: Db, uid: nat, code: string, dice: Dice)
    requires forall v :: v in db.users ==> db.users[v].code != code
    ensures DbAfter(env, db, uid, AddByCode(code), dice) == db
  {
    UnknownCode(db, code);
  }

  /** Denying takes the request away and does nothing else. */
  lemma DenyEffect(env: Env, db: Db, uid: nat, target: nat, dice: Dice)
    ensures var r := DbAfter(env, db, uid, DecideRequest(target, false), dice);
            r == db.(requests := r.requests) && r.requests == db.requests - {(target, uid)}
  {
  }

  /** Accepting someone else: friends both ways, one private chat at least, the request gone. */
  lemma AcceptEffect(env: Env, db: Db, uid: nat, target: nat, dice: Dice)
    requires DbInv(db) && uid != target
    ensures var r := DbAfter(env, db, uid, DecideRequest(target, true), dice);
            var friends := db.(contacts := db.contacts + {(uid, target), (target, uid)},
                               requests := db.requests - {(target, uid)});
            if exists c :: PrivateOf(db, c, uid, target) then r == friends
            else NewConversation(friends, r, 0, "Private Chat", "", [uid, target])
  {
    FriendshipKeeps(db, uid, target);
    var middle := AddFriendship(db, uid, target);
    SharedIs(db, uid, target);
    assert Shared(middle, uid, target) == Shared(db, uid, target);
    DbAfterDecide(env, db, uid, DecideRequest(target, true), dice);
    if forall c :: !PrivateOf(db, c, uid, target) {
      CreateConversationIs(middle, PRIVATE, "Private Chat", "", [uid, target]);
      RequestAside(middle, Befriended(db, uid, target), target, uid);
    }
  }

  /** A request row makes no difference to what a creation does. */
  lemma RequestAside(db: Db, r: Db, a: nat, b: nat)
    requires NewConversation(db, r, 0, "Private Chat", "", [b, a])
    ensures NewConversation(db.(requests := db.requests - {(a, b)}), RemoveRequest(r, a, b), 0, "Private Chat", "",
                            [b, a])
  {
  }

  // ---- the rest ----

  lemma OthersChangeNothing(env: Env, db: Db, uid: nat, req: Request, dice: Dice)
    requires req.Login? || req.ReqHistory? || req.ReqConversations? || req.ReqMembers? || req.ReqContacts?
          || req.GetRequests? || req.Unknown?
    ensures DbAfter(env, db, uid, req, dice) == db
  {
  }
}
