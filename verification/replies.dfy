/** What the packets of a step say and whom they go to, told from the tables. */
module Replies {
  import opened Bytes
  import opened Protocol
  import opened Tables
  import opened Registry
  import opened Machine
  import opened Invariant
  import opened Groups
  import opened Delivery
  import opened MessageLog
  import opened Effects

  // ---- the contents of lists ----

  /** One row per contact of u, all of them unless there are fifty rows. */
  ghost predicate SaysContacts(db: Db, u: nat, rows: seq<ContactSummary>) {
    && |rows| <= 50
    && (forall i :: 0 <= i < |rows| ==>
          && (u, rows[i].uid) in db.contacts && rows[i].uid in db.users
          && rows[i].username == Cut(db.users[rows[i].uid].username, 32) && rows[i].isOnline == 0)
    && (forall i, j :: 0 <= i < j < |rows| ==> rows[i].uid != rows[j].uid)
    && (|rows| < 50 ==>
          forall v :: (u, v) in db.contacts && v in db.users ==> exists i :: 0 <= i < |rows| && rows[i].uid == v)
  }

  /** One row per user whose request to u is pending. */
  ghost predicate SaysRequests(db: Db, u: nat, rows: seq<ContactSummary>) {
    && |rows| <= 50
    && (forall i :: 0 <= i < |rows| ==>
          && (rows[i].uid, u) in db.requests && rows[i].uid in db.users
          && rows[i].username == Cut(db.users[rows[i].uid].username, 32) && rows[i].isOnline == 0)
    && (forall i, j :: 0 <= i < j < |rows| ==> rows[i].uid != rows[j].uid)
    && (|rows| < 50 ==>
          forall v :: (v, u) in db.requests && v in db.users ==> exists i :: 0 <= i < |rows| && rows[i].uid == v)
  }

  /** Another participant of c whose account is called so. */
  ghost predicate Partner(db: Db, c: nat, u: nat, name: string) {
    exists v :: v != u && (c, v) in db.parts && v in db.users && db.users[v].username == name
  }

  /** A private chat is named after somebody else in it, a group by its own name. */
  ghost predicate SaysConv(db: Db, u: nat, row: ConversationSummary) {
    var c := row.convId;
    && c in db.convs && (c, u) in db.parts
    && row.ctype == db.convs[c].ctype && row.myRole == db.parts[(c, u)] && row.unread == 0
    && if row.ctype == 0
       then
         && row.desc == ""
         && ((row.name == "Private Chat" && forall name :: !Partner(db, c, u, name))
             || exists name :: Partner(db, c, u, name) && row.name == Cut("Private with " + name, 31))
       else row.name == Cut(db.convs[c].name, 32) && row.desc == Cut(db.convs[c].desc, 64)
  }

  /** One row per conversation of u. */
  ghost predicate SaysConvs(db: Db, u: nat, rows: seq<ConversationSummary>) {
    && |rows| <= 50
    && (forall i :: 0 <= i < |rows| ==> SaysConv(db, u, rows[i]))
    && (forall i, j :: 0 <= i < j < |rows| ==> rows[i].convId != rows[j].convId)
    && (|rows| < 50 ==>
          forall c :: (c, u) in db.parts && c in db.convs ==> exists i :: 0 <= i < |rows| && rows[i].convId == c)
  }

  /** One row per participant of c. */
  ghost predicate SaysMembers(db: Db, c: nat, rows: seq<MemberSummary>) {
    && |rows| <= 50
    && (forall i :: 0 <= i < |rows| ==>
          && (c, rows[i].uid) in db.parts && rows[i].uid in db.users
          && rows[i].username == Cut(db.users[rows[i].uid].username, 32)
          && rows[i].role == db.parts[(c, rows[i].uid)])
    && (forall i, j :: 0 <= i < j < |rows| ==> rows[i].uid != rows[j].uid)
    && (|rows| < 50 ==>
          forall v :: (c, v) in db.parts && v in db.users ==> exists i :: 0 <= i < |rows| && rows[i].uid == v)
  }

  /** Below the cap a selection has every row of the table. */
  lemma WholeTable<T>(rows: seq<T>, table: set<T>, max: nat, x: T)
    requires IsSelect(rows, table, max) && |rows| < max && x in table
    ensures exists i :: 0 <= i < |rows| && rows[i] == x
  {
    Selected(rows, table, max);
    assert x in Elements(rows);
  }

  lemma ContactsSaid(db: Db, u: nat, rows: seq<ContactSummary>)
    requires IsSelect(rows, ContactRows(db, u), LIST_CAP)
    ensures SaysContacts(db, u, rows)
  {
    forall i, j | 0 <= i < j < |rows| ensures rows[i].uid != rows[j].uid {
      assert rows[i] in ContactRows(db, u) && rows[j] in ContactRows(db, u) && rows[i] != rows[j];
    }
    if |rows| < 50 {
      forall v | (u, v) in db.contacts && v in db.users ensures exists i :: 0 <= i < |rows| && rows[i].uid == v {
        var row := ContactSummary(v, Cut(db.users[v].username, 32), 0);
        assert (u, v) in db.contacts && row in ContactRows(db, u);
        WholeTable(rows, ContactRows(db, u), LIST_CAP, row);
      }
    }
  }

  lemma RequestsSaid(db: Db, u: nat, rows: seq<ContactSummary>)
    requires IsSelect(rows, RequestRows(db, u), LIST_CAP)
    ensures SaysRequests(db, u, rows)
  {
    forall i, j | 0 <= i < j < |rows| ensures rows[i].uid != rows[j].uid {
      assert rows[i] in RequestRows(db, u) && rows[j] in RequestRows(db, u) && rows[i] != rows[j];
    }
    if |rows| < 50 {
      forall v | (v, u) in db.requests && v in db.users ensures exists i :: 0 <= i < |rows| && rows[i].uid == v {
        var row := ContactSummary(v, Cut(db.users[v].username, 32), 0);
        assert (v, u) in db.requests && row in RequestRows(db, u);
        WholeTable(rows, RequestRows(db, u), LIST_CAP, row);
      }
    }
  }

  lemma MembersSaid(db: Db, c: nat, rows: seq<MemberSummary>)
    requires IsSelect(rows, MemberRows(db, c), MAX_MEMBERS)
    ensures SaysMembers(db, c, rows)
  {
    forall i, j | 0 <= i < j < |rows| ensures rows[i].uid != rows[j].uid {
      assert rows[i] in MemberRows(db, c) && rows[j] in MemberRows(db, c) && rows[i] != rows[j];
    }
    if |rows| < 50 {
      forall v | (c, v) in db.parts && v in db.users ensures exists i :: 0 <= i < |rows| && rows[i].uid == v {
        var row := MemberSummary(v, Cut(db.users[v].username, 32), db.parts[(c, v)]);
        assert (c, v) in db.parts && row in MemberRows(db, c);
        WholeTable(rows, MemberRows(db, c), MAX_MEMBERS, row);
      }
    }
  }

  lemma PartnersAre(db: Db, c: nat, u: nat, name: string)
    ensures name in OtherNames(db, c, u) <==> Partner(db, c, u, name)
  {
    if v :| v != u && (c, v) in db.parts && v in db.users && db.users[v].username == name {
      assert (c, v) in db.parts && db.users[(c, v).1].username == name;
    }
  }

  lemma SummarySaid(db: Db, u: nat, row: ConversationSummary)
    requires IsSummary(db, u, row)
    ensures SaysConv(db, u, row)
  {
    forall name { PartnersAre(db, row.convId, u, name); }
  }

  lemma ConvsSaid(db: Db, u: nat, rows: seq<ConversationSummary>)
    requires IsConvList(db, u, rows)
    ensures SaysConvs(db, u, rows)
  {
    var ids := ConvIds(rows);
    assert forall i :: 0 <= i < |rows| ==> ids[i] == rows[i].convId;
    forall i | 0 <= i < |rows| ensures SaysConv(db, u, rows[i]) {
      SummarySaid(db, u, rows[i]);
    }
    if |rows| < 50 {
      forall c | (c, u) in db.parts && c in db.convs ensures exists i :: 0 <= i < |rows| && rows[i].convId == c {
        WholeTable(ids, ConvsOf(db, u), LIST_CAP, c);
        var i :| 0 <= i < |ids| && ids[i] == c;
        assert rows[i].convId == c;
      }
    }
  }

  /** What a list packet says to the record k it goes to. */
  ghost predicate SaysList(db: Db, uid: nat, pkt: Packet) {
    match pkt
    case Conversations(rows) => SaysConvs(db, uid, rows)
    case Contacts(rows) => SaysContacts(db, uid, rows)
    case Requests(rows) => SaysRequests(db, uid, rows)
    case _ => true
  }

  /**
   * Every list packet of a step goes to an open connection and says to it, for the uid it is
   * logged in as, what the tables hold when the step ends.
   */
  lemma ListsSay(env: Env, s: State, e: Event, out: seq<Out>, i: nat)
    requires Inv(s) && Sender(s, e).Some? && i < |out|
    requires Emits(env, s.db, s.conns, s.conns[FdIndex(s.conns, e.fd)], e.req, e.dice, out)
    requires out[i].pkt.Conversations? || out[i].pkt.Contacts? || out[i].pkt.Requests?
    ensures var r := Next(env, s, e);
            exists k :: 0 <= k < |r.conns| && r.conns[k].fd == out[i].fd && SaysList(r.db, r.conns[k].uid, out[i].pkt)
  {
    ListsAreFresh(env, s, e, out);
    FreshSays(Next(env, s, e).db, Next(env, s, e).conns, out[i]);
  }

  lemma FreshSays(db: Db, cs: seq<Conn>, o: Out)
    requires FreshFor(db, cs, o) && (o.pkt.Conversations? || o.pkt.Contacts? || o.pkt.Requests?)
    ensures exists k :: 0 <= k < |cs| && cs[k].fd == o.fd && SaysList(db, cs[k].uid, o.pkt)
  {
    var k := FdIndex(cs, o.fd);
    match o.pkt {
      case Conversations(rows) => ConvsSaid(db, cs[k].uid, rows);
      case Contacts(rows) => ContactsSaid(db, cs[k].uid, rows);
      case Requests(rows) => RequestsSaid(db, cs[k].uid, rows);
    }
    assert cs[k].fd == o.fd && SaysList(db, cs[k].uid, o.pkt);
  }

  // ---- answers to the sender ----

  lemma RegisterReply(env: Env, db: Db, cs: seq<Conn>, me: Conn, email: string, username: string, password: string,
                      dice: Dice, out: seq<Out>)
    requires Emits(env, db, cs, me, Register(email, username, password), dice, out)
    ensures out == [Out(me.fd, if Taken(db, email, username, dice.code) then RegisterFail else RegisterSuccess)]
  {
  }

  /** The account's own data, each in its field. */
  lemma LoginReply(env: Env, db: Db, cs: seq<Conn>, me: Conn, email: string, password: string, dice: Dice,
                   out: seq<Out>, u: nat)
    requires DbInv(db) && u in db.users && db.users[u].email == email
    requires Emits(env, db, cs, me, Login(email, password), dice, out)
    ensures var account := db.users[u];
            && |out| == 1 && out[0].fd == me.fd
            && if env.crypt(password, account.hash) == account.hash
               then
                 && out[0].pkt.LoginSuccess? && out[0].pkt.uid == u
                 && out[0].pkt.username == Cut(account.username, 32)
                 && out[0].pkt.email == Cut(email, 64) && out[0].pkt.friendCode == Cut(account.code, 7)
               else out[0].pkt == LoginFail
  {
    assert u in ByEmail(db, email);
    assert forall v :: v in ByEmail(db, email) ==> v == u;
  }

  lemma LoginRefused(env: Env, db: Db, cs: seq<Conn>, me: Conn, email: string, password: string, dice: Dice,
                     out: seq<Out>)
    requires forall u :: u in db.users ==> db.users[u].email != email
    requires Emits(env, db, cs, me, Login(email, password), dice, out)
    ensures out == [Out(me.fd, LoginFail)]
  {
    assert ByEmail(db, email) == {};
  }

  /** A query is answered with one packet, to the one who asked. */
  lemma QueryReply(env: Env, db: Db, cs: seq<Conn>, me: Conn, req: Request, dice: Dice, out: seq<Out>)
    requires Emits(env, db, cs, me, req, dice, out)
    requires req.ReqConversations? || req.ReqContacts? || req.GetRequests? || req.ReqMembers?
    ensures |out| == 1 && out[0].fd == me.fd
    ensures req.ReqConversations? ==> out[0].pkt.Conversations? && SaysConvs(db, me.uid, out[0].pkt.convs)
    ensures req.ReqContacts? ==> out[0].pkt.Contacts? && SaysContacts(db, me.uid, out[0].pkt.contacts)
    ensures req.GetRequests? ==> out[0].pkt.Requests? && SaysRequests(db, me.uid, out[0].pkt.requests)
    ensures req.ReqMembers? ==> out[0].pkt.Members? && SaysMembers(db, req.membersConv, out[0].pkt.members)
  {
    match req {
      case ReqConversations => ConvsSaid(db, me.uid, out[0].pkt.convs);
      case ReqContacts => ContactsSaid(db, me.uid, out[0].pkt.contacts);
      case GetRequests => RequestsSaid(db, me.uid, out[0].pkt.requests);
      case ReqMembers(c) => MembersSaid(db, c, out[0].pkt.members);
    }
  }

  /** An update is confirmed whatever came of it; packets of no known kind get no answer. */
  lemma PlainReply(env: Env, db: Db, cs: seq<Conn>, me: Conn, req: Request, dice: Dice, out: seq<Out>)
    requires Emits(env, db, cs, me, req, dice, out) && (req.UpdateUser? || req.Unknown?)
    ensures out == if req.UpdateUser? then [Out(me.fd, UpdateSuccess)] else []
  {
  }

  /** Somebody's fresh conversation list, on their own session. */
  ghost predicate ListFor(cs: seq<Conn>, db: Db, u: nat, o: Out) {
    Online(cs, u) && o.fd == SessionFd(cs, u) && o.pkt.Conversations? && SaysConvs(db, u, o.pkt.convs)
  }

  /** From packet number `first` on, one is u's list. */
  ghost predicate Refreshed(cs: seq<Conn>, db: Db, u: nat, out: seq<Out>, first: nat) {
    exists i :: first <= i < |out| && ListFor(cs, db, u, out[i])
  }

  /** The list of one of the uids, but not of u's. */
  ghost predicate ListForOther(cs: seq<Conn>, db: Db, uids: seq<nat>, u: nat, o: Out) {
    exists v :: v in uids && v != u && ListFor(cs, db, v, o)
  }

  lemma FanOutSays(cs: seq<Conn>, db: Db, uids: seq<nat>, me: nat, out: seq<Out>)
    requires FanOut(cs, db, uids, {me}, out)
    ensures forall u :: u in uids && u != me && Online(cs, u) ==> Refreshed(cs, db, u, out, 0)
    ensures forall i :: 0 <= i < |out| ==> ListForOther(cs, db, uids, me, out[i])
  {
    var to := Targets(cs, uids, {me});
    assert forall i :: 0 <= i < |to| ==> to[i] in to;
    forall i | 0 <= i < |out| ensures ListFor(cs, db, to[i], out[i]) {
      ConvsSaid(db, to[i], out[i].pkt.convs);
    }
    TargetsToldOnly(cs, db, uids, me, to, out);
  }

  lemma TargetsToldOnly(cs: seq<Conn>, db: Db, uids: seq<nat>, me: nat, to: seq<nat>, out: seq<Out>)
    requires |to| == |out| && forall i :: 0 <= i < |out| ==> ListFor(cs, db, to[i], out[i])
    requires forall u :: u in to <==> u in uids && u !in {me} && Online(cs, u)
    ensures forall u :: u in uids && u != me && Online(cs, u) ==> Refreshed(cs, db, u, out, 0)
    ensures forall i :: 0 <= i < |out| ==> ListForOther(cs, db, uids, me, out[i])
  {
    forall i | 0 <= i < |out| ensures ListForOther(cs, db, uids, me, out[i]) {
      assert to[i] in to;
    }
    forall u | u in uids && u != me && Online(cs, u) ensures Refreshed(cs, db, u, out, 0) {
      assert u in to;
      var i :| 0 <= i < |to| && to[i] == u;
      assert ListFor(cs, db, u, out[i]);
    }
  }

  /**
   * The sender learns the id, of the chat found or of the new one. Only a new one is announced,
   * to every other uid read that has a session and to nobody else.
   */
  lemma CreateReply(env: Env, db: Db, cs: seq<Conn>, me: Conn, req: Request, dice: Dice, out: seq<Out>)
    requires DbInv(db) && req.CreateConv? && Emits(env, db, cs, me, req, dice, out)
    ensures var r := DbAfter(env, db, me.uid, req, dice);
            var uids := req.listed[..Read(req.count, req.listed)];
            && |out| > 0 && out[0].fd == me.fd && out[0].pkt.ConvCreated?
            && var id := out[0].pkt.newConv;
            && id in r.convs
            && if r == db then |out| == 1 && |uids| == 2 && PrivateOf(db, id, uids[0], uids[1])
               else
                 && id == db.nextConv
                 && (forall u :: u in uids && u != me.uid && Online(cs, u) ==> Refreshed(cs, r, u, out, 1))
                 && (forall i :: 0 < i < |out| ==> ListForOther(cs, r, uids, me.uid, out[i]))
  {
    var r := DbAfter(env, db, me.uid, req, dice);
    var uids := ListedUids(req);
    ListedAre(req);
    DbAfterCreate(env, db, me.uid, req, dice);
    if FindsExisting(db, req) {
      FoundReply(db, uids[0], uids[1], me, out);
    } else {
      CreateConversationIs(db, req.ctype, req.name, req.desc, uids);
      FanOutSays(cs, r, uids, me.uid, out[1..]);
      AnnouncedFromOne(cs, r, uids, me.uid, out);
    }
  }

  lemma FoundReply(db: Db, a: nat, b: nat, me: Conn, out: seq<Out>)
    requires |out| == 1 && exists c :: c in Shared(db, a, b) && out[0] == Out(me.fd, ConvCreated(c))
    ensures out[0].fd == me.fd && out[0].pkt.ConvCreated? && PrivateOf(db, out[0].pkt.newConv, a, b)
  {
  }

  lemma AnnouncedFromOne(cs: seq<Conn>, db: Db, uids: seq<nat>, me: nat, out: seq<Out>)
    requires |out| > 0
    requires forall u :: u in uids && u != me && Online(cs, u) ==> Refreshed(cs, db, u, out[1..], 0)
    requires forall i :: 0 <= i < |out[1..]| ==> ListForOther(cs, db, uids, me, out[1..][i])
    ensures forall u :: u in uids && u != me && Online(cs, u) ==> Refreshed(cs, db, u, out, 1)
    ensures forall i :: 0 < i < |out| ==> ListForOther(cs, db, uids, me, out[i])
  {
    forall u | u in uids && u != me && Online(cs, u) ensures Refreshed(cs, db, u, out, 1) {
      var i :| 0 <= i < |out[1..]| && ListFor(cs, db, u, out[1..][i]);
      assert ListFor(cs, db, u, out[i + 1]);
    }
    forall i | 0 < i < |out| ensures ListForOther(cs, db, uids, me, out[i]) {
      assert out[i] == out[1..][i - 1];
    }
  }

  /** Commands of anybody but the admin, and a kick of oneself, are not answered. */
  lemma CommandIgnored(env: Env, db: Db, cs: seq<Conn>, me: Conn, req: Request, dice: Dice, c: nat, out: seq<Out>)
    requires Commands(req, c) && Emits(env, db, cs, me, req, dice, out)
    requires !Administers(db, c, me.uid) || (req.KickMember? && req.kicked == me.uid)
    ensures out == []
  {
  }

  /** All packets are lists of some of the users, each of them told once. */
  ghost predicate ListsForSome(cs: seq<Conn>, db: Db, users: set<nat>, out: seq<Out>) {
    && (forall i :: 0 <= i < |out| ==> ListForOne(cs, db, users, out[i]))
    && (forall i, j :: 0 <= i < j < |out| ==> out[i].fd != out[j].fd)
  }

  ghost predicate ListForOne(cs: seq<Conn>, db: Db, users: set<nat>, o: Out) {
    exists u :: u in users && ListFor(cs, db, u, o)
  }

  lemma FanOutOnly(was: Db, db: Db, cs: seq<Conn>, uids: seq<nat>, skip: set<nat>, users: set<nat>, out: seq<Out>)
    requires SessionsOk(was, cs) && FanOut(cs, db, uids, skip, out) && NoRepeats(uids)
    requires forall u :: u in uids ==> u in users
    ensures ListsForSome(cs, db, users, out)
  {
    var to := Targets(cs, uids, skip);
    TargetsDistinct(cs, uids, skip);
    forall i | 0 <= i < |out| ensures ListForOne(cs, db, users, out[i]) {
      assert to[i] in to;
      ConvsSaid(db, to[i], out[i].pkt.convs);
      assert ListFor(cs, db, to[i], out[i]);
    }
    forall i, j | 0 <= i < j < |out| ensures out[i].fd != out[j].fd {
      SessionFdsDiffer(was, cs, to[i], to[j]);
    }
  }

  lemma NotifiesOnly(was: Db, db: Db, cs: seq<Conn>, c: nat, out: seq<Out>)
    requires SessionsOk(was, cs) && Notifies(cs, db, c, out)
    ensures ListsForSome(cs, db, MembersOf(db, c), out)
  {
    var uids: seq<nat> :| IsSelect(uids, MembersOf(db, c), MAX_PARTICIPANTS) && FanOut(cs, db, uids, {0}, out);
    FanOutOnly(was, db, cs, uids, {0}, MembersOf(db, c), out);
  }

  lemma DeleteOnly(db: Db, cs: seq<Conn>, me: Conn, c: nat, out: seq<Out>)
    requires SessionsOk(db, cs) && DeleteEmits(db, cs, me, c, out)
    ensures ListsForSome(cs, AfterDelete(db, me.uid, c), MembersOf(db, c), out)
  {
    if IsAdmin(db, c, me.uid) {
      var uids: seq<nat> :|
        && IsSelect(uids, MembersOf(db, c), MAX_PARTICIPANTS)
        && FanOut(cs, AfterDelete(db, me.uid, c), uids, {}, out);
      FanOutOnly(db, AfterDelete(db, me.uid, c), cs, uids, {}, MembersOf(db, c), out);
    }
  }

  lemma OneMoreTold(was: Db, db: Db, cs: seq<Conn>, users: set<nat>, u: nat, told: seq<Out>, last: seq<Out>)
    requires SessionsOk(was, cs) && ListsForSome(cs, db, users, told) && u !in users && PushesConvs(cs, db, u, last)
    ensures ListsForSome(cs, db, users + {u}, told + last)
  {
    var out := told + last;
    forall i | 0 <= i < |told|
      ensures ListForOne(cs, db, users + {u}, out[i]) && (Online(cs, u) ==> out[i].fd != SessionFd(cs, u))
    {
      assert ListForOne(cs, db, users, told[i]);
      var v :| v in users && ListFor(cs, db, v, told[i]);
      assert v in users + {u} && ListFor(cs, db, v, out[i]);
      if Online(cs, u) {
        SessionFdsDiffer(was, cs, v, u);
      }
    }
    if Online(cs, u) {
      ConvsSaid(db, u, last[0].pkt.convs);
      assert ListFor(cs, db, u, out[|told|]);
    }
  }

  lemma KickOnly(db: Db, cs: seq<Conn>, me: Conn, c: nat, target: nat, out: seq<Out>)
    requires SessionsOk(db, cs) && KickEmits(db, cs, me, c, target, out)
    ensures var r := AfterKick(db, me.uid, c, target); ListsForSome(cs, r, MembersOf(r, c) + {target}, out)
  {
    if IsAdmin(db, c, me.uid) && target != me.uid {
      var r := AfterKick(db, me.uid, c, target);
      var told: seq<Out>, last: seq<Out> :|
        out == told + last && Notifies(cs, r, c, told) && PushesConvs(cs, r, target, last);
      NotifiesOnly(db, r, cs, c, told);
      OneMoreTold(db, r, cs, MembersOf(r, c), target, told, last);
    }
  }

  /**
   * A group command tells nobody but the users it concerns, and each of them once; adding is
   * confirmed to the sender besides.
   */
  lemma CommandTellsOnly(env: Env, db: Db, cs: seq<Conn>, me: Conn, req: Request, dice: Dice, c: nat, out: seq<Out>)
    requires SessionsOk(db, cs) && Commands(req, c) && Emits(env, db, cs, me, req, dice, out)
    ensures var r := DbAfter(env, db, me.uid, req, dice);
            var lists := if req.AddMember? && out != [] then out[1..] else out;
            ListsForSome(cs, r, Concerned(db, r, req, c), lists)
  {
    match req {
      case UpdateGroup(_, name, desc) =>
        if IsAdmin(db, c, me.uid) {
          NotifiesOnly(db, AfterUpdateGroup(db, me.uid, c, name, desc), cs, c, out);
        }
      case AddMember(_, code) =>
        if out != [] {
          NotifiesOnly(db, AfterAddMember(db, me.uid, c, code), cs, c, out[1..]);
        }
      case KickMember(_, target) => KickOnly(db, cs, me, c, target, out);
      case DeleteGroup(_) => DeleteOnly(db, cs, me, c, out);
    }
  }

  /** Adding is confirmed to the admin first; an unknown code is not answered. */
  lemma AddMemberReply(env: Env, db: Db, cs: seq<Conn>, me: Conn, c: nat, code: string, dice: Dice, out: seq<Out>)
    requires DbInv(db) && Administers(db, c, me.uid) && Emits(env, db, cs, me, AddMember(c, code), dice, out)
    ensures if exists v :: v in db.users && db.users[v].code == code
            then |out| > 0 && out[0] == Out(me.fd, MemberAdded) else out == []
  {
    if v :| v in db.users && db.users[v].code == code {
      ResolveIs(db, code, v);
    } else {
      UnknownCode(db, code);
    }
  }

  /** A request filed is confirmed, and shown to its receiver if they have a session. */
  lemma AddByCodeReply(env: Env, db: Db, cs: seq<Conn>, me: Conn, code: string, dice: Dice, out: seq<Out>, v: nat)
    requires DbInv(db) && v in db.users && db.users[v].code == code
    requires Emits(env, db, cs, me, AddByCode(code), dice, out)
    ensures var r := DbAfter(env, db, me.uid, AddByCode(code), dice);
            if v == me.uid || (me.uid, v) in db.requests then out == [Out(me.fd, AddFail)]
            else
              && |out| == (if Online(cs, v) then 2 else 1) && out[0] == Out(me.fd, AddReqSent)
              && (Online(cs, v) ==> out[1].fd == SessionFd(cs, v) && out[1].pkt.Requests?
                                    && SaysRequests(r, v, out[1].pkt.requests))
  {
    ResolveIs(db, code, v);
    if v != me.uid && (me.uid, v) !in db.requests && Online(cs, v) {
      RequestsSaid(AfterAddByCode(db, me.uid, code), v, out[1].pkt.requests);
    }
  }

  lemma AddNoContactReply(env: Env, db: Db, cs: seq<Conn>, me: Conn, code: string, dice: Dice, out: seq<Out>)
    requires forall v :: v in db.users ==> db.users[v].code != code
    requires Emits(env, db, cs, me, AddByCode(code), dice, out)
    ensures out == [Out(me.fd, AddFail)]
  {
    UnknownCode(db, code);
  }

  datatype Kind = ContactList | RequestList | ConvList

  predicate IsKind(pkt: Packet, kind: Kind) {
    match kind
    case ContactList => pkt.Contacts?
    case RequestList => pkt.Requests?
    case ConvList => pkt.Conversations?
  }

  /** Some packet is a list of that kind, on that descriptor. */
  ghost predicate Wrote(out: seq<Out>, fd: int, kind: Kind) {
    exists i :: 0 <= i < |out| && out[i].fd == fd && IsKind(out[i].pkt, kind)
  }

  lemma WroteAlso(one: seq<Out>, two: seq<Out>, fd: int, kind: Kind)
    requires Wrote(one, fd, kind) || Wrote(two, fd, kind)
    ensures Wrote(one + two, fd, kind)
  {
    if Wrote(one, fd, kind) {
      var i :| 0 <= i < |one| && one[i].fd == fd && IsKind(one[i].pkt, kind);
      assert (one + two)[i] == one[i];
    } else {
      var i :| 0 <= i < |two| && two[i].fd == fd && IsKind(two[i].pkt, kind);
      assert (one + two)[|one| + i] == two[i];
    }
  }

  lemma ListsWritten(db: Db, cs: seq<Conn>, me: Conn, target: nat, accepted: bool, out: seq<Out>)
    requires ListsEmits(db, cs, me, target, accepted, out)
    ensures Wrote(out, me.fd, ContactList) && Wrote(out, me.fd, RequestList)
    ensures accepted && Online(cs, target) ==> Wrote(out, SessionFd(cs, target), ContactList)
  {
    assert IsKind(out[0].pkt, ContactList) && IsKind(out[1].pkt, RequestList);
    if accepted && Online(cs, target) {
      assert out[2..][0] == out[2] && IsKind(out[2].pkt, ContactList);
    }
  }

  lemma OpeningWritten(db: Db, cs: seq<Conn>, fd: int, uid: nat, target: nat, out: seq<Out>)
    requires DbInv(db) && OpeningEmits(db, cs, fd, uid, target, out) && forall c :: !PrivateOf(db, c, uid, target)
    ensures Wrote(out, fd, ConvList) && (Online(cs, target) ==> Wrote(out, SessionFd(cs, target), ConvList))
  {
    SharedIs(db, uid, target);
    FriendshipKeeps(db, uid, target);
    assert Shared(AddFriendship(db, uid, target), uid, target) == Shared(db, uid, target);
    assert IsKind(out[0].pkt, ConvList);
    if Online(cs, target) {
      assert out[1..][0] == out[1] && IsKind(out[1].pkt, ConvList);
    }
  }

  /** To the sender, or after an accept to the other one's session. */
  ghost predicate ToEither(cs: seq<Conn>, fd: int, target: nat, accepted: bool, out: seq<Out>) {
    forall i :: 0 <= i < |out| ==>
      out[i].fd == fd || (accepted && Online(cs, target) && out[i].fd == SessionFd(cs, target))
  }

  lemma OpeningToEither(db: Db, cs: seq<Conn>, fd: int, uid: nat, target: nat, out: seq<Out>)
    requires OpeningEmits(db, cs, fd, uid, target, out)
    ensures |out| <= 2 && ToEither(cs, fd, target, true, out)
  {
    assert forall i :: 1 <= i < |out| ==> out[i] == out[1..][i - 1];
  }

  lemma ListsToEither(db: Db, cs: seq<Conn>, me: Conn, target: nat, accepted: bool, out: seq<Out>)
    requires ListsEmits(db, cs, me, target, accepted, out)
    ensures |out| <= 3 && (!accepted ==> |out| == 2) && ToEither(cs, me.fd, target, accepted, out)
  {
    assert forall i :: 2 <= i < |out| ==> out[i] == out[2..][i - 2];
  }

  /** A decision is told to nobody else: two packets when denying, at most five when accepting. */
  lemma DecideTellsOnly(env: Env, db: Db, cs: seq<Conn>, me: Conn, target: nat, accepted: bool, dice: Dice,
                        out: seq<Out>)
    requires Emits(env, db, cs, me, DecideRequest(target, accepted), dice, out)
    ensures |out| <= 5 && (!accepted ==> |out| == 2) && ToEither(cs, me.fd, target, accepted, out)
  {
    var first: seq<Out>, rest: seq<Out> :|
      && out == first + rest
      && (if accepted then OpeningEmits(db, cs, me.fd, me.uid, target, first) else first == [])
      && ListsEmits(AfterDecide(db, me.uid, target, accepted), cs, me, target, accepted, rest);
    if accepted {
      OpeningToEither(db, cs, me.fd, me.uid, target, first);
    }
    ListsToEither(AfterDecide(db, me.uid, target, accepted), cs, me, target, accepted, rest);
  }

  /**
   * Whoever decides gets both lists. Accepting also refreshes the other one's contacts, and the
   * conversations of both if it opened a chat.
   */
  lemma DecideReply(env: Env, db: Db, cs: seq<Conn>, me: Conn, target: nat, accepted: bool, dice: Dice, out: seq<Out>)
    requires DbInv(db) && Emits(env, db, cs, me, DecideRequest(target, accepted), dice, out)
    ensures Wrote(out, me.fd, ContactList) && Wrote(out, me.fd, RequestList)
    ensures accepted && Online(cs, target) ==> Wrote(out, SessionFd(cs, target), ContactList)
    ensures accepted && (forall c :: !PrivateOf(db, c, me.uid, target)) ==>
              Wrote(out, me.fd, ConvList) && (Online(cs, target) ==> Wrote(out, SessionFd(cs, target), ConvList))
  {
    var first: seq<Out>, rest: seq<Out> :|
      && out == first + rest
      && (if accepted then OpeningEmits(db, cs, me.fd, me.uid, target, first) else first == [])
      && ListsEmits(AfterDecide(db, me.uid, target, accepted), cs, me, target, accepted, rest);
    ListsWritten(AfterDecide(db, me.uid, target, accepted), cs, me, target, accepted, rest);
    WroteAlso(first, rest, me.fd, ContactList);
    WroteAlso(first, rest, me.fd, RequestList);
    if accepted {
      if Online(cs, target) {
        WroteAlso(first, rest, SessionFd(cs, target), ContactList);
      }
      if forall c :: !PrivateOf(db, c, me.uid, target) {
        OpeningWritten(db, cs, me.fd, me.uid, target, first);
        WroteAlso(first, rest, me.fd, ConvList);
        if Online(cs, target) {
          WroteAlso(first, rest, SessionFd(cs, target), ConvList);
        }
      }
    }
  }

  // ---- the history packet ----

  /** One line of a history: the header cut to 63 octets, the text, a newline. */
  function LineOf(env: Env, stamp: int, username: string, text: seq<byte>): seq<byte> {
    Cut(CStr(env.header(stamp, username)), 63) + text + [10]
  }

  /** A message in conversation c by somebody who has an account. */
  predicate ByUser(db: Db, c: nat, m: Message) {
    m in db.messages && m.conv == c && m.sender in db.users
  }

  /**
   * After every possible run a request for a history is answered with one packet to the sender:
   * nothing if no user wrote to the conversation since it was last deleted, else the line of one
   * text written since, stamped no later than any other.
   */
  lemma HistoryReply(env: Env, es: seq<Event>, me: Conn, c: nat, dice: Dice, out: seq<Out>)
    requires PossibleRun(env, START, es)
    requires var s := Run(env, START, es); Emits(env, s.db, s.conns, me, ReqHistory(c), dice, out)
    ensures |out| == 1 && out[0].fd == me.fd && out[0].pkt.History?
    ensures var db, log := Run(env, START, es).db, PlainLog(env, START, es, c);
            var rows := RowsOf(db.messages, c);
            && |rows| == |log|
            && if forall m :: !ByUser(db, c, m) then out[0].pkt.lines == []
               else exists k :: 0 <= k < |log| && OldestLine(env, db, rows, log, c, k, out[0].pkt.lines)
  {
    var db := Run(env, START, es).db;
    var rows :| IsHistory(db, c, rows) && out == [Out(me.fd, History(FirstLine(env, db, rows)))];
    LogComplete(env, es, c);
    HistoryEmptyIff(db, c, rows);
    if rows != [] {
      var k := HistoryIsOldest(env, es, c, rows);
      assert OldestLine(env, db, RowsOf(db.messages, c), PlainLog(env, START, es, c), c, k, out[0].pkt.lines);
    }
  }

  lemma HistoryEmptyIff(db: Db, c: nat, rows: seq<Message>)
    requires IsHistory(db, c, rows)
    ensures rows == [] <==> forall m :: !ByUser(db, c, m)
  {
    if rows == [] {
      assert |HistoryRows(db, c)| == 0;
      assert forall m :: ByUser(db, c, m) ==> m in HistoryRows(db, c);
    } else {
      assert rows[0] in HistoryRows(db, c);
      assert ByUser(db, c, rows[0]);
    }
  }

  ghost predicate OldestLine(env: Env, db: Db, rows: seq<Message>, log: seq<Said>, c: nat, k: nat, line: seq<byte>) {
    && k < |log| == |rows| && log[k].sender in db.users
    && line == LineOf(env, rows[k].stamp, db.users[log[k].sender].username, log[k].text)
    && forall m :: ByUser(db, c, m) ==> rows[k].stamp <= m.stamp
  }
}
