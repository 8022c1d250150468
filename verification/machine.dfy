/**
 * The server as a state machine: src/server/main.c's event loop and what each handler does
 * to the tables and to the sender's record, and which packets it may write.
 *
 * The state after an event is a function of the event, with every random draw and the clock
 * as part of the event. The packets are a relation, because SELECTs come in no fixed order.
 */
module Machine {
  import opened Bytes
  import opened Envelope
  import opened Protocol
  import opened Tables
  import opened Registry

  datatype State = State(db: Db, conns: seq<Conn>)

  /** Random draws and the clock reading a handler may use. */
  datatype Dice = Dice(code: string, salt: string, iv: Block, now: int)

  datatype Event =
    | Accept(fd: int)
    | Close(fd: int)
    | Receive(fd: int, req: Request, dice: Dice)

  const START := State(EMPTY, [])

  /** The requests that create, change or delete conversations, apart from accepting a friend. */
  predicate AboutConvs(req: Request) {
    req.CreateConv? || req.UpdateGroup? || req.AddMember? || req.KickMember? || req.DeleteGroup?
  }

  // ---- state ----

  /** The lookup handle_create_conv makes before creating: only for exactly two uids. */
  predicate FindsExisting(db: Db, req: Request)
    requires req.CreateConv?
  {
    var uids := ListedUids(req);
    req.ctype == PRIVATE && |uids| == 2 && Shared(db, uids[0], uids[1]) != {}
  }

  function AfterCreate(db: Db, req: Request): Db
    requires req.CreateConv?
  {
    if FindsExisting(db, req) then db else CreateConversation(db, req.ctype, req.name, req.desc, ListedUids(req))
  }

  function AfterUpdateGroup(db: Db, uid: nat, c: nat, name: string, desc: string): Db {
    if IsAdmin(db, c, uid) then SetGroupInfo(db, c, name, desc) else db
  }

  ghost function AfterAddMember(db: Db, uid: nat, c: nat, code: string): Db {
    if IsAdmin(db, c, uid) && Resolve(db, code).Some?
    then AddParticipant(db, c, Resolve(db, code).value, MEMBER)
    else db
  }

  function AfterKick(db: Db, uid: nat, c: nat, target: nat): Db {
    if IsAdmin(db, c, uid) && target != uid then RemoveParticipant(db, c, target) else db
  }

  function AfterDelete(db: Db, uid: nat, c: nat): Db {
    if IsAdmin(db, c, uid) then DeleteConversation(db, c) else db
  }

  ghost function AfterAddByCode(db: Db, uid: nat, code: string): Db {
    if Resolve(db, code).Some? then AddRequest(db, uid, Resolve(db, code).value) else db
  }

  /** The accepting half of handle_decide_request, before the request row goes. */
  function Befriended(db: Db, uid: nat, target: nat): Db {
    var friends := AddFriendship(db, uid, target);
    if Shared(friends, uid, target) != {} then friends
    else CreateConversation(friends, PRIVATE, "Private Chat", "", [uid, target])
  }

  function AfterDecide(db: Db, uid: nat, target: nat, accepted: bool): Db {
    RemoveRequest(if accepted then Befriended(db, uid, target) else db, target, uid)
  }

  /** What a request from a connection logged in as uid (0: nobody) does to the tables. */
  ghost function DbAfter(env: Env, db: Db, uid: nat, req: Request, dice: Dice): Db {
    match req
    case Register(email, username, password) =>
      InsertUser(db, email, username, env.crypt(password, dice.salt), dice.code)
    case UpdateUser(newUsername, newPassword) =>
      ChangedUser(env, db, uid, newUsername, newPassword, dice.salt)
    case SendText(c, text) => LogMessage(db, c, uid, Seal(env.cipher, dice.iv, text), dice.now)
    case CreateConv(_, _, _, _, _) => AfterCreate(db, req)
    case UpdateGroup(c, name, desc) => AfterUpdateGroup(db, uid, c, name, desc)
    case AddMember(c, code) => AfterAddMember(db, uid, c, code)
    case KickMember(c, target) => AfterKick(db, uid, c, target)
    case DeleteGroup(c) => AfterDelete(db, uid, c)
    case AddByCode(code) => AfterAddByCode(db, uid, code)
    case DecideRequest(target, accepted) => AfterDecide(db, uid, target, accepted)
    case _ => db
  }

  // The requests that change conversations, one by one.

  lemma DbAfterCreate(env: Env, db: Db, uid: nat, req: Request, dice: Dice)
    requires req.CreateConv?
    ensures DbAfter(env, db, uid, req, dice) == AfterCreate(db, req)
  {
  }

  lemma DbAfterUpdate(env: Env, db: Db, uid: nat, req: Request, dice: Dice)
    requires req.UpdateGroup?
    ensures DbAfter(env, db, uid, req, dice) == AfterUpdateGroup(db, uid, req.groupConv, req.newName, req.newDesc)
  {
  }

  lemma DbAfterAdd(env: Env, db: Db, uid: nat, req: Request, dice: Dice)
    requires req.AddMember?
    ensures DbAfter(env, db, uid, req, dice) == AfterAddMember(db, uid, req.addConv, req.memberCode)
  {
  }

  lemma DbAfterKick(env: Env, db: Db, uid: nat, req: Request, dice: Dice)
    requires req.KickMember?
    ensures DbAfter(env, db, uid, req, dice) == AfterKick(db, uid, req.kickConv, req.kicked)
  {
  }

  lemma DbAfterDelete(env: Env, db: Db, uid: nat, req: Request, dice: Dice)
    requires req.DeleteGroup?
    ensures DbAfter(env, db, uid, req, dice) == AfterDelete(db, uid, req.deletedConv)
  {
  }

  lemma DbAfterDecide(env: Env, db: Db, uid: nat, req: Request, dice: Dice)
    requires req.DecideRequest?
    ensures DbAfter(env, db, uid, req, dice) == AfterDecide(db, uid, req.target, req.accepted)
  {
  }

  /** The user a login request is for, when its password matches. */
  ghost function LoginUser(env: Env, db: Db, req: Request): (r: Option<nat>)
    ensures r.Some? ==> r.value in db.users
  {
    match req
    case Login(email, password) =>
      if u :| u in ByEmail(db, email) && Accepts(env, db.users[u].hash, password) then Some(u) else None
    case _ => None
  }

  /** What a request does to the sender's own record. */
  ghost function ConnAfter(env: Env, db: Db, conn: Conn, req: Request): Conn {
    match req
    case Login(_, _) =>
      var who := LoginUser(env, db, req);
      if who.None? then conn
      else conn.(uid := who.value, username := Cut(db.users[who.value].username, NAME_LEN), online := true)
    case UpdateUser(newUsername, _) =>
      if |newUsername| > 0 then conn.(username := Cut(newUsername, NAME_LEN)) else conn
    case _ => conn
  }

  ghost function Next(env: Env, s: State, e: Event): State {
    match e
    case Accept(fd) => s.(conns := [Conn(fd, 0, "", false)] + s.conns)
    case Close(fd) => s.(conns := Removed(s.conns, fd))
    case Receive(fd, req, dice) =>
      var i := FdIndex(s.conns, fd);
      if i == |s.conns| then s
      else State(DbAfter(env, s.db, s.conns[i].uid, req, dice),
                 s.conns[i := ConnAfter(env, s.db, s.conns[i], req)])
  }

  ghost function Run(env: Env, s: State, es: seq<Event>): State {
    if es == [] then s else Next(env, Run(env, s, es[..|es| - 1]), es[|es| - 1])
  }

  /** The kernel never hands out a descriptor that is still open. */
  ghost predicate Possible(s: State, e: Event) {
    e.Accept? ==> FdIndex(s.conns, e.fd) == |s.conns|
  }

  ghost predicate PossibleRun(env: Env, s: State, es: seq<Event>) {
    es == [] || (PossibleRun(env, s, es[..|es| - 1]) && Possible(Run(env, s, es[..|es| - 1]), es[|es| - 1]))
  }

  // ---- packets ----

  predicate Online(cs: seq<Conn>, uid: nat) {
    SessionIndex(cs, uid) < |cs|
  }

  /** Descriptor of the session get_client_by_uid returns. */
  function SessionFd(cs: seq<Conn>, uid: nat): int
    requires Online(cs, uid)
  {
    cs[SessionIndex(cs, uid)].fd
  }

  /** The uids a fan-out loop writes to, in the order of its array. */
  function Targets(cs: seq<Conn>, uids: seq<nat>, skip: set<nat>): (r: seq<nat>)
    ensures forall u :: u in r <==> u in uids && u !in skip && Online(cs, u)
  {
    if uids == [] then [] else
      var init := Targets(cs, uids[..|uids| - 1], skip);
      var last := uids[|uids| - 1];
      assert forall u :: u in uids <==> u in uids[..|uids| - 1] || u == last;
      if last !in skip && Online(cs, last) then init + [last] else init
  }

  /** One fresh conversation list per online uid. */
  ghost predicate FanOut(cs: seq<Conn>, db: Db, uids: seq<nat>, skip: set<nat>, out: seq<Out>) {
    var to := Targets(cs, uids, skip);
    && |out| == |to|
    && forall i :: 0 <= i < |to| ==>
         && Online(cs, to[i])
         && out[i].fd == SessionFd(cs, to[i])
         && out[i].pkt.Conversations?
         && IsConvList(db, to[i], out[i].pkt.convs)
  }

  /** notify_group_update, whose excluded uid is always 0. */
  ghost predicate Notifies(cs: seq<Conn>, db: Db, c: nat, out: seq<Out>) {
    exists uids :: IsSelect(uids, MembersOf(db, c), MAX_PARTICIPANTS) && FanOut(cs, db, uids, {0}, out)
  }

  /** What a receiver gets of a text: at most the first TEXT_LEN octets. */
  function Routed(me: Conn, c: nat, text: Text): Packet {
    RouteText(c, me.uid, Cut(me.username, NAME_LEN), Cut(text, TEXT_LEN))
  }

  /** The loop over one selection of members writes one packet to each of them it can reach. */
  ghost predicate RoutesTo(cs: seq<Conn>, me: nat, uids: seq<nat>, pkt: Packet, out: seq<Out>) {
    var to := Targets(cs, uids, {me});
    && |out| == |to|
    && forall i :: 0 <= i < |to| ==> Online(cs, to[i]) && out[i] == Out(SessionFd(cs, to[i]), pkt)
  }

  ghost predicate Routes(cs: seq<Conn>, db: Db, me: Conn, c: nat, text: Text, out: seq<Out>) {
    exists uids ::
      IsSelect(uids, MembersOf(db, c), MAX_PARTICIPANTS) && RoutesTo(cs, me.uid, uids, Routed(me, c, text), out)
  }

  /** One turn of the routing loop. */
  lemma RouteStep(cs: seq<Conn>, me: nat, uids: seq<nat>, i: nat, pkt: Packet, out: seq<Out>)
    requires i < |uids| && RoutesTo(cs, me, uids[..i], pkt, out)
    ensures var goes := uids[i] != me && Online(cs, uids[i]);
            RoutesTo(cs, me, uids[..i + 1], pkt, if goes then out + [Out(SessionFd(cs, uids[i]), pkt)] else out)
  {
    assert uids[..i + 1][..i] == uids[..i];
  }

  ghost predicate SendsConvs(fd: int, db: Db, uid: nat, o: Out) {
    o.fd == fd && o.pkt.Conversations? && IsConvList(db, uid, o.pkt.convs)
  }

  ghost predicate SendsContacts(fd: int, db: Db, uid: nat, o: Out) {
    o.fd == fd && o.pkt.Contacts? && IsSelect(o.pkt.contacts, ContactRows(db, uid), LIST_CAP)
  }

  ghost predicate SendsRequests(fd: int, db: Db, uid: nat, o: Out) {
    o.fd == fd && o.pkt.Requests? && IsSelect(o.pkt.requests, RequestRows(db, uid), LIST_CAP)
  }

  /** A push to uid's session, if there is one. */
  ghost predicate PushesConvs(cs: seq<Conn>, db: Db, uid: nat, out: seq<Out>) {
    if Online(cs, uid) then |out| == 1 && SendsConvs(SessionFd(cs, uid), db, uid, out[0]) else out == []
  }

  ghost predicate PushesContacts(cs: seq<Conn>, db: Db, uid: nat, out: seq<Out>) {
    if Online(cs, uid) then |out| == 1 && SendsContacts(SessionFd(cs, uid), db, uid, out[0]) else out == []
  }

  ghost predicate PushesRequests(cs: seq<Conn>, db: Db, uid: nat, out: seq<Out>) {
    if Online(cs, uid) then |out| == 1 && SendsRequests(SessionFd(cs, uid), db, uid, out[0]) else out == []
  }

  /** One turn of a fan-out loop. */
  lemma FanOutStep(cs: seq<Conn>, db: Db, uids: seq<nat>, i: nat, skip: set<nat>, out: seq<Out>, more: seq<Out>)
    requires i < |uids| && FanOut(cs, db, uids[..i], skip, out)
    requires if uids[i] in skip then more == [] else PushesConvs(cs, db, uids[i], more)
    ensures FanOut(cs, db, uids[..i + 1], skip, out + more)
  {
    assert uids[..i + 1][..i] == uids[..i];
  }

  // What each handler may write, given the tables before it and the connections.

  function Welcome(uid: nat, u: User): Packet {
    LoginSuccess(uid, Cut(u.username, NAME_LEN), Cut(u.email, EMAIL_LEN), Cut(u.code, CODE_LEN))
  }

  ghost predicate LoginEmits(env: Env, db: Db, me: Conn, req: Request, out: seq<Out>) {
    var who := LoginUser(env, db, req);
    if who.None? then out == [Out(me.fd, LoginFail)]
    else
      var u := db.users[who.value];
      out == [Out(me.fd, Welcome(who.value, u))]
  }

  ghost predicate CreateEmits(db: Db, cs: seq<Conn>, me: Conn, req: Request, out: seq<Out>)
    requires req.CreateConv?
  {
    var uids := ListedUids(req);
    && |out| > 0
    && if FindsExisting(db, req)
       then |out| == 1 && exists c :: c in Shared(db, uids[0], uids[1]) && out[0] == Out(me.fd, ConvCreated(c))
       else out[0] == Out(me.fd, ConvCreated(db.nextConv)) && FanOut(cs, AfterCreate(db, req), uids, {me.uid}, out[1..])
  }

  ghost predicate UpdateGroupEmits(db: Db, cs: seq<Conn>, me: Conn, c: nat, name: string, desc: string, out: seq<Out>) {
    if IsAdmin(db, c, me.uid) then Notifies(cs, AfterUpdateGroup(db, me.uid, c, name, desc), c, out) else out == []
  }

  ghost predicate AddMemberEmits(db: Db, cs: seq<Conn>, me: Conn, c: nat, code: string, out: seq<Out>) {
    if IsAdmin(db, c, me.uid) && Resolve(db, code).Some?
    then
      && |out| > 0 && out[0] == Out(me.fd, MemberAdded)
      && Notifies(cs, AfterAddMember(db, me.uid, c, code), c, out[1..])
    else out == []
  }

  ghost predicate ReqMembersEmits(db: Db, me: Conn, c: nat, out: seq<Out>) {
    && |out| == 1 && out[0].fd == me.fd && out[0].pkt.Members?
    && IsSelect(out[0].pkt.members, MemberRows(db, c), MAX_MEMBERS)
  }

  ghost predicate KickEmits(db: Db, cs: seq<Conn>, me: Conn, c: nat, target: nat, out: seq<Out>) {
    if IsAdmin(db, c, me.uid) && target != me.uid
    then exists told: seq<Out>, last: seq<Out> ::
        && out == told + last
        && Notifies(cs, AfterKick(db, me.uid, c, target), c, told)
        && PushesConvs(cs, AfterKick(db, me.uid, c, target), target, last)
    else out == []
  }

  ghost predicate DeleteEmits(db: Db, cs: seq<Conn>, me: Conn, c: nat, out: seq<Out>) {
    if IsAdmin(db, c, me.uid)
    then exists uids ::
        && IsSelect(uids, MembersOf(db, c), MAX_PARTICIPANTS)
        && FanOut(cs, AfterDelete(db, me.uid, c), uids, {}, out)
    else out == []
  }

  ghost predicate AddByCodeEmits(db: Db, cs: seq<Conn>, me: Conn, code: string, out: seq<Out>) {
    var target := Resolve(db, code);
    if target.Some? && target.value != me.uid && (me.uid, target.value) !in db.requests
    then
      && |out| > 0 && out[0] == Out(me.fd, AddReqSent)
      && PushesRequests(cs, AfterAddByCode(db, me.uid, code), target.value, out[1..])
    else out == [Out(me.fd, AddFail)]
  }

  /** The string that storage_get_history builds, as far as strlen sees it. */
  ghost predicate HistoryEmits(env: Env, db: Db, me: Conn, c: nat, out: seq<Out>) {
    exists rows :: IsHistory(db, c, rows) && out == [Out(me.fd, History(FirstLine(env, db, rows)))]
  }

  /** Both sides see their conversations when accepting opens a new private chat. */
  ghost predicate OpeningEmits(db: Db, cs: seq<Conn>, fd: int, uid: nat, target: nat, out: seq<Out>) {
    if Shared(AddFriendship(db, uid, target), uid, target) == {}
    then
      && |out| > 0 && SendsConvs(fd, Befriended(db, uid, target), uid, out[0])
      && PushesConvs(cs, Befriended(db, uid, target), target, out[1..])
    else out == []
  }

  /**
   * The packets handle_decide_request may write: conversation lists while the request row is
   * still there, contact and request lists after it went.
   */
  ghost predicate DecideEmits(db: Db, cs: seq<Conn>, me: Conn, target: nat, accepted: bool, out: seq<Out>) {
    exists first: seq<Out>, rest: seq<Out> ::
      && out == first + rest
      && (if accepted then OpeningEmits(db, cs, me.fd, me.uid, target, first) else first == [])
      && ListsEmits(AfterDecide(db, me.uid, target, accepted), cs, me, target, accepted, rest)
  }

  ghost predicate ListsEmits(db: Db, cs: seq<Conn>, me: Conn, target: nat, accepted: bool, out: seq<Out>) {
    && |out| >= 2
    && SendsContacts(me.fd, db, me.uid, out[0])
    && SendsRequests(me.fd, db, me.uid, out[1])
    && if accepted then PushesContacts(cs, db, target, out[2..]) else |out| == 2
  }

  /** The packets a request from `me` may cause, with tables db and connections cs before it. */
  ghost predicate Emits(env: Env, db: Db, cs: seq<Conn>, me: Conn, req: Request, dice: Dice, out: seq<Out>) {
    match req
    case Register(email, username, _) =>
      out == [Out(me.fd, if Clash(db, email, username, dice.code) then RegisterFail else RegisterSuccess)]
    case Login(_, _) => LoginEmits(env, db, me, req, out)
    case UpdateUser(_, _) => out == [Out(me.fd, UpdateSuccess)]
    case SendText(c, text) => Routes(cs, DbAfter(env, db, me.uid, req, dice), me, c, text, out)
    case ReqHistory(c) => HistoryEmits(env, db, me, c, out)
    case CreateConv(_, _, _, _, _) => CreateEmits(db, cs, me, req, out)
    case ReqConversations => |out| == 1 && SendsConvs(me.fd, db, me.uid, out[0])
    case UpdateGroup(c, name, desc) => UpdateGroupEmits(db, cs, me, c, name, desc, out)
    case AddMember(c, code) => AddMemberEmits(db, cs, me, c, code, out)
    case ReqMembers(c) => ReqMembersEmits(db, me, c, out)
    case KickMember(c, target) => KickEmits(db, cs, me, c, target, out)
    case DeleteGroup(c) => DeleteEmits(db, cs, me, c, out)
    case ReqContacts => |out| == 1 && SendsContacts(me.fd, db, me.uid, out[0])
    case AddByCode(code) => AddByCodeEmits(db, cs, me, code, out)
    case GetRequests => |out| == 1 && SendsRequests(me.fd, db, me.uid, out[0])
    case DecideRequest(target, accepted) => DecideEmits(db, cs, me, target, accepted, out)
    case Unknown => out == []
  }

  /** The packets one event may cause: only a packet from an open connection causes any. */
  ghost predicate Answers(env: Env, s: State, e: Event, out: seq<Out>) {
    var i := FdIndex(s.conns, e.fd);
    if e.Receive? && i < |s.conns| then Emits(env, s.db, s.conns, s.conns[i], e.req, e.dice, out) else out == []
  }

  /** What was written after each of the first events of a run. */
  ghost predicate RunAnswers(env: Env, s: State, es: seq<Event>, outs: seq<seq<Out>>) {
    && |outs| <= |es|
    && (outs == [] ||
        var n := |outs| - 1;
        RunAnswers(env, s, es, outs[..n]) && Answers(env, Run(env, s, es[..n]), es[n], outs[n]))
  }

  lemma RunStep(env: Env, s: State, es: seq<Event>, outs: seq<seq<Out>>, out: seq<Out>)
    requires |outs| < |es| && RunAnswers(env, s, es, outs)
    requires Answers(env, Run(env, s, es[..|outs|]), es[|outs|], out)
    ensures RunAnswers(env, s, es, outs + [out])
  {
    assert (outs + [out])[..|outs|] == outs;
  }

  lemma RunNext(env: Env, s: State, es: seq<Event>, i: nat)
    requires i < |es|
    ensures Run(env, s, es[..i + 1]) == Next(env, Run(env, s, es[..i]), es[i])
  {
    assert es[..i + 1][..i] == es[..i];
  }

  /** What RunAnswers says of each event: a packet from an open connection is answered. */
  lemma {:induction false} AnsweredAt(env: Env, s: State, es: seq<Event>, outs: seq<seq<Out>>, i: nat)
    requires RunAnswers(env, s, es, outs) && i < |outs|
    ensures var mid := Run(env, s, es[..i]);
            var k := FdIndex(mid.conns, es[i].fd);
            if es[i].Receive? && k < |mid.conns|
            then Emits(env, mid.db, mid.conns, mid.conns[k], es[i].req, es[i].dice, outs[i])
            else outs[i] == []
  {
    if i < |outs| - 1 {
      AnsweredAt(env, s, es, outs[..|outs| - 1], i);
    }
  }
}
