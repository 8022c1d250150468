/**
 * The request handlers of src/server/handlers/ and the event loop of src/server/main.c, over
 * the mutable tables and client list. Every handler returns the packets it writes, in order,
 * and is proved to make exactly the step that Machine describes.
 */
module Server {
  import opened Bytes
  import opened Envelope
  import opened Protocol
  import opened Tables
  import opened Storage
  import opened Registry
  import opened Machine

  class Server {
    const env: Env
    const store: Store
    const clients: ClientList

    ghost predicate Valid()
      reads this, store, clients, clients.nodes
    {
      store.Valid() && store.env == env && clients.Valid()
    }

    ghost function View(): State
      reads this, store, clients
    {
      State(store.db, clients.view)
    }

    constructor (env: Env)
      ensures Valid() && View() == START && this.env == env
      ensures fresh(store) && fresh(clients) && clients.nodes == []
    {
      this.env := env;
      store := new Store(env);
      clients := new ClientList();
    }

    // ---- sending ----

    method SendConversations(fd: int, uid: nat) returns (o: Out)
      requires Valid()
      ensures Valid()
      ensures SendsConvs(fd, store.db, uid, o)
    {
      var summaries := new ConversationSummary[LIST_CAP];
      var n := store.GetUserConversations(uid, summaries, LIST_CAP);
      o := Out(fd, Conversations(summaries[..n]));
    }

    method SendContacts(fd: int, uid: nat) returns (o: Out)
      requires Valid()
      ensures Valid()
      ensures SendsContacts(fd, store.db, uid, o)
    {
      var contacts := new ContactSummary[LIST_CAP];
      var n := store.GetContacts(uid, contacts, LIST_CAP);
      o := Out(fd, Contacts(contacts[..n]));
    }

    method SendRequests(fd: int, uid: nat) returns (o: Out)
      requires Valid()
      ensures Valid()
      ensures SendsRequests(fd, store.db, uid, o)
    {
      var reqs := new ContactSummary[LIST_CAP];
      var n := store.GetRequestRows(uid, reqs, LIST_CAP);
      o := Out(fd, Requests(reqs[..n]));
    }

    /** Refreshes the conversation list of uid's session, if it has one. */
    method PushConversations(uid: nat) returns (out: seq<Out>)
      requires Valid()
      ensures Valid()
      ensures PushesConvs(clients.view, store.db, uid, out)
    {
      out := [];
      var c := clients.ByUid(uid);
      if c != null && c.data.online {
        var o := SendConversations(c.data.fd, uid);
        out := [o];
      }
    }

    method PushContacts(uid: nat) returns (out: seq<Out>)
      requires Valid()
      ensures Valid()
      ensures PushesContacts(clients.view, store.db, uid, out)
    {
      out := [];
      var c := clients.ByUid(uid);
      if c != null && c.data.online {
        var o := SendContacts(c.data.fd, uid);
        out := [o];
      }
    }

    method PushRequests(uid: nat) returns (out: seq<Out>)
      requires Valid()
      ensures Valid()
      ensures PushesRequests(clients.view, store.db, uid, out)
    {
      out := [];
      var c := clients.ByUid(uid);
      if c != null && c.data.online {
        var o := SendRequests(c.data.fd, uid);
        out := [o];
      }
    }

    /** The loop over a member array that the group handlers share. */
    method PushEach(members: array<nat>, count: nat, skip: set<nat>) returns (out: seq<Out>)
      requires Valid() && count <= members.Length
      ensures Valid()
      ensures FanOut(clients.view, store.db, members[..count], skip, out)
    {
      out := [];
      for i := 0 to count
        invariant FanOut(clients.view, store.db, members[..i], skip, out)
      {
        var more := [];
        if members[i] !in skip {
          more := PushConversations(members[i]);
        }
        FanOutStep(clients.view, store.db, members[..], i, skip, out, more);
        assert members[..][..i] == members[..i] && members[..][..i + 1] == members[..i + 1];
        out := out + more;
      }
    }

    /** notify_group_update, with exclude_uid 0 as at every call. */
    method NotifyGroupUpdate(c: nat) returns (out: seq<Out>)
      requires Valid()
      ensures Valid()
      ensures Notifies(clients.view, store.db, c, out)
    {
      var members := new nat[MAX_PARTICIPANTS];
      var count := store.GetConvParticipants(c, members, MAX_PARTICIPANTS);
      out := PushEach(members, count, {0});
    }

    // ---- auth_handler.c ----

    method HandleRegister(cli: ClientNode, email: string, username: string, password: string, dice: Dice)
      returns (out: seq<Out>)
      requires Valid()
      modifies store
      ensures Valid()
      ensures store.db == InsertUser(old(store.db), email, username, env.crypt(password, dice.salt), dice.code)
      ensures out == [Out(cli.data.fd, if Clash(old(store.db), email, username, dice.code) then RegisterFail
                                       else RegisterSuccess)]
    {
      var ok := store.RegisterUser(email, username, password, dice.code, dice.salt);
      out := [Out(cli.data.fd, if ok then RegisterSuccess else RegisterFail)];
    }

    /** Binds the session by writing through the pointer into the client list. */
    method HandleLogin(cli: ClientNode, ghost i: nat, email: string, password: string) returns (out: seq<Out>)
      requires Valid() && Nth(clients.nodes, i) == cli
      modifies cli`data, clients`view
      ensures Valid()
      ensures store.db == old(store.db)
      ensures clients.view == old(clients.view)[i := ConnAfter(env, store.db, old(cli.data), Login(email, password))]
      ensures LoginEmits(env, store.db, old(cli.data), Login(email, password), out)
    {
      ghost var req := Login(email, password);
      var who := store.CheckCredentials(email, password);
      assert LoginUser(env, store.db, req) == who;
      if who.Some? {
        var u := store.db.users[who.value];
        var fd := cli.data.fd;
        clients.Rewrite(cli, i, cli.data.(uid := who.value, username := Cut(u.username, NAME_LEN), online := true));
        out := [Out(fd, Welcome(who.value, u))];
      } else {
        out := [Out(cli.data.fd, LoginFail)];
      }
    }

    /** The session's name changes even when the table refuses the new one. */
    method HandleUpdateUser(cli: ClientNode, ghost i: nat, newUsername: string, newPassword: string, dice: Dice)
      returns (out: seq<Out>)
      requires Valid() && Nth(clients.nodes, i) == cli
      modifies store, cli`data, clients`view
      ensures Valid()
      ensures store.db == ChangedUser(env, old(store.db), old(cli.data.uid), newUsername, newPassword, dice.salt)
      ensures clients.view
           == old(clients.view)[i := ConnAfter(env, old(store.db), old(cli.data), UpdateUser(newUsername, newPassword))]
      ensures out == [Out(old(cli.data.fd), UpdateSuccess)]
    {
      store.ChangeUser(cli.data.uid, newUsername, newPassword, dice.salt);
      if |newUsername| > 0 {
        clients.Rewrite(cli, i, cli.data.(username := Cut(newUsername, NAME_LEN)));
      }
      out := [Out(cli.data.fd, UpdateSuccess)];
    }

    // ---- chat_handler.c ----

    method HandleSendText(cli: ClientNode, c: nat, text: Text, dice: Dice) returns (out: seq<Out>)
      requires Valid()
      modifies store
      ensures Valid()
      ensures store.db == LogMessage(old(store.db), c, cli.data.uid, Seal(env.cipher, dice.iv, text), dice.now)
      ensures Routes(clients.view, store.db, cli.data, c, text, out)
    {
      store.AppendMessage(c, cli.data.uid, text, dice.iv, dice.now);
      var members := new nat[MAX_PARTICIPANTS];
      var count := store.GetConvParticipants(c, members, MAX_PARTICIPANTS);
      out := RouteEach(cli, c, text, members, count);
    }

    method RouteEach(cli: ClientNode, c: nat, text: Text, members: array<nat>, count: nat) returns (out: seq<Out>)
      requires Valid() && count <= members.Length
      ensures Valid()
      ensures RoutesTo(clients.view, cli.data.uid, members[..count], Routed(cli.data, c, text), out)
    {
      out := [];
      for i := 0 to count
        invariant RoutesTo(clients.view, cli.data.uid, members[..i], Routed(cli.data, c, text), out)
      {
        RouteStep(clients.view, cli.data.uid, members[..], i, Routed(cli.data, c, text), out);
        assert members[..][..i] == members[..i] && members[..][..i + 1] == members[..i + 1];
        var targetUid := members[i];
        if targetUid != cli.data.uid {
          var target := clients.ByUid(targetUid);
          if target != null && target.data.online {
            out := out + [Out(target.data.fd, Routed(cli.data, c, text))];
          }
        }
      }
    }

    method HandleReqHistory(cli: ClientNode, c: nat) returns (out: seq<Out>)
      requires Valid()
      ensures Valid()
      ensures HistoryEmits(env, store.db, cli.data, c, out)
    {
      var hist, rows := store.GetHistory(c);
      out := [Out(cli.data.fd, History(CStr(hist[..])))];
      assert IsHistory(store.db, c, rows) && out == [Out(cli.data.fd, History(FirstLine(env, store.db, rows)))];
    }

    // ---- group_handler.c ----

    method HandleCreateConv(cli: ClientNode, req: Request) returns (out: seq<Out>)
      requires Valid() && req.CreateConv?
      modifies store
      ensures Valid()
      ensures store.db == AfterCreate(old(store.db), req)
      ensures CreateEmits(old(store.db), clients.view, cli.data, req, out)
    {
      var uids, count := CopyListed(req);
      var newId := 0;
      if req.ctype == PRIVATE && count == 2 {
        newId := store.FindPrivate(uids[0], uids[1]);
      }
      if newId == 0 {
        newId := store.InsertConversation(req.ctype, req.name, req.desc, uids[..count]);
        var more := PushEach(uids, count, {cli.data.uid});
        out := [Out(cli.data.fd, ConvCreated(newId))] + more;
        assert out[1..] == more;
      } else {
        out := [Out(cli.data.fd, ConvCreated(newId))];
      }
    }

    /** The counted uids of the payload, in an array of the handler's own. */
    method CopyListed(req: Request) returns (uids: array<nat>, count: nat)
      requires req.CreateConv?
      ensures fresh(uids) && count <= uids.Length && uids[..count] == ListedUids(req)
    {
      var listed := ListedUids(req);
      count := |listed|;
      uids := new nat[MAX_PARTICIPANTS];
      for i := 0 to count
        invariant uids[..i] == listed[..i]
      {
        uids[i] := listed[i];
      }
    }

    method HandleUpdateGroup(cli: ClientNode, c: nat, name: string, desc: string) returns (out: seq<Out>)
      requires Valid()
      modifies store
      ensures Valid()
      ensures store.db == AfterUpdateGroup(old(store.db), cli.data.uid, c, name, desc)
      ensures UpdateGroupEmits(old(store.db), clients.view, cli.data, c, name, desc, out)
    {
      out := [];
      var admin := store.HasAdmin(c, cli.data.uid);
      if admin {
        store.UpdateGroup(c, name, desc);
        out := NotifyGroupUpdate(c);
      }
    }

    method HandleAddMember(cli: ClientNode, c: nat, code: string) returns (out: seq<Out>)
      requires Valid()
      modifies store
      ensures Valid()
      ensures store.db == AfterAddMember(old(store.db), cli.data.uid, c, code)
      ensures AddMemberEmits(old(store.db), clients.view, cli.data, c, code, out)
    {
      out := [];
      var admin := store.HasAdmin(c, cli.data.uid);
      if admin {
        var target := store.UidByCode(code);
        if target.Some? {
          var ok := store.InsertParticipant(c, target.value, MEMBER);
          if ok {
            var more := NotifyGroupUpdate(c);
            out := [Out(cli.data.fd, MemberAdded)] + more;
            assert out[1..] == more;
          }
        }
      }
    }

    method HandleReqMembers(cli: ClientNode, c: nat) returns (out: seq<Out>)
      requires Valid()
      ensures Valid()
      ensures ReqMembersEmits(store.db, cli.data, c, out)
    {
      var mems := new MemberSummary[MAX_MEMBERS];
      var n := store.GetGroupMembers(c, mems, MAX_MEMBERS);
      out := [Out(cli.data.fd, Members(mems[..n]))];
    }

    method HandleKickMember(cli: ClientNode, c: nat, target: nat) returns (out: seq<Out>)
      requires Valid()
      modifies store
      ensures Valid()
      ensures store.db == AfterKick(old(store.db), cli.data.uid, c, target)
      ensures KickEmits(old(store.db), clients.view, cli.data, c, target, out)
    {
      out := [];
      var admin := store.HasAdmin(c, cli.data.uid);
      if admin && target != cli.data.uid {
        store.DeleteParticipant(c, target);
        var told := NotifyGroupUpdate(c);
        var last := PushConversations(target);
        out := told + last;
      }
    }

    method HandleDeleteGroup(cli: ClientNode, c: nat) returns (out: seq<Out>)
      requires Valid()
      modifies store
      ensures Valid()
      ensures store.db == AfterDelete(old(store.db), cli.data.uid, c)
      ensures DeleteEmits(old(store.db), clients.view, cli.data, c, out)
    {
      out := [];
      var admin := store.HasAdmin(c, cli.data.uid);
      if admin {
        var members := new nat[MAX_PARTICIPANTS];
        var count := store.GetConvParticipants(c, members, MAX_PARTICIPANTS);
        ghost var uids := members[..count];
        store.DropConversation(c);
        out := PushEach(members, count, {});
        assert members[..count] == uids;
      }
    }

    // ---- contact_handler.c ----

    method HandleAddByCode(cli: ClientNode, code: string) returns (out: seq<Out>)
      requires Valid()
      modifies store
      ensures Valid()
      ensures store.db == AfterAddByCode(old(store.db), cli.data.uid, code)
      ensures AddByCodeEmits(old(store.db), clients.view, cli.data, code, out)
    {
      out := [Out(cli.data.fd, AddFail)];
      var target := store.UidByCode(code);
      if target.Some? {
        var ok := store.InsertRequest(cli.data.uid, target.value);
        if ok {
          var more := PushRequests(target.value);
          out := [Out(cli.data.fd, AddReqSent)] + more;
          assert out[1..] == more;
        }
      }
    }

    /** The accepting half: friendship, then a private chat unless one is shared already. */
    method Befriend(me: nat, fd: int, target: nat) returns (out: seq<Out>)
      requires Valid()
      modifies store
      ensures Valid()
      ensures store.db == Befriended(old(store.db), me, target)
      ensures OpeningEmits(old(store.db), clients.view, fd, me, target, out)
    {
      out := [];
      store.InsertFriendship(me, target);
      var convId := store.FindPrivate(me, target);
      var newConv := false;
      if convId == 0 {
        convId := store.InsertConversation(PRIVATE, "Private Chat", "", [me, target]);
        newConv := true;
      }
      if newConv {
        var mine := SendConversations(fd, me);
        var theirs := PushConversations(target);
        out := [mine] + theirs;
        assert out[1..] == theirs;
      }
    }

    /** The list refreshes at the end of handle_decide_request. */
    method RefreshLists(cli: ClientNode, target: nat, accepted: bool) returns (out: seq<Out>)
      requires Valid()
      ensures Valid()
      ensures ListsEmits(store.db, clients.view, cli.data, target, accepted, out)
    {
      var contacts := SendContacts(cli.data.fd, cli.data.uid);
      var requests := SendRequests(cli.data.fd, cli.data.uid);
      var last := [];
      if accepted {
        last := PushContacts(target);
      }
      out := [contacts, requests] + last;
      assert out[2..] == last;
    }

    method HandleDecideRequest(cli: ClientNode, target: nat, accepted: bool) returns (out: seq<Out>)
      requires Valid()
      modifies store
      ensures Valid()
      ensures store.db == AfterDecide(old(store.db), cli.data.uid, target, accepted)
      ensures DecideEmits(old(store.db), clients.view, cli.data, target, accepted, out)
    {
      out := [];
      if accepted {
        out := Befriend(cli.data.uid, cli.data.fd, target);
      }
      store.DeleteRequest(target, cli.data.uid);
      var rest := RefreshLists(cli, target, accepted);
      out := out + rest;
    }

    // ---- main.c ----

    method OnAccept(fd: int)
      requires Valid()
      modifies clients
      ensures Valid()
      ensures View() == Next(env, old(View()), Accept(fd))
      ensures forall n :: n in clients.nodes ==> n in old(clients.nodes) || fresh(n)
    {
      clients.Add(fd);
    }

    method OnClose(fd: int)
      requires Valid()
      modifies clients, clients.nodes`next
      ensures Valid()
      ensures View() == Next(env, old(View()), Close(fd))
      ensures forall n :: n in clients.nodes ==> n in old(clients.nodes)
    {
      clients.Remove(fd);
    }

    /** One dispatched packet; a descriptor without a record is ignored. */
    method OnReceive(fd: int, req: Request, dice: Dice) returns (out: seq<Out>)
      requires Valid()
      modifies store, clients`view, clients.nodes`data
      ensures Valid()
      ensures View() == Next(env, old(View()), Receive(fd, req, dice))
      ensures var i := FdIndex(old(clients.view), fd);
              if i == |old(clients.view)| then out == []
              else Emits(env, old(store.db), old(clients.view), old(clients.view)[i], req, dice, out)
    {
      out := [];
      ghost var i := FdIndex(clients.view, fd);
      var cli := clients.ByFd(fd);
      if cli == null {
        return;
      }
      out := Dispatch(cli, i, req, dice);
    }

    /** The dispatcher: what a packet does to the tables and to its sender's record. */
    method Dispatch(cli: ClientNode, ghost i: nat, req: Request, dice: Dice) returns (out: seq<Out>)
      requires Valid() && Nth(clients.nodes, i) == cli
      modifies store, cli`data, clients`view
      ensures Valid()
      ensures store.db == DbAfter(env, old(store.db), old(cli.data.uid), req, dice)
      ensures clients.view == old(clients.view)[i := ConnAfter(env, old(store.db), old(cli.data), req)]
      ensures Emits(env, old(store.db), old(clients.view), old(cli.data), req, dice, out)
    {
      assert clients.view[i := cli.data] == clients.view;
      if req.Register? || req.Login? || req.UpdateUser? {
        out := ServeAccount(cli, i, req, dice);
      } else if AboutConvs(req) {
        out := ServeGroups(cli, req, dice);
      } else {
        out := ServeRest(cli, req, dice);
      }
    }

    /** The dispatcher's cases that may write to the sender's record. */
    method ServeAccount(cli: ClientNode, ghost i: nat, req: Request, dice: Dice) returns (out: seq<Out>)
      requires Valid() && Nth(clients.nodes, i) == cli && (req.Register? || req.Login? || req.UpdateUser?)
      modifies store, cli`data, clients`view
      ensures Valid()
      ensures store.db == DbAfter(env, old(store.db), old(cli.data.uid), req, dice)
      ensures clients.view == old(clients.view)[i := ConnAfter(env, old(store.db), old(cli.data), req)]
      ensures Emits(env, old(store.db), old(clients.view), old(cli.data), req, dice, out)
    {
      assert clients.view[i := cli.data] == clients.view;
      match req
      case Register(email, username, password) => out := HandleRegister(cli, email, username, password, dice);
      case Login(email, password) => out := HandleLogin(cli, i, email, password);
      case UpdateUser(newUsername, newPassword) => out := HandleUpdateUser(cli, i, newUsername, newPassword, dice);
    }

    /** The dispatcher's cases about groups and conversations. */
    method ServeGroups(cli: ClientNode, req: Request, dice: Dice) returns (out: seq<Out>)
      requires Valid() && AboutConvs(req)
      modifies store
      ensures Valid()
      ensures store.db == DbAfter(env, old(store.db), cli.data.uid, req, dice)
      ensures Emits(env, old(store.db), clients.view, cli.data, req, dice, out)
    {
      out := [];
      match req
      case CreateConv(_, _, _, _, _) => out := HandleCreateConv(cli, req);
      case UpdateGroup(c, name, desc) => out := HandleUpdateGroup(cli, c, name, desc);
      case AddMember(c, code) => out := HandleAddMember(cli, c, code);
      case KickMember(c, target) => out := HandleKickMember(cli, c, target);
      case DeleteGroup(c) => out := HandleDeleteGroup(cli, c);
    }

    /** The dispatcher's other cases. */
    method ServeRest(cli: ClientNode, req: Request, dice: Dice) returns (out: seq<Out>)
      requires Valid() && !AboutConvs(req) && !req.Register? && !req.Login? && !req.UpdateUser?
      modifies store
      ensures Valid()
      ensures store.db == DbAfter(env, old(store.db), cli.data.uid, req, dice)
      ensures Emits(env, old(store.db), clients.view, cli.data, req, dice, out)
    {
      out := [];
      match req
      case SendText(c, text) => out := HandleSendText(cli, c, text, dice);
      case ReqHistory(c) => out := HandleReqHistory(cli, c);
      case ReqConversations =>
        var o := SendConversations(cli.data.fd, cli.data.uid);
        out := [o];
      case ReqMembers(c) => out := HandleReqMembers(cli, c);
      case ReqContacts =>
        var o := SendContacts(cli.data.fd, cli.data.uid);
        out := [o];
      case AddByCode(code) => out := HandleAddByCode(cli, code);
      case GetRequests =>
        var o := SendRequests(cli.data.fd, cli.data.uid);
        out := [o];
      case DecideRequest(target, accepted) => out := HandleDecideRequest(cli, target, accepted);
      case Unknown =>
    }

    /** One event of the loop: a new connection, a lost one, or a packet. */
    method Handle(e: Event) returns (out: seq<Out>)
      requires Valid()
      modifies store, clients, clients.Repr()
      ensures Valid() && View() == Next(env, old(View()), e)
      ensures Answers(env, old(View()), e, out)
      ensures fresh(clients.Repr() - old(clients.Repr()))
    {
      out := [];
      match e
      case Accept(fd) => OnAccept(fd);
      case Close(fd) => OnClose(fd);
      case Receive(fd, req, dice) => out := OnReceive(fd, req, dice);
    }

    /** The event loop over any sequence of events, with the packets written after each. */
    method Serve(es: seq<Event>) returns (outs: seq<seq<Out>>)
      requires Valid()
      modifies store, clients, clients.Repr()
      ensures Valid() && View() == Run(env, old(View()), es)
      ensures |outs| == |es| && RunAnswers(env, old(View()), es, outs)
      ensures fresh(clients.Repr() - old(clients.Repr()))
    {
      outs := [];
      ghost var s := View();
      for i := 0 to |es|
        invariant Valid() && View() == Run(env, s, es[..i])
        invariant |outs| == i && RunAnswers(env, s, es, outs)
        invariant fresh(clients.Repr() - old(clients.Repr()))
      {
        var out := Handle(es[i]);
        RunNext(env, s, es, i);
        RunStep(env, s, es, outs, out);
        outs := outs + [out];
      }
      assert es[..|es|] == es;
    }
  }

  /** The server from its start: every run of the machine, on the real tables and list. */
  method RunServer(env: Env, es: seq<Event>) returns (server: Server, outs: seq<seq<Out>>)
    ensures fresh(server) && server.Valid() && server.View() == Run(env, START, es)
    ensures |outs| == |es| && RunAnswers(env, START, es, outs)
  {
    server := new Server(env);
    outs := server.Serve(es);
  }
}
