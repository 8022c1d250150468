/** Logins, credentials and lookups over whole runs, told from the events alone. */
module Sessions {
  import opened Bytes
  import opened Protocol
  import opened Tables
  import opened Registry
  import opened Machine
  import opened Invariant
  import opened Groups

  // ---- who a connection is ----

  /** The uid of the last login that succeeded on fd since it was last accepted; 0 if none did. */
  ghost function LoggedIn(env: Env, s: State, es: seq<Event>, fd: int): (uid: nat) {
    if es == [] then 0
    else
      var mid := Run(env, s, es[..|es| - 1]);
      LoginAfter(env, mid, es[|es| - 1], fd, LoggedIn(env, s, es[..|es| - 1], fd))
  }

  ghost function LoginAfter(env: Env, mid: State, e: Event, fd: int, before: nat): nat {
    if e.fd != fd then before
    else if e.Accept? then 0
    else if Sender(mid, e).Some? && LoginUser(env, mid.db, e.req).Some? then LoginUser(env, mid.db, e.req).value
    else before
  }

  /** How many events up to and including the last one that accepted fd. */
  function AcceptedAt(es: seq<Event>, fd: int): (t: nat)
    ensures t <= |es|
  {
    if es == [] then 0
    else if es[|es| - 1].Accept? && es[|es| - 1].fd == fd then |es|
    else AcceptedAt(es[..|es| - 1], fd)
  }

  /** The list holds the open connections, newest first, each logged in as its events say. */
  ghost predicate Tracks(env: Env, es: seq<Event>, cs: seq<Conn>) {
    && (forall i :: 0 <= i < |cs| ==> cs[i].uid == LoggedIn(env, START, es, cs[i].fd))
    && (forall i, j :: 0 <= i < j < |cs| ==> AcceptedAt(es, cs[i].fd) > AcceptedAt(es, cs[j].fd))
  }

  lemma ConnsAfter(env: Env, s: State, e: Event)
    ensures Next(env, s, e).conns ==
            if e.Accept? then [Conn(e.fd, 0, "", false)] + s.conns
            else if e.Close? then Removed(s.conns, e.fd)
            else if Sender(s, e).None? then s.conns
            else
              var i := FdIndex(s.conns, e.fd);
              s.conns[i := ConnAfter(env, s.db, s.conns[i], e.req)]
  {
  }

  lemma ConnKept(env: Env, db: Db, conn: Conn, req: Request)
    ensures var r := ConnAfter(env, db, conn, req);
            && r.fd == conn.fd
            && r.uid == if LoginUser(env, db, req).Some? then LoginUser(env, db, req).value else conn.uid
  {
  }

  /** One more event: what it does to the two functions the list is told by. */
  lemma HistoryStep(env: Env, es: seq<Event>, e: Event, fd: int)
    ensures LoggedIn(env, START, es + [e], fd)
         == LoginAfter(env, Run(env, START, es), e, fd, LoggedIn(env, START, es, fd))
    ensures AcceptedAt(es + [e], fd) == if e.Accept? && e.fd == fd then |es| + 1 else AcceptedAt(es, fd)
  {
    assert (es + [e])[..|es|] == es;
  }

  lemma TrackAccept(env: Env, es: seq<Event>, e: Event, s: State)
    requires s == Run(env, START, es) && Tracks(env, es, s.conns) && e.Accept? && Possible(s, e)
    ensures Tracks(env, es + [e], [Conn(e.fd, 0, "", false)] + s.conns)
  {
    forall fd { HistoryStep(env, es, e, fd); }
  }

  lemma TrackClose(env: Env, es: seq<Event>, e: Event, s: State)
    requires s == Run(env, START, es) && Tracks(env, es, s.conns) && SessionsOk(s.db, s.conns) && e.Close?
    ensures Tracks(env, es + [e], Removed(s.conns, e.fd))
  {
    forall fd { HistoryStep(env, es, e, fd); }
    var k := FdIndex(s.conns, e.fd);
    if k < |s.conns| {
      Dropped(s.conns, k);
    }
  }

  lemma TrackIgnored(env: Env, es: seq<Event>, e: Event, s: State)
    requires s == Run(env, START, es) && Tracks(env, es, s.conns) && e.Receive? && Sender(s, e).None?
    ensures Tracks(env, es + [e], s.conns)
  {
    forall fd { HistoryStep(env, es, e, fd); }
  }

  lemma TrackReceive(env: Env, es: seq<Event>, e: Event, s: State)
    requires s == Run(env, START, es) && Tracks(env, es, s.conns) && SessionsOk(s.db, s.conns)
    requires e.Receive? && Sender(s, e).Some?
    ensures var k := FdIndex(s.conns, e.fd);
            Tracks(env, es + [e], s.conns[k := ConnAfter(env, s.db, s.conns[k], e.req)])
  {
    var k := FdIndex(s.conns, e.fd);
    var after := s.conns[k := ConnAfter(env, s.db, s.conns[k], e.req)];
    ConnKept(env, s.db, s.conns[k], e.req);
    forall i | 0 <= i < |after|
      ensures after[i].fd == s.conns[i].fd && after[i].uid == LoggedIn(env, START, es + [e], after[i].fd)
      ensures AcceptedAt(es + [e], after[i].fd) == AcceptedAt(es, s.conns[i].fd)
    {
      HistoryStep(env, es, e, after[i].fd);
    }
    TracksBy(env, es, es + [e], s.conns, after);
  }

  lemma TracksBy(env: Env, es: seq<Event>, more: seq<Event>, cs: seq<Conn>, r: seq<Conn>)
    requires Tracks(env, es, cs) && |r| == |cs|
    requires forall i :: 0 <= i < |r| ==> r[i].uid == LoggedIn(env, START, more, r[i].fd)
    requires forall i :: 0 <= i < |r| ==> AcceptedAt(more, r[i].fd) == AcceptedAt(es, cs[i].fd)
    ensures Tracks(env, more, r)
  {
  }

  lemma TrackStep(env: Env, es: seq<Event>, e: Event, s: State)
    requires s == Run(env, START, es) && Tracks(env, es, s.conns) && SessionsOk(s.db, s.conns) && Possible(s, e)
    ensures Tracks(env, es + [e], Next(env, s, e).conns)
  {
    ConnsAfter(env, s, e);
    match e {
      case Accept(_) => TrackAccept(env, es, e, s);
      case Close(_) => TrackClose(env, es, e, s);
      case Receive(_, _, _) =>
        if Sender(s, e).Some? {
          TrackReceive(env, es, e, s);
        } else {
          TrackIgnored(env, es, e, s);
        }
    }
  }

  /**
   * On every run, each connection's uid is the one its last successful login gave it (0 if
   * there was none), it is online exactly if there was one, and the list is newest first.
   */
  lemma {:induction false} SessionsFollowLogins(env: Env, es: seq<Event>)
    requires PossibleRun(env, START, es)
    ensures var r := Run(env, START, es);
            && Tracks(env, es, r.conns)
            && forall i :: 0 <= i < |r.conns| ==>
                 && (r.conns[i].online <==> LoggedIn(env, START, es, r.conns[i].fd) != 0)
                 && (r.conns[i].online ==> r.conns[i].uid in r.db.users)
  {
    StartInv();
    RunKeepsInv(env, START, es);
    if es != [] {
      var n := |es| - 1;
      SessionsFollowLogins(env, es[..n]);
      RunKeepsInv(env, START, es[..n]);
      TrackStep(env, es[..n], es[n], Run(env, START, es[..n]));
      assert es[..n] + [es[n]] == es;
    }
    OnlineFollows(env, es, Run(env, START, es));
  }

  lemma OnlineFollows(env: Env, es: seq<Event>, s: State)
    requires Tracks(env, es, s.conns) && SessionsOk(s.db, s.conns)
    ensures forall i :: 0 <= i < |s.conns| ==>
              && (s.conns[i].online <==> LoggedIn(env, START, es, s.conns[i].fd) != 0)
              && (s.conns[i].online ==> s.conns[i].uid in s.db.users)
  {
  }

  /** The session found for a uid is the most recently accepted one logged in as it. */
  lemma LookupFindsNewest(env: Env, es: seq<Event>, uid: nat, j: nat)
    requires PossibleRun(env, START, es)
    requires uid != 0 && j < |Run(env, START, es).conns| && Run(env, START, es).conns[j].uid == uid
    ensures var cs := Run(env, START, es).conns;
            && Online(cs, uid)
            && AcceptedAt(es, SessionFd(cs, uid)) >= AcceptedAt(es, cs[j].fd)
  {
    SessionsFollowLogins(env, es);
    NewestFirst(env, es, Run(env, START, es).conns, uid, j);
  }

  lemma NewestFirst(env: Env, es: seq<Event>, cs: seq<Conn>, uid: nat, j: nat)
    requires Tracks(env, es, cs) && j < |cs| && cs[j].uid == uid && cs[j].online
    ensures Online(cs, uid) && AcceptedAt(es, SessionFd(cs, uid)) >= AcceptedAt(es, cs[j].fd)
  {
    var i := SessionIndex(cs, uid);
    assert i <= j;
  }

  // ---- which connections there are ----

  /** The descriptors that were accepted and not closed since. */
  function OpenFds(es: seq<Event>): set<int> {
    if es == [] then {}
    else
      var before := OpenFds(es[..|es| - 1]);
      match es[|es| - 1]
      case Accept(fd) => before + {fd}
      case Close(fd) => before - {fd}
      case Receive(_, _, _) => before
  }

  /** Closing drops the one record with the descriptor; all others stay, in their order. */
  lemma CloseEffect(env: Env, s: State, fd: int)
    requires SessionsOk(s.db, s.conns)
    ensures var r := Next(env, s, Close(fd));
            && r.db == s.db
            && (forall i :: 0 <= i < |r.conns| ==> r.conns[i].fd != fd)
            && if exists k :: 0 <= k < |s.conns| && s.conns[k].fd == fd
               then exists k :: 0 <= k < |s.conns| && s.conns[k].fd == fd
                                && r.conns == s.conns[..k] + s.conns[k + 1..]
               else r.conns == s.conns
  {
    var k := FdIndex(s.conns, fd);
    if k < |s.conns| {
      assert s.conns[k].fd == fd;
      Dropped(s.conns, k);
    }
  }

  lemma AcceptEffect(env: Env, s: State, fd: int)
    ensures var r := Next(env, s, Accept(fd));
            && r.db == s.db && |r.conns| == |s.conns| + 1 && r.conns[1..] == s.conns
            && r.conns[0].fd == fd && r.conns[0].uid == 0 && r.conns[0].username == "" && !r.conns[0].online
  {
  }

  /** A packet changes at most its sender's record, and never a descriptor. */
  lemma ReceiveEffect(env: Env, s: State, fd: int, req: Request, dice: Dice)
    ensures var r := Next(env, s, Receive(fd, req, dice)).conns;
            && |r| == |s.conns|
            && (forall i :: 0 <= i < |r| ==> r[i].fd == s.conns[i].fd)
            && (forall i :: 0 <= i < |r| && s.conns[i].fd != fd ==> r[i] == s.conns[i])
            && (!req.Login? && !req.UpdateUser? ==> r == s.conns)
  {
    ConnsAfter(env, s, Receive(fd, req, dice));
    var k := FdIndex(s.conns, fd);
    if k < |s.conns| {
      ConnKept(env, s.db, s.conns[k], req);
      assert s.conns[k := s.conns[k]] == s.conns;
    }
  }

  /** The descriptors of the list, each once. */
  ghost predicate HasFds(cs: seq<Conn>, fds: set<int>) {
    && (forall i :: 0 <= i < |cs| ==> cs[i].fd in fds)
    && (forall fd :: fd in fds ==> exists i :: 0 <= i < |cs| && cs[i].fd == fd)
  }

  lemma FdsStep(env: Env, s: State, e: Event, fds: set<int>)
    requires SessionsOk(s.db, s.conns) && HasFds(s.conns, fds)
    ensures HasFds(Next(env, s, e).conns, match e
                                          case Accept(fd) => fds + {fd}
                                          case Close(fd) => fds - {fd}
                                          case Receive(_, _, _) => fds)
  {
    match e {
      case Accept(fd) => AcceptFds(s.conns, fd, fds);
      case Close(fd) => CloseFds(env, s, fd, fds);
      case Receive(fd, req, dice) =>
        ReceiveEffect(env, s, fd, req, dice);
        SameFds(s.conns, Next(env, s, e).conns, fds);
    }
  }

  lemma AcceptFds(cs: seq<Conn>, fd: int, fds: set<int>)
    requires HasFds(cs, fds)
    ensures HasFds([Conn(fd, 0, "", false)] + cs, fds + {fd})
  {
    var r := [Conn(fd, 0, "", false)] + cs;
    forall x | x in fds + {fd} ensures exists i :: 0 <= i < |r| && r[i].fd == x {
      if x == fd {
        assert r[0].fd == x;
      } else {
        var i :| 0 <= i < |cs| && cs[i].fd == x;
        assert r[i + 1].fd == x;
      }
    }
  }

  lemma SameFds(cs: seq<Conn>, r: seq<Conn>, fds: set<int>)
    requires HasFds(cs, fds) && |r| == |cs| && forall i :: 0 <= i < |cs| ==> r[i].fd == cs[i].fd
    ensures HasFds(r, fds)
  {
    forall x | x in fds ensures exists i :: 0 <= i < |r| && r[i].fd == x {
      var i :| 0 <= i < |cs| && cs[i].fd == x;
      assert r[i].fd == x;
    }
  }

  lemma CloseFds(env: Env, s: State, fd: int, fds: set<int>)
    requires SessionsOk(s.db, s.conns) && HasFds(s.conns, fds)
    ensures HasFds(Next(env, s, Close(fd)).conns, fds - {fd})
  {
    var cs := s.conns;
    CloseEffect(env, s, fd);
    if exists k :: 0 <= k < |cs| && cs[k].fd == fd {
      var k :| 0 <= k < |cs| && cs[k].fd == fd && Next(env, s, Close(fd)).conns == cs[..k] + cs[k + 1..];
      DropFd(cs, k, fds);
    }
  }

  lemma DropFd(cs: seq<Conn>, k: nat, fds: set<int>)
    requires HasFds(cs, fds) && k < |cs| && forall i, j :: 0 <= i < j < |cs| ==> cs[i].fd != cs[j].fd
    ensures HasFds(cs[..k] + cs[k + 1..], fds - {cs[k].fd})
  {
    var r := cs[..k] + cs[k + 1..];
    forall x | x in fds - {cs[k].fd} ensures exists i :: 0 <= i < |r| && r[i].fd == x {
      var i :| 0 <= i < |cs| && cs[i].fd == x;
      assert r[if i < k then i else i - 1].fd == x;
    }
    forall i | 0 <= i < |r| ensures r[i].fd in fds - {cs[k].fd} {
      assert r[i] == cs[if i < k then i else i + 1];
    }
  }

  /** On every possible run the list has a record for each open descriptor, and no other one. */
  lemma {:induction false} DescriptorsAreOpen(env: Env, es: seq<Event>)
    requires PossibleRun(env, START, es)
    ensures var cs := Run(env, START, es).conns;
            && (forall fd :: fd in OpenFds(es) <==> exists i :: 0 <= i < |cs| && cs[i].fd == fd)
            && (forall i, j :: 0 <= i < j < |cs| ==> cs[i].fd != cs[j].fd)
  {
    StartInv();
    RunKeepsInv(env, START, es);
    FdsFollow(env, es);
  }

  lemma {:induction false} FdsFollow(env: Env, es: seq<Event>)
    requires PossibleRun(env, START, es)
    ensures HasFds(Run(env, START, es).conns, OpenFds(es))
  {
    if es != [] {
      var n := |es| - 1;
      FdsFollow(env, es[..n]);
      StartInv();
      RunKeepsInv(env, START, es[..n]);
      FdsStep(env, Run(env, START, es[..n]), es[n], OpenFds(es[..n]));
    }
  }

  // ---- what a login or an update does to a record ----

  /** The sender's record takes over id and name of the account whose password it was. */
  lemma LoginEffect(env: Env, s: State, i: nat, email: string, password: string, dice: Dice, u: nat)
    requires Inv(s) && i < |s.conns| && u in s.db.users && s.db.users[u].email == email
    ensures var r := Next(env, s, Receive(s.conns[i].fd, Login(email, password), dice)).conns;
            var account := s.db.users[u];
            && |r| == |s.conns| && (forall j :: 0 <= j < |r| && j != i ==> r[j] == s.conns[j])
            && r[i] == if env.crypt(password, account.hash) == account.hash
                       then Conn(s.conns[i].fd, u, Cut(account.username, 32), true) else s.conns[i]
  {
    var fd := s.conns[i].fd;
    ConnsAfter(env, s, Receive(fd, Login(email, password), dice));
    OnlyRecord(s, i);
    LoginUserIs(env, s.db, email, password, u);
  }

  lemma OnlyRecord(s: State, i: nat)
    requires Inv(s) && i < |s.conns|
    ensures FdIndex(s.conns, s.conns[i].fd) == i
  {
    var k := FdIndex(s.conns, s.conns[i].fd);
    assert k <= i;
  }

  lemma LoginUserIs(env: Env, db: Db, email: string, password: string, u: nat)
    requires DbInv(db) && u in db.users && db.users[u].email == email
    ensures LoginUser(env, db, Login(email, password))
         == if env.crypt(password, db.users[u].hash) == db.users[u].hash then Some(u) else None
  {
    assert u in ByEmail(db, email);
    assert forall v :: v in ByEmail(db, email) ==> v == u;
  }

  lemma LoginNobody(env: Env, s: State, fd: int, email: string, password: string, dice: Dice)
    requires forall u :: u in s.db.users ==> s.db.users[u].email != email
    ensures Next(env, s, Receive(fd, Login(email, password), dice)) == s
  {
    assert ByEmail(s.db, email) == {};
    var k := FdIndex(s.conns, fd);
    assert k < |s.conns| ==> s.conns[k := s.conns[k]] == s.conns;
  }

  /** An update renames the session, to what fits its field, whatever the table says. */
  lemma RenameEffect(env: Env, s: State, i: nat, newUsername: string, newPassword: string, dice: Dice)
    requires Inv(s) && i < |s.conns|
    ensures var r := Next(env, s, Receive(s.conns[i].fd, UpdateUser(newUsername, newPassword), dice)).conns;
            && |r| == |s.conns| && (forall j :: 0 <= j < |r| && j != i ==> r[j] == s.conns[j])
            && r[i] == if newUsername == "" then s.conns[i]
                       else s.conns[i].(username := Cut(newUsername, 32))
  {
    ConnsAfter(env, s, Receive(s.conns[i].fd, UpdateUser(newUsername, newPassword), dice));
    OnlyRecord(s, i);
  }

  // ---- the name of a session ----

  /** The name given on fd since it was last accepted, by a login or by an update. */
  ghost function SessionName(env: Env, s: State, es: seq<Event>, fd: int): string {
    if es == [] then ""
    else NameAfter(env, Run(env, s, es[..|es| - 1]), es[|es| - 1], fd, SessionName(env, s, es[..|es| - 1], fd))
  }

  ghost function NameAfter(env: Env, mid: State, e: Event, fd: int, before: string): string {
    if e.fd != fd then before
    else if e.Accept? then ""
    else if Sender(mid, e).None? then before
    else NameGiven(env, mid.db, e.req, before)
  }

  ghost function NameGiven(env: Env, db: Db, req: Request, before: string): string {
    match req
    case Login(email, password) =>
      if u :| u in db.users && db.users[u].email == email && env.crypt(password, db.users[u].hash) == db.users[u].hash
      then Cut(db.users[u].username, 32) else before
    case UpdateUser(newUsername, _) => if newUsername == "" then before else Cut(newUsername, 32)
    case _ => before
  }

  lemma NameReceived(env: Env, s: State, i: nat, req: Request, dice: Dice)
    requires Inv(s) && i < |s.conns|
    ensures var r := Next(env, s, Receive(s.conns[i].fd, req, dice)).conns;
            i < |r| && r[i].username == NameGiven(env, s.db, req, s.conns[i].username)
  {
    var fd := s.conns[i].fd;
    match req {
      case Login(email, password) =>
        if u :| u in s.db.users && s.db.users[u].email == email {
          LoginEffect(env, s, i, email, password, dice, u);
          assert forall v :: v in s.db.users && s.db.users[v].email == email ==> v == u;
        } else {
          LoginNobody(env, s, fd, email, password, dice);
        }
      case UpdateUser(newUsername, newPassword) => RenameEffect(env, s, i, newUsername, newPassword, dice);
      case _ => ReceiveEffect(env, s, fd, req, dice);
    }
  }

  /** Every session bears the name last given on its connection. */
  ghost predicate Named(env: Env, es: seq<Event>, cs: seq<Conn>) {
    forall i :: 0 <= i < |cs| ==> cs[i].username == SessionName(env, START, es, cs[i].fd)
  }

  lemma NameStep(env: Env, es: seq<Event>, e: Event, fd: int)
    ensures SessionName(env, START, es + [e], fd)
         == NameAfter(env, Run(env, START, es), e, fd, SessionName(env, START, es, fd))
  {
    assert (es + [e])[..|es|] == es;
  }

  lemma NamesStep(env: Env, es: seq<Event>, e: Event, s: State)
    requires s == Run(env, START, es) && Inv(s) && Possible(s, e) && Named(env, es, s.conns)
    ensures Named(env, es + [e], Next(env, s, e).conns)
  {
    var r := Next(env, s, e).conns;
    forall fd { NameStep(env, es, e, fd); }
    match e {
      case Accept(fd) => AcceptEffect(env, s, fd);
      case Close(fd) => CloseEffect(env, s, fd);
      case Receive(fd, req, dice) =>
        ReceiveEffect(env, s, fd, req, dice);
        forall i | 0 <= i < |r| && r[i].fd == fd
          ensures r[i].username == SessionName(env, START, es + [e], fd)
        {
          OnlyRecord(s, i);
          NameReceived(env, s, i, req, dice);
        }
    }
  }

  /** On every possible run, a session bears the name last given on its connection. */
  lemma {:induction false} NamesFollow(env: Env, es: seq<Event>)
    requires PossibleRun(env, START, es)
    ensures Named(env, es, Run(env, START, es).conns)
  {
    if es != [] {
      var n := |es| - 1;
      NamesFollow(env, es[..n]);
      StartInv();
      RunKeepsInv(env, START, es[..n]);
      NamesStep(env, es[..n], es[n], Run(env, START, es[..n]));
      assert es[..n] + [es[n]] == es;
    }
  }

  // ---- credentials ----

  /** The hash last set for the account of an email, by registering it or by changing it. */
  ghost function HashSet(env: Env, s: State, es: seq<Event>, email: string): (h: Option<string>) {
    if es == [] then None
    else HashAfter(env, Run(env, s, es[..|es| - 1]), es[|es| - 1], email, HashSet(env, s, es[..|es| - 1], email))
  }

  ghost function HashAfter(env: Env, mid: State, e: Event, email: string, before: Option<string>): Option<string> {
    var who := Sender(mid, e);
    if who.None? then before
    else match e.req
         case Register(mail, username, password) =>
           if mail == email && !Clash(mid.db, mail, username, e.dice.code)
           then Some(env.crypt(password, e.dice.salt)) else before
         case UpdateUser(_, newPassword) =>
           if newPassword != "" && who.value in ByEmail(mid.db, email)
           then Some(env.crypt(newPassword, e.dice.salt)) else before
         case _ => before
  }

  /** The users table holds that hash, and no account if none was ever set. */
  ghost predicate HoldsHash(users: map<nat, User>, email: string, h: Option<string>) {
    match h
    case None => forall u :: u in users ==> users[u].email != email
    case Some(hash) => exists u :: u in users && users[u].email == email && users[u].hash == hash
  }

  lemma HashStep(env: Env, s: State, e: Event, email: string, before: Option<string>)
    requires DbInv(s.db) && Sender(s, e).Some?
    requires HoldsHash(s.db.users, email, before)
    ensures HoldsHash(DbAfter(env, s.db, Sender(s, e).value, e.req, e.dice).users, email,
                      HashAfter(env, s, e, email, before))
  {
    var uid := Sender(s, e).value;
    match e.req {
      case Register(mail, username, password) =>
        RegisterHash(s.db, mail, username, env.crypt(password, e.dice.salt), e.dice.code, email, before);
      case UpdateUser(newUsername, newPassword) =>
        UpdateHash(env, s.db, uid, newUsername, newPassword, e.dice.salt, email, before);
      case _ => ConvsLeaveUsers(env, s.db, uid, e.req, e.dice);
    }
  }

  lemma RegisterHash(db: Db, mail: string, username: string, hash: string, code: string,
                     email: string, before: Option<string>)
    requires SchemaOk(db) && HoldsHash(db.users, email, before)
    ensures HoldsHash(InsertUser(db, mail, username, hash, code).users, email,
                      if mail == email && !Clash(db, mail, username, code) then Some(hash) else before)
  {
    var r := InsertUser(db, mail, username, hash, code).users;
    if !Clash(db, mail, username, code) {
      if mail == email {
        assert r[db.nextUid].email == email;
      } else if before.Some? {
        var u :| u in db.users && db.users[u].email == email && db.users[u].hash == before.value;
        assert r[u] == db.users[u];
      }
    }
  }

  lemma ChangedRows(env: Env, db: Db, uid: nat, newUsername: string, newPassword: string, salt: string)
    ensures var r := ChangedUser(env, db, uid, newUsername, newPassword, salt).users;
            && r.Keys == db.users.Keys
            && forall u :: u in r ==>
                 && r[u].email == db.users[u].email
                 && r[u].hash
                    == if newPassword != "" && u == uid then env.crypt(newPassword, salt) else db.users[u].hash
  {
  }

  lemma UpdateHash(env: Env, db: Db, uid: nat, newUsername: string, newPassword: string, salt: string,
                   email: string, before: Option<string>)
    requires UsersOk(db.users, db.nextUid) && HoldsHash(db.users, email, before)
    ensures HoldsHash(ChangedUser(env, db, uid, newUsername, newPassword, salt).users, email,
                      if newPassword != "" && uid in ByEmail(db, email)
                      then Some(env.crypt(newPassword, salt)) else before)
  {
    var r := ChangedUser(env, db, uid, newUsername, newPassword, salt).users;
    ChangedRows(env, db, uid, newUsername, newPassword, salt);
    if newPassword != "" && uid in ByEmail(db, email) {
      assert uid in r && r[uid].email == email;
    } else if before.Some? {
      var u :| u in db.users && db.users[u].email == email && db.users[u].hash == before.value;
      assert u in r && r[u].email == email && r[u].hash == before.value;
    }
  }

  lemma {:induction false} TableHoldsHash(env: Env, es: seq<Event>, email: string)
    requires PossibleRun(env, START, es)
    ensures HoldsHash(Run(env, START, es).db.users, email, HashSet(env, START, es, email))
  {
    StartInv();
    if es != [] {
      var n := |es| - 1;
      var mid := Run(env, START, es[..n]);
      TableHoldsHash(env, es[..n], email);
      RunKeepsInv(env, START, es[..n]);
      if Sender(mid, es[n]).Some? {
        HashStep(env, mid, es[n], email, HashSet(env, START, es[..n], email));
      }
    }
  }

  lemma LoginMeans(env: Env, db: Db, email: string, password: string, h: Option<string>)
    requires SchemaOk(db) && HoldsHash(db.users, email, h)
    ensures LoginUser(env, db, Login(email, password)).Some? <==> h.Some? && Accepts(env, h.value, password)
    ensures LoginUser(env, db, Login(email, password)).Some? ==>
              ByEmail(db, email) == {LoginUser(env, db, Login(email, password)).value}
  {
    if h.Some? {
      var u :| u in db.users && db.users[u].email == email && db.users[u].hash == h.value;
      assert u in ByEmail(db, email);
      assert forall v :: v in ByEmail(db, email) ==> v == u;
    }
  }

  /**
   * On every run: a login succeeds exactly when the password matches the hash last set for
   * its email, and then it is for the only account with that email.
   */
  lemma LoginExactly(env: Env, es: seq<Event>, email: string, password: string)
    requires PossibleRun(env, START, es)
    ensures var r := Run(env, START, es).db;
            var h := HashSet(env, START, es, email);
            var who := LoginUser(env, r, Login(email, password));
            && (who.Some? <==> h.Some? && Accepts(env, h.value, password))
            && (who.Some? ==> ByEmail(r, email) == {who.value})
  {
    StartInv();
    RunKeepsInv(env, START, es);
    TableHoldsHash(env, es, email);
    LoginMeans(env, Run(env, START, es).db, email, password, HashSet(env, START, es, email));
  }

  // ---- friend codes ----

  lemma {:induction false} UsersForever(env: Env, s: State, es: seq<Event>, u: nat)
    requires Inv(s) && PossibleRun(env, s, es) && u in s.db.users
    ensures var r := Run(env, s, es).db;
            u in r.users && r.users[u].code == s.db.users[u].code && r.users[u].email == s.db.users[u].email
  {
    if es != [] {
      var n := |es| - 1;
      var mid := Run(env, s, es[..n]);
      UsersForever(env, s, es[..n], u);
      RunKeepsInv(env, s, es[..n]);
      var who := Sender(mid, es[n]);
      if who.Some? {
        UsersStay(env, mid.db, who.value, es[n].req, es[n].dice);
      }
    }
  }

  /** A friend code that resolves to a user resolves to the same user in every later state. */
  lemma CodeForever(env: Env, s: State, es: seq<Event>, code: string)
    requires Inv(s) && PossibleRun(env, s, es) && Resolve(s.db, code).Some?
    ensures Resolve(Run(env, s, es).db, code) == Resolve(s.db, code)
  {
    var u := Resolve(s.db, code).value;
    var r := Run(env, s, es).db;
    UsersForever(env, s, es, u);
    RunKeepsInv(env, s, es);
    assert u in ByCode(r, code);
    assert UsersOk(r.users, r.nextUid);
  }
}
