/** Who is written to in a step, with what, and how fresh it is. */
module Delivery {
  import opened Bytes
  import opened Envelope
  import opened Protocol
  import opened Tables
  import opened Registry
  import opened Machine
  import opened Invariant
  import opened Groups

  // ---- selections ----

  function Elements<T>(s: seq<T>): (r: set<T>) {
    set x | x in s
  }

  lemma {:induction false} DistinctCount<T>(s: seq<T>)
    requires NoRepeats(s)
    ensures |Elements(s)| == |s|
  {
    if s != [] {
      var n := |s| - 1;
      DistinctCount(s[..n]);
      assert s == s[..n] + [s[n]];
      assert Elements(s) == Elements(s[..n]) + {s[n]};
    }
  }

  lemma SubsetOfSameSize<T>(a: set<T>, b: set<T>)
    requires a <= b && |a| == |b|
    ensures a == b
  {
    assert |b - a| == |b| - |a|;
  }

  /** What a capped SELECT yields: min(max, size) different rows, all of them if they fit. */
  lemma Selected<T>(rows: seq<T>, table: set<T>, max: nat)
    requires IsSelect(rows, table, max)
    ensures Elements(rows) <= table && |Elements(rows)| == |rows|
    ensures |table| <= max ==> Elements(rows) == table
  {
    DistinctCount(rows);
    assert forall x :: x in Elements(rows) ==> x in table;
    if |table| <= max {
      SubsetOfSameSize(Elements(rows), table);
    }
  }

  // ---- targets of a fan-out ----

  lemma {:induction false} TargetsDistinct(cs: seq<Conn>, uids: seq<nat>, skip: set<nat>)
    requires NoRepeats(uids)
    ensures NoRepeats(Targets(cs, uids, skip))
  {
    if uids != [] {
      var init := uids[..|uids| - 1];
      TargetsDistinct(cs, init, skip);
      forall u | u in Targets(cs, init, skip) ensures u != uids[|uids| - 1] {
        assert u in init;
      }
    }
  }

  /** Different users have different sessions. */
  lemma SessionFdsDiffer(db: Db, cs: seq<Conn>, u: nat, v: nat)
    requires SessionsOk(db, cs) && Online(cs, u) && Online(cs, v) && u != v
    ensures SessionFd(cs, u) != SessionFd(cs, v)
  {
    var i, j := SessionIndex(cs, u), SessionIndex(cs, v);
    assert i != j;
  }

  // ---- routing of texts ----

  /** Members other than the sender who have a session. */
  function Reachable(cs: seq<Conn>, told: set<nat>, me: nat): (r: set<nat>) {
    set u | u in told && u != me && Online(cs, u)
  }

  ghost predicate GoesToOneOf(cs: seq<Conn>, users: set<nat>, pkt: Packet, o: Out) {
    exists u :: u in users && Online(cs, u) && o == Out(SessionFd(cs, u), pkt)
  }

  /** One packet for each of the given users, on that user's session, and nothing else. */
  ghost predicate OneEach(cs: seq<Conn>, users: set<nat>, pkt: Packet, out: seq<Out>) {
    && (forall u :: u in users ==> Online(cs, u) && Out(SessionFd(cs, u), pkt) in out)
    && (forall i :: 0 <= i < |out| ==> GoesToOneOf(cs, users, pkt, out[i]))
    && (forall i, j :: 0 <= i < j < |out| ==> out[i].fd != out[j].fd)
  }

  lemma RoutedOneEach(db: Db, cs: seq<Conn>, me: Conn, uids: seq<nat>, pkt: Packet, out: seq<Out>)
    requires SessionsOk(db, cs) && RoutesTo(cs, me.uid, uids, pkt, out)
    requires NoRepeats(uids)
    ensures OneEach(cs, Reachable(cs, Elements(uids), me.uid), pkt, out)
  {
    var to := Targets(cs, uids, {me.uid});
    var users := Reachable(cs, Elements(uids), me.uid);
    TargetsDistinct(cs, uids, {me.uid});
    assert forall u :: u in users <==> u in to;
    forall u | u in users ensures Out(SessionFd(cs, u), pkt) in out {
      var k :| 0 <= k < |to| && to[k] == u;
      assert out[k] == Out(SessionFd(cs, u), pkt);
    }
    forall i | 0 <= i < |out| ensures GoesToOneOf(cs, users, pkt, out[i]) {
      assert to[i] in users;
    }
    forall i, j | 0 <= i < j < |out| ensures out[i].fd != out[j].fd {
      SessionFdsDiffer(db, cs, to[i], to[j]);
    }
  }

  /**
   * A text goes once to every other member with a session, and to nobody else; in a group of
   * more than ten, to the sessions among exactly ten of its members.
   */
  lemma RoutingExact(db: Db, cs: seq<Conn>, me: Conn, c: nat, text: Text, out: seq<Out>)
    requires SessionsOk(db, cs) && Routes(cs, db, me, c, text, out)
    ensures exists told: set<nat> ::
        && told <= MembersOf(db, c)
        && |told| == (if |MembersOf(db, c)| <= MAX_PARTICIPANTS then |MembersOf(db, c)| else MAX_PARTICIPANTS)
        && (|MembersOf(db, c)| <= MAX_PARTICIPANTS ==> told == MembersOf(db, c))
        && OneEach(cs, Reachable(cs, told, me.uid), Routed(me, c, text), out)
    ensures forall i :: 0 <= i < |out| ==>
              && out[i].pkt.RouteText? && out[i].pkt.conv == c && out[i].pkt.sender == me.uid
              && out[i].pkt.senderName == Cut(me.username, 32) && out[i].pkt.text == Cut(text, 1024)
  {
    var pkt := Routed(me, c, text);
    var uids: seq<nat> :| IsSelect(uids, MembersOf(db, c), MAX_PARTICIPANTS) && RoutesTo(cs, me.uid, uids, pkt, out);
    Selected(uids, MembersOf(db, c), MAX_PARTICIPANTS);
    RoutedOneEach(db, cs, me, uids, pkt, out);
  }

  /**
   * The last row of the step's table holds the whole text; what is routed equals it if and only
   * if the text fits into the packet's field.
   */
  lemma RoutedIsLoggedIff(env: Env, db: Db, cs: seq<Conn>, me: Conn, c: nat, text: Text, dice: Dice, out: seq<Out>)
    requires Emits(env, db, cs, me, SendText(c, text), dice, out)
    ensures var ms := DbAfter(env, db, me.uid, SendText(c, text), dice).messages;
            && ms != []
            && var row := ms[|ms| - 1];
            && row.conv == c && row.sender == me.uid
            && forall i :: 0 <= i < |out| ==>
                 && out[i].pkt.RouteText? && out[i].pkt.conv == c == row.conv
                 && out[i].pkt.sender == me.uid == row.sender
                 && out[i].pkt.senderName == Cut(me.username, 32)
                 && (Plain(out[i].pkt.text) == Open(env.cipher, row.text) <==> |text| <= TEXT_LEN)
  {
    SealOpens(env.cipher, dice.iv, text);
    assert forall i :: 0 <= i < |out| ==> out[i].pkt == Routed(me, c, text);
  }

  // ---- freshness ----

  /**
   * If o is a list, it goes to an open connection and is what the query for that connection's
   * own uid may return from tables db.
   */
  ghost predicate FreshFor(db: Db, cs: seq<Conn>, o: Out) {
    var k := FdIndex(cs, o.fd);
    match o.pkt
    case Conversations(rows) => k < |cs| && IsConvList(db, cs[k].uid, rows)
    case Contacts(rows) => k < |cs| && IsSelect(rows, ContactRows(db, cs[k].uid), LIST_CAP)
    case Requests(rows) => k < |cs| && IsSelect(rows, RequestRows(db, cs[k].uid), LIST_CAP)
    case _ => true
  }

  ghost predicate AllFresh(db: Db, cs: seq<Conn>, out: seq<Out>) {
    forall i :: 0 <= i < |out| ==> FreshFor(db, cs, out[i])
  }

  lemma FdFinds(db: Db, cs: seq<Conn>, i: nat)
    requires SessionsOk(db, cs) && i < |cs|
    ensures FdIndex(cs, cs[i].fd) == i
  {
    var k := FdIndex(cs, cs[i].fd);
    assert k <= i;
  }

  lemma FanOutFresh(was: Db, db: Db, cs: seq<Conn>, uids: seq<nat>, skip: set<nat>, out: seq<Out>)
    requires SessionsOk(was, cs) && FanOut(cs, db, uids, skip, out)
    ensures AllFresh(db, cs, out)
  {
    var to := Targets(cs, uids, skip);
    forall i | 0 <= i < |out| ensures FreshFor(db, cs, out[i]) {
      FdFinds(was, cs, SessionIndex(cs, to[i]));
    }
  }

  lemma NotifiesFresh(was: Db, db: Db, cs: seq<Conn>, c: nat, out: seq<Out>)
    requires SessionsOk(was, cs) && Notifies(cs, db, c, out)
    ensures AllFresh(db, cs, out)
  {
    var uids: seq<nat> :| IsSelect(uids, MembersOf(db, c), MAX_PARTICIPANTS) && FanOut(cs, db, uids, {0}, out);
    FanOutFresh(was, db, cs, uids, {0}, out);
  }

  lemma PushFresh(was: Db, db: Db, cs: seq<Conn>, uid: nat, out: seq<Out>)
    requires SessionsOk(was, cs)
    requires PushesConvs(cs, db, uid, out) || PushesContacts(cs, db, uid, out) || PushesRequests(cs, db, uid, out)
    ensures AllFresh(db, cs, out)
  {
    if Online(cs, uid) {
      FdFinds(was, cs, SessionIndex(cs, uid));
    }
  }

  /** Conversation lists do not depend on the requests table. */
  lemma ListsIgnoreRequests(db: Db, sender: nat, receiver: nat, u: nat, rows: seq<ConversationSummary>)
    requires IsConvList(db, u, rows)
    ensures IsConvList(RemoveRequest(db, sender, receiver), u, rows)
  {
    var r := RemoveRequest(db, sender, receiver);
    assert ConvsOf(r, u) == ConvsOf(db, u);
    forall i | 0 <= i < |rows| ensures IsSummary(r, u, rows[i]) {
      assert OtherNames(r, rows[i].convId, u) == OtherNames(db, rows[i].convId, u);
    }
  }

  lemma StillFresh(middle: Db, cs: seq<Conn>, sender: nat, receiver: nat, out: seq<Out>)
    requires AllFresh(middle, cs, out) && forall k :: 0 <= k < |out| ==> out[k].pkt.Conversations?
    ensures AllFresh(RemoveRequest(middle, sender, receiver), cs, out)
  {
    forall k | 0 <= k < |out| ensures FreshFor(RemoveRequest(middle, sender, receiver), cs, out[k]) {
      assert FreshFor(middle, cs, out[k]);
      ListsIgnoreRequests(middle, sender, receiver, cs[FdIndex(cs, out[k].fd)].uid, out[k].pkt.convs);
    }
  }

  lemma PairFresh(was: Db, db: Db, cs: seq<Conn>, i: nat, target: nat, out: seq<Out>)
    requires SessionsOk(was, cs) && i < |cs|
    requires |out| > 0 && SendsConvs(cs[i].fd, db, cs[i].uid, out[0]) && PushesConvs(cs, db, target, out[1..])
    ensures AllFresh(db, cs, out) && forall k :: 0 <= k < |out| ==> out[k].pkt.Conversations?
  {
    FdFinds(was, cs, i);
    PushFresh(was, db, cs, target, out[1..]);
    assert out == [out[0]] + out[1..];
  }

  lemma OpeningFresh(db: Db, cs: seq<Conn>, i: nat, target: nat, out: seq<Out>)
    requires SessionsOk(db, cs) && i < |cs| && OpeningEmits(db, cs, cs[i].fd, cs[i].uid, target, out)
    ensures AllFresh(AfterDecide(db, cs[i].uid, target, true), cs, out)
  {
    if out != [] {
      PairFresh(db, Befriended(db, cs[i].uid, target), cs, i, target, out);
      StillFresh(Befriended(db, cs[i].uid, target), cs, target, cs[i].uid, out);
    }
  }

  lemma ListsFresh(was: Db, db: Db, cs: seq<Conn>, i: nat, target: nat, accepted: bool, out: seq<Out>)
    requires SessionsOk(was, cs) && i < |cs| && ListsEmits(db, cs, cs[i], target, accepted, out)
    ensures AllFresh(db, cs, out)
  {
    FdFinds(was, cs, i);
    if accepted {
      PushFresh(was, db, cs, target, out[2..]);
    }
    assert out == [out[0], out[1]] + out[2..];
  }

  /** Accepting sends conversation lists before its last table update; they are fresh all the same. */
  lemma DecideFresh(db: Db, cs: seq<Conn>, i: nat, target: nat, accepted: bool, out: seq<Out>)
    requires SessionsOk(db, cs) && i < |cs| && DecideEmits(db, cs, cs[i], target, accepted, out)
    ensures AllFresh(AfterDecide(db, cs[i].uid, target, accepted), cs, out)
  {
    var me := cs[i];
    var first: seq<Out>, rest: seq<Out> :|
      && out == first + rest
      && (if accepted then OpeningEmits(db, cs, me.fd, me.uid, target, first) else first == [])
      && ListsEmits(AfterDecide(db, me.uid, target, accepted), cs, me, target, accepted, rest);
    if accepted {
      OpeningFresh(db, cs, i, target, first);
    }
    ListsFresh(db, AfterDecide(db, me.uid, target, accepted), cs, i, target, accepted, rest);
  }

  lemma GroupFresh(env: Env, db: Db, cs: seq<Conn>, i: nat, req: Request, dice: Dice, out: seq<Out>)
    requires SessionsOk(db, cs) && i < |cs| && AboutConvs(req) && Emits(env, db, cs, cs[i], req, dice, out)
    ensures AllFresh(DbAfter(env, db, cs[i].uid, req, dice), cs, out)
  {
    if req.CreateConv? {
      CreateFresh(db, cs, cs[i], req, out);
    } else if req.UpdateGroup? {
      UpdateGroupFresh(db, cs, cs[i], req.groupConv, req.newName, req.newDesc, out);
    } else if req.AddMember? {
      AddMemberFresh(db, cs, cs[i], req.addConv, req.memberCode, out);
    } else if req.KickMember? {
      KickFresh(db, cs, cs[i], req.kickConv, req.kicked, out);
    } else {
      DeleteFresh(db, cs, cs[i], req.deletedConv, out);
    }
  }

  /** A packet that is no list, or a fresh one, and fresh packets behind it. */
  lemma FreshTail(db: Db, cs: seq<Conn>, out: seq<Out>)
    requires out != [] && FreshFor(db, cs, out[0]) && AllFresh(db, cs, out[1..])
    ensures AllFresh(db, cs, out)
  {
    forall k | 0 <= k < |out| ensures FreshFor(db, cs, out[k]) {
      assert k > 0 ==> out[k] == out[1..][k - 1];
    }
  }

  lemma CreateFresh(db: Db, cs: seq<Conn>, me: Conn, req: Request, out: seq<Out>)
    requires SessionsOk(db, cs) && req.CreateConv? && CreateEmits(db, cs, me, req, out)
    ensures AllFresh(AfterCreate(db, req), cs, out)
  {
    if !FindsExisting(db, req) {
      FanOutFresh(db, AfterCreate(db, req), cs, ListedUids(req), {me.uid}, out[1..]);
      FreshTail(AfterCreate(db, req), cs, out);
    }
  }

  lemma UpdateGroupFresh(db: Db, cs: seq<Conn>, me: Conn, c: nat, name: string, desc: string, out: seq<Out>)
    requires SessionsOk(db, cs) && UpdateGroupEmits(db, cs, me, c, name, desc, out)
    ensures AllFresh(AfterUpdateGroup(db, me.uid, c, name, desc), cs, out)
  {
    if IsAdmin(db, c, me.uid) {
      NotifiesFresh(db, AfterUpdateGroup(db, me.uid, c, name, desc), cs, c, out);
    }
  }

  lemma AddMemberFresh(db: Db, cs: seq<Conn>, me: Conn, c: nat, code: string, out: seq<Out>)
    requires SessionsOk(db, cs) && AddMemberEmits(db, cs, me, c, code, out)
    ensures AllFresh(AfterAddMember(db, me.uid, c, code), cs, out)
  {
    if IsAdmin(db, c, me.uid) && Resolve(db, code).Some? {
      NotifiesFresh(db, AfterAddMember(db, me.uid, c, code), cs, c, out[1..]);
      FreshTail(AfterAddMember(db, me.uid, c, code), cs, out);
    }
  }

  lemma DeleteFresh(db: Db, cs: seq<Conn>, me: Conn, c: nat, out: seq<Out>)
    requires SessionsOk(db, cs) && DeleteEmits(db, cs, me, c, out)
    ensures AllFresh(AfterDelete(db, me.uid, c), cs, out)
  {
    if IsAdmin(db, c, me.uid) {
      var uids: seq<nat> :|
      && IsSelect(uids, MembersOf(db, c), MAX_PARTICIPANTS)
      && FanOut(cs, AfterDelete(db, me.uid, c), uids, {}, out);
      FanOutFresh(db, AfterDelete(db, me.uid, c), cs, uids, {}, out);
    }
  }

  lemma KickFresh(db: Db, cs: seq<Conn>, me: Conn, c: nat, target: nat, out: seq<Out>)
    requires SessionsOk(db, cs) && KickEmits(db, cs, me, c, target, out)
    ensures AllFresh(AfterKick(db, me.uid, c, target), cs, out)
  {
    if IsAdmin(db, c, me.uid) && target != me.uid {
      var r := AfterKick(db, me.uid, c, target);
      var told: seq<Out>, last: seq<Out> :|
      out == told + last && Notifies(cs, r, c, told) && PushesConvs(cs, r, target, last);
      NotifiesFresh(db, r, cs, c, told);
      PushFresh(db, r, cs, target, last);
    }
  }

  lemma OtherFresh(env: Env, db: Db, cs: seq<Conn>, i: nat, req: Request, dice: Dice, out: seq<Out>)
    requires SessionsOk(db, cs) && i < |cs| && !AboutConvs(req) && Emits(env, db, cs, cs[i], req, dice, out)
    ensures AllFresh(DbAfter(env, db, cs[i].uid, req, dice), cs, out)
  {
    if req.AddByCode? {
      AddByCodeFresh(db, cs, cs[i], req.code, out);
    } else if req.DecideRequest? {
      DecideFresh(db, cs, i, req.target, req.accepted, out);
    } else {
      FdFinds(db, cs, i);
    }
  }

  lemma AddByCodeFresh(db: Db, cs: seq<Conn>, me: Conn, code: string, out: seq<Out>)
    requires SessionsOk(db, cs) && AddByCodeEmits(db, cs, me, code, out)
    ensures AllFresh(AfterAddByCode(db, me.uid, code), cs, out)
  {
    if |out| > 0 && out[0].pkt == AddReqSent {
      PushFresh(db, AfterAddByCode(db, me.uid, code), cs, Resolve(db, code).value, out[1..]);
      FreshTail(AfterAddByCode(db, me.uid, code), cs, out);
    }
  }

  lemma OnlyLoginMoves(env: Env, s: State, e: Event)
    requires Sender(s, e).Some? && !e.req.Login? && !e.req.UpdateUser?
    ensures Next(env, s, e).conns == s.conns
  {
    var i := FdIndex(s.conns, e.fd);
    assert s.conns[i := s.conns[i]] == s.conns;
  }

  /**
   * Every conversation, contact or request list written during a step goes to an open
   * connection, for that connection's own uid, and is an answer to the query in the state the
   * step ends in.
   */
  lemma ListsAreFresh(env: Env, s: State, e: Event, out: seq<Out>)
    requires Inv(s) && Sender(s, e).Some?
    requires Emits(env, s.db, s.conns, s.conns[FdIndex(s.conns, e.fd)], e.req, e.dice, out)
    ensures AllFresh(Next(env, s, e).db, Next(env, s, e).conns, out)
  {
    var i := FdIndex(s.conns, e.fd);
    if !e.req.Login? && !e.req.UpdateUser? {
      OnlyLoginMoves(env, s, e);
      if AboutConvs(e.req) {
        GroupFresh(env, s.db, s.conns, i, e.req, e.dice, out);
      } else {
        OtherFresh(env, s.db, s.conns, i, e.req, e.dice, out);
      }
    }
  }

  // ---- completeness of notifications ----

  /** Some packet refreshes u's conversation list on u's session. */
  ghost predicate GotList(cs: seq<Conn>, db: Db, u: nat, out: seq<Out>)
    requires Online(cs, u)
  {
    exists i :: 0 <= i < |out| && SendsConvs(SessionFd(cs, u), db, u, out[i])
  }

  lemma FanOutReaches(cs: seq<Conn>, db: Db, uids: seq<nat>, skip: set<nat>, out: seq<Out>, u: nat)
    requires FanOut(cs, db, uids, skip, out) && u in uids && u !in skip && Online(cs, u)
    ensures GotList(cs, db, u, out)
  {
    var to := Targets(cs, uids, skip);
    var k :| 0 <= k < |to| && to[k] == u;
    assert SendsConvs(SessionFd(cs, u), db, u, out[k]);
  }

  lemma NotifyReaches(was: Db, db: Db, cs: seq<Conn>, c: nat, out: seq<Out>, u: nat)
    requires SessionsOk(was, cs) && Notifies(cs, db, c, out)
    requires |MembersOf(db, c)| <= MAX_PARTICIPANTS && u in MembersOf(db, c) && Online(cs, u)
    ensures GotList(cs, db, u, out)
  {
    var uids: seq<nat> :| IsSelect(uids, MembersOf(db, c), MAX_PARTICIPANTS) && FanOut(cs, db, uids, {0}, out);
    Selected(uids, MembersOf(db, c), MAX_PARTICIPANTS);
    assert u in Elements(uids);
    FanOutReaches(cs, db, uids, {0}, out, u);
  }

  lemma GotAlso(cs: seq<Conn>, db: Db, u: nat, one: seq<Out>, two: seq<Out>)
    requires Online(cs, u) && (GotList(cs, db, u, one) || GotList(cs, db, u, two))
    ensures GotList(cs, db, u, one + two)
  {
    if GotList(cs, db, u, one) {
      var i :| 0 <= i < |one| && SendsConvs(SessionFd(cs, u), db, u, one[i]);
      assert (one + two)[i] == one[i];
    } else {
      var i :| 0 <= i < |two| && SendsConvs(SessionFd(cs, u), db, u, two[i]);
      assert (one + two)[|one| + i] == two[i];
    }
  }

  /** The users an admin's command concerns: the members, the kicked user, the former members. */
  function Concerned(before: Db, after: Db, req: Request, c: nat): (r: set<nat>) {
    if req.DeleteGroup? then MembersOf(before, c)
    else if req.KickMember? then MembersOf(after, c) + {req.kicked}
    else MembersOf(after, c)
  }

  /** The query whose first ten rows are notified. */
  function Notified(before: Db, after: Db, req: Request, c: nat): (r: set<nat>) {
    if req.DeleteGroup? then MembersOf(before, c) else MembersOf(after, c)
  }

  /** The command takes effect: a code that resolves, a target other than the admin. */
  ghost predicate Effective(db: Db, uid: nat, req: Request, c: nat) {
    && IsAdmin(db, c, uid) && Commands(req, c)
    && (req.AddMember? ==> Resolve(db, req.memberCode).Some?)
    && (req.KickMember? ==> req.kicked != uid)
  }

  /**
   * Within the limit of ten, an effective command of a group's admin refreshes the list of
   * every concerned user who has a session.
   */
  lemma CommandsReachEveryone(env: Env, db: Db, cs: seq<Conn>, me: Conn, req: Request, dice: Dice, c: nat,
                              out: seq<Out>, u: nat)
    requires SessionsOk(db, cs) && Effective(db, me.uid, req, c) && Emits(env, db, cs, me, req, dice, out)
    requires |Notified(db, DbAfter(env, db, me.uid, req, dice), req, c)| <= MAX_PARTICIPANTS
    requires u in Concerned(db, DbAfter(env, db, me.uid, req, dice), req, c) && Online(cs, u)
    ensures GotList(cs, DbAfter(env, db, me.uid, req, dice), u, out)
  {
    match req {
      case UpdateGroup(_, name, desc) =>
        NotifyReaches(db, AfterUpdateGroup(db, me.uid, c, name, desc), cs, c, out, u);
      case AddMember(_, code) =>
        AddMemberReaches(db, cs, me, c, code, out, u);
      case KickMember(_, target) => KickReaches(db, cs, me, c, target, out, u);
      case DeleteGroup(_) => DeleteReaches(db, cs, me, c, out, u);
    }
  }

  lemma AddMemberReaches(db: Db, cs: seq<Conn>, me: Conn, c: nat, code: string, out: seq<Out>, u: nat)
    requires SessionsOk(db, cs) && IsAdmin(db, c, me.uid) && Resolve(db, code).Some?
    requires AddMemberEmits(db, cs, me, c, code, out) && Online(cs, u)
    requires |MembersOf(AfterAddMember(db, me.uid, c, code), c)| <= MAX_PARTICIPANTS
    requires u in MembersOf(AfterAddMember(db, me.uid, c, code), c)
    ensures GotList(cs, AfterAddMember(db, me.uid, c, code), u, out)
  {
    var r := AfterAddMember(db, me.uid, c, code);
    NotifyReaches(db, r, cs, c, out[1..], u);
    GotAlso(cs, r, u, [out[0]], out[1..]);
    assert [out[0]] + out[1..] == out;
  }

  lemma KickReaches(db: Db, cs: seq<Conn>, me: Conn, c: nat, target: nat, out: seq<Out>, u: nat)
    requires SessionsOk(db, cs) && IsAdmin(db, c, me.uid) && target != me.uid && KickEmits(db, cs, me, c, target, out)
    requires |MembersOf(AfterKick(db, me.uid, c, target), c)| <= MAX_PARTICIPANTS
    requires Online(cs, u) && (u == target || u in MembersOf(AfterKick(db, me.uid, c, target), c))
    ensures GotList(cs, AfterKick(db, me.uid, c, target), u, out)
  {
    var r := AfterKick(db, me.uid, c, target);
    var told: seq<Out>, last: seq<Out> :|
      out == told + last && Notifies(cs, r, c, told) && PushesConvs(cs, r, target, last);
    if u == target {
      assert SendsConvs(SessionFd(cs, u), r, u, last[0]);
    } else {
      NotifyReaches(db, r, cs, c, told, u);
    }
    GotAlso(cs, r, u, told, last);
  }

  lemma DeleteReaches(db: Db, cs: seq<Conn>, me: Conn, c: nat, out: seq<Out>, u: nat)
    requires SessionsOk(db, cs) && IsAdmin(db, c, me.uid) && DeleteEmits(db, cs, me, c, out)
    requires |MembersOf(db, c)| <= MAX_PARTICIPANTS && u in MembersOf(db, c) && Online(cs, u)
    ensures GotList(cs, AfterDelete(db, me.uid, c), u, out)
  {
    var uids: seq<nat> :|
      && IsSelect(uids, MembersOf(db, c), MAX_PARTICIPANTS)
      && FanOut(cs, AfterDelete(db, me.uid, c), uids, {}, out);
    Selected(uids, MembersOf(db, c), MAX_PARTICIPANTS);
    assert u in Elements(uids);
    FanOutReaches(cs, AfterDelete(db, me.uid, c), uids, {}, out, u);
  }

  // ---- beyond the limit ----

  lemma Enumerate<T>(table: set<T>) returns (rows: seq<T>)
    ensures IsSelect(rows, table, |table|)
  {
    if table == {} {
      rows := [];
    } else {
      var x :| x in table;
      rows := Enumerate(table - {x});
      rows := rows + [x];
    }
  }

  ghost function SomeSummary(db: Db, u: nat, c: nat): (row: ConversationSummary)
    requires c in ConvsOf(db, u)
    ensures row.convId == c && IsSummary(db, u, row)
  {
    var conv := db.convs[c];
    var others := OtherNames(db, c, u);
    if conv.ctype != PRIVATE
    then ConversationSummary(c, conv.ctype, Cut(conv.name, NAME_LEN), Cut(conv.desc, DESC_LEN), 0, db.parts[(c, u)])
    else if others == {} then ConversationSummary(c, conv.ctype, "Private Chat", "", 0, db.parts[(c, u)])
    else
      var n :| n in others;
      ConversationSummary(c, conv.ctype, Cut("Private with " + n, NAME_LEN - 1), "", 0, db.parts[(c, u)])
  }

  lemma SomeConvList(db: Db, u: nat) returns (rows: seq<ConversationSummary>)
    ensures IsConvList(db, u, rows)
  {
    var ids := Enumerate(ConvsOf(db, u));
    if |ids| > LIST_CAP {
      ids := ids[..LIST_CAP];
    }
    rows := seq(|ids|, i requires 0 <= i < |ids| => SomeSummary(db, u, ids[i]));
    assert ConvIds(rows) == ids;
  }

  lemma {:induction false} SomeFanOut(cs: seq<Conn>, db: Db, uids: seq<nat>, skip: set<nat>) returns (out: seq<Out>)
    ensures FanOut(cs, db, uids, skip, out)
  {
    out := [];
    if uids != [] {
      var n := |uids| - 1;
      out := SomeFanOut(cs, db, uids[..n], skip);
      var more := [];
      if uids[n] !in skip && Online(cs, uids[n]) {
        var rows := SomeConvList(db, uids[n]);
        more := [Out(SessionFd(cs, uids[n]), Conversations(rows))];
      }
      FanOutStep(cs, db, uids, n, skip, out, more);
      assert uids[..n + 1] == uids;
      out := out + more;
    }
  }

  /** A selection the query may return that leaves u out. */
  lemma TenWithout(db: Db, c: nat, u: nat) returns (uids: seq<nat>)
    requires u in MembersOf(db, c) && |MembersOf(db, c)| > MAX_PARTICIPANTS
    ensures IsSelect(uids, MembersOf(db, c), MAX_PARTICIPANTS) && u !in uids
  {
    uids := Enumerate(MembersOf(db, c) - {u});
    uids := uids[..MAX_PARTICIPANTS];
  }

  lemma FanOutMisses(was: Db, db: Db, cs: seq<Conn>, uids: seq<nat>, skip: set<nat>, out: seq<Out>, u: nat)
    requires SessionsOk(was, cs) && FanOut(cs, db, uids, skip, out) && u !in uids && Online(cs, u)
    ensures !GotList(cs, db, u, out)
  {
    var to := Targets(cs, uids, skip);
    forall i | 0 <= i < |out| ensures out[i].fd != SessionFd(cs, u) {
      assert to[i] in uids;
      SessionFdsDiffer(was, cs, to[i], u);
    }
  }

  /** In a group of more than ten, any member with a session may be the one left out. */
  lemma SomeoneMissed(was: Db, db: Db, cs: seq<Conn>, c: nat, u: nat) returns (out: seq<Out>)
    requires SessionsOk(was, cs) && u in MembersOf(db, c) && Online(cs, u)
    requires |MembersOf(db, c)| > MAX_PARTICIPANTS
    ensures Notifies(cs, db, c, out) && !GotList(cs, db, u, out)
  {
    var uids := TenWithout(db, c, u);
    out := SomeFanOut(cs, db, uids, {0});
    FanOutMisses(was, db, cs, uids, {0}, out, u);
  }

  lemma MissedByBoth(cs: seq<Conn>, db: Db, u: nat, one: seq<Out>, two: seq<Out>)
    requires Online(cs, u) && !GotList(cs, db, u, one) && !GotList(cs, db, u, two)
    ensures !GotList(cs, db, u, one + two)
  {
    forall i | 0 <= i < |one + two| ensures !SendsConvs(SessionFd(cs, u), db, u, (one + two)[i]) {
      if i < |one| {
        assert (one + two)[i] == one[i];
      } else {
        assert (one + two)[i] == two[i - |one|];
      }
    }
  }

  lemma AddMemberMissed(db: Db, cs: seq<Conn>, me: Conn, c: nat, code: string, u: nat) returns (out: seq<Out>)
    requires SessionsOk(db, cs) && IsAdmin(db, c, me.uid) && Resolve(db, code).Some? && Online(cs, u)
    requires |MembersOf(AfterAddMember(db, me.uid, c, code), c)| > MAX_PARTICIPANTS
    requires u in MembersOf(AfterAddMember(db, me.uid, c, code), c)
    ensures AddMemberEmits(db, cs, me, c, code, out)
    ensures !GotList(cs, AfterAddMember(db, me.uid, c, code), u, out)
  {
    var r := AfterAddMember(db, me.uid, c, code);
    var told := SomeoneMissed(db, r, cs, c, u);
    var first := [Out(me.fd, MemberAdded)];
    MissedByBoth(cs, r, u, first, told);
    out := first + told;
    assert out[1..] == told;
  }

  /** The push to the kicked user is no help to anyone else. */
  lemma KickMissed(db: Db, cs: seq<Conn>, me: Conn, c: nat, target: nat, u: nat) returns (out: seq<Out>)
    requires SessionsOk(db, cs) && IsAdmin(db, c, me.uid) && target != me.uid && Online(cs, u)
    requires |MembersOf(AfterKick(db, me.uid, c, target), c)| > MAX_PARTICIPANTS
    requires u in MembersOf(AfterKick(db, me.uid, c, target), c)
    ensures KickEmits(db, cs, me, c, target, out) && !GotList(cs, AfterKick(db, me.uid, c, target), u, out)
  {
    var r := AfterKick(db, me.uid, c, target);
    var told := SomeoneMissed(db, r, cs, c, u);
    var last := [];
    if Online(cs, target) {
      var rows := SomeConvList(r, target);
      last := [Out(SessionFd(cs, target), Conversations(rows))];
      SessionFdsDiffer(db, cs, u, target);
    }
    assert PushesConvs(cs, r, target, last);
    MissedByBoth(cs, r, u, told, last);
    out := told + last;
  }

  lemma DeleteMissed(db: Db, cs: seq<Conn>, me: Conn, c: nat, u: nat) returns (out: seq<Out>)
    requires SessionsOk(db, cs) && IsAdmin(db, c, me.uid) && Online(cs, u)
    requires |MembersOf(db, c)| > MAX_PARTICIPANTS && u in MembersOf(db, c)
    ensures DeleteEmits(db, cs, me, c, out) && !GotList(cs, AfterDelete(db, me.uid, c), u, out)
  {
    var uids := TenWithout(db, c, u);
    out := SomeFanOut(cs, AfterDelete(db, me.uid, c), uids, {});
    FanOutMisses(db, AfterDelete(db, me.uid, c), cs, uids, {}, out, u);
  }

  lemma CommandMissed(env: Env, db: Db, cs: seq<Conn>, me: Conn, req: Request, dice: Dice, c: nat, u: nat)
    returns (out: seq<Out>)
    requires SessionsOk(db, cs) && Effective(db, me.uid, req, c) && Online(cs, u)
    requires |Notified(db, DbAfter(env, db, me.uid, req, dice), req, c)| > MAX_PARTICIPANTS
    requires u in Notified(db, DbAfter(env, db, me.uid, req, dice), req, c)
    ensures Emits(env, db, cs, me, req, dice, out)
    ensures !GotList(cs, DbAfter(env, db, me.uid, req, dice), u, out)
  {
    match req {
      case UpdateGroup(_, name, desc) =>
        out := SomeoneMissed(db, AfterUpdateGroup(db, me.uid, c, name, desc), cs, c, u);
      case AddMember(_, code) => out := AddMemberMissed(db, cs, me, c, code, u);
      case KickMember(_, target) => out := KickMissed(db, cs, me, c, target, u);
      case DeleteGroup(_) => out := DeleteMissed(db, cs, me, c, u);
    }
  }

  /** The kicked user is reached whatever the size of the group. */
  lemma KickedReached(db: Db, cs: seq<Conn>, me: Conn, c: nat, target: nat, out: seq<Out>)
    requires IsAdmin(db, c, me.uid) && target != me.uid && KickEmits(db, cs, me, c, target, out) && Online(cs, target)
    ensures GotList(cs, AfterKick(db, me.uid, c, target), target, out)
  {
    var r := AfterKick(db, me.uid, c, target);
    var told: seq<Out>, last: seq<Out> :|
      out == told + last && Notifies(cs, r, c, told) && PushesConvs(cs, r, target, last);
    assert SendsConvs(SessionFd(cs, target), r, target, last[0]);
    GotAlso(cs, r, target, told, last);
  }

  /**
   * For every effective command of an admin and every concerned user with a session: the user's
   * list is refreshed in whatever order the query returns its rows, if and only if the query has
   * at most ten rows or the user is not one of them (the kicked user has a push of their own).
   */
  lemma CommandReachesIff(env: Env, db: Db, cs: seq<Conn>, me: Conn, req: Request, dice: Dice, c: nat, u: nat)
    requires SessionsOk(db, cs) && Effective(db, me.uid, req, c) && Online(cs, u)
    requires u in Concerned(db, DbAfter(env, db, me.uid, req, dice), req, c)
    ensures var r := DbAfter(env, db, me.uid, req, dice);
            (forall out :: Emits(env, db, cs, me, req, dice, out) ==> GotList(cs, r, u, out))
            <==> |Notified(db, r, req, c)| <= MAX_PARTICIPANTS || u !in Notified(db, r, req, c)
  {
    var r := DbAfter(env, db, me.uid, req, dice);
    if |Notified(db, r, req, c)| <= MAX_PARTICIPANTS {
      forall out | Emits(env, db, cs, me, req, dice, out) ensures GotList(cs, r, u, out) {
        CommandsReachEveryone(env, db, cs, me, req, dice, c, out, u);
      }
    } else if u in Notified(db, r, req, c) {
      var out := CommandMissed(env, db, cs, me, req, dice, c, u);
    } else {
      forall out | Emits(env, db, cs, me, req, dice, out) ensures GotList(cs, r, u, out) {
        KickedReached(db, cs, me, c, req.kicked, out);
      }
    }
  }

  /**
   * The same for all users together: an effective command reaches everyone it concerns who has a
   * session if and only if the query has at most ten rows or none of them is a user with one.
   */
  lemma CommandCompleteIff(env: Env, db: Db, cs: seq<Conn>, me: Conn, req: Request, dice: Dice, c: nat)
    requires SessionsOk(db, cs) && Effective(db, me.uid, req, c)
    ensures var r := DbAfter(env, db, me.uid, req, dice);
            (forall out, u :: Emits(env, db, cs, me, req, dice, out) && u in Concerned(db, r, req, c) && Online(cs, u)
                              ==> GotList(cs, r, u, out))
            <==> |Notified(db, r, req, c)| <= MAX_PARTICIPANTS
                 || forall u :: u in Notified(db, r, req, c) ==> !Online(cs, u)
  {
    var r := DbAfter(env, db, me.uid, req, dice);
    forall u | u in Concerned(db, r, req, c) && Online(cs, u)
      ensures (forall out :: Emits(env, db, cs, me, req, dice, out) ==> GotList(cs, r, u, out))
         <==> |Notified(db, r, req, c)| <= MAX_PARTICIPANTS || u !in Notified(db, r, req, c)
    {
      CommandReachesIff(env, db, cs, me, req, dice, c, u);
    }
    assert Notified(db, r, req, c) <= Concerned(db, r, req, c);
  }

  /**
   * Whatever order the query returns, every member with a session is notified: exactly when
   * the group has at most ten members or none of them has a session.
   */
  lemma NotifyCompleteIff(was: Db, db: Db, cs: seq<Conn>, c: nat)
    requires SessionsOk(was, cs)
    ensures (forall out, u :: Notifies(cs, db, c, out) && u in MembersOf(db, c) && Online(cs, u)
                              ==> GotList(cs, db, u, out))
       <==> |MembersOf(db, c)| <= MAX_PARTICIPANTS || forall u :: u in MembersOf(db, c) ==> !Online(cs, u)
  {
    if |MembersOf(db, c)| <= MAX_PARTICIPANTS {
      forall out, u | Notifies(cs, db, c, out) && u in MembersOf(db, c) && Online(cs, u)
        ensures GotList(cs, db, u, out)
      {
        NotifyReaches(was, db, cs, c, out, u);
      }
    } else if u :| u in MembersOf(db, c) && Online(cs, u) {
      var out := SomeoneMissed(was, db, cs, c, u);
    }
  }
}
