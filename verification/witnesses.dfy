/** Runs which show that conditions that other modules state are needed. */
module Witnesses {
  import opened Bytes
  import opened Protocol
  import opened Tables
  import opened Registry
  import opened Machine
  import opened Invariant
  import opened Groups
  import opened PrivateChats
  import opened Delivery

  // ---- runs that get somewhere ----

  /** The run is possible from the start and ends in s. */
  ghost predicate Leads(env: Env, es: seq<Event>, s: State) {
    PossibleRun(env, START, es) && Run(env, START, es) == s
  }

  lemma LeadsOn(env: Env, es: seq<Event>, s: State, e: Event, t: State)
    requires Leads(env, es, s) && Possible(s, e) && Next(env, s, e) == t
    ensures Leads(env, es + [e], t)
  {
    assert (es + [e])[..|es|] == es;
  }

  /** One of the salts generate_random_salt draws. */
  const SALT := "$6$rounds=5000$aaaaaaaaaaaaaaaa"

  function Toss(code: string): Dice { Dice(code, SALT, seq(16, _ => 0), 0) }

  const DICE := Toss("")

  /** Names and friend codes of eleven users, all different. */
  function Name(k: nat): string { seq(k, _ => 'u') }

  function Code(k: nat): string
    requires k <= 11
  {
    "00000" + ["0123456789AB"[k]]
  }

  function Account(env: Env, k: nat): User
    requires k <= 11
  {
    User(Name(k), Name(k), env.crypt("secret", SALT), Code(k))
  }

  /** The tables after the first n of them registered. */
  function Signed(env: Env, n: nat): Db
    requires n <= 11
  {
    var users := map u: nat | 1 <= u <= n :: Account(env, u);
    Db(users, n + 1, {}, {}, map[], 1, map[], [], 1)
  }

  function SignUp(k: nat): Event
    requires k <= 11
  {
    Receive(3, Register(Name(k), Name(k), "secret"), Toss(Code(k)))
  }

  function SignUps(es: seq<Event>, n: nat): seq<Event>
    requires n <= 11
  {
    if n == 0 then es else SignUps(es, n - 1) + [SignUp(n)]
  }

  lemma AllDifferent(j: nat, k: nat)
    requires j < k <= 11
    ensures Name(j) != Name(k) && Code(j) != Code(k)
  {
    assert |Name(j)| == j && |Name(k)| == k;
    assert Code(j)[5] == "0123456789AB"[j] && Code(k)[5] == "0123456789AB"[k];
  }

  lemma NoClash(env: Env, k: nat)
    requires 0 < k <= 11
    ensures !Clash(Signed(env, k - 1), Name(k), Name(k), Code(k))
  {
    var users := Signed(env, k - 1).users;
    forall u | u in users
      ensures users[u].username != Name(k) && users[u].email != Name(k) && users[u].code != Code(k)
    {
      AllDifferent(u, k);
    }
  }

  lemma SignedNext(env: Env, k: nat)
    requires 0 < k <= 11
    ensures InsertUser(Signed(env, k - 1), Name(k), Name(k), env.crypt("secret", SALT), Code(k)) == Signed(env, k)
  {
    NoClash(env, k);
    assert Signed(env, k).users == Signed(env, k - 1).users[k := Account(env, k)];
  }

  /** A request that leaves its sender's record alone. */
  lemma Received(env: Env, db: Db, cs: seq<Conn>, fd: int, req: Request, dice: Dice)
    requires FdIndex(cs, fd) < |cs| && !req.Login? && !req.UpdateUser?
    ensures Next(env, State(db, cs), Receive(fd, req, dice))
         == State(DbAfter(env, db, cs[FdIndex(cs, fd)].uid, req, dice), cs)
  {
    var i := FdIndex(cs, fd);
    assert cs[i := cs[i]] == cs;
  }

  lemma DbAfterRegister(env: Env, db: Db, uid: nat, req: Request, dice: Dice)
    requires req.Register?
    ensures DbAfter(env, db, uid, req, dice)
         == InsertUser(db, req.email, req.username, env.crypt(req.password, dice.salt), dice.code)
  {
  }

  lemma SignUpNext(env: Env, cs: seq<Conn>, k: nat)
    requires 0 < k <= 11 && FdIndex(cs, 3) < |cs|
    ensures Next(env, State(Signed(env, k - 1), cs), SignUp(k)) == State(Signed(env, k), cs)
  {
    SignedNext(env, k);
    var req := Register(Name(k), Name(k), "secret");
    Received(env, Signed(env, k - 1), cs, 3, req, Toss(Code(k)));
    DbAfterRegister(env, Signed(env, k - 1), cs[FdIndex(cs, 3)].uid, req, Toss(Code(k)));
  }

  lemma {:induction false} AllSigned(env: Env, es: seq<Event>, cs: seq<Conn>, n: nat)
    requires n <= 11 && FdIndex(cs, 3) < |cs| && Leads(env, es, State(EMPTY, cs))
    ensures Leads(env, SignUps(es, n), State(Signed(env, n), cs))
  {
    if n == 0 {
      assert Signed(env, 0) == EMPTY;
    } else {
      AllSigned(env, es, cs, n - 1);
      SignUpNext(env, cs, n);
      LeadsOn(env, SignUps(es, n - 1), State(Signed(env, n - 1), cs), SignUp(n), State(Signed(env, n), cs));
    }
  }

  lemma CreateNext(env: Env, db: Db, cs: seq<Conn>, req: Request)
    requires req.CreateConv? && FdIndex(cs, 3) < |cs|
    ensures Next(env, State(db, cs), Receive(3, req, DICE)) == State(AfterCreate(db, req), cs)
  {
    Received(env, db, cs, 3, req, DICE);
    DbAfterCreate(env, db, cs[FdIndex(cs, 3)].uid, req, DICE);
  }

  // ---- two private chats for one pair ----

  const PAIR := CreateConv(PRIVATE, "", "", 2, [1, 2, 0, 0, 0, 0, 0, 0, 0, 0])
  const THREE := CreateConv(PRIVATE, "", "", 3, [1, 2, 3, 0, 0, 0, 0, 0, 0, 0])

  const ALONE := [Conn(3, 0, "", false)]

  function Duplicating(): seq<Event> {
    SignUps([] + [Accept(3)], 3) + [Receive(3, PAIR, DICE)] + [Receive(3, THREE, DICE)]
  }

  lemma SignedInv(env: Env, n: nat)
    requires n <= 11
    ensures DbInv(Signed(env, n))
  {
    var db := Signed(env, n);
    forall u, v | u in db.users && v in db.users && u != v
      ensures db.users[u].username != db.users[v].username && db.users[u].email != db.users[v].email
      ensures db.users[u].code != db.users[v].code
    {
      AllDifferent(if u < v then u else v, if u < v then v else u);
    }
  }

  lemma TwoShared(db: Db)
    requires DbInv(db) && db.convs == map[] && db.nextConv == 1
    ensures !PairsUnique(AfterCreate(AfterCreate(db, PAIR), THREE))
  {
    assert ListedUids(PAIR) == [1, 2] && ListedUids(THREE) == [1, 2, 3];
    assert Shared(db, 1, 2) == {};
    var one := CreateConversation(db, PRIVATE, "", "", [1, 2]);
    assert 1 in [1, 2] && 2 in [1, 2] && 1 in [1, 2, 3] && 2 in [1, 2, 3];
    CreateKeeps(db, PRIVATE, "", "", [1, 2]);
    SharedAfterCreate(db, PRIVATE, "", "", [1, 2], 1, 2);
    SharedAfterCreate(one, PRIVATE, "", "", [1, 2, 3], 1, 2);
    var two := CreateConversation(one, PRIVATE, "", "", [1, 2, 3]);
    assert 1 in Shared(two, 1, 2) && 2 in Shared(two, 1, 2);
  }

  /**
   * A possible run after which two registered users share two private chats: one was opened
   * for them, then one for them and a third user.
   */
  lemma ThreeListedDuplicates(env: Env)
    ensures PossibleRun(env, START, Duplicating())
    ensures var r := Run(env, START, Duplicating()).db; {1, 2, 3} <= r.users.Keys && !PairsUnique(r)
  {
    DuplicatingLeads(env);
    DuplicatedUsers(env);
    DuplicatedPairs(env);
  }

  function Duplicated(env: Env): Db {
    AfterCreate(AfterCreate(Signed(env, 3), PAIR), THREE)
  }

  lemma CreateKeepsUsers(db: Db, req: Request)
    requires req.CreateConv?
    ensures AfterCreate(db, req).users == db.users
  {
  }

  lemma DuplicatedUsers(env: Env)
    ensures {1, 2, 3} <= Duplicated(env).users.Keys
  {
    var db := Signed(env, 3);
    CreateKeepsUsers(db, PAIR);
    CreateKeepsUsers(AfterCreate(db, PAIR), THREE);
    assert {1, 2, 3} <= db.users.Keys;
  }

  lemma DuplicatedPairs(env: Env)
    ensures !PairsUnique(Duplicated(env))
  {
    SignedInv(env, 3);
    TwoShared(Signed(env, 3));
  }

  lemma DuplicatingLeads(env: Env)
    ensures Leads(env, Duplicating(), State(Duplicated(env), ALONE))
  {
    var db := Signed(env, 3);
    LeadsOn(env, [], START, Accept(3), State(EMPTY, ALONE));
    AllSigned(env, [] + [Accept(3)], ALONE, 3);
    var es := SignUps([] + [Accept(3)], 3);
    CreateNext(env, db, ALONE, PAIR);
    LeadsOn(env, es, State(db, ALONE), Receive(3, PAIR, DICE), State(AfterCreate(db, PAIR), ALONE));
    CreateNext(env, AfterCreate(db, PAIR), ALONE, THREE);
    LeadsOn(env, es + [Receive(3, PAIR, DICE)], State(AfterCreate(db, PAIR), ALONE), Receive(3, THREE, DICE),
            State(AfterCreate(AfterCreate(db, PAIR), THREE), ALONE));
  }

  // ---- a group of eleven ----

  /** What crypt(3) promises of a well-formed salt, for the one password and salt used here. */
  predicate CryptLaw(env: Env) {
    env.crypt("secret", env.crypt("secret", SALT)) == env.crypt("secret", SALT)
  }

  const TWO := [Conn(4, 0, "", false), Conn(3, 0, "", false)]
  const TWO_IN := [Conn(4, 2, "uu", true), Conn(3, 1, "u", true)]

  /** The uids from 1 to n. */
  function UpTo(n: nat): seq<nat> { seq(n, i requires 0 <= i < n => i + 1) }

  const TEN := CreateConv(GROUP, "g", "", 10, UpTo(10))
  const RENAME := UpdateGroup(1, "h", "")

  function LogIn(fd: int, k: nat): Event { Receive(fd, Login(Name(k), "secret"), DICE) }

  /** Eleven users register, two log in, one creates a group of ten and adds the eleventh. */
  function Eleven(): seq<Event> {
    SignUps([] + [Accept(3)] + [Accept(4)], 11) + [LogIn(3, 1)] + [LogIn(4, 2)] + [Receive(3, TEN, DICE)]
      + [Receive(3, AddMember(1, Code(11)), DICE)]
  }

  function ElevenDb(env: Env): Db {
    AddParticipant(AfterCreate(Signed(env, 11), TEN), 1, 11, MEMBER)
  }

  lemma LoginNext(env: Env, cs: seq<Conn>, fd: int, k: nat)
    requires CryptLaw(env) && 1 <= k <= 11 && FdIndex(cs, fd) < |cs|
    ensures var i := FdIndex(cs, fd);
            Next(env, State(Signed(env, 11), cs), LogIn(fd, k))
            == State(Signed(env, 11), cs[i := cs[i].(uid := k, username := Name(k), online := true)])
  {
    var db := Signed(env, 11);
    assert db.users[k] == Account(env, k) && k in ByEmail(db, Name(k));
    assert Accepts(env, db.users[k].hash, "secret");
    assert forall u: nat :: |Name(u)| == u;
  }

  lemma ResolveEleven(env: Env)
    ensures Resolve(AfterCreate(Signed(env, 11), TEN), Code(11)) == Some(11)
  {
    var db := AfterCreate(Signed(env, 11), TEN);
    assert db.users == Signed(env, 11).users;
    assert db.users[11] == Account(env, 11) && 11 in ByCode(db, Code(11));
    forall u | u in ByCode(db, Code(11)) ensures u == 11 {
      if u < 11 {
        AllDifferent(u, 11);
      }
    }
  }

  lemma TenMade(env: Env)
    ensures var db := AfterCreate(Signed(env, 11), TEN); IsAdmin(db, 1, 1) && MembersOf(db, 1) == Elements(UpTo(10))
  {
    assert ListedUids(TEN) == UpTo(10);
    SignedInv(env, 11);
    CreateRows(Signed(env, 11), GROUP, "g", "", UpTo(10));
  }

  lemma ElevenMade(env: Env)
    ensures IsAdmin(ElevenDb(env), 1, 1) && MembersOf(ElevenDb(env), 1) == Elements(UpTo(11))
    ensures |Elements(UpTo(11))| == 11
  {
    TenMade(env);
    AddedMember(AfterCreate(Signed(env, 11), TEN), 11);
    UpToEleven();
  }

  lemma UpToEleven()
    ensures Elements(UpTo(11)) == Elements(UpTo(10)) + {11} && |Elements(UpTo(11))| == 11
  {
    assert UpTo(11) == UpTo(10) + [11];
    DistinctCount(UpTo(11));
  }

  lemma AddedMember(db: Db, u: nat)
    ensures MembersOf(AddParticipant(db, 1, u, MEMBER), 1) == MembersOf(db, 1) + {u}
    ensures forall v :: IsAdmin(db, 1, v) ==> IsAdmin(AddParticipant(db, 1, u, MEMBER), 1, v)
  {
  }

  lemma AddNext(env: Env)
    ensures Next(env, State(AfterCreate(Signed(env, 11), TEN), TWO_IN), Receive(3, AddMember(1, Code(11)), DICE))
         == State(ElevenDb(env), TWO_IN)
  {
    ResolveEleven(env);
    TenMade(env);
    assert FdIndex(TWO_IN, 3) == 1;
    var db := AfterCreate(Signed(env, 11), TEN);
    Received(env, db, TWO_IN, 3, AddMember(1, Code(11)), DICE);
    DbAfterAdd(env, db, 1, AddMember(1, Code(11)), DICE);
  }

  lemma TwoLoggedIn(env: Env) returns (es: seq<Event>)
    requires CryptLaw(env)
    ensures es == SignUps([] + [Accept(3)] + [Accept(4)], 11) + [LogIn(3, 1)] + [LogIn(4, 2)]
    ensures Leads(env, es, State(Signed(env, 11), TWO_IN))
  {
    var db := Signed(env, 11);
    var half := [Conn(4, 0, "", false), Conn(3, 1, "u", true)];
    LeadsOn(env, [], START, Accept(3), State(EMPTY, ALONE));
    assert [Conn(4, 0, "", false)] + ALONE == TWO;
    LeadsOn(env, [] + [Accept(3)], State(EMPTY, ALONE), Accept(4), State(EMPTY, TWO));
    assert FdIndex(TWO, 3) == 1 && FdIndex(half, 4) == 0;
    AllSigned(env, [] + [Accept(3)] + [Accept(4)], TWO, 11);
    es := SignUps([] + [Accept(3)] + [Accept(4)], 11);
    assert Name(1) == "u" && Name(2) == "uu";
    LoginNext(env, TWO, 3, 1);
    LeadsOn(env, es, State(db, TWO), LogIn(3, 1), State(db, half));
    LoginNext(env, half, 4, 2);
    LeadsOn(env, es + [LogIn(3, 1)], State(db, half), LogIn(4, 2), State(db, TWO_IN));
    es := es + [LogIn(3, 1)] + [LogIn(4, 2)];
  }

  lemma ElevenReached(env: Env)
    requires CryptLaw(env)
    ensures Leads(env, Eleven(), State(ElevenDb(env), TWO_IN))
  {
    var db := Signed(env, 11);
    var es := TwoLoggedIn(env);
    assert FdIndex(TWO_IN, 3) == 1;
    CreateNext(env, db, TWO_IN, TEN);
    LeadsOn(env, es, State(db, TWO_IN), Receive(3, TEN, DICE), State(AfterCreate(db, TEN), TWO_IN));
    AddNext(env);
    LeadsOn(env, es + [Receive(3, TEN, DICE)], State(AfterCreate(db, TEN), TWO_IN),
            Receive(3, AddMember(1, Code(11)), DICE), State(ElevenDb(env), TWO_IN));
  }

  /** The packets `out` are allowed after e, and u's session gets no list by them. */
  ghost predicate Misses(env: Env, s: State, e: Event, u: nat, out: seq<Out>) {
    Online(s.conns, u) && Answers(env, s, e, out) && !GotList(s.conns, Next(env, s, e).db, u, out)
  }

  /**
   * A possible run to a group of eleven members of whom user 1, its admin, and user 2 are
   * online. If the admin then renames the group, the packets allowed include some by which
   * user 2 hears nothing of it.
   */
  lemma RenameCanMiss(env: Env) returns (out: seq<Out>)
    requires CryptLaw(env)
    ensures PossibleRun(env, START, Eleven())
    ensures var s := Run(env, START, Eleven());
            && |MembersOf(s.db, 1)| == 11 && IsAdmin(s.db, 1, 1) && 2 in MembersOf(s.db, 1)
            && Sender(s, Receive(3, RENAME, DICE)) == Some(1)
            && Misses(env, s, Receive(3, RENAME, DICE), 2, out)
  {
    ElevenReached(env);
    StartInv();
    RunKeepsInv(env, START, Eleven());
    ElevenMade(env);
    assert UpTo(11)[1] == 2;
    out := ElevenMisses(env);
  }

  lemma ElevenMisses(env: Env) returns (out: seq<Out>)
    requires SessionsOk(ElevenDb(env), TWO_IN)
    ensures var s := State(ElevenDb(env), TWO_IN);
            Sender(s, Receive(3, RENAME, DICE)) == Some(1) && Misses(env, s, Receive(3, RENAME, DICE), 2, out)
  {
    assert FdIndex(TWO_IN, 3) == 1;
    assert UpTo(11)[1] == 2;
    ElevenMade(env);
    Received(env, ElevenDb(env), TWO_IN, 3, RENAME, DICE);
    out := RenameMisses(env, ElevenDb(env));
  }

  lemma RenameMisses(env: Env, db: Db) returns (out: seq<Out>)
    requires SessionsOk(db, TWO_IN) && IsAdmin(db, 1, 1) && |MembersOf(db, 1)| == 11 && 2 in MembersOf(db, 1)
    ensures Online(TWO_IN, 2) && Emits(env, db, TWO_IN, TWO_IN[1], RENAME, DICE, out)
    ensures !GotList(TWO_IN, DbAfter(env, db, 1, RENAME, DICE), 2, out)
  {
    assert SessionIndex(TWO_IN, 2) == 0;
    SameMembers(db, 1, "h", "");
    out := CommandMissed(env, db, TWO_IN, TWO_IN[1], RENAME, DICE, 1, 2);
  }

  lemma SameMembers(db: Db, c: nat, name: string, desc: string)
    ensures MembersOf(SetGroupInfo(db, c, name, desc), c) == MembersOf(db, c)
  {
  }
}
