/**
 * The six tables of src/server/storage.c as one value, what each SQL statement does to
 * them, and what each SELECT may return.
 */
module Tables {
  import opened Bytes
  import opened Envelope
  import opened Protocol

  datatype User = User(username: string, email: string, hash: string, code: string)
  datatype Conv = Conv(ctype: nat, name: string, desc: string)
  datatype Message = Message(id: nat, conv: nat, sender: nat, text: seq<byte>, stamp: int)

  /**
   * users and conversations are keyed by their AUTOINCREMENT ids, participants by
   * (conv_id, user_id); messages are listed in id order.
   */
  datatype Db = Db(
    users: map<nat, User>, nextUid: nat,
    contacts: set<(nat, nat)>,
    requests: set<(nat, nat)>,
    convs: map<nat, Conv>, nextConv: nat,
    parts: map<(nat, nat), nat>,
    messages: seq<Message>, nextMsg: nat)

  /**
   * Library functions the server calls, left abstract: AES under its key, crypt(3), and the
   * start "[HH:MM] name: " of a history line, which depends on the time zone.
   */
  datatype Env =
    Env(cipher: BlockCipher, crypt: (string, string) -> string, header: (int, string) -> seq<byte>)

  const EMPTY := Db(map[], 1, {}, {}, map[], 1, map[], [], 1)

  ghost predicate NoRepeats<T>(s: seq<T>) {
    forall i, j :: 0 <= i < j < |s| ==> s[i] != s[j]
  }

  ghost predicate IdOrder(ms: seq<Message>) {
    forall i, j :: 0 <= i < j < |ms| ==> ms[i].id < ms[j].id
  }

  ghost predicate UsersOk(users: map<nat, User>, nextUid: nat) {
    && nextUid > 0
    && (forall u :: u in users ==> 0 < u < nextUid)
    && (forall u, v :: u in users && v in users && u != v ==>
          && users[u].username != users[v].username
          && users[u].email != users[v].email
          && users[u].code != users[v].code)
  }

  ghost predicate ConvIdsOk(convs: map<nat, Conv>, nextConv: nat) {
    nextConv > 0 && forall c :: c in convs ==> 0 < c < nextConv
  }

  ghost predicate MessagesOk(ms: seq<Message>, nextMsg: nat) {
    nextMsg > 0 && (forall i :: 0 <= i < |ms| ==> 0 < ms[i].id < nextMsg) && IdOrder(ms)
  }

  /** What the schema itself enforces: UNIQUE columns and ids below the AUTOINCREMENT counters. */
  ghost predicate SchemaOk(db: Db) {
    && UsersOk(db.users, db.nextUid)
    && ConvIdsOk(db.convs, db.nextConv)
    && MessagesOk(db.messages, db.nextMsg)
  }

  /** Some text's envelope. */
  ghost predicate Sealed(c: Cipher, h: seq<byte>) {
    exists iv: Block, text: Text :: h == Seal(c, iv, text)
  }

  ghost predicate AllSealed(c: Cipher, ms: seq<Message>) {
    forall i :: 0 <= i < |ms| ==> Sealed(c, ms[i].text)
  }

  // ---- queries ----

  function ByEmail(db: Db, email: string): (r: set<nat>) {
    set u | u in db.users && db.users[u].email == email
  }

  function ByCode(db: Db, code: string): (r: set<nat>) {
    set u | u in db.users && db.users[u].code == code
  }

  function MembersOf(db: Db, c: nat): (r: set<nat>)
    ensures forall u :: u in r <==> (c, u) in db.parts
  {
    set k | k in db.parts && k.0 == c :: k.1
  }

  function ConvsOf(db: Db, u: nat): (r: set<nat>)
    ensures forall c :: c in r <==> (c, u) in db.parts && c in db.convs
  {
    set k | k in db.parts && k.1 == u && k.0 in db.convs :: k.0
  }

  predicate AdminRow(parts: map<(nat, nat), nat>, c: nat, u: nat) {
    (c, u) in parts && parts[(c, u)] == ADMIN
  }

  predicate IsAdmin(db: Db, c: nat, u: nat) {
    AdminRow(db.parts, c, u)
  }

  /** Private conversations that a and b both take part in. */
  function Shared(db: Db, a: nat, b: nat): (r: set<nat>) {
    set c | c in db.convs && db.convs[c].ctype == PRIVATE && (c, a) in db.parts && (c, b) in db.parts
  }

  function ContactRows(db: Db, u: nat): (r: set<ContactSummary>) {
    set k | k in db.contacts && k.0 == u && k.1 in db.users ::
      ContactSummary(k.1, Cut(db.users[k.1].username, NAME_LEN), 0)
  }

  function RequestRows(db: Db, u: nat): (r: set<ContactSummary>) {
    set k | k in db.requests && k.1 == u && k.0 in db.users ::
      ContactSummary(k.0, Cut(db.users[k.0].username, NAME_LEN), 0)
  }

  function MemberRows(db: Db, c: nat): (r: set<MemberSummary>) {
    set k | k in db.parts && k.0 == c && k.1 in db.users ::
      MemberSummary(k.1, Cut(db.users[k.1].username, NAME_LEN), db.parts[k])
  }

  /** Names of the participants other than u; a private chat is shown under one of them. */
  function OtherNames(db: Db, c: nat, u: nat): (r: set<string>) {
    set k | k in db.parts && k.0 == c && k.1 != u && k.1 in db.users :: db.users[k.1].username
  }

  /** A row of u's conversation list for c. */
  ghost predicate IsSummary(db: Db, u: nat, row: ConversationSummary) {
    && row.convId in ConvsOf(db, u)
    && var conv := db.convs[row.convId];
    && row.ctype == conv.ctype
    && row.myRole == db.parts[(row.convId, u)]
    && row.unread == 0
    && if conv.ctype == PRIVATE then
         && row.desc == ""
         && var others := OtherNames(db, row.convId, u);
         if others == {} then row.name == "Private Chat"
         else exists n :: n in others && row.name == Cut("Private with " + n, NAME_LEN - 1)
       else row.name == Cut(conv.name, NAME_LEN) && row.desc == Cut(conv.desc, DESC_LEN)
  }

  /**
   * A SELECT without ORDER BY read into an array of max rows: some duplicate-free
   * enumeration of the result, cut at max.
   */
  ghost predicate IsSelect<T>(rows: seq<T>, table: set<T>, max: nat) {
    && |rows| == (if |table| <= max then |table| else max)
    && (forall i :: 0 <= i < |rows| ==> rows[i] in table)
    && NoRepeats(rows)
  }

  /** The join of storage_get_history: messages of c whose sender is a user. */
  function HistoryRows(db: Db, c: nat): (r: set<Message>) {
    set m | m in db.messages && m.conv == c && m.sender in db.users
  }

  /** ORDER BY timestamp ASC LIMIT 50: the oldest rows, equal stamps in any order. */
  ghost predicate IsHistory(db: Db, c: nat, rows: seq<Message>) {
    && IsSelect(rows, HistoryRows(db, c), HISTORY_CAP)
    && (forall i, j :: 0 <= i < j < |rows| ==> rows[i].stamp <= rows[j].stamp)
    && (forall i, m :: 0 <= i < |rows| && m in HistoryRows(db, c) && m !in rows ==> rows[i].stamp <= m.stamp)
  }

  ghost predicate FromUsers(db: Db, rows: seq<Message>) {
    forall i :: 0 <= i < |rows| ==> rows[i].sender in db.users
  }

  function PlainOf(env: Env, m: Message): seq<byte> {
    match Open(env.cipher, m.text)
    case Plain(p) => p
    case _ => []
  }

  /** snprintf of the header into an array of 64 characters. */
  function Header(env: Env, stamp: int, username: string): (r: seq<byte>) {
    Cut(CStr(env.header(stamp, username)), 63)
  }

  function HistoryLine(env: Env, db: Db, m: Message): (r: seq<byte>)
    requires m.sender in db.users
    ensures r != []
  {
    Header(env, m.stamp, db.users[m.sender].username) + PlainOf(env, m) + [LINE_END]
  }

  /** What the history string is up to its first NUL. */
  function FirstLine(env: Env, db: Db, rows: seq<Message>): (r: seq<byte>)
    requires FromUsers(db, rows)
  {
    if rows == [] then [] else HistoryLine(env, db, rows[0])
  }

  function ConvIds(rows: seq<ConversationSummary>): (r: seq<nat>)
    ensures |r| == |rows|
  {
    seq(|rows|, i requires 0 <= i < |rows| => rows[i].convId)
  }

  ghost predicate IsConvList(db: Db, u: nat, rows: seq<ConversationSummary>) {
    && IsSelect(ConvIds(rows), ConvsOf(db, u), LIST_CAP)
    && forall i :: 0 <= i < |rows| ==> IsSummary(db, u, rows[i])
  }

  // ---- statements ----

  /** Some row already holds one of the UNIQUE values. */
  predicate Clash(db: Db, email: string, username: string, code: string) {
    exists u :: u in db.users &&
                (db.users[u].username == username || db.users[u].email == email || db.users[u].code == code)
  }

  function InsertUser(db: Db, email: string, username: string, hash: string, code: string): Db {
    if Clash(db, email, username, code) then db
    else db.(users := db.users[db.nextUid := User(username, email, hash, code)], nextUid := db.nextUid + 1)
  }

  predicate NameTaken(db: Db, u: nat, username: string) {
    exists v :: v in db.users && v != u && db.users[v].username == username
  }

  /** UPDATE of a UNIQUE column: refused when another row holds the value. */
  function SetUsername(db: Db, u: nat, username: string): Db {
    if u !in db.users || NameTaken(db, u, username) then db
    else db.(users := db.users[u := db.users[u].(username := username)])
  }

  function SetHash(db: Db, u: nat, hash: string): Db {
    if u !in db.users then db else db.(users := db.users[u := db.users[u].(hash := hash)])
  }

  function AddRequest(db: Db, sender: nat, receiver: nat): Db {
    if sender == receiver then db else db.(requests := db.requests + {(sender, receiver)})
  }

  function RemoveRequest(db: Db, sender: nat, receiver: nat): Db {
    db.(requests := db.requests - {(sender, receiver)})
  }

  /** One INSERT of two rows: all or nothing, and the rows clash with each other if a == b. */
  function AddFriendship(db: Db, a: nat, b: nat): Db {
    if a == b || (a, b) in db.contacts || (b, a) in db.contacts then db
    else db.(contacts := db.contacts + {(a, b), (b, a)})
  }

  /** Participant rows of a fresh conversation: the first listed uid of a group is its admin. */
  function NewRows(c: nat, ctype: nat, uids: seq<nat>): (r: map<(nat, nat), nat>)
    ensures forall k :: k in r <==> k.0 == c && k.1 in uids
  {
    map u | u in uids :: (c, u) := if ctype == GROUP && u == uids[0] then ADMIN else MEMBER
  }

  /** Inserting the rows one by one, with clashes ignored, builds NewRows. */
  lemma NewRowsStep(c: nat, ctype: nat, uids: seq<nat>, i: nat, was: map<(nat, nat), nat>)
    requires i < |uids|
    ensures var before := NewRows(c, ctype, uids[..i]) + was;
            var role := if i == 0 && ctype == GROUP then ADMIN else MEMBER;
            NewRows(c, ctype, uids[..i + 1]) + was
            == if (c, uids[i]) in before then before else before[(c, uids[i]) := role]
  {
    assert uids[..i + 1] == uids[..i] + [uids[i]];
    if i > 0 {
      assert uids[..i][0] == uids[0] && uids[..i + 1][0] == uids[0];
      assert uids[0] in uids[..i];
    }
  }

  function CreateConversation(db: Db, ctype: nat, name: string, desc: string, uids: seq<nat>): Db {
    db.(convs := db.convs[db.nextConv := Conv(ctype, name, desc)],
        nextConv := db.nextConv + 1,
        parts := NewRows(db.nextConv, ctype, uids) + db.parts)
  }

  function SetGroupInfo(db: Db, c: nat, name: string, desc: string): Db {
    if c !in db.convs then db
    else db.(convs := db.convs[c := db.convs[c].(name := name, desc := desc)])
  }

  /** INSERT OR IGNORE keeps an existing row. */
  function AddParticipant(db: Db, c: nat, u: nat, role: nat): Db {
    if (c, u) in db.parts then db else db.(parts := db.parts[(c, u) := role])
  }

  function RemoveParticipant(db: Db, c: nat, u: nat): Db {
    db.(parts := db.parts - {(c, u)})
  }

  /** The password check: crypt with the stored hash as salt gives the hash back. */
  predicate Accepts(env: Env, hash: string, password: string) {
    env.crypt(password, hash) == hash
  }

  /** The user a friend code belongs to. */
  ghost function Resolve(db: Db, code: string): (r: Option<nat>)
    ensures r.None? <==> ByCode(db, code) == {}
    ensures r.Some? ==> r.value in ByCode(db, code)
  {
    if ByCode(db, code) == {} then None else
      var u :| u in ByCode(db, code);
      Some(u)
  }

  function ChangedUser(env: Env, db: Db, uid: nat, newUsername: string, newPassword: string, salt: string): Db {
    var renamed := if |newUsername| > 0 then SetUsername(db, uid, newUsername) else db;
    if |newPassword| > 0 then SetHash(renamed, uid, env.crypt(newPassword, salt)) else renamed
  }

  function Without(ms: seq<Message>, c: nat): (r: seq<Message>) {
    if ms == [] then []
    else
      var init := Without(ms[..|ms| - 1], c);
      if ms[|ms| - 1].conv == c then init else init + [ms[|ms| - 1]]
  }

  function DeleteConversation(db: Db, c: nat): Db {
    db.(messages := Without(db.messages, c),
        parts := map k | k in db.parts && k.0 != c :: db.parts[k],
        convs := db.convs - {c})
  }

  lemma SealedWithout(cipher: Cipher, ms: seq<Message>, c: nat)
    requires AllSealed(cipher, ms)
    ensures AllSealed(cipher, Without(ms, c))
  {
    WithoutMembers(ms, c);
    forall i | 0 <= i < |Without(ms, c)| ensures Sealed(cipher, Without(ms, c)[i].text) {
      assert Without(ms, c)[i] in ms;
    }
  }

  function LogMessage(db: Db, c: nat, sender: nat, hex: seq<byte>, stamp: int): Db {
    db.(messages := db.messages + [Message(db.nextMsg, c, sender, hex, stamp)], nextMsg := db.nextMsg + 1)
  }

  lemma {:induction false} WithoutMembers(ms: seq<Message>, c: nat)
    ensures forall m :: m in Without(ms, c) <==> m in ms && m.conv != c
  {
    if ms != [] {
      WithoutMembers(ms[..|ms| - 1], c);
      assert ms == ms[..|ms| - 1] + [ms[|ms| - 1]];
    }
  }

  lemma IdOrderSnoc(ms: seq<Message>, kept: seq<Message>)
    requires ms != [] && IdOrder(ms) && IdOrder(kept)
    requires forall m :: m in kept ==> m in ms[..|ms| - 1]
    ensures IdOrder(kept + [ms[|ms| - 1]])
  {
    forall i | 0 <= i < |kept| ensures kept[i].id < ms[|ms| - 1].id {
      assert kept[i] in kept;
      var k :| 0 <= k < |ms| - 1 && ms[..|ms| - 1][k] == kept[i];
      assert ms[k] == kept[i];
    }
  }

  lemma {:induction false} WithoutSorted(ms: seq<Message>, c: nat)
    requires IdOrder(ms)
    ensures IdOrder(Without(ms, c))
  {
    if ms != [] {
      var init := ms[..|ms| - 1];
      WithoutSorted(init, c);
      WithoutMembers(init, c);
      IdOrderSnoc(ms, Without(init, c));
    }
  }

  lemma DeleteKeepsSchema(db: Db, c: nat)
    requires SchemaOk(db)
    ensures SchemaOk(DeleteConversation(db, c))
  {
    WithoutSorted(db.messages, c);
    WithoutMembers(db.messages, c);
    var kept := Without(db.messages, c);
    forall i | 0 <= i < |kept| ensures 0 < kept[i].id < db.nextMsg {
      assert kept[i] in db.messages;
    }
  }
}
