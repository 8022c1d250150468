/** src/server/storage.c: the database handle and the functions over it. */
module Storage {
  import opened Bytes
  import opened Envelope
  import opened Protocol
  import opened Tables

  class Store {
    const env: Env
    var db: Db

    ghost predicate Valid()
      reads this
    {
      SchemaOk(db) && AllSealed(env.cipher, db.messages)
    }

    constructor (env: Env)
      ensures Valid() && db == EMPTY && this.env == env
    {
      this.env := env;
      db := EMPTY;
    }

    // ---- users ----

    /** storage_register_user. The friend code and salt are drawn at random. */
    method RegisterUser(email: string, username: string, password: string, code: string, salt: string)
      returns (ok: bool)
      requires Valid()
      modifies this
      ensures Valid()
      ensures db == InsertUser(old(db), email, username, env.crypt(password, salt), code)
      ensures ok <==> !Clash(old(db), email, username, code)
    {
      var hash := env.crypt(password, salt);
      ok := forall u | u in db.users ::
        db.users[u].username != username && db.users[u].email != email && db.users[u].code != code;
      if ok {
        db := db.(users := db.users[db.nextUid := User(username, email, hash, code)], nextUid := db.nextUid + 1);
      }
    }

    /** storage_check_credentials: the user's id, or None. */
    method CheckCredentials(email: string, password: string) returns (r: Option<nat>)
      requires Valid()
      ensures r.Some? ==> ByEmail(db, email) == {r.value} && Accepts(env, db.users[r.value].hash, password)
      ensures r.None? ==> forall u :: u in ByEmail(db, email) ==> !Accepts(env, db.users[u].hash, password)
    {
      r := None;
      var rows := ByEmail(db, email);
      if rows != {} {
        var u :| u in rows;
        assert forall v :: v in rows ==> v == u;
        if env.crypt(password, db.users[u].hash) == db.users[u].hash {
          r := Some(u);
        }
      }
    }

    /** storage_update_user: two independent updates, each skipped for an empty argument. */
    method ChangeUser(uid: nat, newUsername: string, newPassword: string, salt: string)
      requires Valid()
      modifies this
      ensures Valid()
      ensures db == ChangedUser(env, old(db), uid, newUsername, newPassword, salt)
    {
      if |newUsername| > 0 {
        Rename(uid, newUsername);
      }
      if |newPassword| > 0 {
        var hash := env.crypt(newPassword, salt);
        Rehash(uid, hash);
      }
    }

    method Rename(uid: nat, username: string)
      requires Valid()
      modifies this
      ensures Valid() && db == SetUsername(old(db), uid, username)
    {
      var taken := exists v | v in db.users :: v != uid && db.users[v].username == username;
      if uid in db.users && !taken {
        db := db.(users := db.users[uid := db.users[uid].(username := username)]);
      }
    }

    method Rehash(uid: nat, hash: string)
      requires Valid()
      modifies this
      ensures Valid() && db == SetHash(old(db), uid, hash)
    {
      if uid in db.users {
        db := db.(users := db.users[uid := db.users[uid].(hash := hash)]);
      }
    }

    /** storage_get_uid_by_code. */
    method UidByCode(code: string) returns (r: Option<nat>)
      requires Valid()
      ensures r == Resolve(db, code)
    {
      var rows := ByCode(db, code);
      if rows == {} {
        r := None;
      } else {
        var u :| u in rows;
        r := Some(u);
      }
    }

    // ---- contacts ----

    /** storage_add_request: fails on oneself and on a request already there. */
    method InsertRequest(sender: nat, receiver: nat) returns (ok: bool)
      requires Valid()
      modifies this
      ensures Valid()
      ensures db == AddRequest(old(db), sender, receiver)
      ensures ok <==> sender != receiver && (sender, receiver) !in old(db.requests)
    {
      if sender == receiver {
        return false;
      }
      ok := (sender, receiver) !in db.requests;
      if ok {
        db := db.(requests := db.requests + {(sender, receiver)});
      } else {
        assert db.requests + {(sender, receiver)} == db.requests;
      }
    }

    /** storage_remove_request. */
    method DeleteRequest(sender: nat, receiver: nat)
      requires Valid()
      modifies this
      ensures Valid()
      ensures db == RemoveRequest(old(db), sender, receiver)
    {
      db := db.(requests := db.requests - {(sender, receiver)});
    }

    /** storage_add_friendship: the second row may clash, and then neither is kept. */
    method InsertFriendship(a: nat, b: nat)
      requires Valid()
      modifies this
      ensures Valid()
      ensures db == AddFriendship(old(db), a, b)
    {
      var before := db.contacts;
      if (a, b) in db.contacts {
        return;
      }
      db := db.(contacts := db.contacts + {(a, b)});
      if (b, a) in db.contacts {
        db := db.(contacts := before);
        return;
      }
      db := db.(contacts := db.contacts + {(b, a)});
      assert db.contacts == before + {(a, b), (b, a)};
    }

    /** storage_get_contacts_data. */
    method GetContacts(uid: nat, rows: array<ContactSummary>, max: nat) returns (count: nat)
      requires Valid() && rows.Length == max
      modifies rows
      ensures count <= max && IsSelect(rows[..count], ContactRows(db, uid), max)
    {
      count := Fetch(ContactRows(db, uid), rows, max);
    }

    /** storage_get_requests_data. */
    method GetRequestRows(uid: nat, rows: array<ContactSummary>, max: nat) returns (count: nat)
      requires Valid() && rows.Length == max
      modifies rows
      ensures count <= max && IsSelect(rows[..count], RequestRows(db, uid), max)
    {
      count := Fetch(RequestRows(db, uid), rows, max);
    }

    // ---- conversations ----

    /** storage_find_private_conversation: some matching row's id, 0 if there is none. */
    method FindPrivate(a: nat, b: nat) returns (found: nat)
      requires Valid()
      ensures found == 0 <==> Shared(db, a, b) == {}
      ensures found != 0 ==> found in Shared(db, a, b)
    {
      found := 0;
      var rows := Shared(db, a, b);
      if rows != {} {
        var c :| c in rows;
        found := c;
      }
    }

    /** storage_create_conversation: one INSERT per listed uid, a clash leaving the row there. */
    method InsertConversation(ctype: nat, name: string, desc: string, uids: seq<nat>) returns (convId: nat)
      requires Valid()
      modifies this
      ensures Valid()
      ensures db == CreateConversation(old(db), ctype, name, desc, uids)
      ensures convId == old(db.nextConv)
    {
      convId := db.nextConv;
      db := db.(convs := db.convs[convId := Conv(ctype, name, desc)], nextConv := db.nextConv + 1);
      ghost var filed := db;
      for i := 0 to |uids|
        invariant db == filed.(parts := NewRows(convId, ctype, uids[..i]) + old(db.parts))
      {
        NewRowsStep(convId, ctype, uids, i, old(db.parts));
        var role := if i == 0 && ctype == GROUP then ADMIN else MEMBER;
        if (convId, uids[i]) !in db.parts {
          db := db.(parts := db.parts[(convId, uids[i]) := role]);
        }
      }
      assert uids[..|uids|] == uids;
    }

    /** One row of the list: private chats are named after some other participant. */
    method Summarise(uid: nat, c: nat) returns (row: ConversationSummary)
      requires Valid() && c in ConvsOf(db, uid)
      ensures row.convId == c && IsSummary(db, uid, row)
    {
      var conv := db.convs[c];
      row := ConversationSummary(c, conv.ctype, Cut(conv.name, NAME_LEN), Cut(conv.desc, DESC_LEN),
                                 0, db.parts[(c, uid)]);
      if conv.ctype == PRIVATE {
        var others := OtherNames(db, c, uid);
        if others == {} {
          row := row.(name := "Private Chat", desc := "");
        } else {
          var other :| other in others;
          row := row.(name := Cut("Private with " + other, NAME_LEN - 1), desc := "");
        }
      }
    }

    /** storage_get_user_conversations: an outer cursor and, for private chats, an inner query. */
    method GetUserConversations(uid: nat, rows: array<ConversationSummary>, max: nat) returns (count: nat)
      requires Valid() && rows.Length == max == LIST_CAP
      modifies rows
      ensures count <= max && IsConvList(db, uid, rows[..count])
    {
      var pending := ConvsOf(db, uid);
      ghost var table := pending;
      count := 0;
      while pending != {} && count < max
        invariant count <= max && count + |pending| == |table| && pending <= table
        invariant forall i :: 0 <= i < count ==> IsSummary(db, uid, rows[i]) && rows[i].convId !in pending
        invariant forall i, j :: 0 <= i < j < count ==> rows[i].convId != rows[j].convId
        decreases |pending|
      {
        var c :| c in pending;
        var row := Summarise(uid, c);
        rows[count] := row;
        count := count + 1;
        pending := pending - {c};
      }
      assert forall i :: 0 <= i < count ==> ConvIds(rows[..count])[i] == rows[i].convId && rows[i].convId in table;
    }

    /** storage_get_conv_participants. */
    method GetConvParticipants(c: nat, uids: array<nat>, max: nat) returns (count: nat)
      requires Valid() && uids.Length == max
      modifies uids
      ensures count <= max && IsSelect(uids[..count], MembersOf(db, c), max)
    {
      count := Fetch(MembersOf(db, c), uids, max);
    }

    /** storage_get_group_members. */
    method GetGroupMembers(c: nat, rows: array<MemberSummary>, max: nat) returns (count: nat)
      requires Valid() && rows.Length == max
      modifies rows
      ensures count <= max && IsSelect(rows[..count], MemberRows(db, c), max)
    {
      count := Fetch(MemberRows(db, c), rows, max);
    }

    /** storage_is_admin. */
    method HasAdmin(c: nat, uid: nat) returns (r: bool)
      requires Valid()
      ensures r <==> IsAdmin(db, c, uid)
    {
      var role := 0;
      if (c, uid) in db.parts {
        role := db.parts[(c, uid)];
      }
      r := role == ADMIN;
    }

    /** storage_update_group. */
    method UpdateGroup(c: nat, name: string, desc: string)
      requires Valid()
      modifies this
      ensures Valid()
      ensures db == SetGroupInfo(old(db), c, name, desc)
    {
      if c in db.convs {
        db := db.(convs := db.convs[c := db.convs[c].(name := name, desc := desc)]);
      }
    }

    /** storage_add_participant: INSERT OR IGNORE reports success in either case. */
    method InsertParticipant(c: nat, uid: nat, role: nat) returns (ok: bool)
      requires Valid()
      modifies this
      ensures Valid()
      ensures db == AddParticipant(old(db), c, uid, role)
      ensures ok
    {
      if (c, uid) !in db.parts {
        db := db.(parts := db.parts[(c, uid) := role]);
      }
      ok := true;
    }

    /** storage_remove_participant. */
    method DeleteParticipant(c: nat, uid: nat)
      requires Valid()
      modifies this
      ensures Valid()
      ensures db == RemoveParticipant(old(db), c, uid)
    {
      db := db.(parts := db.parts - {(c, uid)});
    }

    /** storage_delete_conversation: three DELETE statements in turn. */
    method DropConversation(c: nat)
      requires Valid()
      modifies this
      ensures Valid()
      ensures db == DeleteConversation(old(db), c)
    {
      DeleteKeepsSchema(db, c);
      SealedWithout(env.cipher, db.messages, c);
      db := db.(messages := Without(db.messages, c));
      db := db.(parts := map k | k in db.parts && k.0 != c :: db.parts[k]);
      db := db.(convs := db.convs - {c});
    }

    /** storage_get_history; the string ends where strlen says. */
    method GetHistory(c: nat) returns (buf: array<byte>, rows: seq<Message>)
      requires Valid()
      ensures fresh(buf) && IsHistory(db, c, rows) && FromUsers(db, rows)
      ensures CStr(buf[..]) == FirstLine(env, db, rows) && |FirstLine(env, db, rows)| < buf.Length
    {
      var pending := HistoryRows(db, c);
      var mem: array?<byte> := null;
      var len := 0;
      rows := [];
      while pending != {} && |rows| < HISTORY_CAP
        invariant |rows| <= HISTORY_CAP
        invariant Oldest(HistoryRows(db, c), pending, rows)
        invariant FromUsers(db, rows)
        invariant mem != null ==> fresh(mem)
        invariant Grown(mem, len, rows)
        decreases |pending|
      {
        var m := StepOldest(pending, HistoryRows(db, c), rows);
        mem, len := WriteRow(mem, len, rows, m);
        rows, pending := rows + [m], pending - {m};
      }
      OldestIsHistory(db, c, pending, rows);
      if mem == null {
        buf := Duplicate([]);
        HoldsCStr(buf[..], []);
      } else {
        buf := mem;
        SeenFirst(c, rows, buf[..], len);
      }
    }

    /** The history buffer holds the lines of rows; there is none before the first. */
    ghost predicate Grown(mem: array?<byte>, len: nat, rows: seq<Message>)
      reads this, mem
      requires FromUsers(db, rows)
    {
      if mem == null then rows == [] && len == 0
      else rows != [] && len < mem.Length && mem[..len] == Written(env, db, rows)
    }

    method WriteRow(mem: array?<byte>, len: nat, ghost rows: seq<Message>, m: Message)
      returns (bigger: array<byte>, longer: nat)
      requires Valid() && m in db.messages && m.sender in db.users && FromUsers(db, rows) && Grown(mem, len, rows)
      ensures fresh(bigger) && FromUsers(db, rows + [m]) && Grown(bigger, longer, rows + [m])
    {
      var line := FormatLine(m);
      bigger, longer := AppendLine(mem, len, line);
      WrittenMore(env, db, rows, m);
    }

    lemma SeenFirst(c: nat, rows: seq<Message>, mem: seq<byte>, len: nat)
      requires Valid() && IsHistory(db, c, rows) && FromUsers(db, rows) && rows != []
      requires len <= |mem| && mem[..len] == Written(env, db, rows)
      ensures CStr(mem) == FirstLine(env, db, rows) && |FirstLine(env, db, rows)| < |mem|
    {
      assert rows[0] in HistoryRows(db, c);
      WrittenFirst(env, db, rows);
      FirstLineSeen(env, db, rows, mem);
    }

    /** One message as a line, its sender being a user. */
    method FormatLine(m: Message) returns (line: seq<byte>)
      requires Valid() && m in db.messages && m.sender in db.users
      ensures line == HistoryLine(env, db, m)
    {
      var text := DecryptRow(env, m);
      line := Header(env, m.stamp, db.users[m.sender].username) + text + [LINE_END];
    }

    /** storage_log_message: the text column holds the envelope, never the text. */
    method AppendMessage(c: nat, sender: nat, text: Text, iv: Block, now: int)
      requires Valid()
      modifies this
      ensures Valid()
      ensures db == LogMessage(old(db), c, sender, Seal(env.cipher, iv, text), now)
    {
      var hex := CryptoEncrypt(Some(env.cipher), iv, text);
      if hex == null {
        return;
      }
      var row := Message(db.nextMsg, c, sender, hex[..hex.Length - 1], now);
      db := db.(messages := db.messages + [row], nextMsg := db.nextMsg + 1);
    }
  }

  /** What the oldest-first cursor has given out (rows) and has still to give (pending). */
  ghost predicate Oldest(table: set<Message>, pending: set<Message>, rows: seq<Message>) {
    && |rows| + |pending| == |table| && pending <= table && NoRepeats(rows)
    && (forall i :: 0 <= i < |rows| ==> rows[i] in table && rows[i] !in pending)
    && (forall m :: m in table ==> m in rows || m in pending)
    && (forall i, j :: 0 <= i < j < |rows| ==> rows[i].stamp <= rows[j].stamp)
    && (forall i, m :: 0 <= i < |rows| && m in pending ==> rows[i].stamp <= m.stamp)
  }

  lemma OldestStep(table: set<Message>, pending: set<Message>, rows: seq<Message>, m: Message)
    requires Oldest(table, pending, rows) && m in pending && forall o :: o in pending ==> m.stamp <= o.stamp
    ensures Oldest(table, pending - {m}, rows + [m])
  {
    assert forall o :: o in rows + [m] <==> o in rows || o == m;
  }

  lemma OldestIsHistory(db: Db, c: nat, pending: set<Message>, rows: seq<Message>)
    requires Oldest(HistoryRows(db, c), pending, rows)
    requires |rows| <= HISTORY_CAP && (pending == {} || |rows| == HISTORY_CAP)
    ensures IsHistory(db, c, rows)
  {
  }

  lemma Earliest(ms: set<Message>)
    requires ms != {}
    ensures exists m :: m in ms && forall o :: o in ms ==> m.stamp <= o.stamp
  {
    var x :| x in ms;
    if ms == {x} {
      assert forall o :: o in ms ==> x.stamp <= o.stamp;
    } else {
      Earliest(ms - {x});
      var y :| y in ms - {x} && forall o :: o in ms - {x} ==> y.stamp <= o.stamp;
      var m := if x.stamp <= y.stamp then x else y;
      assert forall o :: o in ms ==> o == x || o in ms - {x};
      assert m in ms && forall o :: o in ms ==> m.stamp <= o.stamp;
    }
  }

  /** sqlite3_step on the ordered query. */
  method StepOldest(pending: set<Message>, ghost table: set<Message>, ghost rows: seq<Message>) returns (m: Message)
    requires pending != {} && Oldest(table, pending, rows)
    ensures m in pending && m in table && Oldest(table, pending - {m}, rows + [m])
  {
    Earliest(pending);
    m :| m in pending && forall o :: o in pending ==> m.stamp <= o.stamp;
    OldestStep(table, pending, rows, m);
  }

  /** The history buffer after some rows: every line with a NUL that the next one starts behind. */
  function Written(env: Env, db: Db, rows: seq<Message>): (r: seq<byte>)
    requires FromUsers(db, rows)
  {
    if rows == [] then []
    else Written(env, db, rows[..|rows| - 1]) + HistoryLine(env, db, rows[|rows| - 1]) + [0]
  }

  lemma WrittenMore(env: Env, db: Db, rows: seq<Message>, m: Message)
    requires FromUsers(db, rows) && m.sender in db.users
    ensures FromUsers(db, rows + [m])
    ensures Written(env, db, rows + [m]) == Written(env, db, rows) + HistoryLine(env, db, m) + [0]
  {
    assert (rows + [m])[..|rows|] == rows;
  }

  lemma {:induction false} WrittenFirst(env: Env, db: Db, rows: seq<Message>)
    requires FromUsers(db, rows) && rows != []
    ensures HistoryLine(env, db, rows[0]) + [0] <= Written(env, db, rows)
  {
    if |rows| == 1 {
      assert Written(env, db, rows[..0]) == [];
      assert [] + HistoryLine(env, db, rows[0]) == HistoryLine(env, db, rows[0]);
    } else {
      WrittenFirst(env, db, rows[..|rows| - 1]);
    }
  }

  /** strlen stops at the NUL of the first line. */
  lemma FirstLineSeen(env: Env, db: Db, rows: seq<Message>, mem: seq<byte>)
    requires FromUsers(db, rows) && rows != [] && Sealed(env.cipher, rows[0].text)
    requires Written(env, db, rows) <= mem
    ensures CStr(mem) == HistoryLine(env, db, rows[0])
  {
    var line := HistoryLine(env, db, rows[0]);
    WrittenFirst(env, db, rows);
    SealedPlain(env, rows[0]);
    assert line + [0] <= mem;
    assert mem[..|line|] == (line + [0])[..|line|] == line && mem[|line|] == (line + [0])[|line|];
    CStrUntil(mem, |line|);
  }

  lemma SealedPlain(env: Env, m: Message)
    requires Sealed(env.cipher, m.text)
    ensures 0 !in PlainOf(env, m)
  {
    var iv: Block, text: Text :| m.text == Seal(env.cipher, iv, text);
    SealOpens(env.cipher, iv, text);
  }

  /** crypto_decrypt on a stored row. */
  method DecryptRow(env: Env, m: Message) returns (text: seq<byte>)
    requires Sealed(env.cipher, m.text)
    ensures text == PlainOf(env, m)
  {
    SealedLength(env.cipher, m.text);
    var r := CryptoDecrypt(Some(env.cipher), m.text);
    ghost var ivWas: Block, was: seq<byte> :|
      |was| == (|m.text| - 32) / 2 && r == Shown(OpenWith(env.cipher, m.text, ivWas, was));
    RowShown(env, m, ivWas, was);
    text := r.value;
  }

  lemma SealedLength(c: Cipher, h: seq<byte>)
    requires Sealed(c, h)
    ensures 32 <= |h| <= INT_MAX && 0 !in h
  {
    var iv: Block, text: Text :| h == Seal(c, iv, text);
  }

  lemma RowShown(env: Env, m: Message, ivWas: Block, was: seq<byte>)
    requires Sealed(env.cipher, m.text) && 32 <= |m.text| && |was| == (|m.text| - 32) / 2
    ensures Shown(OpenWith(env.cipher, m.text, ivWas, was)) == Some(PlainOf(env, m))
  {
    var iv: Block, text: Text :| m.text == Seal(env.cipher, iv, text);
    ShownSealed(env.cipher, iv, text, ivWas, was);
    SealOpens(env.cipher, iv, text);
  }

  /** realloc and sprintf: the line and its NUL go behind the first len octets. */
  method AppendLine(mem: array?<byte>, len: nat, line: seq<byte>) returns (bigger: array<byte>, longer: nat)
    requires if mem == null then len == 0 else len < mem.Length
    ensures fresh(bigger) && longer == len + |line| + 1 < bigger.Length
    ensures bigger[..longer] == (if mem == null then [] else mem[..len]) + line + [0]
  {
    longer := len + |line| + 1;
    if mem == null {
      bigger := new byte[longer + 1];
    } else {
      bigger := Reallocate(mem, longer + 1, len);
      assert bigger[..len] == bigger[..len + 1][..len] == mem[..len];
    }
    ghost var head := bigger[..len];
    Copy(bigger, len, line + [0]);
    assert bigger[..longer] == head + (line + [0]);
  }

  /** The cursor loop shared by the query functions: step while there is a row and room. */
  method Fetch<T(==)>(table: set<T>, rows: array<T>, max: nat) returns (count: nat)
    requires rows.Length == max
    modifies rows
    ensures count <= max && IsSelect(rows[..count], table, max)
  {
    var pending := table;
    count := 0;
    while pending != {} && count < max
      invariant count <= max && count + |pending| == |table| && pending <= table
      invariant forall i :: 0 <= i < count ==> rows[i] in table && rows[i] !in pending
      invariant forall i, j :: 0 <= i < j < count ==> rows[i] != rows[j]
      decreases |pending|
    {
      var row :| row in pending;
      rows[count] := row;
      count := count + 1;
      pending := pending - {row};
    }
  }
}
