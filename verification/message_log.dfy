/** The encrypted messages table refines a plain log of who said what. */
module MessageLog {
  import opened Bytes
  import opened Envelope
  import opened Protocol
  import opened Tables
  import opened Machine
  import opened Invariant
  import opened Groups

  datatype Said = Said(sender: nat, text: Text)

  /** The rows of conversation c, in id order. */
  function RowsOf(ms: seq<Message>, c: nat): (r: seq<Message>) {
    if ms == [] then []
    else
      var init := RowsOf(ms[..|ms| - 1], c);
      if ms[|ms| - 1].conv == c then init + [ms[|ms| - 1]] else init
  }

  /** One event's effect on what has been said in c. */
  function LogAfter(mid: State, e: Event, c: nat, before: seq<Said>): (log: seq<Said>) {
    var who := Sender(mid, e);
    if who.None? then before
    else if e.req.SendText? && e.req.textConv == c then before + [Said(who.value, e.req.text)]
    else if e.req.DeleteGroup? && e.req.deletedConv == c && IsAdmin(mid.db, c, who.value) then []
    else before
  }

  /** The text requests to c that reached a handler since its admin last deleted it. */
  ghost function PlainLog(env: Env, s: State, es: seq<Event>, c: nat): (log: seq<Said>) {
    if es == [] then []
    else LogAfter(Run(env, s, es[..|es| - 1]), es[|es| - 1], c, PlainLog(env, s, es[..|es| - 1], c))
  }

  /** Row by row: the sender as logged, and the text column decrypting to the text. */
  ghost predicate Decrypts(env: Env, rows: seq<Message>, log: seq<Said>) {
    && |rows| == |log|
    && forall i :: 0 <= i < |rows| ==>
         && rows[i].sender == log[i].sender
         && Open(env.cipher, rows[i].text) == Plain(log[i].text)
  }

  lemma {:induction false} RowsWithout(ms: seq<Message>, d: nat, c: nat)
    ensures RowsOf(Without(ms, d), c) == if c == d then [] else RowsOf(ms, c)
  {
    if ms != [] {
      var init := Without(ms[..|ms| - 1], d);
      RowsWithout(ms[..|ms| - 1], d, c);
      if ms[|ms| - 1].conv != d {
        assert (init + [ms[|ms| - 1]])[..|init|] == init;
      }
    }
  }

  lemma RowsAppend(ms: seq<Message>, m: Message, c: nat)
    ensures RowsOf(ms + [m], c) == if m.conv == c then RowsOf(ms, c) + [m] else RowsOf(ms, c)
  {
    assert (ms + [m])[..|ms|] == ms;
  }

  function DbMessages(env: Env, db: Db, uid: nat, req: Request, dice: Dice): seq<Message> {
    var ms := db.messages;
    if req.SendText? then ms + [Message(db.nextMsg, req.textConv, uid, Seal(env.cipher, dice.iv, req.text), dice.now)]
    else if req.DeleteGroup? && IsAdmin(db, req.deletedConv, uid) then Without(ms, req.deletedConv)
    else ms
  }

  function MessagesAfter(env: Env, s: State, e: Event): seq<Message> {
    var who := Sender(s, e);
    if who.None? then s.db.messages else DbMessages(env, s.db, who.value, e.req, e.dice)
  }

  lemma ConvMessages(env: Env, db: Db, uid: nat, req: Request, dice: Dice)
    requires AboutConvs(req)
    ensures DbAfter(env, db, uid, req, dice).messages == DbMessages(env, db, uid, req, dice)
  {
  }

  lemma OtherMessages(env: Env, db: Db, uid: nat, req: Request, dice: Dice)
    requires !AboutConvs(req)
    ensures DbAfter(env, db, uid, req, dice).messages == DbMessages(env, db, uid, req, dice)
  {
  }

  /** Only text and delete requests reach the messages table. */
  lemma NextMessages(env: Env, s: State, e: Event)
    ensures Next(env, s, e).db.messages == MessagesAfter(env, s, e)
  {
    var who := Sender(s, e);
    if who.Some? {
      if AboutConvs(e.req) {
        ConvMessages(env, s.db, who.value, e.req, e.dice);
      } else {
        OtherMessages(env, s.db, who.value, e.req, e.dice);
      }
    }
  }

  lemma DecryptsAppend(env: Env, ms: seq<Message>, m: Message, text: Text, c: nat, before: seq<Said>)
    requires Decrypts(env, RowsOf(ms, c), before) && Open(env.cipher, m.text) == Plain(text)
    ensures Decrypts(env, RowsOf(ms + [m], c), if m.conv == c then before + [Said(m.sender, text)] else before)
  {
    RowsAppend(ms, m, c);
  }

  lemma LogStep(env: Env, s: State, e: Event, c: nat, before: seq<Said>)
    requires Decrypts(env, RowsOf(s.db.messages, c), before)
    ensures Decrypts(env, RowsOf(MessagesAfter(env, s, e), c), LogAfter(s, e, c, before))
  {
    var who := Sender(s, e);
    if who.Some? {
      if e.req.SendText? {
        var hex := Seal(env.cipher, e.dice.iv, e.req.text);
        SealOpens(env.cipher, e.dice.iv, e.req.text);
        DecryptsAppend(env, s.db.messages, Message(s.db.nextMsg, e.req.textConv, who.value, hex, e.dice.now),
                       e.req.text, c, before);
      } else if e.req.DeleteGroup? {
        RowsWithout(s.db.messages, e.req.deletedConv, c);
      }
    }
  }

  /**
   * After every run and for every id c, the rows of c in id order decrypt to exactly what was
   * sent to c since it was last deleted.
   */
  lemma {:induction false} TableRefinesLog(env: Env, es: seq<Event>, c: nat)
    ensures Decrypts(env, RowsOf(Run(env, START, es).db.messages, c), PlainLog(env, START, es, c))
  {
    if es != [] {
      var n := |es| - 1;
      TableRefinesLog(env, es[..n], c);
      NextMessages(env, Run(env, START, es[..n]), es[n]);
      LogStep(env, Run(env, START, es[..n]), es[n], c, PlainLog(env, START, es[..n], c));
    }
  }

  /** The rows the theorem speaks of are all the rows of c, in increasing id order. */
  lemma {:induction false} RowsComplete(ms: seq<Message>, c: nat)
    requires IdOrder(ms)
    ensures IdOrder(RowsOf(ms, c))
    ensures forall m :: m in RowsOf(ms, c) <==> m in ms && m.conv == c
  {
    if ms != [] {
      var init := ms[..|ms| - 1];
      RowsComplete(init, c);
      IdOrderSnoc(ms, RowsOf(init, c));
      assert ms == init + [ms[|ms| - 1]];
    }
  }

  /**
   * Together, on every possible run: the rows with conversation id c, all of them and in
   * increasing id order, decrypt to what was sent to c since it was last deleted.
   */
  lemma LogComplete(env: Env, es: seq<Event>, c: nat)
    requires PossibleRun(env, START, es)
    ensures var ms := Run(env, START, es).db.messages;
            && IdOrder(RowsOf(ms, c))
            && (forall m :: m in RowsOf(ms, c) <==> m in ms && m.conv == c)
            && Decrypts(env, RowsOf(ms, c), PlainLog(env, START, es, c))
  {
    StartInv();
    RunKeepsInv(env, START, es);
    RowsComplete(Run(env, START, es).db.messages, c);
    TableRefinesLog(env, es, c);
  }

  // ---- the stored text column ----

  lemma SealedStep(env: Env, s: State, e: Event)
    requires AllSealed(env.cipher, s.db.messages)
    ensures AllSealed(env.cipher, MessagesAfter(env, s, e))
  {
    if Sender(s, e).Some? && e.req.DeleteGroup? {
      SealedWithout(env.cipher, s.db.messages, e.req.deletedConv);
    }
  }

  lemma {:induction false} RowsSealed(env: Env, es: seq<Event>)
    ensures AllSealed(env.cipher, Run(env, START, es).db.messages)
  {
    if es != [] {
      var n := |es| - 1;
      RowsSealed(env, es[..n]);
      NextMessages(env, Run(env, START, es[..n]), es[n]);
      SealedStep(env, Run(env, START, es[..n]), es[n]);
    }
  }

  /** On every run: a stored row decrypts to p if and only if it is an envelope of p. */
  lemma StoredOpensIff(env: Env, es: seq<Event>, i: nat, p: seq<byte>)
    requires i < |Run(env, START, es).db.messages|
    ensures var h := Run(env, START, es).db.messages[i].text;
            Open(env.cipher, h) == Plain(p) <==> exists iv: Block :: h == Seal(env.cipher, iv, p)
  {
    RowsSealed(env, es);
    var h := Run(env, START, es).db.messages[i].text;
    var iv: Block, text: Text :| h == Seal(env.cipher, iv, text);
    SealCanonical(env.cipher, iv, text);
    OpensExactlyEnvelopes(env.cipher, h, p);
  }

  // ---- the history packet ----

  /** Every selected message on a line of its own. */
  function AllLines(env: Env, db: Db, rows: seq<Message>): seq<byte>
    requires FromUsers(db, rows)
  {
    if rows == [] then [] else AllLines(env, db, rows[..|rows| - 1]) + HistoryLine(env, db, rows[|rows| - 1])
  }

  lemma {:induction false} LinesFirst(env: Env, db: Db, rows: seq<Message>)
    requires FromUsers(db, rows) && rows != []
    ensures |AllLines(env, db, rows)| >= |HistoryLine(env, db, rows[0])| + |rows| - 1
    ensures |rows| == 1 ==> AllLines(env, db, rows) == HistoryLine(env, db, rows[0])
  {
    if |rows| == 1 {
      assert AllLines(env, db, []) == [];
    } else {
      LinesFirst(env, db, rows[..|rows| - 1]);
    }
  }

  /**
   * What a history packet holds is the whole selection if and only if it has at most one row,
   * that is, if the conversation has at most one message by an existing user.
   */
  lemma HistoryWholeIff(env: Env, db: Db, c: nat, rows: seq<Message>)
    requires IsHistory(db, c, rows)
    ensures FirstLine(env, db, rows) == AllLines(env, db, rows) <==> |HistoryRows(db, c)| <= 1
  {
    if rows != [] {
      LinesFirst(env, db, rows);
    }
  }

  lemma StampsBelow(db: Db, c: nat, rows: seq<Message>, m: Message)
    requires IsHistory(db, c, rows) && rows != [] && m in HistoryRows(db, c)
    ensures rows[0].stamp <= m.stamp
  {
    if m in rows {
      var i :| 0 <= i < |rows| && rows[i] == m;
    }
  }

  /**
   * On every possible run: what a history packet about c holds is one line, with a text that was
   * sent to c since it was last deleted, by the sender it names; of the rows by existing users
   * none is older.
   */
  lemma HistoryIsOldest(env: Env, es: seq<Event>, c: nat, rows: seq<Message>) returns (k: nat)
    requires PossibleRun(env, START, es) && IsHistory(Run(env, START, es).db, c, rows) && rows != []
    ensures var db := Run(env, START, es).db;
            var log := PlainLog(env, START, es, c);
            && k < |log| == |RowsOf(db.messages, c)| && log[k].sender in db.users
            && var stamp := RowsOf(db.messages, c)[k].stamp;
            && FirstLine(env, db, rows)
               == Cut(CStr(env.header(stamp, db.users[log[k].sender].username)), 63) + log[k].text + [10]
            && forall m :: m in db.messages && m.conv == c && m.sender in db.users ==> stamp <= m.stamp
  {
    var db := Run(env, START, es).db;
    LogComplete(env, es, c);
    assert rows[0] in HistoryRows(db, c);
    assert rows[0] in RowsOf(db.messages, c);
    k :| 0 <= k < |RowsOf(db.messages, c)| && RowsOf(db.messages, c)[k] == rows[0];
    forall m | m in HistoryRows(db, c) ensures rows[0].stamp <= m.stamp {
      StampsBelow(db, c, rows, m);
    }
  }
}
