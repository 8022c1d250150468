/** The text of the open chat and the list of requests that the client keeps in memory. */
module ClientContext {
  import opened Bytes

  // ---- what happens to the text of the open chat ----

  /** Another chat is opened, a history packet arrives, a line is written. */
  datatype Op = Reset | Replace(payload: seq<byte>) | Append(text: seq<byte>)

  /** The text shown (None without a buffer) and the length recorded beside it. */
  datatype Chat = Chat(text: Option<seq<byte>>, len: nat)

  const EMPTY := Chat(None, 0)

  function Shown(chat: Chat): seq<byte> {
    if chat.text.Some? then chat.text.value else []
  }

  /** An empty payload arrives as a null pointer and is ignored; any other one is a C string. */
  function After(chat: Chat, op: Op): Chat {
    match op
    case Reset => EMPTY
    case Replace(payload) => if payload == [] then chat else Chat(Some(CStr(payload)), |payload|)
    case Append(text) => Chat(Some(Shown(chat) + text), chat.len + |text|)
  }

  function AfterAll(chat: Chat, ops: seq<Op>): Chat {
    if ops == [] then chat else After(AfterAll(chat, ops[..|ops| - 1]), ops[|ops| - 1])
  }

  /** Lines come from strings. */
  predicate Strings(ops: seq<Op>) {
    forall i :: 0 <= i < |ops| && ops[i].Append? ==> 0 !in ops[i].text
  }

  // ---- what a run leaves ----

  predicate StartsOver(op: Op) {
    op.Reset? || (op.Replace? && op.payload != [])
  }

  predicate OnlyLines(ops: seq<Op>) {
    forall i :: 0 <= i < |ops| ==> !StartsOver(ops[i])
  }

  /** Every line of ops, one after the other. */
  function Lines(ops: seq<Op>): seq<byte> {
    if ops == [] then []
    else Lines(ops[..|ops| - 1]) + LineOf(ops[|ops| - 1])
  }

  function LineOf(op: Op): seq<byte> {
    if op.Append? then op.text else []
  }

  lemma AfterLine(chat: Chat, op: Op)
    requires !StartsOver(op)
    ensures Shown(After(chat, op)) == Shown(chat) + LineOf(op) && After(chat, op).len == chat.len + |LineOf(op)|
  {
  }

  lemma {:induction false} AfterLines(chat: Chat, ops: seq<Op>, more: seq<Op>)
    requires OnlyLines(more)
    ensures AfterAll(chat, ops + more) == AfterAll(AfterAll(chat, ops), more)
    ensures Shown(AfterAll(chat, ops + more)) == Shown(AfterAll(chat, ops)) + Lines(more)
    ensures AfterAll(chat, ops + more).len == AfterAll(chat, ops).len + |Lines(more)|
  {
    if more == [] {
      assert ops + more == ops;
    } else {
      var rest := more[..|more| - 1];
      var op := more[|more| - 1];
      assert (ops + more)[..|ops + more| - 1] == ops + rest;
      AfterLines(chat, ops, rest);
      AfterLine(AfterAll(chat, ops + rest), op);
      assert AfterAll(chat, ops + more) == After(AfterAll(chat, ops + rest), op);
      assert Lines(more) == Lines(rest) + LineOf(op);
    }
  }

  /** The text is what the last history packet held, then every line written since, in order. */
  lemma TextSinceHistory(before: seq<Op>, payload: seq<byte>, since: seq<Op>)
    requires payload != [] && OnlyLines(since)
    ensures var chat := AfterAll(EMPTY, before + [Replace(payload)] + since);
            chat.text == Some(CStr(payload) + Lines(since)) && chat.len == |payload| + |Lines(since)|
    ensures var chat := AfterAll(EMPTY, before + [Replace(payload)] + since);
            chat.len == |Shown(chat)| <==> 0 !in payload
  {
    var ops := before + [Replace(payload)];
    assert ops[..|ops| - 1] == before;
    AfterLines(EMPTY, ops, since);
    TextStays(AfterAll(EMPTY, ops), since);
    assert 0 in payload ==> CStr(payload) != payload;
  }

  lemma TextSinceReset(before: seq<Op>, since: seq<Op>)
    requires OnlyLines(since)
    ensures var chat := AfterAll(EMPTY, before + [Reset] + since);
            Shown(chat) == Lines(since) && chat.len == |Lines(since)|
  {
    var ops := before + [Reset];
    assert ops[..|ops| - 1] == before;
    AfterLines(EMPTY, ops, since);
  }

  lemma {:induction false} TextStays(chat: Chat, ops: seq<Op>)
    requires chat.text.Some? && OnlyLines(ops)
    ensures AfterAll(chat, ops).text.Some?
  {
    if ops != [] {
      TextStays(chat, ops[..|ops| - 1]);
    }
  }

  /** What every run keeps: the recorded length covers the text, and the text is a string. */
  predicate Good(chat: Chat) {
    |Shown(chat)| <= chat.len && 0 !in Shown(chat) && (chat.text.None? ==> chat.len == 0)
  }

  lemma {:induction false} RunIsGood(ops: seq<Op>)
    requires Strings(ops)
    ensures Good(AfterAll(EMPTY, ops))
  {
    if ops != [] {
      RunIsGood(ops[..|ops| - 1]);
    }
  }

  /** The payload the text goes back to, if any. */
  function LastPayload(ops: seq<Op>): seq<byte> {
    if ops == [] then []
    else if StartsOver(ops[|ops| - 1]) then (if ops[|ops| - 1].Replace? then ops[|ops| - 1].payload else [])
    else LastPayload(ops[..|ops| - 1])
  }

  /** The recorded length is the length of the text unless the history packet had a NUL inside. */
  lemma {:induction false} RecordedIff(ops: seq<Op>)
    ensures AfterAll(EMPTY, ops).len == |Shown(AfterAll(EMPTY, ops))| <==> 0 !in LastPayload(ops)
    ensures |Shown(AfterAll(EMPTY, ops))| <= AfterAll(EMPTY, ops).len
  {
    if ops != [] {
      RecordedIff(ops[..|ops| - 1]);
      var op := ops[|ops| - 1];
      assert op.Replace? && 0 in op.payload ==> CStr(op.payload) != op.payload;
    }
  }

  // ---- the buffer ----

  /** The fields chat_history and chat_history_len. */
  class HistoryBuffer {
    var mem: array?<byte>
    var len: nat

    ghost function View(): (chat: Chat)
      reads this, mem
    {
      Chat(if mem == null then None else Some(CStr(mem[..])), len)
    }

    /** The NUL and the recorded length lie inside the allocation. */
    ghost predicate Valid()
      reads this, mem
    {
      && Good(View())
      && (mem != null ==> len < mem.Length)
    }

    constructor ()
      ensures Valid() && View() == EMPTY && mem == null
    {
      mem := null;
      len := 0;
    }

    /** Opening a chat. */
    method Clear()
      requires Valid()
      modifies this
      ensures Valid() && View() == After(old(View()), Reset) && mem == null
    {
      mem := null;
      len := 0;
    }

    /** A history packet: its payload as recv_packet allocated it, null when empty. */
    method Take(payload: array?<byte>, size: nat)
      requires Valid()
      requires payload == null <==> size == 0
      requires payload != null ==> payload.Length == size + 1 && payload[size] == 0
      modifies this
      ensures Valid() && View() == After(old(View()), Replace(if payload == null then [] else payload[..size]))
      ensures mem == if payload == null then old(mem) else payload
      ensures len == if payload == null then old(len) else size
    {
      if payload != null {
        CutBefore(payload[..], size);
        mem := payload;
        len := size;
      }
    }

    /** app_append_history. */
    method Add(text: seq<byte>)
      requires Valid() && 0 !in text
      modifies this, mem
      ensures Valid() && View() == After(old(View()), Append(text))
      ensures View().text == Some((if old(mem) == null then [] else old(CStr(mem[..]))) + text)
      ensures len == old(len) + |text|
      ensures mem != null && fresh(mem) && mem.Length == len + 1
    {
      if mem == null {
        mem := Duplicate(text);
        len := |text|;
        HoldsCStr(mem[..], text);
        assert [] + text == text;
      } else {
        ghost var s := CStr(mem[..]);
        var bigger := Reallocate(mem, len + |text| + 1, |s|);
        CStrUntil(mem[..], |s|);
        Concatenate(bigger, s, text);
        HoldsCStr(bigger[..], s + text);
        mem := bigger;
        len := len + |text|;
      }
    }
  }

  /** strcat: finds the NUL, and copies the text over it with a NUL of its own. */
  method Concatenate(buf: array<byte>, ghost s: seq<byte>, text: seq<byte>)
    requires Holds(buf[..], s) && 0 !in s && |s| + |text| < buf.Length
    modifies buf
    ensures Holds(buf[..], s + text)
  {
    var end := 0;
    while buf[end] != 0
      invariant end <= |s| && buf[..] == old(buf[..])
      decreases |s| - end
    {
      end := end + 1;
    }
    assert forall i :: 0 <= i < |s| ==> buf[..|s|][i] == s[i] && s[i] in s;
    Copy(buf, end, text);
    buf[end + |text|] := 0;
    assert buf[..end] == s;
    assert buf[..end + |text|] == s + text;
  }

  /** Every run of the client on its buffer. */
  method Play(buffer: HistoryBuffer, ops: seq<Op>)
    requires buffer.Valid() && Strings(ops)
    modifies buffer, buffer.mem
    ensures buffer.Valid() && buffer.View() == AfterAll(old(buffer.View()), ops)
  {
    for i := 0 to |ops|
      invariant buffer.Valid() && buffer.View() == AfterAll(old(buffer.View()), ops[..i])
      invariant buffer.mem == old(buffer.mem) || (buffer.mem != null && fresh(buffer.mem)) || buffer.mem == null
    {
      assert ops[..i + 1][..i] == ops[..i];
      match ops[i] {
        case Reset => buffer.Clear();
        case Append(text) => buffer.Add(text);
        case Replace(payload) =>
          if payload == [] {
            buffer.Take(null, 0);
          } else {
            var arrived := Duplicate(payload);
            buffer.Take(arrived, |payload|);
          }
      }
    }
    assert ops[..|ops|] == ops;
  }

  // ---- the list of requests ----

  function Without<T>(s: seq<T>, index: int): (r: seq<T>)
    ensures if 0 <= index < |s|
            then |r| == |s| - 1 && forall j :: 0 <= j < |r| ==> r[j] == s[if j < index then j else j + 1]
            else r == s
  {
    if 0 <= index < |s| then s[..index] + s[index + 1..] else s
  }

  /** The list while entries move down: those up to i have, and the one at i is there twice. */
  function Shifted<T>(s: seq<T>, index: nat, i: nat): (r: seq<T>)
    requires index <= i < |s|
    ensures |r| == |s|
    ensures i == |s| - 1 ==> r[..|s| - 1] == Without(s, index)
  {
    s[..index] + s[index + 1..i + 1] + s[i..]
  }

  lemma ShiftOne<T>(s: seq<T>, index: nat, i: nat)
    requires index <= i < |s| - 1
    ensures var now := Shifted(s, index, i); now[i := now[i + 1]] == Shifted(s, index, i + 1)
  {
  }

  method MoveDown<T>(a: array<T>, i: nat, ghost count: nat)
    requires i + 1 < count <= a.Length
    modifies a
    ensures a[..count] == old(a[..count])[i := old(a[i + 1])]
  {
    a[i] := a[i + 1];
  }

  /** The loop of app_remove_request. */
  method ShiftDown<T>(a: array<T>, index: nat, count: nat)
    requires index < count <= a.Length
    modifies a
    ensures a[..count] == Shifted(old(a[..count]), index, count - 1)
  {
    ghost var s := a[..count];
    for i := index to count - 1
      invariant a[..count] == Shifted(s, index, i)
    {
      ShiftOne(s, index, i);
      assert a[i + 1] == a[..count][i + 1];
      MoveDown(a, i, count);
    }
  }

  /** The fields requests and requests_count. */
  class RequestList<T(0)> {
    var requests: array?<T>
    var count: nat

    ghost predicate Valid()
      reads this, requests
    {
      if requests == null then count == 0 else count <= requests.Length
    }

    ghost function Items(): (s: seq<T>)
      reads this, requests
      requires Valid()
    {
      if requests == null then [] else requests[..count]
    }

    /** app_remove_request. */
    method RemoveRequest(index: int)
      requires Valid()
      modifies this, requests
      ensures Valid() && requests == old(requests)
      ensures Items() == Without(old(Items()), index)
    {
      if 0 <= index < count && requests != null {
        ShiftDown(requests, index, count);
        assert requests[..count - 1] == requests[..count][..count - 1];
        count := count - 1;
      }
    }
  }
}
