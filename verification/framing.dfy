/**
 * Packets over TLS, src/common/protocol.c: an eight-octet big-endian header, then the
 * payload, through writes and reads that may each move any part of what they are asked to.
 */
module Framing {
  import opened Bytes

  // ---- the format ----

  /** htonl of a 32-bit field, as the octets on the wire. */
  function Be32(n: nat): (s: seq<byte>)
    requires n < U32_SIZE
    ensures |s| == 4
  {
    [n / 256 / 256 / 256, n / 256 / 256 % 256, n / 256 % 256, n % 256]
  }

  /** ntohl. */
  function Un32(s: seq<byte>): (n: nat)
    requires |s| == 4
    ensures n < U32_SIZE
  {
    var a: int, b: int, c: int, d: int := s[0], s[1], s[2], s[3];
    ((a * 256 + b) * 256 + c) * 256 + d
  }

  lemma Un32Be32(n: nat)
    requires n < U32_SIZE
    ensures Un32(Be32(n)) == n
  {
  }

  datatype Frame = Frame(ptype: nat, payload: seq<byte>)

  predicate Sendable(f: Frame) {
    f.ptype < U32_SIZE && |f.payload| <= INT_MAX
  }

  function Wire(f: Frame): (s: seq<byte>)
    requires Sendable(f)
    ensures |s| == 8 + |f.payload|
  {
    Be32(f.ptype) + Be32(|f.payload|) + f.payload
  }

  function Stream(fs: seq<Frame>): (s: seq<byte>)
    requires forall i :: 0 <= i < |fs| ==> Sendable(fs[i])
  {
    if fs == [] then [] else Wire(fs[0]) + Stream(fs[1..])
  }

  datatype Parsed = Incomplete | Complete(frame: Frame, rest: seq<byte>)

  /** A length above INT_MAX reaches SSL_read as a negative count, so it never completes. */
  function ParseOne(s: seq<byte>): (r: Parsed)
    ensures r.Complete? ==> |r.rest| < |s| && Sendable(r.frame)
  {
    if |s| < 8 then Incomplete
    else
      var len := Un32(s[4..8]);
      if len > INT_MAX || |s| < 8 + len then Incomplete
      else Complete(Frame(Un32(s[..4]), s[8..8 + len]), s[8 + len..])
  }

  function ParseAll(s: seq<byte>): (fs: seq<Frame>)
    decreases |s|
  {
    match ParseOne(s)
    case Incomplete => []
    case Complete(f, rest) => [f] + ParseAll(rest)
  }

  lemma ParseWire(f: Frame, rest: seq<byte>)
    requires Sendable(f)
    ensures ParseOne(Wire(f) + rest) == Complete(f, rest)
  {
    var s := Wire(f) + rest;
    Un32Be32(f.ptype);
    Un32Be32(|f.payload|);
    assert s[..4] == Be32(f.ptype) && s[4..8] == Be32(|f.payload|);
    assert s[8..8 + |f.payload|] == f.payload && s[8 + |f.payload|..] == rest;
  }

  /** A frame that has not arrived completely is not parsed at all. */
  lemma ParseCut(f: Frame, s: seq<byte>)
    requires Sendable(f) && s < Wire(f)
    ensures ParseOne(s) == Incomplete
  {
    if |s| >= 8 {
      Un32Be32(|f.payload|);
      assert s[4..8] == Wire(f)[4..8] == Be32(|f.payload|);
    }
  }

  lemma FirstArrived(fs: seq<Frame>, s: seq<byte>)
    requires fs != [] && forall i :: 0 <= i < |fs| ==> Sendable(fs[i])
    requires s <= Stream(fs) && |Wire(fs[0])| <= |s|
    ensures var rest := s[|Wire(fs[0])|..];
            rest <= Stream(fs[1..]) && s == Wire(fs[0]) + rest
  {
    var w := Wire(fs[0]);
    assert s[..|w|] == Stream(fs)[..|w|] == w;
    assert s == w + s[|w|..];
  }

  lemma ParseFirst(f: Frame, rest: seq<byte>)
    requires Sendable(f)
    ensures ParseAll(Wire(f) + rest) == [f] + ParseAll(rest)
  {
    ParseWire(f, rest);
  }

  lemma FirstCut(fs: seq<Frame>, s: seq<byte>)
    requires fs != [] && forall i :: 0 <= i < |fs| ==> Sendable(fs[i])
    requires s <= Stream(fs) && |s| < |Wire(fs[0])|
    ensures ParseAll(s) == []
  {
    assert s == Stream(fs)[..|s|] == Wire(fs[0])[..|s|];
    ParseCut(fs[0], s);
  }

  /**
   * Parsing undoes printing: any part of a stream that has arrived parses to the frames it
   * contains completely, and what is left over is a strict part of the next frame.
   */
  lemma {:induction false} ParseArrived(fs: seq<Frame>, s: seq<byte>) returns (k: nat)
    requires forall i :: 0 <= i < |fs| ==> Sendable(fs[i])
    requires s <= Stream(fs)
    ensures k <= |fs| && ParseAll(s) == fs[..k]
    ensures |Stream(fs[..k])| <= |s|
    ensures k < |fs| ==> |s| < |Stream(fs[..k + 1])|
  {
    if fs == [] {
      k := 0;
    } else {
      var w := Wire(fs[0]);
      if |s| < |w| {
        FirstCut(fs, s);
        k := 0;
        StreamTake(fs, 0);
      } else {
        FirstArrived(fs, s);
        ParseFirst(fs[0], s[|w|..]);
        var j := ParseArrived(fs[1..], s[|w|..]);
        k := j + 1;
        StreamTake(fs, j);
        if k < |fs| {
          StreamTake(fs, k);
        }
      }
    }
  }

  lemma StreamTake(fs: seq<Frame>, j: nat)
    requires j < |fs| && forall i :: 0 <= i < |fs| ==> Sendable(fs[i])
    ensures fs[..j + 1] == [fs[0]] + fs[1..][..j]
    ensures Stream(fs[..j + 1]) == Wire(fs[0]) + Stream(fs[1..][..j])
  {
    assert fs[..j + 1][1..] == fs[1..][..j];
  }

  /** The whole stream parses to exactly the frames that were printed. */
  lemma {:induction false} ParseStream(fs: seq<Frame>)
    requires forall i :: 0 <= i < |fs| ==> Sendable(fs[i])
    ensures ParseAll(Stream(fs)) == fs
  {
    if fs != [] {
      ParseWire(fs[0], Stream(fs[1..]));
      ParseStream(fs[1..]);
    }
  }

  // ---- sending ----

  /** The sending end of a connection and everything it has put on the wire. */
  class Writer {
    var written: seq<byte>

    constructor ()
      ensures written == []
    {
      written := [];
    }

    /** SSL_write: an error, or any non-empty beginning of the data. */
    method SslWrite(data: array<byte>, off: nat, len: nat) returns (sent: int)
      requires 0 < len <= INT_MAX && off + len <= data.Length
      modifies this
      ensures sent <= len
      ensures sent <= 0 ==> written == old(written)
      ensures sent > 0 ==> written == old(written) + data[off..off + sent]
    {
      sent :| -1 <= sent <= len;
      if sent > 0 {
        written := written + data[off..off + sent];
      }
    }
  }

  /** send_all. */
  method SendAll(ssl: Writer, data: array<byte>, len: nat) returns (rc: int)
    requires len <= data.Length && len <= INT_MAX
    modifies ssl
    ensures rc == 0 || rc == -1
    ensures old(ssl.written) <= ssl.written <= old(ssl.written) + data[..len]
    ensures rc == 0 <==> ssl.written == old(ssl.written) + data[..len]
  {
    var totalSent := 0;
    while totalSent < len
      invariant totalSent <= len
      invariant ssl.written == old(ssl.written) + data[..totalSent]
    {
      var sent := ssl.SslWrite(data, totalSent, len - totalSent);
      if sent <= 0 {
        return -1;
      }
      assert data[..totalSent + sent] == data[..totalSent] + data[totalSent..totalSent + sent];
      totalSent := totalSent + sent;
    }
    rc := 0;
  }

  /** What send_packet puts on the wire: a NULL payload leaves only the header. */
  function Printed(ptype: nat, body: Option<seq<byte>>, len: nat): (s: seq<byte>)
    requires ptype < U32_SIZE && len < U32_SIZE
  {
    Be32(ptype) + Be32(len) + match body case None => [] case Some(b) => b
  }

  ghost function Body(payload: array?<byte>, len: nat): Option<seq<byte>>
    requires payload != null ==> len <= payload.Length
    reads payload
  {
    if payload == null || len == 0 then None else Some(payload[..len])
  }

  /** send_packet. */
  method SendPacket(ssl: Writer?, ptype: nat, payload: array?<byte>, len: nat) returns (rc: int)
    requires ptype < U32_SIZE && len <= INT_MAX && (payload != null ==> len <= payload.Length)
    modifies ssl
    ensures ssl == null ==> rc == -1
    ensures ssl != null ==>
              var all := old(ssl.written) + Printed(ptype, Body(payload, len), len);
              && (rc == 1 || rc == -1)
              && old(ssl.written) <= ssl.written <= all
              && (rc == 1 <==> ssl.written == all)
    ensures ssl != null && rc == 1 ==>
              |old(ssl.written)| + 8 <= |ssl.written| && HeaderSays(ssl.written[|old(ssl.written)|..], ptype, len)
              && ssl.written[|old(ssl.written)| + 8..] == if payload == null || len == 0 then [] else payload[..len]
  {
    if ssl == null {
      return -1;
    }
    var header := new byte[8];
    Copy(header, 0, Be32(ptype));
    Copy(header, 4, Be32(len));
    assert header[..8] == Be32(ptype) + Be32(len);
    ghost var was := ssl.written;
    ghost var head := header[..8];
    var sent := SendAll(ssl, header, 8);
    assert header[..8] == head;
    if sent == -1 {
      assert ssl.written <= was + head;
      return -1;
    }
    PrintedSays(ptype, Body(payload, len), len, was);
    if len > 0 && payload != null {
      sent := SendAll(ssl, payload, len);
      if sent == -1 {
        return -1;
      }
    }
    rc := 1;
  }

  /** Eight octets, each number with its most significant octet first. */
  predicate HeaderSays(w: seq<int>, ptype: int, len: int) {
    && |w| >= 8
    && ptype == 16777216 * w[0] + 65536 * w[1] + 256 * w[2] + w[3]
    && len == 16777216 * w[4] + 65536 * w[5] + 256 * w[6] + w[7]
  }

  /** The order of the octets of a packet on the wire. */
  lemma WireSays(f: Frame)
    requires Sendable(f)
    ensures HeaderSays(Wire(f), f.ptype, |f.payload|) && Wire(f)[8..] == f.payload
  {
  }

  lemma PrintedSays(ptype: nat, body: Option<seq<byte>>, len: nat, was: seq<byte>)
    requires ptype < U32_SIZE && len < U32_SIZE
    ensures var all := was + Printed(ptype, body, len);
            && |was| + 8 <= |all| && HeaderSays(all[|was|..], ptype, len)
            && all[|was| + 8..] == if body.Some? then body.value else []
  {
    var s := Printed(ptype, body, len);
    assert (was + s)[|was|..] == s;
    assert s[..4] == Be32(ptype) && s[4..8] == Be32(len);
    assert (was + s)[|was| + 8..] == s[8..];
  }

  /** What arrives is read with the most significant octet first. */
  lemma ParsedSays(s: seq<byte>)
    requires ParseOne(s).Complete?
    ensures var p := ParseOne(s);
            && HeaderSays(s, p.frame.ptype, |p.frame.payload|)
            && s == s[..8] + p.frame.payload + p.rest
  {
  }

  /** The header announces what follows exactly when a positive length has a payload. */
  lemma PrintedIsFrameIff(ptype: nat, body: Option<seq<byte>>, len: nat)
    requires ptype < U32_SIZE && len <= INT_MAX && (body.Some? ==> |body.value| == len)
    ensures (exists f :: Sendable(f) && Printed(ptype, body, len) == Wire(f)) <==> len == 0 || body.Some?
  {
    var s := Printed(ptype, body, len);
    if len == 0 || body.Some? {
      var f := Frame(ptype, if body.Some? then body.value else []);
      assert s == Wire(f);
    } else if f :| Sendable(f) && s == Wire(f) {
      ParseWire(f, []);
      assert Wire(f) + [] == s;
      Un32Be32(len);
      assert s[4..8] == Be32(len);
    }
  }

  // ---- receiving ----

  /** The receiving end: octets still to come, and whether reads can fail without cause. */
  class Reader {
    var incoming: seq<byte>
    const steady: bool

    constructor (incoming: seq<byte>, steady: bool)
      ensures this.incoming == incoming && this.steady == steady
    {
      this.incoming, this.steady := incoming, steady;
    }

    /** SSL_read: an error or end, or any non-empty part of what is to come. */
    method SslRead(data: array<byte>, off: nat, want: int) returns (got: int)
      requires want > 0 ==> off + want <= data.Length
      modifies this, data
      ensures got > 0 ==> got <= want && got <= |old(incoming)|
      ensures got > 0 ==> incoming == old(incoming)[got..]
                          && data[..] == Overwrite(old(data[..]), off, old(incoming)[..got])
      ensures got <= 0 ==> incoming == old(incoming) && data[..] == old(data[..])
      ensures steady && want > 0 && old(incoming) != [] ==> got > 0
    {
      var most := if want < |incoming| then want else |incoming|;
      if want <= 0 || most == 0 {
        return -1;
      }
      got :| -1 <= got <= most && (steady ==> got > 0);
      if got > 0 {
        Copy(data, off, incoming[..got]);
        incoming := incoming[got..];
      }
    }
  }

  /** A size_t passed where SSL_read expects an int. */
  function AsInt(n: nat): int
    requires n < U32_SIZE
  {
    if n <= INT_MAX then n else n - U32_SIZE
  }

  /** recv_all. */
  method RecvAll(ssl: Reader, data: array<byte>, len: nat) returns (rc: int)
    requires len < U32_SIZE && (len <= INT_MAX ==> len <= data.Length)
    modifies ssl, data
    ensures rc <= 1
    ensures rc > 0 ==> len <= INT_MAX && len <= |old(ssl.incoming)| && ssl.incoming == old(ssl.incoming)[len..]
                       && data[..len] == old(ssl.incoming)[..len]
    ensures rc <= 0 ==> |ssl.incoming| <= |old(ssl.incoming)|
    ensures ssl.steady && len <= |old(ssl.incoming)| && len <= INT_MAX ==> rc > 0
  {
    var totalReceived := 0;
    ghost var was := ssl.incoming;
    while totalReceived < len
      invariant totalReceived <= len && totalReceived <= |was|
      invariant totalReceived > 0 ==> len <= INT_MAX
      invariant ssl.incoming == was[totalReceived..]
      invariant totalReceived <= data.Length && data[..totalReceived] == was[..totalReceived]
    {
      var received := ssl.SslRead(data, totalReceived, AsInt(len - totalReceived));
      if received <= 0 {
        return received;
      }
      assert data[..totalReceived + received] == was[..totalReceived] + was[totalReceived..][..received];
      totalReceived := totalReceived + received;
    }
    rc := 1;
  }

  /** recv_packet: a whole packet with a NUL after its payload, or none. */
  method RecvPacket(ssl: Reader) returns (rc: int, ptype: nat, payload: array?<byte>, len: nat)
    modifies ssl
    ensures rc <= 1
    ensures rc == 1 ==>
              && ParseOne(old(ssl.incoming)).Complete?
              && var p := ParseOne(old(ssl.incoming));
              && ptype == p.frame.ptype && len == |p.frame.payload| && ssl.incoming == p.rest
              && (payload == null <==> len == 0)
              && (payload != null ==>
                    fresh(payload) && payload.Length == len + 1 && payload[..] == p.frame.payload + [0])
    ensures rc == 1 ==> HeaderSays(old(ssl.incoming), ptype, len)
    ensures rc <= 0 ==> payload == null && |ssl.incoming| <= |old(ssl.incoming)|
    ensures ssl.steady && ParseOne(old(ssl.incoming)).Complete? ==> rc == 1
  {
    ghost var was := ssl.incoming;
    ptype, payload, len := 0, null, 0;
    var header := new byte[8];
    rc := RecvAll(ssl, header, 8);
    if rc <= 0 {
      return;
    }
    assert header[..8] == was[..8];
    ptype := Un32(header[..4]);
    len := Un32(header[4..8]);
    assert header[..4] == was[..4] && header[4..8] == was[4..8];
    if len > 0 {
      payload := new byte[(len + 1) % U32_SIZE];
      var got := RecvAll(ssl, payload, len);
      if got <= 0 {
        return -1, ptype, null, len;
      }
      assert payload[..len] == was[8..][..len];
      payload[len] := 0;
      assert payload[..] == payload[..len] + [0];
      assert was[8..][..len] == was[8..8 + len] && was[8..][len..] == was[8 + len..];
    }
    rc := 1;
    ParsedSays(was);
  }

  /** The receiving loop: packets until a read fails. */
  method ReceiveUntilFailure(ssl: Reader) returns (frames: seq<Frame>)
    modifies ssl
    ensures frames <= ParseAll(old(ssl.incoming))
    ensures ssl.steady ==> frames == ParseAll(old(ssl.incoming))
  {
    frames := [];
    ghost var was := ssl.incoming;
    assert [] + ParseAll(was) == ParseAll(was);
    var rc := 1;
    while rc > 0
      invariant rc > 0 ==> ParseAll(was) == frames + ParseAll(ssl.incoming)
      invariant rc <= 0 ==> frames <= ParseAll(was) && (ssl.steady ==> frames == ParseAll(was))
      decreases rc > 0, |ssl.incoming|
    {
      ghost var before := ssl.incoming;
      var ptype, payload, len;
      rc, ptype, payload, len := RecvPacket(ssl);
      if rc > 0 {
        var f := Frame(ptype, if payload == null then [] else payload[..len]);
        assert ParseAll(before) == [f] + ParseAll(ssl.incoming);
        Regroup(frames, f, ParseAll(ssl.incoming));
        frames := frames + [f];
      } else {
        assert ssl.steady ==> ParseAll(before) == [];
      }
    }
  }

  lemma Regroup(xs: seq<Frame>, x: Frame, ys: seq<Frame>)
    ensures xs + ([x] + ys) == xs + [x] + ys
  {
  }

  /** Sends frames in turn, giving up at the first failure. */
  method SendEach(ssl: Writer, frames: seq<Frame>) returns (ok: bool)
    requires forall i :: 0 <= i < |frames| ==> Sendable(frames[i])
    requires ssl.written == []
    modifies ssl
    ensures ssl.written <= Stream(frames)
    ensures ok <==> ssl.written == Stream(frames)
  {
    assert frames[..0] == [];
    for i := 0 to |frames|
      invariant ssl.written == Stream(frames[..i])
    {
      var f := frames[i];
      var payload := new byte[|f.payload|];
      Copy(payload, 0, f.payload);
      assert payload[..] == f.payload;
      ghost var was := ssl.written;
      var rc := SendPacket(ssl, f.ptype, payload, |f.payload|);
      assert Printed(f.ptype, Body(payload, |f.payload|), |f.payload|) == Wire(f);
      StreamSplit(frames, i);
      if rc == -1 {
        assert ssl.written < was + Wire(f);
        return false;
      }
    }
    assert frames[..|frames|] == frames;
    ok := true;
  }

  lemma {:induction false} StreamAppend(fs: seq<Frame>, gs: seq<Frame>)
    requires forall i :: 0 <= i < |fs| ==> Sendable(fs[i])
    requires forall i :: 0 <= i < |gs| ==> Sendable(gs[i])
    ensures Stream(fs + gs) == Stream(fs) + Stream(gs)
  {
    if fs == [] {
      assert fs + gs == gs;
    } else {
      assert (fs + gs)[1..] == fs[1..] + gs;
      StreamAppend(fs[1..], gs);
    }
  }

  lemma {:induction false} StreamSnoc(fs: seq<Frame>, f: Frame)
    requires Sendable(f) && forall k :: 0 <= k < |fs| ==> Sendable(fs[k])
    ensures Stream(fs + [f]) == Stream(fs) + Wire(f)
  {
    StreamAppend(fs, [f]);
    assert [f][1..] == [];
    assert Stream([f]) == Wire(f) + Stream([]);
  }

  lemma {:induction false} StreamSplit(fs: seq<Frame>, i: nat)
    requires i < |fs| && forall k :: 0 <= k < |fs| ==> Sendable(fs[k])
    ensures Stream(fs[..i + 1]) == Stream(fs[..i]) + Wire(fs[i])
    ensures Stream(fs) == Stream(fs[..i + 1]) + Stream(fs[i + 1..])
  {
    assert fs[..i] + [fs[i]] == fs[..i + 1];
    StreamSnoc(fs[..i], fs[i]);
    assert fs[..i + 1] + fs[i + 1..] == fs;
    StreamAppend(fs[..i + 1], fs[i + 1..]);
  }

  /**
   * End to end, over every way the writes and reads split the octets: what comes out is the
   * first frames that went in; all of them if no write failed and no read failed early. If the
   * writes failed somewhere but the reads did not, it is all frames that went out whole.
   */
  method Deliver(frames: seq<Frame>, steady: bool)
    returns (sentAll: bool, got: seq<Frame>, ghost sent: seq<byte>)
    requires forall i :: 0 <= i < |frames| ==> Sendable(frames[i])
    ensures got <= frames
    ensures sentAll && steady ==> got == frames
    ensures sent <= Stream(frames) && (sentAll <==> sent == Stream(frames))
    ensures steady ==> |Stream(got)| <= |sent|
    ensures steady && |got| < |frames| ==> |sent| < |Stream(frames[..|got| + 1])|
  {
    var w := new Writer();
    sentAll := SendEach(w, frames);
    sent := w.written;
    ghost var k := ParseArrived(frames, w.written);
    ParseStream(frames);
    var r := new Reader(w.written, steady);
    got := ReceiveUntilFailure(r);
    assert steady ==> got == frames[..k] && |got| == k;
  }
}
