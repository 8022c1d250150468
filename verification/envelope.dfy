/**
 * The at-rest message envelope of src/common/crypto.c: lower-case hex of a 16-octet IV
 * followed by lower-case hex of AES-256-CBC ciphertext.
 *
 * AES under the master key is taken as an arbitrary permutation of 16-octet blocks. CBC
 * chaining (section 6.2 of NIST SP 800-38A) and the padding (section 6.3 of RFC 5652) are
 * defined here, so that decryption undoing encryption is a theorem about them.
 */
module Envelope {
  import opened Bytes

  type Block = b: seq<byte> | |b| == 16 witness seq(16, _ => 0)

  datatype Cipher = Cipher(enc: Block -> Block, dec: Block -> Block)

  ghost predicate Permutation(c: Cipher) {
    && (forall b: Block :: c.dec(c.enc(b)) == b)
    && (forall b: Block :: c.enc(c.dec(b)) == b)
  }

  /** AES-256 under the key derived by crypto_init. */
  type BlockCipher = c: Cipher | Permutation(c) witness Cipher(b => b, b => b)

  // ---- exclusive or ----

  /** Binary digits that differ. */
  function Bits(a: nat, b: nat): (r: nat)
    decreases a + b
  {
    if a == 0 && b == 0 then 0 else 2 * Bits(a / 2, b / 2) + if a % 2 == b % 2 then 0 else 1
  }

  function Pow2(n: nat): (p: nat)
    ensures p > 0
  {
    if n == 0 then 1 else 2 * Pow2(n - 1)
  }

  lemma {:induction false} BitsBound(a: nat, b: nat, n: nat)
    requires a < Pow2(n) && b < Pow2(n)
    ensures Bits(a, b) < Pow2(n)
    decreases a + b
  {
    if a != 0 || b != 0 {
      assert n > 0;
      BitsBound(a / 2, b / 2, n - 1);
    }
  }

  lemma {:induction false} BitsUndo(a: nat, b: nat)
    ensures Bits(Bits(a, b), b) == a
    decreases a + b
  {
    if a != 0 || b != 0 {
      BitsUndo(a / 2, b / 2);
      var r, q := Bits(a, b), Bits(a / 2, b / 2);
      assert r / 2 == q && r % 2 == if a % 2 == b % 2 then 0 else 1;
      assert a == 2 * (a / 2) + a % 2;
    }
  }

  function Xor(a: byte, b: byte): (r: byte) {
    assert Pow2(8) == 256 by { assert Pow2(4) == 16; }
    BitsBound(a, b, 8);
    Bits(a, b)
  }

  function XorBlock(a: Block, b: Block): Block {
    seq(16, i requires 0 <= i < 16 => Xor(a[i], b[i]))
  }

  lemma XorBlockUndo(a: Block, b: Block)
    ensures XorBlock(XorBlock(a, b), b) == a
  {
    forall i | 0 <= i < 16 ensures XorBlock(XorBlock(a, b), b)[i] == a[i] {
      BitsUndo(a[i], b[i]);
    }
  }

  /** Binary digit i of a number. */
  function Bit(a: nat, i: nat): nat {
    if i == 0 then a % 2 else Bit(a / 2, i - 1)
  }

  /** Each binary digit is the sum of the two digits without carry. */
  lemma {:induction false} BitsAre(a: nat, b: nat, i: nat)
    ensures Bit(Bits(a, b), i) == (Bit(a, i) + Bit(b, i)) % 2
    decreases i
  {
    var r, q := Bits(a, b), Bits(a / 2, b / 2);
    assert r / 2 == q && r % 2 == if a % 2 == b % 2 then 0 else 1 by {
      if a == 0 && b == 0 {
        assert q == 0;
      }
    }
    if i > 0 {
      BitsAre(a / 2, b / 2, i - 1);
    }
  }

  lemma XorBlockBits(a: Block, b: Block, k: nat, i: nat)
    requires k < 16
    ensures Bit(XorBlock(a, b)[k], i) == (Bit(a[k], i) + Bit(b[k], i)) % 2
  {
    BitsAre(a[k], b[k], i);
  }

  // ---- CBC ----

  predicate Aligned(s: seq<byte>) { |s| % 16 == 0 }

  /** C_j = E(P_j xor C_{j-1}), with C_0 the IV. */
  function CbcEncrypt(c: Cipher, iv: Block, p: seq<byte>): (r: seq<byte>)
    requires Aligned(p)
    ensures |r| == |p|
    decreases |p|
  {
    if p == [] then [] else
      var first := c.enc(XorBlock(p[..16], iv));
      first + CbcEncrypt(c, first, p[16..])
  }

  /** P_j = D(C_j) xor C_{j-1}. */
  function CbcDecrypt(c: Cipher, iv: Block, d: seq<byte>): (r: seq<byte>)
    requires Aligned(d)
    ensures |r| == |d|
    decreases |d|
  {
    if d == [] then [] else
      XorBlock(c.dec(d[..16]), iv) + CbcDecrypt(c, d[..16], d[16..])
  }

  lemma {:induction false} CbcUndo(c: BlockCipher, iv: Block, p: seq<byte>)
    requires Aligned(p)
    ensures CbcDecrypt(c, iv, CbcEncrypt(c, iv, p)) == p
    decreases |p|
  {
    if p != [] {
      var first := c.enc(XorBlock(p[..16], iv));
      var d := CbcEncrypt(c, iv, p);
      assert d[..16] == first && d[16..] == CbcEncrypt(c, first, p[16..]);
      XorBlockUndo(p[..16], iv);
      CbcUndo(c, first, p[16..]);
    }
  }

  lemma {:induction false} CbcRedo(c: BlockCipher, iv: Block, d: seq<byte>)
    requires Aligned(d)
    ensures CbcEncrypt(c, iv, CbcDecrypt(c, iv, d)) == d
    decreases |d|
  {
    if d != [] {
      var p := CbcDecrypt(c, iv, d);
      assert p[..16] == XorBlock(c.dec(d[..16]), iv);
      assert p[16..] == CbcDecrypt(c, d[..16], d[16..]);
      XorBlockUndo(c.dec(d[..16]), iv);
      CbcRedo(c, d[..16], d[16..]);
    }
  }

  /** Block by block: the cipher of the text xor the block before, the IV before the first. */
  lemma {:induction false} CbcBlock(c: Cipher, iv: Block, p: seq<byte>, j: nat)
    requires Aligned(p) && 16 * j + 16 <= |p|
    ensures var d := CbcEncrypt(c, iv, p);
            d[16 * j..16 * j + 16]
            == c.enc(XorBlock(p[16 * j..16 * j + 16], if j == 0 then iv else d[16 * j - 16..16 * j]))
    decreases j
  {
    var first := c.enc(XorBlock(p[..16], iv));
    var d := CbcEncrypt(c, iv, p);
    var rest := CbcEncrypt(c, first, p[16..]);
    assert d == first + rest;
    if j > 0 {
      CbcBlock(c, first, p[16..], j - 1);
      var n := 16 * (j - 1);
      assert p[16..][n..n + 16] == p[16 * j..16 * j + 16];
      assert rest[n..n + 16] == d[16 * j..16 * j + 16];
      assert j > 1 ==> rest[n - 16..n] == d[16 * j - 16..16 * j];
      assert j == 1 ==> d[0..16] == first;
    }
  }

  /** The chaining value after encrypting or decrypting with ciphertext d. */
  function Chain(iv: Block, d: seq<byte>): Block
    requires Aligned(d)
  {
    if d == [] then iv else assert |d| >= 16; d[|d| - 16..]
  }

  lemma {:induction false} CbcEncryptSplit(c: Cipher, iv: Block, p: seq<byte>, q: seq<byte>)
    requires Aligned(p) && Aligned(q)
    ensures Aligned(p + q)
    ensures CbcEncrypt(c, iv, p + q) == CbcEncrypt(c, iv, p) + CbcEncrypt(c, Chain(iv, CbcEncrypt(c, iv, p)), q)
    decreases |p|
  {
    if p == [] {
      assert p + q == q;
    } else {
      var first := c.enc(XorBlock(p[..16], iv));
      assert (p + q)[..16] == p[..16] && (p + q)[16..] == p[16..] + q;
      CbcEncryptSplit(c, first, p[16..], q);
      var d := CbcEncrypt(c, iv, p);
      var rest := CbcEncrypt(c, first, p[16..]);
      assert d == first + rest;
      assert Chain(iv, d) == Chain(first, rest);
    }
  }

  lemma {:induction false} CbcDecryptSplit(c: Cipher, iv: Block, d: seq<byte>, e: seq<byte>)
    requires Aligned(d) && Aligned(e)
    ensures Aligned(d + e)
    ensures CbcDecrypt(c, iv, d + e) == CbcDecrypt(c, iv, d) + CbcDecrypt(c, Chain(iv, d), e)
    decreases |d|
  {
    if d == [] {
      assert d + e == e;
    } else {
      assert (d + e)[..16] == d[..16] && (d + e)[16..] == d[16..] + e;
      CbcDecryptSplit(c, d[..16], d[16..], e);
      assert Chain(iv, d) == Chain(d[..16], d[16..]);
    }
  }

  lemma CbcSingle(c: Cipher, iv: Block, b: Block)
    ensures CbcEncrypt(c, iv, b) == c.enc(XorBlock(b, iv))
    ensures CbcDecrypt(c, iv, b) == XorBlock(c.dec(b), iv)
  {
    assert b[..16] == b && b[16..] == [];
    var e := c.enc(XorBlock(b, iv));
    assert CbcEncrypt(c, iv, b) == e + CbcEncrypt(c, e, []);
    assert CbcDecrypt(c, iv, b) == XorBlock(c.dec(b), iv) + CbcDecrypt(c, b, []);
  }

  // ---- padding ----

  function Pad(s: seq<byte>): (r: seq<byte>)
    ensures Aligned(r) && |r| == 16 * (|s| / 16 + 1)
  {
    var k := 16 - |s| % 16;
    s + seq(k, _ => k)
  }

  /** The last octet k must be 1..16 and the last k octets must all equal it. */
  function Unpad(s: seq<byte>): (r: Option<seq<byte>>)
  {
    if s == [] || !Aligned(s) then None else
      var k := s[|s| - 1];
      if 1 <= k <= 16 && (forall i | |s| - k <= i < |s| :: s[i] == k) then Some(s[..|s| - k]) else None
  }

  /** From one to sixteen octets are added, each of them saying how many. */
  lemma PadOctets(s: seq<byte>)
    ensures var k := |Pad(s)| - |s|;
            && 1 <= k <= 16 && |Pad(s)| % 16 == 0 && Pad(s)[..|s|] == s
            && forall i :: |s| <= i < |Pad(s)| ==> Pad(s)[i] == k
  {
  }

  lemma PadUndo(s: seq<byte>)
    ensures Unpad(Pad(s)) == Some(s)
  {
    var k := 16 - |s| % 16;
    assert Pad(s)[..|Pad(s)| - k] == s;
  }

  lemma PadRedo(s: seq<byte>)
    requires Unpad(s).Some?
    ensures Pad(Unpad(s).value) == s
  {
    var k := s[|s| - 1];
    var u := Unpad(s).value;
    assert |u| % 16 == (16 - k) % 16;
    assert s == s[..|s| - k] + s[|s| - k..];
  }

  // ---- hexadecimal ----

  function HexDigit(n: int): (c: byte)
    requires 0 <= n < 16
  {
    if n < 10 then 48 + n else 87 + n
  }

  function HexValue(c: byte): (v: Option<int>)
    ensures v.Some? ==> 0 <= v.value < 16
  {
    if 48 <= c <= 57 then Some(c - 48)
    else if 97 <= c <= 102 then Some(c - 87)
    else if 65 <= c <= 70 then Some(c - 55)
    else None
  }

  function Hex(s: seq<byte>): (r: seq<byte>)
    ensures |r| == 2 * |s|
    ensures 0 !in r
  {
    if s == [] then [] else [HexDigit(s[0] / 16), HexDigit(s[0] % 16)] + Hex(s[1..])
  }

  /** What sscanf's two-digit conversion leaves in an octet that held `was`. */
  function ScanPair(a: byte, b: byte, was: byte): (r: byte)
  {
    match (HexValue(a), HexValue(b))
    case (Some(h), Some(l)) => 16 * h + l
    case (Some(h), None) => h
    case (None, _) => was
  }

  /** hex_to_bytes over a buffer with prior contents `was`; an odd last digit is dropped. */
  function Unhex(h: seq<byte>, was: seq<byte>): (r: seq<byte>)
    requires |was| == |h| / 2
    ensures |r| == |h| / 2
  {
    if |h| < 2 then [] else [ScanPair(h[0], h[1], was[0])] + Unhex(h[2..], was[1..])
  }

  /** At position i of h stand the two digits of an octet, the high one first, in ASCII. */
  predicate DigitsAt(h: seq<byte>, i: nat, octet: byte) {
    && i + 2 <= |h|
    && h[i] == (if octet / 16 < 10 then 48 + octet / 16 else 87 + octet / 16)
    && h[i + 1] == (if octet % 16 < 10 then 48 + octet % 16 else 87 + octet % 16)
  }

  lemma {:induction false} HexOctets(s: seq<byte>, i: nat)
    requires i < |s|
    ensures DigitsAt(Hex(s), 2 * i, s[i])
  {
    if i > 0 {
      HexOctets(s[1..], i - 1);
    }
  }

  /** The digit that a character is in base sixteen, in either case; 16 for any other one. */
  function DigitOf(c: byte): nat {
    if 48 <= c <= 57 then c - 48 else if 65 <= c <= 70 then c - 65 + 10 else if 97 <= c <= 102 then c - 97 + 10 else 16
  }

  /** Each pair gives its number; one digit alone counts by itself; a bad first one changes nothing. */
  lemma {:induction false} UnhexOctets(h: seq<byte>, was: seq<byte>, i: nat)
    requires |was| == |h| / 2 && i < |was|
    ensures var high, low := DigitOf(h[2 * i]), DigitOf(h[2 * i + 1]);
            Unhex(h, was)[i] == if high == 16 then was[i] else if low == 16 then high else 16 * high + low
  {
    if i > 0 {
      UnhexOctets(h[2..], was[1..], i - 1);
    }
  }

  /** Even length and nothing but the digits bytes_to_hex writes. */
  predicate Canonical(h: seq<byte>) {
    |h| % 2 == 0 && forall i | 0 <= i < |h| :: 48 <= h[i] <= 57 || 97 <= h[i] <= 102
  }

  lemma {:induction false} HexUndo(s: seq<byte>, was: seq<byte>)
    requires |was| == |s|
    ensures Unhex(Hex(s), was) == s
  {
    if s != [] {
      HexUndo(s[1..], was[1..]);
      assert Hex(s)[2..] == Hex(s[1..]);
    }
  }

  lemma {:induction false} HexCanonical(s: seq<byte>)
    ensures Canonical(Hex(s))
  {
    if s != [] {
      HexCanonical(s[1..]);
    }
  }

  lemma {:induction false} HexRedo(h: seq<byte>, was: seq<byte>)
    requires |was| == |h| / 2 && Canonical(h)
    ensures Hex(Unhex(h, was)) == h
  {
    if h != [] {
      var n := ScanPair(h[0], h[1], was[0]);
      assert HexDigit(n / 16) == h[0] && HexDigit(n % 16) == h[1];
      assert Canonical(h[2..]) by {
        forall i | 0 <= i < |h[2..]| ensures 48 <= h[2..][i] <= 57 || 97 <= h[2..][i] <= 102 {
          assert h[2..][i] == h[i + 2];
        }
      }
      HexRedo(h[2..], was[1..]);
      assert h == [h[0], h[1]] + h[2..];
    }
  }

  // ---- the envelope ----

  /** crypto_encrypt's result for a given random IV. */
  function Seal(c: Cipher, iv: Block, text: seq<byte>): (h: seq<byte>)
    ensures |h| == 32 + 2 * 16 * (|text| / 16 + 1)
    ensures 0 !in h
  {
    Hex(iv) + Hex(CbcEncrypt(c, iv, Pad(text)))
  }

  /** An envelope spells out the IV and, behind it, the ciphertext of the padded text. */
  lemma SealOctets(c: Cipher, iv: Block, text: seq<byte>)
    ensures var h := Seal(c, iv, text);
            var d := CbcEncrypt(c, iv, Pad(text));
            && (forall i :: 0 <= i < 16 ==> DigitsAt(h, 2 * i, iv[i]))
            && (forall i :: 0 <= i < |d| ==> DigitsAt(h, 32 + 2 * i, d[i]))
  {
    var d := CbcEncrypt(c, iv, Pad(text));
    forall i | 0 <= i < 16 ensures DigitsAt(Seal(c, iv, text), 2 * i, iv[i]) {
      HexOctets(iv, i);
    }
    forall i | 0 <= i < |d| ensures DigitsAt(Seal(c, iv, text), 32 + 2 * i, d[i]) {
      HexOctets(d, i);
    }
  }

  /** Everything that is stored consists of the digits bytes_to_hex writes. */
  lemma SealCanonical(c: Cipher, iv: Block, text: seq<byte>)
    ensures Canonical(Seal(c, iv, text))
  {
    HexCanonical(iv);
    HexCanonical(CbcEncrypt(c, iv, Pad(text)));
  }

  datatype Opened = TooShort | Unreadable | Plain(bytes: seq<byte>)

  /**
   * crypto_decrypt's result, as octets. The two buffers of hex_to_bytes start out
   * uninitialised; `ivWas` and `was` stand for whatever they held.
   */
  function OpenWith(c: Cipher, h: seq<byte>, ivWas: Block, was: seq<byte>): (r: Opened)
    requires |was| == if |h| < 32 then 0 else (|h| - 32) / 2
  {
    if |h| < 32 then TooShort else
      var iv: Block := Unhex(h[..32], ivWas);
      var d := Unhex(h[32..], was);
      if !Aligned(d) then Unreadable else
        match Unpad(CbcDecrypt(c, iv, d))
        case Some(p) => Plain(p)
        case None => Unreadable
  }

  function Open(c: Cipher, h: seq<byte>): Opened {
    OpenWith(c, h, seq(16, _ => 0), seq(if |h| < 32 then 0 else (|h| - 32) / 2, _ => 0))
  }

  /** Round trip, whatever the uninitialised buffers held. */
  lemma OpenSeal(c: BlockCipher, iv: Block, text: seq<byte>, ivWas: Block, was: seq<byte>)
    requires |was| == 16 * (|text| / 16 + 1)
    ensures OpenWith(c, Seal(c, iv, text), ivWas, was) == Plain(text)
  {
    var d := CbcEncrypt(c, iv, Pad(text));
    var h := Seal(c, iv, text);
    assert h[..32] == Hex(iv) && h[32..] == Hex(d);
    HexUndo(iv, ivWas);
    HexUndo(d, was);
    CbcUndo(c, iv, Pad(text));
    PadUndo(text);
  }

  lemma SealOpens(c: BlockCipher, iv: Block, text: seq<byte>)
    ensures Open(c, Seal(c, iv, text)) == Plain(text)
  {
    OpenSeal(c, iv, text, seq(16, _ => 0), seq((|Seal(c, iv, text)| - 32) / 2, _ => 0));
  }

  lemma CanonicalSplit(h: seq<byte>, n: nat)
    requires Canonical(h) && n <= |h| && n % 2 == 0
    ensures Canonical(h[..n]) && Canonical(h[n..])
  {
    forall i | 0 <= i < |h| - n ensures h[n..][i] == h[n + i] { }
  }

  /** Whatever opens was sealed under the IV it carries. */
  lemma ResealOpened(c: BlockCipher, h: seq<byte>, p: seq<byte>)
    requires Canonical(h) && Open(c, h) == Plain(p)
    ensures h == Seal(c, Unhex(h[..32], seq(16, _ => 0)), p)
  {
    var zeros := seq(16, _ => 0);
    var was := seq((|h| - 32) / 2, _ => 0);
    var iv: Block := Unhex(h[..32], zeros);
    var d := Unhex(h[32..], was);
    CanonicalSplit(h, 32);
    HexRedo(h[..32], zeros);
    HexRedo(h[32..], was);
    PadRedo(CbcDecrypt(c, iv, d));
    CbcRedo(c, iv, d);
    assert h == h[..32] + h[32..];
  }

  /**
   * On canonical hex, decryption succeeds with p exactly on the envelopes of p: nothing but
   * an envelope opens, and an envelope opens to nothing but what was put in it.
   */
  lemma OpensExactlyEnvelopes(c: BlockCipher, h: seq<byte>, p: seq<byte>)
    requires Canonical(h)
    ensures Open(c, h) == Plain(p) <==> exists iv: Block :: h == Seal(c, iv, p)
  {
    if Open(c, h) == Plain(p) {
      ResealOpened(c, h, p);
    }
    if iv: Block :| h == Seal(c, iv, p) {
      OpenSeal(c, iv, p, seq(16, _ => 0), seq((|h| - 32) / 2, _ => 0));
    }
  }

  /** Sealing loses nothing: equal envelopes have equal IVs and equal texts. */
  lemma SealInjective(c: BlockCipher, iv1: Block, s1: seq<byte>, iv2: Block, s2: seq<byte>)
    requires Seal(c, iv1, s1) == Seal(c, iv2, s2)
    ensures iv1 == iv2 && s1 == s2
  {
    var h := Seal(c, iv1, s1);
    var was := seq((|h| - 32) / 2, _ => 0);
    assert h[..32] == Hex(iv1) && h[..32] == Hex(iv2);
    HexUndo(iv1, seq(16, _ => 0));
    HexUndo(iv2, seq(16, _ => 0));
    OpenSeal(c, iv1, s1, iv1, was);
    OpenSeal(c, iv2, s2, iv1, was);
  }

  // ---- src/common/crypto.c ----

  /**
   * Message texts: C strings short enough for crypto_encrypt's `int` arithmetic on the
   * envelope's size.
   */
  const MAX_TEXT := 0x3FFF_FFDF

  type Text = s: seq<byte> | 0 !in s && |s| <= MAX_TEXT witness []

  /** A buffer and the chaining value. */
  datatype Progress = Progress(out: seq<byte>, chain: Block)

  /** The first k blocks, and the block behind them. */
  function Blocks(input: seq<byte>, k: nat): (r: seq<byte>)
    requires 16 * k <= |input|
    ensures |r| == 16 * k && Aligned(r)
    ensures 16 * k + 16 <= |input| ==> input[..16 * (k + 1)] == r + BlockAt(input, k)
  {
    input[..16 * k]
  }

  function BlockAt(input: seq<byte>, k: nat): Block
    requires 16 * k + 16 <= |input|
  {
    input[16 * k..16 * k + 16]
  }

  function EncryptOne(c: Cipher, block: Block, at: nat, was: Progress): (r: Progress)
    requires at + 16 <= |was.out|
    ensures |r.out| == |was.out|
  {
    var secret := c.enc(XorBlock(block, was.chain));
    Progress(Overwrite(was.out, at, secret), secret)
  }

  function DecryptOne(c: Cipher, block: Block, at: nat, was: Progress): (r: Progress)
    requires at + 16 <= |was.out|
    ensures |r.out| == |was.out|
  {
    Progress(Overwrite(was.out, at, XorBlock(c.dec(block), was.chain)), block)
  }

  /** Before the first block. */
  lemma NothingYet(c: Cipher, iv: Block, was: seq<byte>, off: nat)
    requires off <= |was|
    ensures EncryptedTo(c, iv, [], was, off) == Progress(was, iv)
    ensures DecryptedTo(c, iv, [], was, off) == Progress(was, iv)
  {
    assert Overwrite(was, off, []) == was;
  }

  lemma NextPart(was: seq<byte>, off: nat, s: seq<byte>, t: seq<byte>)
    requires off + |s| + |t| <= |was|
    ensures Overwrite(Overwrite(was, off, s), off + |s|, t) == Overwrite(was, off, s + t)
  {
    assert s + [] == s;
    OverwriteAgain(was, off, s, [], t);
  }

  lemma EncryptTurn(c: Cipher, iv: Block, p: seq<byte>, q: Block)
    requires Aligned(p)
    ensures var done := CbcEncrypt(c, iv, p);
            var block := c.enc(XorBlock(q, Chain(iv, done)));
            CbcEncrypt(c, iv, p + q) == done + block && Chain(iv, done + block) == block
  {
    CbcEncryptSplit(c, iv, p, q);
    CbcSingle(c, Chain(iv, CbcEncrypt(c, iv, p)), q);
  }

  lemma DecryptTurn(c: Cipher, iv: Block, p: seq<byte>, q: Block)
    requires Aligned(p)
    ensures CbcDecrypt(c, iv, p + q) == CbcDecrypt(c, iv, p) + XorBlock(c.dec(q), Chain(iv, p))
    ensures Chain(iv, p + q) == q
  {
    CbcDecryptSplit(c, iv, p, q);
    CbcSingle(c, Chain(iv, p), q);
  }

  /** Where encrypting p to offset off leaves the buffer `was` and the chaining value. */
  function EncryptedTo(c: Cipher, iv: Block, p: seq<byte>, was: seq<byte>, off: nat): Progress
    requires Aligned(p) && off + |p| <= |was|
  {
    var d := CbcEncrypt(c, iv, p);
    Progress(Overwrite(was, off, d), Chain(iv, d))
  }

  function DecryptedTo(c: Cipher, iv: Block, d: seq<byte>, was: seq<byte>, off: nat): Progress
    requires Aligned(d) && off + |d| <= |was|
  {
    Progress(Overwrite(was, off, CbcDecrypt(c, iv, d)), Chain(iv, d))
  }

  lemma EncryptedOn(c: Cipher, iv: Block, p: seq<byte>, q: Block, was: seq<byte>, off: nat)
    requires Aligned(p) && off + |p| + 16 <= |was|
    ensures EncryptOne(c, q, off + |p|, EncryptedTo(c, iv, p, was, off)) == EncryptedTo(c, iv, p + q, was, off)
  {
    EncryptTurn(c, iv, p, q);
    NextPart(was, off, CbcEncrypt(c, iv, p), c.enc(XorBlock(q, Chain(iv, CbcEncrypt(c, iv, p)))));
  }

  lemma DecryptedOn(c: Cipher, iv: Block, p: seq<byte>, q: Block, was: seq<byte>, off: nat)
    requires Aligned(p) && off + |p| + 16 <= |was|
    ensures DecryptOne(c, q, off + |p|, DecryptedTo(c, iv, p, was, off)) == DecryptedTo(c, iv, p + q, was, off)
  {
    DecryptTurn(c, iv, p, q);
    NextPart(was, off, CbcDecrypt(c, iv, p), XorBlock(c.dec(q), Chain(iv, p)));
  }

  /** How many blocks a decrypting update call gives out: not the last one if it is complete. */
  function BlocksFreed(len: nat): (k: nat)
    ensures 16 * k <= len
    ensures 16 * k == if len % 16 == 0 && len != 0 then len - 16 else len / 16 * 16
  {
    if len % 16 == 0 && len != 0 then len / 16 - 1 else len / 16
  }

  /** One EVP cipher context, used for a single update call and a final call. */
  class EvpContext {
    const cipher: Cipher
    var chain: Block
    var held: seq<byte>

    constructor (cipher: Cipher, iv: Block)
      ensures this.cipher == cipher && chain == iv && held == []
    {
      this.cipher, chain, held := cipher, iv, [];
    }

    method EncryptBlock(out: array<byte>, off: nat, block: Block)
      requires off + 16 <= out.Length
      modifies this`chain, out
      ensures Progress(out[..], chain) == EncryptOne(cipher, block, off, Progress(old(out[..]), old(chain)))
    {
      chain := cipher.enc(XorBlock(block, chain));
      Copy(out, off, chain);
    }

    method DecryptBlock(out: array<byte>, off: nat, block: Block)
      requires off + 16 <= out.Length
      modifies this`chain, out
      ensures Progress(out[..], chain) == DecryptOne(cipher, block, off, Progress(old(out[..]), old(chain)))
    {
      Copy(out, off, XorBlock(cipher.dec(block), chain));
      chain := block;
    }

    method EncryptBlocks(out: array<byte>, off: nat, input: seq<byte>, blocks: nat)
      requires 16 * blocks <= |input| && off + 16 * blocks <= out.Length
      modifies this`chain, out
      ensures Progress(out[..], chain) == EncryptedTo(cipher, old(chain), Blocks(input, blocks), old(out[..]), off)
    {
      ghost var was, iv := out[..], chain;
      NothingYet(cipher, iv, was, off);
      for k := 0 to blocks
        invariant Progress(out[..], chain) == EncryptedTo(cipher, iv, Blocks(input, k), was, off)
      {
        EncryptedOn(cipher, iv, Blocks(input, k), BlockAt(input, k), was, off);
        EncryptBlock(out, off + 16 * k, BlockAt(input, k));
      }
    }

    method EncryptUpdate(out: array<byte>, off: nat, input: seq<byte>) returns (n: nat)
      requires held == []
      requires off + |input| / 16 * 16 <= out.Length
      modifies this, out
      ensures n == |input| / 16 * 16
      ensures out[..] == Overwrite(old(out[..]), off, CbcEncrypt(cipher, old(chain), input[..n]))
      ensures chain == Chain(old(chain), CbcEncrypt(cipher, old(chain), input[..n]))
      ensures held == input[n..]
    {
      ghost var was, iv := out[..], chain;
      var blocks := |input| / 16;
      EncryptBlocks(out, off, input, blocks);
      n := 16 * blocks;
      held := input[n..];
    }

    method EncryptFinal(out: array<byte>, off: nat) returns (n: nat)
      requires |held| < 16 && off + 16 <= out.Length
      modifies out
      ensures n == 16
      ensures out[..] == Overwrite(old(out[..]), off, CbcEncrypt(cipher, chain, Pad(held)))
    {
      var padded := Pad(held);
      var block := cipher.enc(XorBlock(padded, chain));
      CbcSingle(cipher, chain, padded);
      Copy(out, off, block);
      n := 16;
    }

    /** Decryption withholds a last complete block, since it carries the padding. */
    method DecryptBlocks(out: array<byte>, off: nat, input: seq<byte>, blocks: nat)
      requires 16 * blocks <= |input| && off + 16 * blocks <= out.Length
      modifies this`chain, out
      ensures Progress(out[..], chain) == DecryptedTo(cipher, old(chain), Blocks(input, blocks), old(out[..]), off)
    {
      ghost var was, iv := out[..], chain;
      NothingYet(cipher, iv, was, off);
      for k := 0 to blocks
        invariant Progress(out[..], chain) == DecryptedTo(cipher, iv, Blocks(input, k), was, off)
      {
        DecryptedOn(cipher, iv, Blocks(input, k), BlockAt(input, k), was, off);
        DecryptBlock(out, off + 16 * k, BlockAt(input, k));
      }
    }

    method DecryptUpdate(out: array<byte>, off: nat, input: seq<byte>) returns (n: nat)
      requires held == []
      requires off + |input| <= out.Length
      modifies this, out
      ensures n == if |input| % 16 == 0 && input != [] then |input| - 16 else |input| / 16 * 16
      ensures out[..] == Overwrite(old(out[..]), off, CbcDecrypt(cipher, old(chain), input[..n]))
      ensures chain == Chain(old(chain), input[..n])
      ensures held == input[n..]
    {
      ghost var was, iv := out[..], chain;
      var blocks := BlocksFreed(|input|);
      DecryptBlocks(out, off, input, blocks);
      n := 16 * blocks;
      held := input[n..];
    }

    /** Fails unless exactly one withheld block decrypts to well-formed padding. */
    method DecryptFinal(out: array<byte>, off: nat) returns (ok: bool, n: nat)
      requires |held| <= 16 && off + |held| <= out.Length
      modifies out
      ensures ok <==> |held| == 16 && Unpad(CbcDecrypt(cipher, chain, held)).Some?
      ensures ok ==> var last := Unpad(CbcDecrypt(cipher, chain, held)).value;
                     n == |last| && n <= 16 && out[..] == Overwrite(old(out[..]), off, last)
      ensures !ok ==> out[..] == old(out[..])
    {
      ok, n := false, 0;
      if |held| == 16 {
        var clear := XorBlock(cipher.dec(held), chain);
        CbcSingle(cipher, chain, held);
        match Unpad(clear)
        case None =>
        case Some(last) =>
          Copy(out, off, last);
          ok, n := true, |last|;
      }
    }
  }

  /** bytes_to_hex: each sprintf writes two digits and a NUL that the next one overwrites. */
  method BytesToHex(bytes: seq<byte>, out: array<byte>, off: nat)
    requires off + 2 * |bytes| + 1 <= out.Length
    modifies out
    ensures out[..] == Overwrite(old(out[..]), off, Hex(bytes) + [0])
  {
    HexPairs(bytes, out, off);
    assert bytes[..|bytes|] == bytes;
    if |bytes| == 0 {
      out[off] := 0;
    }
  }

  /** The loop of bytes_to_hex. */
  method HexPairs(bytes: seq<byte>, out: array<byte>, off: nat)
    requires off + 2 * |bytes| + 1 <= out.Length
    modifies out
    ensures Hexed(old(out[..]), off, bytes, |bytes|, out[..])
  {
    for i := 0 to |bytes|
      invariant Hexed(old(out[..]), off, bytes, i, out[..])
    {
      HexTurn(old(out[..]), off, bytes, i, out[..]);
      Copy(out, off + 2 * i, [HexDigit(bytes[i] / 16), HexDigit(bytes[i] % 16), 0]);
    }
  }

  /** The buffer `was` after i octets were written as digits, with a NUL behind them. */
  ghost predicate Hexed(was: seq<byte>, off: nat, bytes: seq<byte>, i: nat, out: seq<byte>) {
    && i <= |bytes| && off + 2 * |bytes| + 1 <= |was|
    && out == Overwrite(was, off, Hex(bytes[..i]) + if i == 0 then [] else [0])
  }

  /** One sprintf: two digits over the NUL of the one before, and a new NUL. */
  lemma HexTurn(was: seq<byte>, off: nat, bytes: seq<byte>, i: nat, out: seq<byte>)
    requires i < |bytes| && Hexed(was, off, bytes, i, out)
    ensures var digits := [HexDigit(bytes[i] / 16), HexDigit(bytes[i] % 16), 0];
            |out| == |was| && Hexed(was, off, bytes, i + 1, Overwrite(out, off + 2 * i, digits))
  {
    var digits := [HexDigit(bytes[i] / 16), HexDigit(bytes[i] % 16), 0];
    var done := Hex(bytes[..i]);
    OverwriteAgain(was, off, done, if i == 0 then [] else [0], digits);
    HexSnoc(bytes[..i], bytes[i]);
    assert bytes[..i] + [bytes[i]] == bytes[..i + 1];
    assert done + digits == Hex(bytes[..i + 1]) + [0];
  }

  lemma {:induction false} HexSnoc(s: seq<byte>, b: byte)
    ensures Hex(s + [b]) == Hex(s) + [HexDigit(b / 16), HexDigit(b % 16)]
  {
    if s != [] {
      HexSnoc(s[1..], b);
      assert (s + [b])[1..] == s[1..] + [b];
    } else {
      assert ([] + [b])[1..] == [];
    }
  }

  /** hex_to_bytes. */
  method HexToBytes(h: seq<byte>, bytes: array<byte>)
    requires bytes.Length == |h| / 2
    modifies bytes
    ensures bytes[..] == Unhex(h, old(bytes[..]))
  {
    ghost var was := bytes[..];
    for i := 0 to |h| / 2
      invariant Unhexed(h, was, i, bytes[..])
    {
      UnhexTurn(h, was, i, bytes[..]);
      bytes[i] := ScanPair(h[2 * i], h[2 * i + 1], bytes[i]);
    }
  }

  /** The buffer `was` after the first i pairs of digits were converted. */
  ghost predicate Unhexed(h: seq<byte>, was: seq<byte>, i: nat, now: seq<byte>) {
    && |was| == |now| == |h| / 2 && i <= |h| / 2 && now[i..] == was[i..]
    && Unhex(h, was) == now[..i] + Unhex(h[2 * i..], was[i..])
  }

  lemma UnhexTurn(h: seq<byte>, was: seq<byte>, i: nat, now: seq<byte>)
    requires i < |h| / 2 && Unhexed(h, was, i, now)
    ensures Unhexed(h, was, i + 1, now[i := ScanPair(h[2 * i], h[2 * i + 1], now[i])])
  {
    var pair := ScanPair(h[2 * i], h[2 * i + 1], now[i]);
    assert now[i] == was[i..][0];
    UnhexStep(h, was, i);
    assert now[i := pair][..i + 1] == now[..i] + [pair];
    assert now[i := pair][i + 1..] == now[i..][1..];
  }

  lemma UnhexStep(h: seq<byte>, was: seq<byte>, i: nat)
    requires |was| == |h| / 2 && i < |h| / 2
    ensures Unhex(h[2 * i..], was[i..])
         == [ScanPair(h[2 * i], h[2 * i + 1], was[i])] + Unhex(h[2 * (i + 1)..], was[i + 1..])
  {
    assert h[2 * i..][2..] == h[2 * (i + 1)..] && was[i..][1..] == was[i + 1..];
  }

  /** crypto_encrypt. None stands for a key never set by crypto_init. */
  method CryptoEncrypt(key: Option<BlockCipher>, iv: Block, text: Text) returns (hex: array?<byte>)
    ensures hex == null <==> key.None?
    ensures hex != null ==> fresh(hex) && hex[..] == Seal(key.value, iv, text) + [0]
    ensures hex != null ==> hex.Length <= INT_MAX
  {
    if key.None? {
      return null;
    }
    var len := |text|;
    var ciphertext := new byte[len + 32];
    var totalLen := EncryptInto(key.value, iv, text, ciphertext);
    hex := new byte[32 + totalLen * 2 + 1];
    ghost var blank := hex[..];
    BytesToHex(iv, hex, 0);
    BytesToHex(ciphertext[..totalLen], hex, 32);
    OverwriteAgain(blank, 0, Hex(iv), [0], Hex(ciphertext[..totalLen]) + [0]);
  }

  /** The update and final calls of crypto_encrypt, inside a buffer of len + 32 octets. */
  method EncryptInto(cipher: Cipher, iv: Block, text: Text, out: array<byte>) returns (totalLen: nat)
    requires out.Length == |text| + 32
    modifies out
    ensures totalLen == 16 * (|text| / 16 + 1) <= out.Length
    ensures out[..totalLen] == CbcEncrypt(cipher, iv, Pad(text))
  {
    var ctx := new EvpContext(cipher, iv);
    ghost var blank := out[..];
    var cLen := ctx.EncryptUpdate(out, 0, text);
    var fLen := ctx.EncryptFinal(out, cLen);
    totalLen := cLen + fLen;
    PaddedInParts(cipher, iv, text, cLen);
    ghost var head := CbcEncrypt(cipher, iv, text[..cLen]);
    InParts(blank, head, CbcEncrypt(cipher, Chain(iv, head), Pad(text[cLen..])));
  }

  /** Two copies, the second one right behind the first. */
  lemma InParts(blank: seq<byte>, head: seq<byte>, last: seq<byte>)
    requires |head| + |last| <= |blank|
    ensures Overwrite(Overwrite(blank, 0, head), |head|, last)[..|head| + |last|] == head + last
  {
    assert head + [] == head;
    OverwriteAgain(blank, 0, head, [], last);
  }

  /** Whole blocks first, then what is left of the text with its padding. */
  lemma PaddedInParts(c: Cipher, iv: Block, text: seq<byte>, n: nat)
    requires n == |text| / 16 * 16
    ensures var head := CbcEncrypt(c, iv, text[..n]);
            CbcEncrypt(c, iv, Pad(text)) == head + CbcEncrypt(c, Chain(iv, head), Pad(text[n..]))
  {
    assert Pad(text) == text[..n] + Pad(text[n..]);
    CbcEncryptSplit(c, iv, text[..n], Pad(text[n..]));
  }

  const UNREADABLE: seq<byte> :=
    [91, 85, 110, 114, 101, 97, 100, 97, 98, 108, 101, 32, 69, 110, 99, 114, 121, 112, 116, 101, 100, 32,
     77, 101, 115, 115, 97, 103, 101, 93]

  lemma UnreadableIs()
    ensures |UNREADABLE| == 30
    ensures forall i :: 0 <= i < 30 ==> UNREADABLE[i] == "[Unreadable Encrypted Message]"[i] as int
  {
  }

  /** The C string crypto_decrypt hands out for an opened envelope; None is NULL. */
  function Shown(o: Opened): Option<seq<byte>> {
    match o
    case TooShort => None
    case Unreadable => Some(UNREADABLE)
    case Plain(p) => Some(CStr(p))
  }

  /** crypto_decrypt, for any C string stored in the text column. */
  method CryptoDecrypt(key: Option<BlockCipher>, h: seq<byte>) returns (r: Option<seq<byte>>)
    requires 0 !in h && |h| <= INT_MAX
    ensures key.None? ==> r == None
    ensures key.Some? ==>
      exists ivWas: Block, was: seq<byte> ::
        |was| == (if |h| < 32 then 0 else (|h| - 32) / 2) && r == Shown(OpenWith(key.value, h, ivWas, was))
    ensures key.Some? ==> (r == None <==> |h| < 32)
    ensures key.Some? && |h| >= 32 && (|h| - 32) / 2 % 16 != 0 ==> r == Some(UNREADABLE)
  {
    var hexLen := |h|;
    if key.None? {
      return None;
    }
    if hexLen < 32 {
      r := None;
      assert r == Shown(OpenWith(key.value, h, seq(16, _ => 0), []));
      return;
    }
    var iv := new byte[16];
    ghost var ivWas: Block := iv[..];
    HexToBytes(h[..32], iv);
    var cipherLen := (hexLen - 32) / 2;
    var ciphertext := new byte[cipherLen];
    ghost var was := ciphertext[..];
    HexToBytes(h[32..], ciphertext);
    var plaintext := new byte[cipherLen + 32];
    var ok, len := DecryptInto(key.value, iv[..], ciphertext[..], plaintext);
    ghost var result := OpenWith(key.value, h, ivWas, was);
    if !ok {
      r := Some(UNREADABLE);
      assert r == Shown(result);
      return;
    }
    plaintext[len] := 0;
    assert result == Plain(plaintext[..len]);
    CutBefore(plaintext[..], len);
    r := Some(CStr(plaintext[..]));
    assert r == Shown(result);
  }

  /** The update and final calls of crypto_decrypt, inside a buffer of cipher_len + 32 octets. */
  method DecryptInto(cipher: Cipher, iv: Block, d: seq<byte>, out: array<byte>) returns (ok: bool, len: nat)
    requires out.Length == |d| + 32
    modifies out
    ensures ok <==> Aligned(d) && Unpad(CbcDecrypt(cipher, iv, d)).Some?
    ensures ok ==> len < out.Length && out[..len] == Unpad(CbcDecrypt(cipher, iv, d)).value
  {
    var ctx := new EvpContext(cipher, iv);
    ghost var blank := out[..];
    var pLen := ctx.DecryptUpdate(out, 0, d);
    ghost var head := CbcDecrypt(cipher, iv, d[..pLen]);
    var fLen;
    ok, fLen := ctx.DecryptFinal(out, pLen);
    len := pLen + fLen;
    if |d| - pLen == 16 {
      UnpaddedInParts(cipher, iv, d, pLen);
      if ok {
        InParts(blank, head, Unpad(CbcDecrypt(cipher, Chain(iv, d[..pLen]), d[pLen..])).value);
      }
    }
  }

  /** All blocks but the last, then the last one without its padding. */
  lemma UnpaddedInParts(c: Cipher, iv: Block, d: seq<byte>, n: nat)
    requires n % 16 == 0 && n + 16 == |d|
    ensures var last := Unpad(CbcDecrypt(c, Chain(iv, d[..n]), d[n..]));
            Unpad(CbcDecrypt(c, iv, d))
            == if last.Some? then Some(CbcDecrypt(c, iv, d[..n]) + last.value) else None
  {
    assert d == d[..n] + d[n..];
    CbcDecryptSplit(c, iv, d[..n], d[n..]);
    UnpadSuffix(CbcDecrypt(c, iv, d[..n]), CbcDecrypt(c, Chain(iv, d[..n]), d[n..]));
  }

  lemma UnpadSuffix(head: seq<byte>, last: seq<byte>)
    requires Aligned(head) && |last| == 16
    ensures Unpad(head + last).Some? == Unpad(last).Some?
    ensures Unpad(last).Some? ==> Unpad(head + last).value == head + Unpad(last).value
  {
    var s := head + last;
    var k := s[|s| - 1];
    assert k == last[15];
    if 1 <= k <= 16 {
      assert s[|s| - k..] == last[16 - k..];
      assert (forall i | |s| - k <= i < |s| :: s[i] == k) <==> forall i | 16 - k <= i < 16 :: last[i] == k by {
        forall i | 16 - k <= i < 16 ensures last[i] == s[|head| + i] { }
        forall i | |s| - k <= i < |s| ensures s[i] == last[i - |head|] { }
      }
      assert s[..|s| - k] == head + last[..16 - k];
    }
  }

  /** A NUL-free text comes back from the stored hex unchanged. */
  method RoundTrip(key: BlockCipher, iv: Block, text: Text) returns (r: Option<seq<byte>>)
    ensures r == Some(text)
  {
    var hex := CryptoEncrypt(Some(key), iv, text);
    var stored := hex[..hex.Length - 1];
    assert stored == Seal(key, iv, text);
    r := CryptoDecrypt(Some(key), stored);
    ghost var ivWas: Block, was: seq<byte> :|
      |was| == (|stored| - 32) / 2 && r == Shown(OpenWith(key, stored, ivWas, was));
    ShownSealed(key, iv, text, ivWas, was);
  }

  /** What crypto_decrypt hands out for an envelope. */
  lemma ShownSealed(key: BlockCipher, iv: Block, text: Text, ivWas: Block, was: seq<byte>)
    requires |was| == 16 * (|text| / 16 + 1)
    ensures Shown(OpenWith(key, Seal(key, iv, text), ivWas, was)) == Some(text)
  {
    OpenSeal(key, iv, text, ivWas, was);
    CStrWhole(text);
  }

  lemma {:induction false} CStrWhole(s: seq<byte>)
    requires 0 !in s
    ensures CStr(s) == s
  {
    if s != [] {
      CStrWhole(s[1..]);
    }
  }
}
