/** Octets, C strings, and small facts about sequences that several modules share. */
module Bytes {

  datatype Option<+T> = None | Some(value: T)

  type byte = x: int | 0 <= x < 256

  const INT_MAX := 0x7FFF_FFFF
  const U32_SIZE := 0x1_0000_0000

  /** What a `char *` denotes: the octets before the first NUL of a buffer. */
  function CStr(s: seq<byte>): (r: seq<byte>)
    ensures 0 !in r && r <= s
    ensures |r| < |s| ==> s[|r|] == 0
  {
    if s == [] || s[0] == 0 then [] else [s[0]] + CStr(s[1..])
  }

  lemma {:induction false} CStrUntil(s: seq<byte>, n: nat)
    requires n < |s| && s[n] == 0 && 0 !in s[..n]
    ensures CStr(s) == s[..n]
  {
    if n > 0 {
      assert s[0] == s[..n][0];
      assert s[1..][..n - 1] == s[..n][1..];
      CStrUntil(s[1..], n - 1);
    }
  }

  /** The first n elements of s, all of it if it has no more. */
  function Cut<T>(s: seq<T>, n: nat): (r: seq<T>)
    ensures r <= s && |r| == if |s| <= n then |s| else n
  {
    if |s| <= n then s else s[..n]
  }

  // ---- writing into a buffer ----

  /** The buffer after s was copied to offset off. */
  function Overwrite(buf: seq<byte>, off: nat, s: seq<byte>): (r: seq<byte>)
    requires off + |s| <= |buf|
    ensures |r| == |buf|
  {
    buf[..off] + s + buf[off + |s|..]
  }

  lemma OverwriteAt(buf: seq<byte>, off: nat, s: seq<byte>, i: nat)
    requires off + |s| <= |buf| && i < |buf|
    ensures Overwrite(buf, off, s)[i] == if off <= i < off + |s| then s[i - off] else buf[i]
  {
  }

  /** A second copy may start inside the first one and must reach at least as far. */
  lemma OverwriteAgain(buf: seq<byte>, off: nat, s: seq<byte>, t: seq<byte>, u: seq<byte>)
    requires |t| <= |u| && off + |s| + |u| <= |buf|
    ensures Overwrite(Overwrite(buf, off, s + t), off + |s|, u) == Overwrite(buf, off, s + u)
  {
    var once := Overwrite(buf, off, s + t);
    assert once[..off + |s|] == buf[..off] + s;
    assert once[off + |s| + |u|..] == buf[off + |s| + |u|..];
  }

  /** memcpy of s to out + off. */
  method Copy(out: array<byte>, off: nat, s: seq<byte>)
    requires off + |s| <= out.Length
    modifies out
    ensures out[..] == Overwrite(old(out[..]), off, s)
  {
    for i := 0 to |s|
      invariant out[off..off + i] == s[..i]
      invariant out[..off] == old(out[..off]) && out[off + i..] == old(out[off + i..])
    {
      out[off + i] := s[i];
    }
    assert out[..] == out[..off] + out[off..off + |s|] + out[off + |s|..];
  }

  // ---- C strings in memory ----

  /** A C string s at the start of a buffer. */
  predicate Holds(mem: seq<byte>, s: seq<byte>) {
    |s| < |mem| && mem[..|s|] == s && mem[|s|] == 0
  }

  lemma HoldsCStr(mem: seq<byte>, s: seq<byte>)
    requires Holds(mem, s) && 0 !in s
    ensures CStr(mem) == s
  {
    CStrUntil(mem, |s|);
  }

  /** A NUL after n octets: the string is that of these octets. */
  lemma CutBefore(s: seq<byte>, n: nat)
    requires n < |s| && s[n] == 0
    ensures CStr(s) == CStr(s[..n]) && |CStr(s)| <= n
  {
    var c := CStr(s[..n]);
    assert s[..n][..|c|] == s[..|c|] == c;
    CStrUntil(s, |c|);
  }

  /** strdup. */
  method Duplicate(text: seq<byte>) returns (copy: array<byte>)
    ensures fresh(copy) && copy.Length == |text| + 1 && Holds(copy[..], text)
  {
    copy := new byte[|text| + 1];
    Copy(copy, 0, text);
    copy[|text|] := 0;
    assert copy[..|text|] == text;
  }

  /** realloc: what fits of the old octets, then anything. */
  method Reallocate(mem: array<byte>, size: nat, ghost keep: nat) returns (bigger: array<byte>)
    requires keep < mem.Length && keep < size
    ensures fresh(bigger) && bigger.Length == size
    ensures bigger[..keep + 1] == mem[..keep + 1]
  {
    bigger := new byte[size];
    var n := if mem.Length < size then mem.Length else size;
    Copy(bigger, 0, mem[..n]);
    assert bigger[..n] == mem[..n];
    assert bigger[..n][..keep + 1] == mem[..n][..keep + 1];
  }
}
