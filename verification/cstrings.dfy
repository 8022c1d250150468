/**
 * C strings in their buffers: the library functions and the trimming function that
 * src/common/config_loader.c applies to its line buffer, on values and in place.
 */
module CStrings {
  import opened Bytes

  const NUL: char := '\0'
  const NEWLINE: char := '\n'

  predicate IsSpace(c: char) {
    c == ' ' || '\t' <= c <= '\r'
  }

  // ---- C strings and their library ----

  /** Longest beginning without c. */
  function Before(s: string, c: char): (r: string)
    ensures r <= s && c !in r
    ensures |r| < |s| ==> s[|r|] == c
  {
    if s == "" || s[0] == c then "" else [s[0]] + Before(s[1..], c)
  }

  lemma BeforeIs(s: string, c: char, n: nat)
    requires n <= |s| && c !in s[..n] && (n < |s| ==> s[n] == c)
    ensures |Before(s, c)| == n
  {
    assert forall i :: 0 <= i < n ==> s[..n][i] == s[i];
    assert forall i :: 0 <= i < |Before(s, c)| ==> Before(s, c)[i] == s[i];
  }

  /** What a string function sees of a buffer. */
  function UntilNul(s: string): (r: string)
    ensures r <= s && NUL !in r
    ensures |r| < |s| ==> s[|r|] == NUL
  {
    Before(s, NUL)
  }

  lemma UntilNulAt(s: string, n: nat)
    requires n <= |s| && NUL !in s[..n] && (n < |s| ==> s[n] == NUL)
    ensures UntilNul(s) == s[..n]
  {
    BeforeIs(s, NUL, n);
  }

  function SkipSpaces(s: string): (r: string)
    ensures |r| <= |s|
    ensures r != "" ==> !IsSpace(r[0])
  {
    if s == "" || !IsSpace(s[0]) then s else SkipSpaces(s[1..])
  }

  function DropSpacesEnd(s: string): (r: string)
    ensures r <= s
    ensures r != "" ==> !IsSpace(r[|r| - 1])
  {
    if s == "" || !IsSpace(s[|s| - 1]) then s else DropSpacesEnd(s[..|s| - 1])
  }

  function Trim(s: string): (r: string) {
    DropSpacesEnd(SkipSpaces(s))
  }

  predicate Trimmed(s: string) {
    s != "" ==> !IsSpace(s[0]) && !IsSpace(s[|s| - 1])
  }

  lemma {:induction false} DropKeepsStart(s: string)
    requires s != "" && !IsSpace(s[0])
    ensures DropSpacesEnd(s) != ""
    decreases |s|
  {
    if IsSpace(s[|s| - 1]) {
      DropKeepsStart(s[..|s| - 1]);
    }
  }

  /** Trimming does what it says, and nothing to what is trimmed already. */
  lemma TrimExact(s: string)
    ensures Trimmed(Trim(s)) && Trim(Trim(s)) == Trim(s)
    ensures Trim(s) == s <==> Trimmed(s)
    ensures |Trim(s)| <= |s|
  {
    var t := SkipSpaces(s);
    if t != "" {
      DropKeepsStart(t);
    }
  }

  predicate AllSpaces(s: string) {
    forall i :: 0 <= i < |s| ==> IsSpace(s[i])
  }

  lemma {:induction false} SkipSpacesIs(s: string) returns (w: string)
    ensures AllSpaces(w) && s == w + SkipSpaces(s)
  {
    w := "";
    if s != "" && IsSpace(s[0]) {
      var v := SkipSpacesIs(s[1..]);
      w := [s[0]] + v;
    }
  }

  lemma {:induction false} DropSpacesEndIs(s: string) returns (w: string)
    ensures AllSpaces(w) && s == DropSpacesEnd(s) + w
    decreases |s|
  {
    w := "";
    if s != "" && IsSpace(s[|s| - 1]) {
      var v := DropSpacesEndIs(s[..|s| - 1]);
      w := v + [s[|s| - 1]];
    }
  }

  /** Trimming takes away white space only, before and behind. */
  lemma TrimTakesSpaces(s: string) returns (before: string, behind: string)
    ensures AllSpaces(before) && AllSpaces(behind) && s == before + Trim(s) + behind
  {
    before := SkipSpacesIs(s);
    behind := DropSpacesEndIs(SkipSpaces(s));
  }

  function SkipChar(s: string, c: char): (r: string)
    ensures |r| <= |s|
    ensures r != "" ==> r[0] != c
  {
    if s == "" || s[0] != c then s else SkipChar(s[1..], c)
  }

  lemma {:induction false} SkipCharIs(s: string, c: char) returns (w: string)
    ensures (forall i :: 0 <= i < |w| ==> w[i] == c) && s == w + SkipChar(s, c)
  {
    w := "";
    if s != "" && s[0] == c {
      var v := SkipCharIs(s[1..], c);
      w := [c] + v;
    }
  }

  /** strtok with one delimiter: the next token and what is left for the next call. */
  function Token(s: string, delim: char): (r: Option<(string, string)>) {
    var t := SkipChar(s, delim);
    if t == "" then None else
      var tok := Before(t, delim);
      Some((tok, if |tok| == |t| then "" else t[|tok| + 1..]))
  }

  /**
   * A token is what stands between delimiters: they are skipped before it, it has none inside
   * and is not empty, and one that ends it is taken away with it.
   */
  lemma TokenIs(s: string, delim: char) returns (skipped: string)
    ensures forall i :: 0 <= i < |skipped| ==> skipped[i] == delim
    ensures match Token(s, delim)
            case None => s == skipped
            case Some((tok, rest)) =>
              tok != "" && delim !in tok && (s == skipped + tok + [delim] + rest || (s == skipped + tok && rest == ""))
  {
    skipped := SkipCharIs(s, delim);
    var t := SkipChar(s, delim);
    if t != "" {
      FirstSpan(t, delim);
      var tok := Before(t, delim);
      if |tok| < |t| {
        Regroup(skipped, tok, [delim], t[|tok| + 1..]);
      }
    }
  }

  lemma FirstSpan(t: string, delim: char)
    ensures var tok := Before(t, delim);
            if |tok| < |t| then t == tok + [delim] + t[|tok| + 1..] else t == tok
  {
    var tok := Before(t, delim);
    assert t[..|tok|] == tok;
  }

  lemma Regroup(a: string, b: string, c: string, d: string)
    ensures a + (b + c + d) == a + b + c + d
  {
  }

  // ---- in place ----

  /** The C string that starts at position p of a buffer. */
  function At(buf: string, p: nat): (r: string)
    requires p <= |buf|
    ensures |r| <= |buf| - p
  {
    UntilNul(buf[p..])
  }

  /** A string starts at p and its NUL lies inside the buffer. */
  predicate Terminated(buf: string, p: nat) {
    p <= |buf| && p + |At(buf, p)| < |buf|
  }

  lemma AtStep(buf: string, p: nat)
    requires Terminated(buf, p)
    ensures buf[p] == NUL <==> At(buf, p) == ""
    ensures buf[p] != NUL ==> Terminated(buf, p + 1) && At(buf, p) == [buf[p]] + At(buf, p + 1)
  {
    assert buf[p..][1..] == buf[p + 1..];
  }

  lemma SpaceStep(buf: string, p: nat)
    requires Terminated(buf, p) && IsSpace(buf[p])
    ensures Terminated(buf, p + 1) && SkipSpaces(At(buf, p)) == SkipSpaces(At(buf, p + 1))
    ensures |At(buf, p)| == 1 + |At(buf, p + 1)|
  {
    AtStep(buf, p);
    assert At(buf, p)[1..] == At(buf, p + 1);
  }

  lemma NoSpaceHere(buf: string, p: nat)
    requires Terminated(buf, p) && !IsSpace(buf[p])
    ensures SkipSpaces(At(buf, p)) == At(buf, p)
  {
    AtStep(buf, p);
  }

  /** while (isspace(*p)) p++. */
  method PastSpaces(buf: array<char>, from: nat) returns (p: nat)
    requires Terminated(buf[..], from)
    ensures from <= p && Terminated(buf[..], p)
    ensures At(buf[..], p) == SkipSpaces(At(buf[..], from))
    ensures p + |At(buf[..], p)| == from + |At(buf[..], from)|
  {
    ghost var s := buf[..];
    p := from;
    while IsSpace(buf[p])
      invariant from <= p && Terminated(s, p) && s == buf[..]
      invariant SkipSpaces(At(s, p)) == SkipSpaces(At(s, from)) && p + |At(s, p)| == from + |At(s, from)|
      decreases |s| - p
    {
      SpaceStep(s, p);
      p := p + 1;
    }
    NoSpaceHere(s, p);
  }

  /** strlen. */
  method Length(buf: array<char>, p: nat) returns (n: nat)
    requires Terminated(buf[..], p)
    ensures n == |At(buf[..], p)|
  {
    ghost var s := buf[..];
    n := 0;
    while buf[p + n] != NUL
      invariant n <= |At(s, p)| && s == buf[..] && p + n < |s|
      invariant Terminated(s, p + n) && |At(s, p)| == n + |At(s, p + n)|
      decreases |s| - n
    {
      AtStep(s, p + n);
      n := n + 1;
    }
    AtStep(s, p + n);
  }

  /** Writing a NUL n characters into a string cuts it there. */
  lemma CutAt(s: string, p: nat, n: nat)
    requires p <= |s| && n <= |At(s, p)| && p + n < |s|
    ensures Terminated(s[p + n := NUL], p) && At(s[p + n := NUL], p) == At(s, p)[..n]
  {
    var t := s[p + n := NUL];
    assert t[p..][..n] == s[p..][..n] == At(s, p)[..n];
    UntilNulAt(t[p..], n);
  }

  lemma DropSpaceStep(s: string, n: nat)
    requires 0 < n <= |s| && IsSpace(s[n - 1])
    ensures DropSpacesEnd(s[..n]) == DropSpacesEnd(s[..n - 1])
  {
    assert s[..n][..n - 1] == s[..n - 1];
  }

  /** trim_whitespace: the start moves past spaces and one NUL cuts the end off. */
  method TrimWhitespace(buf: array<char>, from: nat) returns (p: nat)
    requires Terminated(buf[..], from)
    modifies buf
    ensures from <= p && Terminated(buf[..], p)
    ensures At(buf[..], p) == Trim(old(At(buf[..], from)))
    ensures p + |At(buf[..], p)| <= from + |old(At(buf[..], from))| < buf.Length
    ensures buf[..] == old(buf[..])[p + |At(buf[..], p)| := NUL]
  {
    p := PastSpaces(buf, from);
    ghost var was := buf[..];
    AtStep(was, p);
    if buf[p] == NUL {
      assert was[p := NUL] == was;
      assert DropSpacesEnd("") == "";
      return;
    }
    var kept := LengthTrimmed(buf, p);
    CutString(buf, p, kept);
  }

  /** *(s + n) = 0 */
  method CutString(buf: array<char>, p: nat, n: nat)
    requires Terminated(buf[..], p) && n <= |At(buf[..], p)|
    modifies buf
    ensures p + n < buf.Length && buf[..] == old(buf[..])[p + n := NUL]
    ensures Terminated(buf[..], p) && At(buf[..], p) == old(At(buf[..], p))[..n]
  {
    CutAt(buf[..], p, n);
    ghost var was := buf[..];
    buf[p + n] := NUL;
    assert buf[..] == was[p + n := NUL];
  }

  /** How long the string at p is without the spaces at its end. */
  method LengthTrimmed(buf: array<char>, p: nat) returns (n: nat)
    requires Terminated(buf[..], p) && At(buf[..], p) != "" && !IsSpace(buf[p])
    ensures n <= |At(buf[..], p)| && At(buf[..], p)[..n] == DropSpacesEnd(At(buf[..], p))
  {
    ghost var s := At(buf[..], p);
    n := Length(buf, p);
    assert s <= buf[p..];
    assert s[..|s|] == s;
    while n > 1 && IsSpace(buf[p + n - 1])
      invariant 0 < n <= |s|
      invariant DropSpacesEnd(s[..n]) == DropSpacesEnd(s)
    {
      assert s[n - 1] == buf[p..][n - 1];
      DropSpaceStep(s, n);
      n := n - 1;
    }
    assert s[n - 1] == buf[p..][n - 1];
  }

  lemma SkipCharStep(buf: string, p: nat, c: char)
    requires Terminated(buf, p) && c != NUL
    ensures buf[p] == c ==> Terminated(buf, p + 1) && SkipChar(At(buf, p), c) == SkipChar(At(buf, p + 1), c)
    ensures buf[p] != c ==> SkipChar(At(buf, p), c) == At(buf, p)
  {
    AtStep(buf, p);
    if buf[p] == c {
      assert At(buf, p)[1..] == At(buf, p + 1);
    }
  }

  lemma BeforeStep(buf: string, p: nat, c: char)
    requires Terminated(buf, p)
    ensures buf[p] == NUL || buf[p] == c ==> Before(At(buf, p), c) == ""
    ensures buf[p] != NUL && buf[p] != c ==>
              Terminated(buf, p + 1) && |Before(At(buf, p), c)| == 1 + |Before(At(buf, p + 1), c)|
  {
    AtStep(buf, p);
    if buf[p] != NUL {
      assert At(buf, p)[1..] == At(buf, p + 1);
    }
  }

  /** The n characters from p on come before c and before the end. */
  ghost predicate Spanned(s: string, p: nat, n: nat, c: char) {
    Terminated(s, p) && Terminated(s, p + n) && |Before(At(s, p), c)| == n + |Before(At(s, p + n), c)|
  }

  lemma SpanStep(s: string, p: nat, n: nat, c: char)
    requires Spanned(s, p, n, c)
    ensures p + n < |s|
    ensures s[p + n] != NUL && s[p + n] != c ==> Spanned(s, p, n + 1, c)
    ensures s[p + n] == NUL || s[p + n] == c ==> n == |Before(At(s, p), c)|
  {
    BeforeStep(s, p + n, c);
  }

  /** How many characters from p on come before c or the end of the string. */
  method Span(buf: array<char>, p: nat, c: char) returns (n: nat)
    requires Terminated(buf[..], p)
    ensures n == |Before(At(buf[..], p), c)|
  {
    ghost var s := buf[..];
    n := 0;
    while buf[p + n] != NUL && buf[p + n] != c
      invariant s == buf[..] && Spanned(s, p, n, c) && p + n < |s|
      decreases |s| - n
    {
      SpanStep(s, p, n, c);
      n := n + 1;
    }
    SpanStep(s, p, n, c);
  }

  lemma AtSuffix(s: string, p: nat, n: nat)
    requires Terminated(s, p) && n <= |At(s, p)|
    ensures Terminated(s, p + n) && At(s, p + n) == At(s, p)[n..]
  {
    var r := At(s, p);
    assert s[p..][..|r|] == r && s[p..][|r|] == NUL;
    assert s[p + n..][..|r| - n] == r[n..] && s[p + n..][|r| - n] == NUL;
    UntilNulAt(s[p + n..], |r| - n);
  }

  /** A string does not see a write past its NUL or before its start. */
  lemma AtElsewhere(s: string, i: nat, p: nat)
    requires i < |s| && Terminated(s, p) && (i < p || p + |At(s, p)| < i)
    ensures Terminated(s[i := NUL], p) && At(s[i := NUL], p) == At(s, p)
  {
    var t := s[i := NUL];
    var n := |At(s, p)|;
    assert t[p..][..n] == s[p..][..n] && t[p..][n] == s[p..][n] == NUL;
    UntilNulAt(t[p..], n);
  }

  lemma TokenParts(s: string, from: nat, t: nat, n: nat, delim: char)
    requires from <= |s| && t <= |s| && At(s, t) == SkipChar(At(s, from), delim) != ""
    requires n == |Before(At(s, t), delim)|
    ensures Token(At(s, from), delim) == Some((At(s, t)[..n], if n == |At(s, t)| then "" else At(s, t)[n + 1..]))
  {
    assert At(s, t)[..n] == Before(At(s, t), delim);
  }

  lemma CutToken(s: string, t: nat, n: nat, delim: char)
    requires Terminated(s, t) && n == |Before(At(s, t), delim)|
    ensures t + n < |s| && (s[t + n] == delim || s[t + n] == NUL)
    ensures n == |At(s, t)| <==> s[t + n] == NUL
    ensures var u := s[t + n := NUL];
            && Terminated(u, t) && At(u, t) == At(s, t)[..n]
            && (s[t + n] == NUL ==> u == s && Terminated(u, t + n) && At(u, t + n) == "")
            && (s[t + n] != NUL ==> Terminated(u, t + n + 1) && At(u, t + n + 1) == At(s, t)[n + 1..])
  {
    AtSuffix(s, t, n);
    AtStep(s, t + n);
    CutAt(s, t, n);
    if n < |At(s, t)| {
      AtSuffix(s, t, n + 1);
      AtElsewhere(s, t + n, t + n + 1);
      assert At(s, t)[n] == s[t..][n];
    }
  }

  /** What one strtok call leaves: the token at tok, the rest at next, one NUL written. */
  ghost predicate TokenAt(was: string, from: nat, delim: char, buf: string, tok: nat, next: nat) {
    && Terminated(was, from) && from <= tok && Token(At(was, from), delim).Some?
    && var parts := Token(At(was, from), delim).value;
    && Terminated(buf, tok) && At(buf, tok) == parts.0
    && Terminated(buf, next) && At(buf, next) == parts.1
    && (parts.1 != "" ==> tok + |parts.0| < next)
    && tok + |parts.0| < |was| && buf == was[tok + |parts.0| := NUL]
  }

  lemma TokenMade(s: string, from: nat, t: nat, n: nat, delim: char)
    requires Terminated(s, from) && Terminated(s, t) && from <= t
    requires At(s, t) == SkipChar(At(s, from), delim) != ""
    requires n == |Before(At(s, t), delim)| && delim != NUL
    ensures t + n < |s| && n <= |At(s, t)|
    ensures TokenAt(s, from, delim, s[t + n := NUL], t, if s[t + n] == delim then t + n + 1 else t + n)
  {
    TokenParts(s, from, t, n, delim);
    CutToken(s, t, n, delim);
  }

  /** strtok: a NUL goes over the delimiter that ends the token. */
  method Strtok(buf: array<char>, from: nat, delim: char) returns (tok: Option<nat>, next: nat)
    requires Terminated(buf[..], from) && delim != NUL
    modifies buf
    ensures tok.None? ==> Token(old(At(buf[..], from)), delim).None? && buf[..] == old(buf[..])
    ensures tok.Some? ==> TokenAt(old(buf[..]), from, delim, buf[..], tok.value, next)
  {
    ghost var s := buf[..];
    var t := PastChar(buf, from, delim);
    AtStep(s, t);
    if buf[t] == NUL {
      return None, t;
    }
    var n := Span(buf, t, delim);
    TokenMade(s, from, t, n, delim);
    next := if buf[t + n] == delim then t + n + 1 else t + n;
    tok := Some(t);
    CutString(buf, t, n);
  }

  method PastChar(buf: array<char>, from: nat, c: char) returns (t: nat)
    requires Terminated(buf[..], from) && c != NUL
    ensures from <= t && Terminated(buf[..], t) && At(buf[..], t) == SkipChar(At(buf[..], from), c)
  {
    ghost var s := buf[..];
    t := from;
    while buf[t] == c
      invariant from <= t && s == buf[..] && Terminated(s, t)
      invariant SkipChar(At(s, t), c) == SkipChar(At(s, from), c)
      decreases |s| - t
    {
      SkipCharStep(s, t, c);
      t := t + 1;
    }
    SkipCharStep(s, t, c);
  }

  lemma TokenSource(s: string, delim: char)
    ensures Token(s, delim).Some? ==> s != ""
  {
  }

  lemma WriteBehind(s: string, p: nat, q: nat, n: nat)
    requires Terminated(s, p) && p + |At(s, p)| < q && q + n < |s|
    ensures Terminated(s[q + n := NUL], p) && At(s[q + n := NUL], p) == At(s, p)
  {
    AtElsewhere(s, q + n, p);
  }

  /** The characters a string function sees from p on. */
  method Read(buf: array<char>, p: nat) returns (r: string)
    requires Terminated(buf[..], p)
    ensures r == At(buf[..], p)
  {
    var n := Length(buf, p);
    r := buf[p..p + n];
    assert buf[p..][..n] == r;
  }
}
