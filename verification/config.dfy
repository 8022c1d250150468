/** The configuration file of src/common/config_loader.c: writing it and reading it back. */
module Config {
  import opened Bytes
  import opened CStrings

  // ---- numbers ----

  predicate CInt(n: int) { -0x8000_0000 <= n < 0x8000_0000 }

  predicate IsDigit(c: char) { '0' <= c <= '9' }

  function Number(s: string, acc: nat): nat {
    if s == "" || !IsDigit(s[0]) then acc else Number(s[1..], 10 * acc + (s[0] - '0') as int)
  }

  function Atoi(s: string): int {
    var t := SkipSpaces(s);
    if t != "" && t[0] == '-' then 0 - Number(t[1..], 0) as int
    else if t != "" && t[0] == '+' then Number(t[1..], 0)
    else Number(t, 0)
  }

  function Digits(n: nat): (r: string)
    ensures r != "" && forall i :: 0 <= i < |r| ==> IsDigit(r[i])
  {
    var d := ['0' + (n % 10) as char];
    if n < 10 then d else Digits(n / 10) + d
  }

  /** printf's %d. */
  function Itoa(n: int): (r: string)
    ensures r != ""
  {
    if n < 0 then "-" + Digits(-n) else Digits(n)
  }

  lemma {:induction false} NumberAppend(s: string, t: string, acc: nat)
    requires forall i :: 0 <= i < |s| ==> IsDigit(s[i])
    ensures Number(s + t, acc) == Number(t, Number(s, acc))
  {
    if s == "" {
      assert s + t == t;
    } else {
      assert (s + t)[1..] == s[1..] + t;
      NumberAppend(s[1..], t, 10 * acc + (s[0] - '0') as int);
    }
  }

  lemma {:induction false} NumberDigits(n: nat)
    ensures Number(Digits(n), 0) == n
  {
    var d := ['0' + (n % 10) as char];
    assert d[1..] == "";
    if n >= 10 {
      NumberDigits(n / 10);
      NumberAppend(Digits(n / 10), d, 0);
    }
  }

  lemma AtoiItoa(n: int)
    ensures Atoi(Itoa(n)) == n
  {
    if n < 0 {
      NumberDigits(-n);
      assert Itoa(n)[1..] == Digits(-n);
    } else {
      NumberDigits(n);
    }
  }

  /** The number a string of decimal digits stands for. */
  function Value(s: string): nat
    requires forall i :: 0 <= i < |s| ==> IsDigit(s[i])
  {
    if s == "" then 0 else
      assert IsDigit(s[|s| - 1]);
      10 * Value(s[..|s| - 1]) + (s[|s| - 1] - '0') as int
  }

  lemma {:induction false} NumberValue(s: string, rest: string)
    requires forall i :: 0 <= i < |s| ==> IsDigit(s[i])
    requires rest != "" ==> !IsDigit(rest[0])
    ensures Number(s + rest, 0) == Value(s)
    decreases |s|
  {
    NumberAppend(s, rest, 0);
    if s != "" {
      var init, last := s[..|s| - 1], s[|s| - 1..];
      NumberValue(init, "");
      assert init + "" == init && s == init + last;
      NumberAppend(init, last, 0);
      assert last[1..] == "";
    }
  }

  /** atoi: white space, a sign or none, and the number its digits stand for in decimal. */
  lemma AtoiReads(w: string, sign: string, s: string, rest: string)
    requires AllSpaces(w) && (sign == "" || sign == "-" || sign == "+")
    requires s != "" && forall i :: 0 <= i < |s| ==> IsDigit(s[i])
    requires rest != "" ==> !IsDigit(rest[0])
    ensures Atoi(w + (sign + (s + rest))) == if sign == "-" then 0 - Value(s) as int else Value(s)
  {
    var t := sign + (s + rest);
    assert t[0] == if sign == "" then s[0] else sign[0];
    SkipsTo(w, t);
    SignedReads(sign, s, rest);
  }

  lemma SignedReads(sign: string, s: string, rest: string)
    requires sign == "" || sign == "-" || sign == "+"
    requires s != "" && forall i :: 0 <= i < |s| ==> IsDigit(s[i])
    requires rest != "" ==> !IsDigit(rest[0])
    ensures var t := sign + (s + rest);
            (if t[0] == '-' then 0 - Number(t[1..], 0) as int
             else if t[0] == '+' then Number(t[1..], 0) else Number(t, 0))
            == if sign == "-" then 0 - Value(s) as int else Value(s)
  {
    var t := sign + (s + rest);
    NumberValue(s, rest);
    if sign == "" {
      assert t == s + rest && IsDigit(t[0]);
    } else {
      assert t[0] == sign[0] && t[1..] == s + rest;
    }
  }

  lemma {:induction false} SkipsTo(w: string, t: string)
    requires AllSpaces(w) && t != "" && !IsSpace(t[0])
    ensures SkipSpaces(w + t) == t
  {
    if w == "" {
      assert w + t == t;
    } else {
      assert (w + t)[1..] == w[1..] + t;
      SkipsTo(w[1..], t);
    }
  }

  /** %d: the decimal digits without a needless zero in front, and a minus sign below zero. */
  lemma {:induction false} DigitsAre(n: nat)
    ensures Value(Digits(n)) == n && (Digits(n)[0] == '0' ==> n == 0 && Digits(n) == "0")
  {
    if n >= 10 {
      DigitsAre(n / 10);
      var d := Digits(n);
      assert d[..|d| - 1] == Digits(n / 10);
    } else {
      assert Digits(n)[..0] == "";
    }
  }

  lemma ItoaIs(n: int)
    ensures var d := if n < 0 then Itoa(n)[1..] else Itoa(n);
            && (n < 0 ==> Itoa(n)[0] == '-')
            && d != "" && (forall i :: 0 <= i < |d| ==> IsDigit(d[i]))
            && Value(d) == (if n < 0 then -n else n) && (d[0] == '0' ==> d == "0")
  {
    DigitsAre(if n < 0 then -n else n);
    assert n < 0 ==> Itoa(n)[1..] == Digits(-n);
  }

  // ---- the struct ----

  type Field256 = s: string | |s| == 256 witness seq(256, _ => NUL)
  type Field512 = s: string | |s| == 512 witness seq(512, _ => NUL)

  /** The whole contents of the struct's arrays, behind the terminating NULs as well. */
  datatype AppConfig = AppConfig(
    port: int, serverHost: Field256, caPath: Field512,
    dbPath: Field512, certPath: Field512, keyPath: Field512, dbKey: Field256)

  /** What the key of a line is about. */
  datatype Key = ServerHost | Port | CaPath | DbPath | CertFile | KeyFile | DbKey | Other

  function KeyOf(name: string): Key {
    if name == "server_host" then ServerHost
    else if name == "server_port" || name == "bind_port" then Port
    else if name == "ca_path" then CaPath
    else if name == "db_path" then DbPath
    else if name == "cert_file" then CertFile
    else if name == "key_file" then KeyFile
    else if name == "db_key" then DbKey
    else Other
  }

  predicate IsText(k: Key) { !k.Port? && !k.Other? }

  function Size(k: Key): nat { if k.ServerHost? || k.DbKey? then 256 else 512 }

  function FieldOf(config: AppConfig, k: Key): (field: string)
    requires IsText(k)
    ensures |field| == Size(k)
  {
    match k
    case ServerHost => config.serverHost
    case CaPath => config.caPath
    case DbPath => config.dbPath
    case CertFile => config.certPath
    case KeyFile => config.keyPath
    case DbKey => config.dbKey
  }

  /** strncpy of s into all of a field but its last octet, which it never writes. */
  function StrNCpy(field: string, s: string): (r: string)
    requires field != ""
    ensures |r| == |field| && r[|r| - 1] == field[|field| - 1]
  {
    var n := |field| - 1;
    (if |s| < n then s + seq(n - |s|, _ => NUL) else s[..n]) + field[n..]
  }

  /** The string in a field; None if it has no NUL, so that reading it runs on behind it. */
  function CString(field: string): (r: Option<string>) {
    var s := UntilNul(field);
    if |s| < |field| then Some(s) else None
  }

  /** apply_defaults, on whatever the struct held. */
  function Defaults(was: AppConfig): AppConfig {
    AppConfig(8080, StrNCpy(was.serverHost, "localhost"), was.caPath[0 := NUL],
              StrNCpy(was.dbPath, "data/messagerie.db"), StrNCpy(was.certPath, "server.crt"),
              StrNCpy(was.keyPath, "server.key"), was.dbKey[0 := NUL])
  }

  function DefaultText(k: Key): string {
    match k
    case ServerHost => "localhost"
    case DbPath => "data/messagerie.db"
    case CertFile => "server.crt"
    case KeyFile => "server.key"
    case _ => ""
  }

  // ---- loading ----

  function Put(config: AppConfig, k: Key, val: string): AppConfig {
    match k
    case ServerHost => config.(serverHost := StrNCpy(config.serverHost, val))
    case Port => config.(port := Atoi(val))
    case CaPath => config.(caPath := StrNCpy(config.caPath, val))
    case DbPath => config.(dbPath := StrNCpy(config.dbPath, val))
    case CertFile => config.(certPath := StrNCpy(config.certPath, val))
    case KeyFile => config.(keyPath := StrNCpy(config.keyPath, val))
    case DbKey => config.(dbKey := StrNCpy(config.dbKey, val))
    case Other => config
  }

  function Assign(config: AppConfig, kv: Option<(string, string)>): AppConfig {
    match kv
    case None => config
    case Some((name, val)) => Put(config, KeyOf(name), val)
  }

  /** Key and value of the text from p on. */
  function Parts(p: string): (r: Option<(string, string)>) {
    match Token(p, '=')
    case None => None
    case Some((key, rest)) =>
      match Token(rest, NEWLINE)
      case None => None
      case Some((val, _)) => Some((Trim(key), Trim(val)))
  }

  /** Key and value of a line, None for blank lines, comments and lines without a value. */
  function KeyValue(line: string): (r: Option<(string, string)>) {
    var p := SkipSpaces(UntilNul(line));
    if p == "" || p[0] == '#' then None else Parts(p)
  }

  function LoadLine(config: AppConfig, line: string): AppConfig {
    Assign(config, KeyValue(line))
  }

  /** How much fgets reads into a buffer of 1024: to the end of the line, at most 1023. */
  function LineLength(f: string): (n: nat)
    requires f != ""
    ensures 0 < n <= |f| && n <= 1023
  {
    var b := Before(f, NEWLINE);
    if |b| >= 1023 then 1023 else if |b| < |f| then |b| + 1 else |b|
  }

  function Lines(f: string): (ls: seq<string>)
    decreases |f|
  {
    if f == "" then [] else [f[..LineLength(f)]] + Lines(f[LineLength(f)..])
  }

  function Fold<A, B>(f: (A, B) -> A, a: A, bs: seq<B>): A {
    if bs == [] then a else Fold(f, f(a, bs[0]), bs[1..])
  }

  function LoadText(config: AppConfig, f: string): AppConfig {
    Fold(LoadLine, config, Lines(f))
  }

  /** config_load on a file that exists, into a struct that held anything. */
  function Load(was: AppConfig, f: string): AppConfig {
    LoadText(Defaults(was), f)
  }

  const TITLE := "# MoT Client Configuration"
  const ORIGIN := "# Generated by First Run Wizard"
  const HINT := "# ca_path=/path/to/custom_server.crt"

  function KeyLine(key: string, val: string): string {
    key + "=" + val + "\n"
  }

  /** config_save_client's text for a host and a port. */
  function Save(host: string, port: int): string {
    (TITLE + "\n") + ((ORIGIN + "\n") + ("\n"
      + (KeyLine("server_host", host) + (KeyLine("server_port", Itoa(port)) + (HINT + "\n")))))
  }

  // ---- the line buffer ----

  /** The body of config_load's loop up to the comparisons, in the line buffer itself. */
  method SplitLine(buf: array<char>) returns (r: Option<(string, string)>)
    requires Terminated(buf[..], 0)
    modifies buf
    ensures r == KeyValue(old(buf[..]))
  {
    assert buf[..][0..] == buf[..];
    var p := PastSpaces(buf, 0);
    AtStep(buf[..], p);
    if buf[p] == NUL || buf[p] == '#' {
      return None;
    }
    r := SplitAt(buf, p);
  }

  /** The second token leaves the first one alone and starts behind its NUL. */
  lemma TokensApart(t: string, key: nat, rest: nat, u: string, val: nat, end: nat)
    requires rest <= |t| && Terminated(t, key) && (At(t, rest) != "" ==> key + |At(t, key)| < rest)
    requires TokenAt(t, rest, NEWLINE, u, val, end)
    ensures Terminated(u, key) && At(u, key) == At(t, key) && key + |At(u, key)| < val
  {
    TokenSource(At(t, rest), NEWLINE);
    WriteBehind(t, key, val, |At(u, val)|);
  }

  method SplitAt(buf: array<char>, p: nat) returns (r: Option<(string, string)>)
    requires Terminated(buf[..], p)
    modifies buf
    ensures r == Parts(old(At(buf[..], p)))
  {
    ghost var s := buf[..];
    var key, rest := Strtok(buf, p, '=');
    if key.None? {
      return None;
    }
    ghost var t := buf[..];
    var val, end := Strtok(buf, rest, NEWLINE);
    if val.None? {
      return None;
    }
    TokensApart(t, key.value, rest, buf[..], val.value, end);
    r := TrimBoth(buf, key.value, val.value);
  }

  /** Trims two strings of which the first ends before the second starts, and reads them. */
  method TrimBoth(buf: array<char>, key: nat, val: nat) returns (r: Option<(string, string)>)
    requires Terminated(buf[..], key) && Terminated(buf[..], val) && key + |At(buf[..], key)| < val
    modifies buf
    ensures r == Some((Trim(old(At(buf[..], key))), Trim(old(At(buf[..], val)))))
  {
    ghost var first := buf[..];
    var k := TrimWhitespace(buf, key);
    AtElsewhere(first, k + |At(buf[..], k)|, val);
    var trimmedKey := Read(buf, k);
    var v := TrimWhitespace(buf, val);
    var trimmedVal := Read(buf, v);
    r := Some((trimmedKey, trimmedVal));
  }

  /** A line buffer holding a line and its NUL means what the line means. */
  lemma BufferMeansLine(line: string, buf: string)
    requires |line| < |buf| && buf[..|line|] == line && buf[|line|] == NUL
    ensures Terminated(buf, 0) && KeyValue(buf) == KeyValue(line)
  {
    var u := UntilNul(line);
    assert buf[0..] == buf;
    assert buf[..|u|] == u;
    UntilNulAt(buf, |u|);
  }

  /** fgets into the line buffer. */
  method Fgets(f: string, line: array<char>) returns (n: nat)
    requires f != "" && line.Length == 1024
    modifies line
    ensures n == LineLength(f)
    ensures line[..n] == f[..n] && line[n] == NUL
  {
    n := 0;
    while n < |f| && n < 1023 && (n == 0 || f[n - 1] != NEWLINE)
      invariant n <= |f| && n <= 1023 && line[..n] == f[..n]
      invariant n > 0 ==> NEWLINE !in f[..n - 1]
    {
      line[n] := f[n];
      n := n + 1;
    }
    line[n] := NUL;
    LineLengthIs(f, n);
  }

  lemma LineLengthIs(f: string, n: nat)
    requires 0 < n <= |f| && n <= 1023 && NEWLINE !in f[..n - 1]
    requires n == |f| || n == 1023 || f[n - 1] == NEWLINE
    ensures n == LineLength(f)
  {
    assert forall i :: 0 <= i < n - 1 ==> f[..n - 1][i] == f[i];
    assert forall i :: 0 <= i < |Before(f, NEWLINE)| ==> Before(f, NEWLINE)[i] == f[i];
  }

  // ---- the struct in memory ----

  /** strncpy(dst, s, sizeof(dst) - 1) */
  method StrNCpyInto(dst: array<char>, s: string)
    requires dst.Length > 0
    modifies dst
    ensures dst[..] == StrNCpy(old(dst[..]), s)
  {
    ghost var was := dst[..];
    var n := dst.Length - 1;
    for i := 0 to n
      invariant dst[..i] == StrNCpy(was, s)[..i]
      invariant dst[i..] == was[i..]
    {
      dst[i] := if i < |s| then s[i] else NUL;
    }
    assert dst[..] == dst[..n] + dst[n..];
  }

  /** An AppConfig on a caller's stack. */
  class ConfigStruct {
    var port: int
    const serverHost: array<char>
    const caPath: array<char>
    const dbPath: array<char>
    const certPath: array<char>
    const keyPath: array<char>
    const dbKey: array<char>

    ghost predicate Valid() {
      && serverHost.Length == dbKey.Length == 256
      && caPath.Length == dbPath.Length == certPath.Length == keyPath.Length == 512
      && serverHost != dbKey
      && caPath != dbPath && caPath != certPath && caPath != keyPath
      && dbPath != certPath && dbPath != keyPath && certPath != keyPath
    }

    ghost function View(): AppConfig
      requires Valid()
      reads this, serverHost, caPath, dbPath, certPath, keyPath, dbKey
    {
      AppConfig(port, serverHost[..], caPath[..], dbPath[..], certPath[..], keyPath[..], dbKey[..])
    }

    /** Nothing is known of the memory: it holds `was`. */
    constructor (was: AppConfig)
      ensures Valid() && View() == was
      ensures fresh(serverHost) && fresh(caPath) && fresh(dbPath) && fresh(certPath) && fresh(keyPath) && fresh(dbKey)
    {
      port := was.port;
      serverHost := new char[256](i requires 0 <= i < 256 => was.serverHost[i]);
      caPath := new char[512](i requires 0 <= i < 512 => was.caPath[i]);
      dbPath := new char[512](i requires 0 <= i < 512 => was.dbPath[i]);
      certPath := new char[512](i requires 0 <= i < 512 => was.certPath[i]);
      keyPath := new char[512](i requires 0 <= i < 512 => was.keyPath[i]);
      dbKey := new char[256](i requires 0 <= i < 256 => was.dbKey[i]);
      new;
      assert serverHost[..] == was.serverHost && caPath[..] == was.caPath && dbPath[..] == was.dbPath;
      assert certPath[..] == was.certPath && keyPath[..] == was.keyPath && dbKey[..] == was.dbKey;
    }

    /** apply_defaults. */
    method ApplyDefaults()
      requires Valid()
      modifies this, serverHost, caPath, dbPath, certPath, keyPath, dbKey
      ensures View() == Defaults(old(View()))
    {
      ghost var was := View();
      port := 8080;
      StrNCpyInto(serverHost, "localhost");
      caPath[0] := NUL;
      dbKey[0] := NUL;
      StrNCpyInto(dbPath, "data/messagerie.db");
      StrNCpyInto(certPath, "server.crt");
      StrNCpyInto(keyPath, "server.key");
      assert caPath[..] == was.caPath[0 := NUL] && dbKey[..] == was.dbKey[0 := NUL];
    }

    /** The comparisons at the end of config_load's loop. */
    method Store(name: string, val: string)
      requires Valid()
      modifies this, serverHost, caPath, dbPath, certPath, keyPath, dbKey
      ensures View() == Put(old(View()), KeyOf(name), val)
    {
      match KeyOf(name)
      case ServerHost => StrNCpyInto(serverHost, val);
      case Port => port := Atoi(val);
      case CaPath => StrNCpyInto(caPath, val);
      case DbPath => StrNCpyInto(dbPath, val);
      case CertFile => StrNCpyInto(certPath, val);
      case KeyFile => StrNCpyInto(keyPath, val);
      case DbKey => StrNCpyInto(dbKey, val);
      case Other =>
    }

    /** config_load; None is a file that cannot be opened. */
    method ConfigLoad(file: Option<string>) returns (found: bool)
      requires Valid()
      modifies this, serverHost, caPath, dbPath, certPath, keyPath, dbKey
      ensures found <==> file.Some?
      ensures View() == if file.Some? then Load(old(View()), file.value) else Defaults(old(View()))
    {
      ghost var was := View();
      ApplyDefaults();
      if file.None? {
        return false;
      }
      var f := file.value;
      var line := new char[1024];
      while f != ""
        invariant LoadText(View(), f) == Load(was, file.value)
        decreases |f|
      {
        var n := Fgets(f, line);
        BufferMeansLine(f[..n], line[..]);
        ghost var before := View();
        var kv := SplitLine(line);
        assert Lines(f)[0] == f[..n] && Lines(f)[1..] == Lines(f[n..]);
        match kv {
          case None =>
          case Some((name, val)) => Store(name, val);
        }
        assert View() == LoadLine(before, f[..n]);
        f := f[n..];
      }
      found := true;
    }

    /** config_save_client; writable tells whether the file could be opened. */
    method ConfigSaveClient(writable: bool) returns (saved: bool, file: string)
      requires Valid() && CString(serverHost[..]).Some?
      ensures saved == writable
      ensures file == if writable then Save(CString(serverHost[..]).value, port) else ""
    {
      file := "";
      if writable {
        assert serverHost[0..] == serverHost[..];
        var host := Read(serverHost, 0);
        file := file + (TITLE + "\n");
        file := file + ((ORIGIN + "\n") + "\n");
        file := file + KeyLine("server_host", host);
        file := file + KeyLine("server_port", Itoa(port));
        file := file + (HINT + "\n");
        Reassociate(TITLE + "\n", ORIGIN + "\n", "\n", KeyLine("server_host", host),
                    KeyLine("server_port", Itoa(port)), HINT + "\n");
      }
      saved := writable;
    }
  }

  lemma Reassociate(a: string, b: string, c: string, d: string, e: string, f: string)
    ensures "" + a + (b + c) + d + e + f == a + (b + (c + (d + (e + f))))
  {
  }

  // ---- what loading does ----

  /** What a line says: a name and a value, or nothing. */
  type Setting = Option<(string, string)>

  function Parsed(ls: seq<string>): (r: seq<Setting>)
    ensures |r| == |ls|
  {
    seq(|ls|, i requires 0 <= i < |ls| => KeyValue(ls[i]))
  }

  /** What the lines of a file say. */
  function Settings(f: string): seq<Setting> {
    Parsed(Lines(f))
  }

  lemma ParsedLast(ls: seq<string>)
    requires ls != []
    ensures Parsed(ls)[..|ls| - 1] == Parsed(ls[..|ls| - 1]) && Parsed(ls)[|ls| - 1] == KeyValue(ls[|ls| - 1])
  {
  }

  /** The value of the last line about k, if there is one. */
  function LastOf(kvs: seq<Setting>, k: Key): (r: Option<string>) {
    if kvs == [] then None
    else
      var kv := kvs[|kvs| - 1];
      if kv.Some? && KeyOf(kv.value.0) == k then Some(kv.value.1) else LastOf(kvs[..|kvs| - 1], k)
  }

  lemma CopyTwice(field: string, s: string, t: string)
    requires field != ""
    ensures StrNCpy(StrNCpy(field, s), t) == StrNCpy(field, t)
  {
  }

  /** What a reader finds: the string, unless it fills the field and no NUL happens to follow. */
  lemma CopyReads(field: string, s: string)
    requires field != "" && NUL !in s
    ensures var n := |field| - 1;
            CString(StrNCpy(field, s))
            == if |s| < n then Some(s) else if field[n] == NUL then Some(s[..n]) else None
  {
    var n := |field| - 1;
    var r := StrNCpy(field, s);
    if |s| < n {
      assert r[..|s|] == s;
      UntilNulAt(r, |s|);
    } else {
      assert r[..n] == s[..n] && r[..n + 1] == r;
      if field[n] == NUL {
        UntilNulAt(r, n);
      } else {
        assert forall i :: 0 <= i < n ==> r[i] == s[i];
        UntilNulAt(r, n + 1);
      }
    }
  }

  lemma EmptiedReads(field: string)
    requires field != ""
    ensures CString(field[0 := NUL]) == Some("")
  {
    UntilNulAt(field[0 := NUL], 0);
  }

  lemma DefaultFits(k: Key)
    requires IsText(k)
    ensures |DefaultText(k)| < 20 && NUL !in DefaultText(k)
  {
  }

  lemma CopiedDefault(was: AppConfig, k: Key)
    requires IsText(k) && !k.CaPath? && !k.DbKey?
    ensures FieldOf(Defaults(was), k) == StrNCpy(FieldOf(was, k), DefaultText(k))
  {
  }

  /** Before any line: the defaults, and a copy behaves as on the original field. */
  lemma DefaultField(was: AppConfig, k: Key, v: string)
    requires IsText(k)
    ensures CString(FieldOf(Defaults(was), k)) == Some(DefaultText(k))
    ensures StrNCpy(FieldOf(Defaults(was), k), v) == StrNCpy(FieldOf(was, k), v)
  {
    if k.CaPath? || k.DbKey? {
      EmptiedReads(FieldOf(was, k));
    } else {
      CopiedDefault(was, k);
      DefaultFits(k);
      CopyReads(FieldOf(was, k), DefaultText(k));
      CopyTwice(FieldOf(was, k), DefaultText(k), v);
    }
  }

  /** Each field after some lines: as before them, or as the last line about it leaves it. */
  lemma {:induction false} LinesMean(config: AppConfig, ls: seq<string>, k: Key)
    requires IsText(k)
    ensures FieldOf(Fold(LoadLine, config, ls), k)
         == match LastOf(Parsed(ls), k)
            case None => FieldOf(config, k)
            case Some(v) => StrNCpy(FieldOf(config, k), v)
  {
    if ls != [] {
      var n := |ls| - 1;
      LinesMean(config, ls[..n], k);
      ParsedLast(ls);
      FoldLast(LoadLine, config, ls);
      AssignMeans(Fold(LoadLine, config, ls[..n]), KeyValue(ls[n]), k);
      if LastOf(Parsed(ls[..n]), k).Some? {
        CopyTwice(FieldOf(config, k), LastOf(Parsed(ls[..n]), k).value, LastOf(Parsed(ls), k).value);
      }
    }
  }

  lemma {:induction false} PortLines(config: AppConfig, ls: seq<string>)
    ensures Fold(LoadLine, config, ls).port
         == match LastOf(Parsed(ls), Port)
            case None => config.port
            case Some(v) => Atoi(v)
  {
    if ls != [] {
      var n := |ls| - 1;
      PortLines(config, ls[..n]);
      ParsedLast(ls);
      FoldLast(LoadLine, config, ls);
      AssignMeans(Fold(LoadLine, config, ls[..n]), KeyValue(ls[n]), Port);
    }
  }

  lemma FoldLast<A, B>(f: (A, B) -> A, a: A, bs: seq<B>)
    requires bs != []
    ensures Fold(f, a, bs) == f(Fold(f, a, bs[..|bs| - 1]), bs[|bs| - 1])
  {
    var n := |bs| - 1;
    assert bs == bs[..n] + [bs[n]];
    FoldSplit(f, a, bs[..n], [bs[n]]);
    FoldOne(f, Fold(f, a, bs[..n]), bs[n]);
  }

  lemma FoldOne<A, B>(f: (A, B) -> A, a: A, b: B)
    ensures Fold(f, a, [b]) == f(a, b)
  {
    assert [b][1..] == [];
    assert Fold(f, f(a, b), []) == f(a, b);
  }

  lemma PutMeans(config: AppConfig, j: Key, val: string, k: Key)
    ensures var r := Put(config, j, val);
            && (IsText(k) ==> FieldOf(r, k) == if j == k then StrNCpy(FieldOf(config, k), val) else FieldOf(config, k))
            && r.port == if j == Port then Atoi(val) else config.port
  {
  }

  /** One line's effect on the field of key k. */
  lemma AssignMeans(config: AppConfig, kv: Option<(string, string)>, k: Key)
    ensures var r := Assign(config, kv);
            if kv.Some? && KeyOf(kv.value.0) == k
            then (IsText(k) ==> FieldOf(r, k) == StrNCpy(FieldOf(config, k), kv.value.1))
                 && (k == Port ==> r.port == Atoi(kv.value.1))
            else (IsText(k) ==> FieldOf(r, k) == FieldOf(config, k)) && (k == Port ==> r.port == config.port)
  {
    if kv.Some? {
      PutMeans(config, KeyOf(kv.value.0), kv.value.1, k);
    }
  }

  // ---- writing and reading back ----

  predicate WholeLines(t: string) {
    t != "" ==> t[|t| - 1] == NEWLINE
  }

  /** The first line of a text made of whole lines does not depend on what follows. */
  lemma FirstLine(a: string, b: string)
    requires a != "" && WholeLines(a)
    ensures var n := LineLength(a); LineLength(a + b) == n && (a + b)[..n] == a[..n] && (a + b)[n..] == a[n..] + b
    ensures WholeLines(a[LineLength(a)..])
  {
    var n := LineLength(a);
    assert a[..n - 1] <= Before(a, NEWLINE);
    assert (a + b)[..n - 1] == a[..n - 1];
    LineLengthIs(a + b, n);
  }

  lemma LinesStep(f: string)
    requires f != ""
    ensures Lines(f) == [f[..LineLength(f)]] + Lines(f[LineLength(f)..])
  {
  }

  lemma Associate<A>(x: A, ys: seq<A>, zs: seq<A>)
    ensures [x] + (ys + zs) == [x] + ys + zs
  {
  }

  lemma {:induction false} LinesSplit(a: string, b: string)
    requires WholeLines(a)
    ensures Lines(a + b) == Lines(a) + Lines(b)
    decreases |a|
  {
    if a == "" {
      assert a + b == b;
    } else {
      var n := LineLength(a);
      calc {
        Lines(a + b);
        { FirstLine(a, b); LinesStep(a + b); }
        [a[..n]] + Lines(a[n..] + b);
        { FirstLine(a, b); LinesSplit(a[n..], b); }
        [a[..n]] + (Lines(a[n..]) + Lines(b));
        { Associate(a[..n], Lines(a[n..]), Lines(b)); }
        [a[..n]] + Lines(a[n..]) + Lines(b);
        { LinesStep(a); }
        Lines(a) + Lines(b);
      }
    }
  }

  lemma {:induction false} FoldSplit<A, B>(f: (A, B) -> A, a: A, xs: seq<B>, ys: seq<B>)
    ensures Fold(f, a, xs + ys) == Fold(f, Fold(f, a, xs), ys)
  {
    if xs == [] {
      assert xs + ys == ys;
    } else {
      assert (xs + ys)[1..] == xs[1..] + ys;
      FoldSplit(f, f(a, xs[0]), xs[1..], ys);
    }
  }

  /** Whole lines are loaded first, then the rest. */
  lemma LoadInTurn(config: AppConfig, t: string, rest: string)
    requires WholeLines(t)
    ensures LoadText(config, t + rest) == LoadText(LoadText(config, t), rest)
  {
    LinesSplit(t, rest);
    FoldSplit(LoadLine, config, Lines(t), Lines(rest));
  }

  /** One line with its newline, short enough for one fgets. */
  lemma LoadOne(config: AppConfig, l: string)
    requires |l| < 1023 && NEWLINE !in l
    ensures LoadText(config, l + "\n") == LoadLine(config, l + "\n")
  {
    var a := l + "\n";
    assert a[..|a| - 1] == l;
    LineLengthIs(a, |a|);
    assert a[..|a|] == a && a[|a|..] == "";
    assert Lines(a) == [a] + Lines("") == [a];
    assert [a][1..] == [];
    assert Fold(LoadLine, LoadLine(config, a), []) == LoadLine(config, a);
  }

  lemma CommentLine(l: string)
    requires l != "" && l[0] == '#'
    ensures KeyValue(l) == None
  {
    assert UntilNul(l)[0] == '#';
  }

  lemma BlankLine()
    ensures KeyValue("\n") == None
  {
    assert UntilNul("\n") == "\n";
    assert SkipSpaces("\n") == SkipSpaces("\n"[1..]) == "";
  }

  /** A token, the delimiter behind it and the rest. */
  lemma TokenOf(tok: string, delim: char, rest: string)
    requires tok != "" && delim !in tok
    ensures Token(tok + [delim] + rest, delim) == Some((tok, rest))
  {
    var t := tok + [delim] + rest;
    assert t[..|tok|] == tok;
    BeforeIs(t, delim, |tok|);
    assert Before(t, delim) == t[..|tok|];
    assert t[0] == tok[0];
    assert t[|tok| + 1..] == rest;
  }

  predicate PlainKey(key: string) {
    key != "" && key[0] != '#' && Trimmed(key) && '=' !in key && NUL !in key && NEWLINE !in key
  }

  lemma PartsOf(key: string, val: string)
    requires PlainKey(key) && NEWLINE !in val
    ensures Parts(key + "=" + (val + "\n")) == if val == "" then None else Some((key, Trim(val)))
  {
    TokenOf(key, '=', val + "\n");
    TrimExact(key);
    if val == "" {
      assert val + "\n" == "\n";
      assert SkipChar("\n", NEWLINE) == SkipChar("\n"[1..], NEWLINE) == "";
    } else {
      TokenOf(val, NEWLINE, "");
      assert val + [NEWLINE] + "" == val + "\n";
    }
  }

  /** What a line "key=val" says. */
  lemma KeyValueOf(key: string, val: string)
    requires PlainKey(key) && NUL !in val && NEWLINE !in val
    ensures KeyValue(key + "=" + (val + "\n")) == if val == "" then None else Some((key, Trim(val)))
  {
    var line := key + "=" + (val + "\n");
    assert line[..|line|] == line;
    UntilNulAt(line, |line|);
    assert line[0] == key[0];
    PartsOf(key, val);
  }

  /** The line "key=val" of a file assigns the trimmed value, unless there is none. */
  lemma LoadKey(config: AppConfig, key: string, val: string)
    requires PlainKey(key) && NUL !in val && NEWLINE !in val && |key| + |val| < 1000
    ensures LoadText(config, KeyLine(key, val)) == if val == "" then config else Put(config, KeyOf(key), Trim(val))
  {
    KeyValueOf(key, val);
    assert KeyLine(key, val) == key + "=" + (val + "\n");
    LoadOne(config, key + "=" + val);
  }

  lemma NumberPlain(n: int)
    ensures NUL !in Itoa(n) && NEWLINE !in Itoa(n) && Trimmed(Itoa(n))
  {
    var d := Digits(if n < 0 then -n else n);
    forall i | 0 <= i < |Itoa(n)| ensures Itoa(n)[i] == '-' || IsDigit(Itoa(n)[i]) {
      if n < 0 && i > 0 {
        assert Itoa(n)[i] == d[i - 1];
      }
    }
  }

  function Power10(k: nat): nat { if k == 0 then 1 else 10 * Power10(k - 1) }

  lemma {:induction false} DigitsLength(n: nat, k: nat)
    requires 0 < k && n < Power10(k)
    ensures |Digits(n)| <= k
  {
    if n >= 10 {
      assert k > 1;
      DigitsLength(n / 10, k - 1);
    }
  }

  /** A C int takes at most 11 characters. */
  lemma IntLength(n: int)
    requires CInt(n)
    ensures |Itoa(n)| <= 11
  {
    assert Power10(5) == 100000;
    assert Power10(10) == 10_000_000_000;
    DigitsLength(if n < 0 then -n else n, 10);
  }

  predicate CommentText(l: string) {
    l != "" && l[0] == '#' && |l| < 1023 && NEWLINE !in l
  }

  lemma LoadComment(config: AppConfig, l: string, rest: string)
    requires CommentText(l)
    ensures LoadText(config, (l + "\n") + rest) == LoadText(config, rest)
  {
    LoadInTurn(config, l + "\n", rest);
    LoadOne(config, l);
    CommentLine(l + "\n");
  }

  lemma LoadBlank(config: AppConfig, rest: string)
    ensures LoadText(config, "\n" + rest) == LoadText(config, rest)
  {
    LoadInTurn(config, "\n", rest);
    LoadOne(config, "");
    assert "" + "\n" == "\n";
    BlankLine();
  }

  lemma Comments()
    ensures CommentText(TITLE) && CommentText(ORIGIN) && CommentText(HINT)
  {
  }

  lemma PutHostOrPort(config: AppConfig, val: string)
    ensures Put(config, KeyOf("server_host"), val) == config.(serverHost := StrNCpy(config.serverHost, val))
    ensures Put(config, KeyOf("server_port"), val) == config.(port := Atoi(val))
  {
    assert "server_host"[7] == 'h' && "server_port"[7] == 'p';
  }

  lemma PlainKeys()
    ensures PlainKey("server_host") && PlainKey("server_port")
  {
  }

  lemma LoadPortLine(config: AppConfig, port: int)
    requires CInt(port)
    ensures LoadText(config, KeyLine("server_port", Itoa(port))) == config.(port := port)
    ensures WholeLines(KeyLine("server_port", Itoa(port)))
  {
    IntLength(port);
    NumberPlain(port);
    TrimExact(Itoa(port));
    AtoiItoa(port);
    PlainKeys();
    LoadKey(config, "server_port", Itoa(port));
    PutHostOrPort(config, Itoa(port));
  }

  lemma LoadPort(config: AppConfig, port: int)
    requires CInt(port)
    ensures LoadText(config, KeyLine("server_port", Itoa(port)) + (HINT + "\n")) == config.(port := port)
  {
    var line := KeyLine("server_port", Itoa(port));
    LoadInTurn(config, line, HINT + "\n");
    LoadPortLine(config, port);
    Comments();
    LoadComment(config.(port := port), HINT, "");
    assert (HINT + "\n") + "" == HINT + "\n";
  }

  // ---- the keys by name ----

  /** The value of the last line "name=value" of a file, if there is one. */
  function LastNamed(kvs: seq<Setting>, name: string): (r: Option<string>) {
    if kvs == [] then None
    else
      var kv := kvs[|kvs| - 1];
      if kv.Some? && kv.value.0 == name then Some(kv.value.1) else LastNamed(kvs[..|kvs| - 1], name)
  }

  /** The last line about the port, under either of its names. */
  function LastPort(kvs: seq<Setting>): (r: Option<string>) {
    if kvs == [] then None
    else
      var kv := kvs[|kvs| - 1];
      if kv.Some? && (kv.value.0 == "server_port" || kv.value.0 == "bind_port") then Some(kv.value.1)
      else LastPort(kvs[..|kvs| - 1])
  }

  lemma {:induction false} NamedAre(kvs: seq<Setting>, name: string, k: Key)
    requires forall other: string :: KeyOf(other) == k <==> other == name
    ensures LastNamed(kvs, name) == LastOf(kvs, k)
  {
    if kvs != [] {
      NamedAre(kvs[..|kvs| - 1], name, k);
    }
  }

  lemma {:induction false} PortNames(kvs: seq<Setting>)
    requires forall other: string :: KeyOf(other) == Port <==> other == "server_port" || other == "bind_port"
    ensures LastPort(kvs) == LastOf(kvs, Port)
  {
    if kvs != [] {
      PortNames(kvs[..|kvs| - 1]);
    }
  }

  lemma KeyNames()
    ensures forall s: string :: KeyOf(s) == ServerHost <==> s == "server_host"
    ensures forall s: string :: KeyOf(s) == Port <==> s == "server_port" || s == "bind_port"
    ensures forall s: string :: KeyOf(s) == CaPath <==> s == "ca_path"
    ensures forall s: string :: KeyOf(s) == DbPath <==> s == "db_path"
    ensures forall s: string :: KeyOf(s) == CertFile <==> s == "cert_file"
    ensures forall s: string :: KeyOf(s) == KeyFile <==> s == "key_file"
    ensures forall s: string :: KeyOf(s) == DbKey <==> s == "db_key"
  {
    assert "ca_path"[0] == 'c' && "cert_file"[1] == 'e' && "key_file"[0] == 'k';
    assert "db_path"[3] == 'p' && "db_key"[3] == 'k' && "server_host"[7] == 'h' && "server_port"[7] == 'p';
    assert "bind_port"[0] == 'b';
  }

  /** What a reader finds in a field of size n + 1 after a file gave v, or no value, for it. */
  function Reading(v: Option<string>, otherwise: string, n: nat, last: char): Option<string> {
    match v
    case None => Some(otherwise)
    case Some(s) => if |s| < n then Some(s) else if last == NUL then Some(s[..n]) else None
  }

  /** Each name of the file has its own member of the struct. */
  lemma NamesReach(was: AppConfig, f: string)
    ensures var r, kvs := Load(was, f), Settings(f);
            && CString(r.serverHost) == Reading(LastNamed(kvs, "server_host"), "localhost", 255, was.serverHost[255])
            && CString(r.caPath) == Reading(LastNamed(kvs, "ca_path"), "", 511, was.caPath[511])
            && CString(r.dbPath) == Reading(LastNamed(kvs, "db_path"), "data/messagerie.db", 511, was.dbPath[511])
            && CString(r.certPath) == Reading(LastNamed(kvs, "cert_file"), "server.crt", 511, was.certPath[511])
            && CString(r.keyPath) == Reading(LastNamed(kvs, "key_file"), "server.key", 511, was.keyPath[511])
            && CString(r.dbKey) == Reading(LastNamed(kvs, "db_key"), "", 255, was.dbKey[255])
            && r.port == match LastPort(kvs) case None => 8080 case Some(v) => Atoi(v)
  {
    HostReached(was, f);
    CaReached(was, f);
    DbReached(was, f);
    CertReached(was, f);
    KeyFileReached(was, f);
    DbKeyReached(was, f);
    PortNamed(Settings(f));
    PortReads(was, f);
  }

  lemma HostNamed(kvs: seq<Setting>)
    ensures LastNamed(kvs, "server_host") == LastOf(kvs, ServerHost)
  {
    KeyNames();
    NamedAre(kvs, "server_host", ServerHost);
  }

  lemma KeyNamed(kvs: seq<Setting>)
    ensures LastNamed(kvs, "db_key") == LastOf(kvs, DbKey)
  {
    KeyNames();
    NamedAre(kvs, "db_key", DbKey);
  }

  lemma PortNamed(kvs: seq<Setting>)
    ensures LastPort(kvs) == LastOf(kvs, Port)
  {
    KeyNames();
    PortNames(kvs);
  }

  lemma PathsNamed(kvs: seq<Setting>)
    ensures LastNamed(kvs, "ca_path") == LastOf(kvs, CaPath) && LastNamed(kvs, "db_path") == LastOf(kvs, DbPath)
    ensures LastNamed(kvs, "cert_file") == LastOf(kvs, CertFile) && LastNamed(kvs, "key_file") == LastOf(kvs, KeyFile)
  {
    KeyNames();
    NamedAre(kvs, "ca_path", CaPath);
    NamedAre(kvs, "db_path", DbPath);
    NamedAre(kvs, "cert_file", CertFile);
    NamedAre(kvs, "key_file", KeyFile);
  }

  lemma HostReached(was: AppConfig, f: string)
    ensures CString(Load(was, f).serverHost)
         == Reading(LastNamed(Settings(f), "server_host"), "localhost", 255, was.serverHost[255])
  {
    HostNamed(Settings(f));
    NamedReads(was, f, ServerHost, "server_host");
    MemberIs(Load(was, f), was, ServerHost, LastNamed(Settings(f), "server_host"));
  }

  lemma CaReached(was: AppConfig, f: string)
    ensures CString(Load(was, f).caPath) == Reading(LastNamed(Settings(f), "ca_path"), "", 511, was.caPath[511])
  {
    PathsNamed(Settings(f));
    NamedReads(was, f, CaPath, "ca_path");
    MemberIs(Load(was, f), was, CaPath, LastNamed(Settings(f), "ca_path"));
  }

  lemma DbReached(was: AppConfig, f: string)
    ensures CString(Load(was, f).dbPath)
         == Reading(LastNamed(Settings(f), "db_path"), "data/messagerie.db", 511, was.dbPath[511])
  {
    PathsNamed(Settings(f));
    NamedReads(was, f, DbPath, "db_path");
    MemberIs(Load(was, f), was, DbPath, LastNamed(Settings(f), "db_path"));
  }

  lemma CertReached(was: AppConfig, f: string)
    ensures CString(Load(was, f).certPath)
         == Reading(LastNamed(Settings(f), "cert_file"), "server.crt", 511, was.certPath[511])
  {
    PathsNamed(Settings(f));
    NamedReads(was, f, CertFile, "cert_file");
    MemberIs(Load(was, f), was, CertFile, LastNamed(Settings(f), "cert_file"));
  }

  lemma KeyFileReached(was: AppConfig, f: string)
    ensures CString(Load(was, f).keyPath)
         == Reading(LastNamed(Settings(f), "key_file"), "server.key", 511, was.keyPath[511])
  {
    PathsNamed(Settings(f));
    NamedReads(was, f, KeyFile, "key_file");
    MemberIs(Load(was, f), was, KeyFile, LastNamed(Settings(f), "key_file"));
  }

  lemma DbKeyReached(was: AppConfig, f: string)
    ensures CString(Load(was, f).dbKey) == Reading(LastNamed(Settings(f), "db_key"), "", 255, was.dbKey[255])
  {
    KeyNamed(Settings(f));
    NamedReads(was, f, DbKey, "db_key");
    MemberIs(Load(was, f), was, DbKey, LastNamed(Settings(f), "db_key"));
  }

  /** The member of the struct that a key stands for. */
  lemma MemberIs(r: AppConfig, was: AppConfig, k: Key, v: Option<string>)
    requires IsText(k)
    requires var n := Size(k) - 1;
             CString(FieldOf(r, k)) == Reading(v, DefaultText(k), n, FieldOf(was, k)[n])
    ensures match k
            case ServerHost => CString(r.serverHost) == Reading(v, "localhost", 255, was.serverHost[255])
            case CaPath => CString(r.caPath) == Reading(v, "", 511, was.caPath[511])
            case DbPath => CString(r.dbPath) == Reading(v, "data/messagerie.db", 511, was.dbPath[511])
            case CertFile => CString(r.certPath) == Reading(v, "server.crt", 511, was.certPath[511])
            case KeyFile => CString(r.keyPath) == Reading(v, "server.key", 511, was.keyPath[511])
            case DbKey => CString(r.dbKey) == Reading(v, "", 255, was.dbKey[255])
            case _ => true
  {
  }

  lemma NamedReads(was: AppConfig, f: string, k: Key, name: string)
    requires IsText(k) && LastNamed(Settings(f), name) == LastOf(Settings(f), k)
    ensures var n := Size(k) - 1;
            CString(FieldOf(Load(was, f), k))
            == Reading(LastNamed(Settings(f), name), DefaultText(k), n, FieldOf(was, k)[n])
  {
    FieldReads(was, f, k);
  }

  // ---- the text of a file ----

  function Joined(ls: seq<string>): string {
    if ls == [] then "" else ls[0] + Joined(ls[1..])
  }

  /** Cutting a file into lines loses nothing and leaves newlines at the ends of lines only. */
  lemma {:induction false} LinesAre(f: string)
    ensures Joined(Lines(f)) == f
    ensures forall l :: l in Lines(f) ==> 0 < |l| <= 1023 && NEWLINE !in l[..|l| - 1]
    decreases |f|
  {
    if f != "" {
      LinesAre(f[LineLength(f)..]);
      FirstPiece(f);
      JoinedOn(f[..LineLength(f)], Lines(f[LineLength(f)..]));
      LinesStep(f);
    }
  }

  lemma FirstPiece(f: string)
    requires f != ""
    ensures var l := f[..LineLength(f)];
            f == l + f[LineLength(f)..] && 0 < |l| <= 1023 && NEWLINE !in l[..|l| - 1]
  {
    var n := LineLength(f);
    assert f[..n - 1] <= Before(f, NEWLINE);
    assert f[..n][..n - 1] == f[..n - 1];
  }

  lemma JoinedOn(l: string, ls: seq<string>)
    ensures Joined([l] + ls) == l + Joined(ls)
  {
    assert ([l] + ls)[1..] == ls;
  }

  /** Whatever follows white space and a '#' is ignored, and so is a line without '='. */
  lemma CommentsIgnored(w: string, l: string)
    requires AllSpaces(w) && NUL !in w && l != "" && l[0] == '#'
    ensures KeyValue(w + l) == None
  {
    var u := UntilNul(w + l);
    SpacesSeen(w, l);
    SkipsTo(w, u[|w|..]);
    assert u == w + u[|w|..];
  }

  lemma SpacesSeen(w: string, l: string)
    requires NUL !in w && l != "" && l[0] != NUL
    ensures |w| < |UntilNul(w + l)| && UntilNul(w + l)[..|w|] == w && UntilNul(w + l)[|w|] == l[0]
  {
    var u := UntilNul(w + l);
    assert forall i :: 0 <= i <= |w| ==> (w + l)[i] == if i < |w| then w[i] else l[0];
    assert |u| < |w + l| ==> (w + l)[|u|] == NUL;
    assert forall i :: 0 <= i < |u| ==> u[i] == (w + l)[i];
  }

  lemma WithoutEquals(line: string)
    requires '=' !in line
    ensures KeyValue(line) == None
  {
    var u := UntilNul(line);
    var p := SkipSpaces(u);
    SkipKeeps(u, '=');
    if p != "" && p[0] != '#' {
      assert p[0] in p;
      assert SkipChar(p, '=') == p;
      var tok := Before(p, '=');
      assert forall i :: 0 <= i < |p| ==> p[i] in p;
      assert Token(p, '=') == Some((tok, ""));
      assert Token("", NEWLINE) == None;
    }
  }

  /** The text of a saved file, from its first character to its last. */
  lemma SaveText(host: string, port: int)
    ensures Save(host, port)
         == "# MoT Client Configuration\n" + ("# Generated by First Run Wizard\n" + ("\n" + ("server_host=" + (host
            + ("\nserver_port=" + (Itoa(port) + "\n# ca_path=/path/to/custom_server.crt\n"))))))
  {
    SaveJoins("server_host=", host, "\n", "server_port=", Itoa(port), HINT + "\n");
    CommentTexts();
    HintText();
    KeyTexts();
  }

  lemma CommentTexts()
    ensures TITLE + "\n" == "# MoT Client Configuration\n"
    ensures ORIGIN + "\n" == "# Generated by First Run Wizard\n"
  {
  }

  lemma HintText()
    ensures "\n" + (HINT + "\n") == "\n# ca_path=/path/to/custom_server.crt\n"
  {
  }

  lemma KeyTexts()
    ensures "server_host" + "=" == "server_host=" && "server_port" + "=" == "server_port="
    ensures "\n" + "server_port=" == "\nserver_port="
  {
  }

  lemma SaveJoins(a: string, host: string, nl: string, b: string, port: string, rest: string)
    ensures (a + host + nl) + ((b + port + nl) + rest) == a + (host + ((nl + b) + (port + (nl + rest))))
  {
  }

  /** The defaults, read back whatever the struct held. */
  lemma DefaultsRead(was: AppConfig)
    ensures var r := Defaults(was);
            && r.port == 8080 && CString(r.serverHost) == Some("localhost")
            && CString(r.caPath) == Some("") && CString(r.dbKey) == Some("")
            && CString(r.dbPath) == Some("data/messagerie.db") && CString(r.certPath) == Some("server.crt")
            && CString(r.keyPath) == Some("server.key")
  {
    DefaultsReadShort(was);
    DefaultField(was, CaPath, "");
    DefaultField(was, DbPath, "");
    DefaultField(was, CertFile, "");
    DefaultField(was, KeyFile, "");
  }

  lemma DefaultsReadShort(was: AppConfig)
    ensures CString(Defaults(was).serverHost) == Some("localhost") && CString(Defaults(was).dbKey) == Some("")
  {
    DefaultField(was, ServerHost, "");
    DefaultField(was, DbKey, "");
  }

  lemma CopyOctets(field: string, s: string, i: nat)
    requires i < |field|
    ensures StrNCpy(field, s)[i]
         == if i == |field| - 1 then field[i] else if i < |s| then s[i] else NUL
  {
  }

  // ---- what comes back ----

  lemma {:induction false} SkipKeeps(s: string, c: char)
    requires c !in s
    ensures c !in SkipSpaces(s) && c !in SkipChar(s, '=') && c !in SkipChar(s, NEWLINE)
  {
    if s != "" {
      SkipKeeps(s[1..], c);
    }
  }

  lemma TokenKeeps(s: string, delim: char, c: char)
    requires c !in s && (delim == '=' || delim == NEWLINE) && Token(s, delim).Some?
    ensures c !in Token(s, delim).value.0 && c !in Token(s, delim).value.1
  {
    SkipKeeps(s, c);
  }

  /** A value has no newline and no NUL. */
  lemma ValueIsLine(line: string)
    requires KeyValue(line).Some?
    ensures NEWLINE !in KeyValue(line).value.1 && NUL !in KeyValue(line).value.1
  {
    var u := UntilNul(line);
    var p := SkipSpaces(u);
    SkipKeeps(u, NUL);
    TokenKeeps(p, '=', NUL);
    var rest := Token(p, '=').value.1;
    TokenKeeps(rest, NEWLINE, NUL);
    var val := Token(rest, NEWLINE).value.0;
    SkipKeeps(val, NUL);
    SkipKeeps(val, NEWLINE);
  }

  lemma {:induction false} LastIsLine(ls: seq<string>, k: Key)
    ensures var last := LastOf(Parsed(ls), k);
            last.Some? ==> NEWLINE !in last.value && NUL !in last.value
  {
    if ls != [] {
      var n := |ls| - 1;
      LastIsLine(ls[..n], k);
      ParsedLast(ls);
      if KeyValue(ls[n]).Some? {
        ValueIsLine(ls[n]);
      }
    }
  }

  /** What a reader finds in a field after the file was loaded. */
  function Found(was: AppConfig, f: string, k: Key): Option<string>
    requires IsText(k)
  {
    CString(FieldOf(Load(was, f), k))
  }

  /**
   * Every file, every prior contents of the struct: what a reader finds in a field is the value
   * of the last line about it, or the default; but a value that fills the field is found cut,
   * and only if the struct happened to hold a NUL in the field's last octet.
   */
  lemma FieldReads(was: AppConfig, f: string, k: Key)
    requires IsText(k)
    ensures var n := Size(k) - 1;
            Found(was, f, k)
            == match LastOf(Settings(f), k)
               case None => Some(DefaultText(k))
               case Some(v) =>
                 if |v| < n then Some(v) else if FieldOf(was, k)[n] == NUL then Some(v[..n]) else None
  {
    match LastOf(Settings(f), k) {
      case None => DefaultFound(was, f, k);
      case Some(v) => ValueFound(was, f, k, v);
    }
  }

  lemma DefaultFound(was: AppConfig, f: string, k: Key)
    requires IsText(k) && LastOf(Settings(f), k) == None
    ensures Found(was, f, k) == Some(DefaultText(k))
  {
    LinesMean(Defaults(was), Lines(f), k);
    DefaultField(was, k, "");
  }

  lemma ValueFound(was: AppConfig, f: string, k: Key, v: string)
    requires IsText(k) && LastOf(Settings(f), k) == Some(v)
    ensures var n := Size(k) - 1;
            Found(was, f, k)
            == if |v| < n then Some(v) else if FieldOf(was, k)[n] == NUL then Some(v[..n]) else None
  {
    LinesMean(Defaults(was), Lines(f), k);
    DefaultField(was, k, v);
    LastIsLine(Lines(f), k);
    CopyReads(FieldOf(was, k), v);
  }

  /** Memory without a NUL anywhere. */
  const DIRTY := AppConfig(0, seq(256, _ => 'x'), seq(512, _ => 'x'), seq(512, _ => 'x'), seq(512, _ => 'x'),
                           seq(512, _ => 'x'), seq(256, _ => 'x'))

  /**
   * A value given in a file is what readers find, whatever the struct held before, if and only
   * if it leaves two octets of its field: at most 254 for the host and the database key, at
   * most 510 for a path.
   */
  lemma FieldReadsIff(f: string, k: Key, v: string)
    requires IsText(k) && LastOf(Settings(f), k) == Some(v)
    ensures (forall was :: Found(was, f, k) == Some(v)) <==> |v| <= Size(k) - 2
  {
    if |v| <= Size(k) - 2 {
      forall was ensures Found(was, f, k) == Some(v) {
        FieldReads(was, f, k);
      }
    } else {
      DirtyLoses(f, k, v);
    }
  }

  lemma DirtyField(k: Key)
    requires IsText(k)
    ensures FieldOf(DIRTY, k)[Size(k) - 1] != NUL
  {
  }

  lemma DirtyLoses(f: string, k: Key, v: string)
    requires IsText(k) && |v| > Size(k) - 2
    ensures LastOf(Settings(f), k) == Some(v) ==> Found(DIRTY, f, k) == None
  {
    FieldReads(DIRTY, f, k);
    DirtyField(k);
  }

  /** The port is the number on the last line about it. */
  lemma PortReads(was: AppConfig, f: string)
    ensures Load(was, f).port == match LastOf(Settings(f), Port)
                                 case None => 8080
                                 case Some(v) => Atoi(v)
  {
    PortLines(Defaults(was), Lines(f));
  }

  /** Of what was saved, loading reads the line of the host and then the port. */
  lemma LoadSaved(was: AppConfig, host: string, port: int)
    requires CInt(port)
    ensures Load(was, Save(host, port)) == LoadText(Defaults(was), KeyLine("server_host", host)).(port := port)
  {
    var config := Defaults(was);
    var first := KeyLine("server_host", host);
    var second := KeyLine("server_port", Itoa(port)) + (HINT + "\n");
    Comments();
    LoadComment(config, TITLE, (ORIGIN + "\n") + ("\n" + (first + second)));
    LoadComment(config, ORIGIN, "\n" + (first + second));
    LoadBlank(config, first + second);
    LoadInTurn(config, first, second);
    LoadPort(LoadText(config, first), port);
  }

  lemma LoadHost(was: AppConfig, host: string)
    requires NUL !in host && NEWLINE !in host && |host| <= 255
    ensures LoadText(Defaults(was), KeyLine("server_host", host))
         == if host == "" then Defaults(was)
            else Defaults(was).(serverHost := StrNCpy(was.serverHost, Trim(host)))
  {
    PlainKeys();
    LoadKey(Defaults(was), "server_host", host);
    PutHostOrPort(Defaults(was), Trim(host));
    CopyTwice(was.serverHost, "localhost", Trim(host));
  }

  /** The port comes back whatever the host is. */
  lemma PortSurvives(was: AppConfig, host: string, port: int)
    requires CInt(port)
    ensures Load(was, Save(host, port)).port == port
  {
    LoadSaved(was, host, port);
  }

  /** What a reader can find in the host field after loading any file is one line of text. */
  lemma HostOneLine(was: AppConfig, f: string)
    ensures var r := CString(Load(was, f).serverHost); r.Some? ==> NEWLINE !in r.value
  {
    FieldReads(was, f, ServerHost);
    if LastOf(Settings(f), ServerHost).Some? {
      LastIsLine(Lines(f), ServerHost);
    }
  }

  /** What a reader finds in the host field after the saved host and port were loaded. */
  function HostFound(was: AppConfig, host: string, port: int): Option<string> {
    CString(Load(was, Save(host, port)).serverHost)
  }

  /** A host that a line of a file can hold. */
  predicate OneTrimmedLine(host: string) {
    host != "" && Trimmed(host) && NEWLINE !in host
  }

  /**
   * Loading into a struct that held `was` gives a saved host back exactly if a trimmed line can
   * hold it and it is shorter than 255, or the struct's last host octet was NUL already. With
   * such a host everything else is as the defaults leave it, apart from the port.
   */
  lemma SaveLoadIff(was: AppConfig, host: string, port: int)
    requires CInt(port) && NUL !in host && |host| <= 255
    ensures HostFound(was, host, port) == Some(host)
       <==> OneTrimmedLine(host) && (|host| <= 254 || was.serverHost[255] == NUL)
    ensures OneTrimmedLine(host) ==>
              Load(was, Save(host, port))
              == Defaults(was).(serverHost := StrNCpy(was.serverHost, host), port := port)
  {
    HostOneLine(was, Save(host, port));
    if NEWLINE !in host {
      HostLoaded(was, host, port);
      HostFoundIs(was, host, port);
      TrimExact(host);
    }
  }

  lemma HostLoaded(was: AppConfig, host: string, port: int)
    requires CInt(port) && NUL !in host && NEWLINE !in host && |host| <= 255
    ensures Load(was, Save(host, port))
         == (if host == "" then Defaults(was)
             else Defaults(was).(serverHost := StrNCpy(was.serverHost, Trim(host)))).(port := port)
  {
    LoadSaved(was, host, port);
    LoadHost(was, host);
  }

  lemma TrimmedReads(field: Field256, host: string)
    requires NUL !in host && |host| <= 255
    ensures CString(StrNCpy(field, Trim(host)))
         == if |Trim(host)| <= 254 || field[255] == NUL then Some(Trim(host)) else None
  {
    TrimExact(host);
    TrimKeeps(host);
    CopyReads(field, Trim(host));
    assert |Trim(host)| == 255 ==> Trim(host)[..255] == Trim(host);
  }

  lemma HostFoundIs(was: AppConfig, host: string, port: int)
    requires CInt(port) && NUL !in host && NEWLINE !in host && |host| <= 255
    ensures HostFound(was, host, port)
         == if host == "" then Some("localhost")
            else if |Trim(host)| <= 254 || was.serverHost[255] == NUL then Some(Trim(host))
            else None
  {
    if host == "" {
      EmptyHostFound(was, port);
    } else {
      LineHostFound(was, host, port);
    }
  }

  lemma EmptyHostFound(was: AppConfig, port: int)
    requires CInt(port)
    ensures HostFound(was, "", port) == Some("localhost")
  {
    HostLoaded(was, "", port);
    DefaultField(was, ServerHost, "");
    assert FieldOf(Defaults(was), ServerHost) == Defaults(was).serverHost;
  }

  lemma LineHostFound(was: AppConfig, host: string, port: int)
    requires CInt(port) && NUL !in host && NEWLINE !in host && 0 < |host| <= 255
    ensures HostFound(was, host, port)
         == if |Trim(host)| <= 254 || was.serverHost[255] == NUL then Some(Trim(host)) else None
  {
    HostLoaded(was, host, port);
    TrimmedReads(was.serverHost, host);
    assert HostFound(was, host, port) == CString(StrNCpy(was.serverHost, Trim(host)));
  }

  lemma TrimKeeps(s: string)
    requires NUL !in s
    ensures NUL !in Trim(s)
  {
    SkipKeeps(s, NUL);
  }

  /** The host comes back into every struct if and only if it also leaves two octets free. */
  lemma SaveLoadAlwaysIff(host: string, port: int)
    requires CInt(port) && NUL !in host && |host| <= 255
    ensures (forall was :: HostFound(was, host, port) == Some(host))
       <==> OneTrimmedLine(host) && |host| <= 254
  {
    if OneTrimmedLine(host) && |host| <= 254 {
      forall was ensures HostFound(was, host, port) == Some(host) {
        SaveLoadIff(was, host, port);
      }
    } else {
      SaveLoadIff(DIRTY, host, port);
      assert DIRTY.serverHost[255] != NUL;
      assert HostFound(DIRTY, host, port) != Some(host);
    }
  }

  /** The longest host the first-start wizard accepts comes back without an end. */
  lemma LongestHostLosesItsEnd(was: AppConfig, port: int)
    requires CInt(port) && was.serverHost[255] != NUL
    ensures var host := seq(255, _ => 'a'); HostFound(was, host, port) == None
  {
    var host := seq(255, _ => 'a');
    assert OneTrimmedLine(host) && NUL !in host;
    SaveLoadIff(was, host, port);
    CopyReads(was.serverHost, host);
  }
}
