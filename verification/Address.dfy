/** Server addresses: the three normalisers, and the ant:// connection string. */
module Address {
  import opened Words

  // Go's strings package.

  /** unicode.IsSpace. */
  predicate IsSpace(c: char) {
    || '\t' <= c <= '\r' || c == ' ' || c == '\U{0085}' || c == '\U{00a0}' || c == '\U{1680}'
    || '\U{2000}' <= c <= '\U{200a}' || c == '\U{2028}' || c == '\U{2029}' || c == '\U{202f}' || c == '\U{205f}' || c == '\U{3000}'
  }

  /** The white space, by code point. */
  lemma SpacesAre(c: char)
    ensures IsSpace(c) <==>
              var n := c as int;
              || 9 <= n <= 13 || n == 32 || n == 133 || n == 160 || n == 5760
              || 8192 <= n <= 8202 || n == 8232 || n == 8233 || n == 8239 || n == 8287 || n == 12288
  {
  }

  function TrimLeft(s: string): string {
    if s != "" && IsSpace(s[0]) then TrimLeft(s[1..]) else s
  }

  function TrimRight(s: string): string {
    if s != "" && IsSpace(s[|s| - 1]) then TrimRight(s[..|s| - 1]) else s
  }

  function TrimSpace(s: string): string {
    TrimRight(TrimLeft(s))
  }

  predicate Contains(s: string, sub: string) {
    sub <= s || (s != "" && Contains(s[1..], sub))
  }

  /** strings.ReplaceAll(s, "::", ":"). */
  function ReplaceDouble(s: string): string {
    if |s| < 2 then s
    else if s[0] == ':' && s[1] == ':' then ":" + ReplaceDouble(s[2..])
    else [s[0]] + ReplaceDouble(s[1..])
  }

  const DEFAULT_PORT := "8443"

  /** net.JoinHostPort, for a host without a colon. */
  function JoinHostPort(host: string): string
    requires ':' !in host
  {
    host + ":" + DEFAULT_PORT
  }

  /** t with a port added where it has none. */
  function WithPort(t: string): string {
    if t != "" && t[|t| - 1] == ':' then t + DEFAULT_PORT
    else if ':' !in t then JoinHostPort(t)
    else t
  }

  /** The daemon's normaliser. */
  function SanitizeAddress(raw: string): string {
    var s := TrimSpace(raw);
    WithPort(if Contains(s, "::") && !("[" <= s) then ReplaceDouble(s) else s)
  }

  /** The same steps as the transport and the client write them: each updates one
    * variable in turn. */
  method NormalizeInSteps(raw: string) returns (s: string)
    ensures s == SanitizeAddress(raw)
  {
    s := TrimSpace(raw);
    if Contains(s, "::") && !("[" <= s) {
      s := ReplaceDouble(s);
    }
    if s != "" && s[|s| - 1] == ':' {
      s := s + DEFAULT_PORT;
    }
    if ':' !in s {
      s := JoinHostPort(s);
    }
  }

  // When normalising is idempotent.

  predicate Trimmed(s: string) {
    s != "" ==> !IsSpace(s[0]) && !IsSpace(s[|s| - 1])
  }

  lemma {:induction false} TrimLeftKeepsEnd(s: string)
    ensures TrimLeft(s) != "" ==> s != "" && TrimLeft(s)[|TrimLeft(s)| - 1] == s[|s| - 1] && !IsSpace(TrimLeft(s)[0])
  {
    if s != "" && IsSpace(s[0]) {
      TrimLeftKeepsEnd(s[1..]);
    }
  }

  lemma {:induction false} TrimRightKeepsStart(s: string)
    ensures TrimRight(s) != "" ==> s != "" && TrimRight(s)[0] == s[0] && !IsSpace(TrimRight(s)[|TrimRight(s)| - 1])
  {
    if s != "" && IsSpace(s[|s| - 1]) {
      TrimRightKeepsStart(s[..|s| - 1]);
    }
  }

  lemma TrimSpaceTrims(s: string)
    ensures Trimmed(TrimSpace(s))
    ensures Trimmed(s) ==> TrimSpace(s) == s
  {
    TrimLeftKeepsEnd(s);
    TrimRightKeepsStart(TrimLeft(s));
  }

  lemma ReplaceKeepsEnds(s: string)
    requires s != ""
    ensures var r := ReplaceDouble(s); r != "" && r[0] == s[0] && r[|r| - 1] == s[|s| - 1]
    ensures ':' in ReplaceDouble(s) <==> ':' in s
  {
    ReplaceKeepsOuter(s);
    ReplaceKeepsColon(s);
  }

  lemma {:induction false} ReplaceKeepsOuter(s: string)
    requires s != ""
    ensures var r := ReplaceDouble(s); r != "" && r[0] == s[0] && r[|r| - 1] == s[|s| - 1]
  {
    if |s| > 2 && s[0] == ':' && s[1] == ':' {
      ReplaceKeepsOuter(s[2..]);
    } else if |s| >= 2 {
      ReplaceKeepsOuter(s[1..]);
    }
  }

  lemma {:induction false} ReplaceKeepsColon(s: string)
    ensures ':' in ReplaceDouble(s) <==> ':' in s
  {
    if |s| >= 2 {
      var head, tail := s[0], s[1..];
      assert s == [head] + tail;
      if head == ':' {
        ReplaceKeepsOuter(s);
        assert ReplaceDouble(s)[0] == ':';
      } else {
        ReplaceKeepsColon(tail);
        assert ReplaceDouble(s) == [head] + ReplaceDouble(tail);
      }
    }
  }

  lemma StartsWithColons(s: string)
    ensures "::" <= s <==> |s| >= 2 && s[0] == ':' && s[1] == ':'
    ensures ":::" <= s <==> |s| >= 3 && s[0] == ':' && s[1] == ':' && s[2] == ':'
  {
    assert "::"[0] == ':' && "::"[1] == ':';
    assert ":::"[0] == ':' && ":::"[1] == ':' && ":::"[2] == ':';
  }

  lemma {:induction false} ReplaceShortens(s: string)
    ensures if Contains(s, "::") then |ReplaceDouble(s)| < |s| else ReplaceDouble(s) == s
  {
    if |s| >= 2 {
      if s[0] == ':' && s[1] == ':' {
        ReplaceShortens(s[2..]);
      } else {
        ReplaceShortens(s[1..]);
        assert s == [s[0]] + s[1..];
      }
    } else if |s| == 1 {
      assert !Contains(s[1..], "::");
    }
  }

  /** A pair of colons is left exactly when there were three in a row. */
  lemma {:induction false} ReplaceLeavesPair(s: string)
    ensures Contains(ReplaceDouble(s), "::") <==> Contains(s, ":::")
  {
    var r := ReplaceDouble(s);
    StartsWithColons(r);
    StartsWithColons(s);
    if |s| < 2 {
      ShortContainsNone(s, "::");
      ShortContainsNone(s, ":::");
    } else if s[0] == ':' && s[1] == ':' {
      var t := s[2..];
      ReplaceLeavesPair(t);
      assert r[1..] == ReplaceDouble(t);
      if t != "" {
        ReplaceKeepsEnds(t);
      }
      StartsWithColons(s[1..]);
      assert s[1..][1..] == t;
      assert Contains(s[1..], ":::") <==> ":::" <= s[1..] || Contains(t, ":::");
    } else {
      ReplaceLeavesPair(s[1..]);
      ReplaceKeepsEnds(s[1..]);
      assert r[1..] == ReplaceDouble(s[1..]);
    }
  }

  lemma {:induction false} ShortContainsNone(s: string, sub: string)
    requires |s| < |sub|
    ensures !Contains(s, sub)
  {
    if s != "" {
      ShortContainsNone(s[1..], sub);
    }
  }

  /** Appending text that begins with one colon at most adds no pair, unless the
    * colon meets another. */
  lemma {:induction false} AppendAddsNoPair(s: string, tail: string)
    requires tail != "" && !Contains(tail, "::")
    requires s != "" && s[|s| - 1] == ':' ==> tail[0] != ':'
    ensures Contains(s + tail, "::") <==> Contains(s, "::")
  {
    if s == "" {
      assert s + tail == tail;
    } else {
      AppendAddsNoPair(s[1..], tail);
      assert (s + tail)[1..] == s[1..] + tail;
      if |s| == 1 {
        ShortContainsNone(s, "::");
      }
    }
  }

  lemma {:induction false} NoPairOfColons(host: string, port: string)
    requires ':' !in host && ':' !in port
    ensures !Contains(host + ":" + port, "::")
  {
    var s := host + ":" + port;
    StartsWithColons(s);
    if host == "" {
      NoColonNoPair(port);
      assert s[1..] == port;
    } else {
      NoPairOfColons(host[1..], port);
      assert s[1..] == host[1..] + ":" + port;
    }
  }

  lemma {:induction false} NoColonNoPair(s: string)
    requires ':' !in s
    ensures !Contains(s, "::")
  {
    StartsWithColons(s);
    if s != "" {
      NoColonNoPair(s[1..]);
    }
  }

  lemma PortHasNoPair()
    ensures !Contains(DEFAULT_PORT, "::") && !Contains(":" + DEFAULT_PORT, "::")
  {
    NoColonNoPair(DEFAULT_PORT);
    NoPairOfColons("", DEFAULT_PORT);
    assert "" + ":" + DEFAULT_PORT == ":" + DEFAULT_PORT;
  }

  /** What normalising leaves alone. */
  predicate Normal(s: string) {
    && Trimmed(s)
    && ':' in s
    && s[|s| - 1] != ':'
    && ("[" <= s || !Contains(s, "::"))
  }

  lemma NormalIsFixed(s: string)
    ensures Normal(s) <==> SanitizeAddress(s) == s
  {
    TrimSpaceTrims(s);
    var out := SanitizeAddress(s);
    SanitizedShape(s);
    if out == s && !("[" <= s) && Contains(s, "::") {
      ReplaceShortens(s);
      ReplaceKeepsEnds(s);
    }
  }

  /** Whatever the input, the result is trimmed, has a colon and does not end in one;
    * it has a pair of colons only behind a bracket or from three in a row. */
  lemma SanitizedShape(raw: string)
    ensures var s, out := TrimSpace(raw), SanitizeAddress(raw);
            && Trimmed(out) && ':' in out && out[|out| - 1] != ':'
            && ("[" <= out <==> "[" <= s)
            && (!("[" <= s) ==> (Contains(out, "::") <==> Contains(s, ":::")))
  {
    hide TrimSpace, ReplaceDouble, Contains;
    var s := TrimSpace(raw);
    TrimSpaceTrims(raw);
    ReplaceShortens(s);
    ReplaceLeavesPair(s);
    if s != "" {
      ReplaceKeepsEnds(s);
    }
    PortAdded(if Contains(s, "::") && !("[" <= s) then ReplaceDouble(s) else s);
  }

  lemma PortAdded(t: string)
    requires Trimmed(t)
    ensures var out := WithPort(t);
            && Trimmed(out) && ':' in out && out[|out| - 1] != ':'
            && (t != "" ==> out[0] == t[0]) && (t == "" ==> out[0] == ':')
            && (Contains(out, "::") <==> Contains(t, "::"))
  {
    hide Contains;
    PortHasNoPair();
    if t != "" && t[|t| - 1] == ':' {
      AppendAddsNoPair(t, DEFAULT_PORT);
    } else {
      AppendAddsNoPair(t, ":" + DEFAULT_PORT);
      assert t + (":" + DEFAULT_PORT) == t + ":" + DEFAULT_PORT;
    }
  }

  /** Normalising twice is normalising once, exactly for the strings that begin with
    * a bracket after trimming or have no three colons in a row. */
  lemma IdempotentExactlyWhen(raw: string)
    ensures SanitizeAddress(SanitizeAddress(raw)) == SanitizeAddress(raw) <==>
              "[" <= TrimSpace(raw) || !Contains(TrimSpace(raw), ":::")
  {
    SanitizedShape(raw);
    NormalIsFixed(SanitizeAddress(raw));
  }

  // What normalising does, case by case.

  function Colons(n: nat): string {
    seq(n, _ => ':')
  }

  lemma ReplaceHead(c: char, s: string)
    requires c != ':'
    ensures ReplaceDouble([c] + s) == [c] + ReplaceDouble(s)
  {
    assert ([c] + s)[1..] == s;
  }

  lemma ReplacePair(s: string)
    ensures ReplaceDouble("::" + s) == ":" + ReplaceDouble(s)
  {
    assert ("::" + s)[2..] == s;
  }

  lemma ReplaceOne(s: string)
    requires s == "" || s[0] != ':'
    ensures ReplaceDouble(":" + s) == ":" + ReplaceDouble(s)
  {
    assert (":" + s)[1..] == s;
  }

  lemma ColonsMore(n: nat)
    ensures Colons(n + 1) == ":" + Colons(n) && Colons(n + 2) == "::" + Colons(n)
    ensures Colons(0) == "" && Colons(1) == ":"
  {
  }

  lemma {:induction false} ReplaceFront(a: string, s: string)
    requires ':' !in a
    ensures ReplaceDouble(a + s) == a + ReplaceDouble(s)
  {
    hide ReplaceDouble;
    if a == "" {
      assert a + s == s;
    } else {
      var c, t := a[0], a[1..];
      ReplaceFront(t, s);
      ReplaceHead(c, t + s);
      assert a + s == [c] + (t + s);
      assert a + ReplaceDouble(s) == [c] + (t + ReplaceDouble(s));
    }
  }

  lemma {:induction false} HalveColons(n: nat, b: string)
    requires b != "" ==> b[0] != ':'
    ensures ReplaceDouble(Colons(n) + b) == Colons((n + 1) / 2) + ReplaceDouble(b)
  {
    hide ReplaceDouble, Colons;
    if n >= 2 {
      var s, r := Colons(n - 2) + b, ReplaceDouble(b);
      HalveColons(n - 2, b);
      ColonsMore(n - 2);
      ReplacePair(s);
      assert Colons(n) + b == "::" + s;
      ColonsMore((n - 1) / 2);
      assert (n + 1) / 2 == (n - 1) / 2 + 1;
      assert Colons((n + 1) / 2) + r == ":" + (Colons((n - 1) / 2) + r);
    } else {
      ColonsMore(0);
      ReplaceOne(b);
      assert "" + b == b && "" + ReplaceDouble(b) == ReplaceDouble(b);
    }
  }

  /** A run of n colons becomes a run of half as many, rounded up; nothing else changes. */
  lemma RunsAreHalved(a: string, n: nat, b: string)
    requires ':' !in a && (b != "" ==> b[0] != ':')
    ensures ReplaceDouble(a + Colons(n) + b) == a + Colons((n + 1) / 2) + ReplaceDouble(b)
  {
    hide ReplaceDouble, Colons;
    HalveColons(n, b);
    ReplaceFront(a, Colons(n) + b);
    assert a + Colons(n) + b == a + (Colons(n) + b);
    assert a + Colons((n + 1) / 2) + ReplaceDouble(b) == a + (Colons((n + 1) / 2) + ReplaceDouble(b));
  }

  /** The default port is added where there is none, and where it is empty. */
  lemma DefaultPort(t: string)
    requires Trimmed(t) && ':' !in t
    ensures SanitizeAddress(t) == t + ":" + "8443"
    ensures SanitizeAddress(t + ":") == t + ":" + "8443"
  {
    TrimSpaceTrims(t);
    TrimSpaceTrims(t + ":");
    NoColonNoPair(t);
    assert t + ":" == t + ":" + "";
    NoPairOfColons(t, "");
    hide TrimSpace, Contains;
  }

  /** A pair of colons is one colon, except behind a bracket. */
  lemma DoubledColon(host: string, port: string)
    requires ':' !in host && ':' !in port && port != "" && Trimmed(host + "::" + port)
    ensures SanitizeAddress(host + "::" + port) ==
              if host != "" && host[0] == '[' then host + "::" + port else host + ":" + port
  {
    var s := host + "::" + port;
    assert Colons(2) == "::" && Colons(1) == ":";
    assert s == host + Colons(2) + port && host + Colons(1) + port == host + ":" + port;
    assert port[0] != ':' by { assert port[0] in port; }
    RunsAreHalved(host, 2, port);
    NothingToHalve(port);
    TrimSpaceTrims(s);
    HasPair(host, port);
    assert s[|s| - 1] == port[|port| - 1] && port[|port| - 1] in port;
    assert s[|host|] == ':' && (host + ":" + port)[|host|] == ':';
    assert "[" <= s <==> host != "" && host[0] == '[';
    hide TrimSpace, Contains, ReplaceDouble;
  }

  lemma NothingToHalve(s: string)
    requires ':' !in s
    ensures ReplaceDouble(s) == s
  {
    RunsAreHalved(s, 0, "");
    assert s + Colons(0) + "" == s;
    assert Colons((0 + 1) / 2) == "" && ReplaceDouble("") == "";
    assert s + Colons((0 + 1) / 2) + ReplaceDouble("") == s;
  }

  lemma {:induction false} HasPair(host: string, port: string)
    ensures Contains(host + "::" + port, "::")
  {
    var s := host + "::" + port;
    if host == "" {
      assert s == "::" + port;
    } else {
      HasPair(host[1..], port);
      assert s[1..] == host[1..] + "::" + port;
    }
  }

  predicate AllSpace(s: string) {
    forall k | 0 <= k < |s| :: IsSpace(s[k])
  }

  /** White space around an address does not matter. */
  lemma SpaceAround(x: string, t: string, y: string)
    requires AllSpace(x) && AllSpace(y) && Trimmed(t)
    ensures TrimSpace(x + t + y) == t
    ensures SanitizeAddress(x + t + y) == SanitizeAddress(t)
  {
    TrimSpaceTrims(t);
    TrimFront(x, t + y);
    assert x + t + y == x + (t + y);
    if t == "" {
      TrimFront(y, "");
      assert t + y == y + "";
    } else {
      assert (t + y)[0] == t[0];
      assert TrimLeft(t + y) == t + y;
      TrimBack(t, y);
    }
  }

  lemma {:induction false} TrimFront(x: string, s: string)
    requires AllSpace(x)
    ensures TrimLeft(x + s) == TrimLeft(s)
  {
    if x == "" {
      assert x + s == s;
    } else {
      TrimFront(x[1..], s);
      assert (x + s)[1..] == x[1..] + s;
    }
  }

  lemma {:induction false} TrimBack(t: string, y: string)
    requires AllSpace(y) && t != "" && !IsSpace(t[|t| - 1])
    ensures TrimRight(t + y) == t
  {
    if y == "" {
      assert t + y == t;
    } else {
      var z := y[..|y| - 1];
      TrimBack(t, z);
      assert (t + y)[..|t + y| - 1] == t + z;
    }
  }

  // The connection string.

  function IndexOf(s: string, c: char): (i: nat)
    requires c in s
    ensures i < |s| && s[i] == c && c !in s[..i]
  {
    if s[0] == c then 0 else
    var i := 1 + IndexOf(s[1..], c);
    assert s[..i] == [s[0]] + s[1..][..i - 1];
    i
  }

  /** strings.Split, for a separator of one character. */
  function Split(s: string, sep: char): (parts: seq<string>)
    ensures |parts| >= 1
    decreases |s|
  {
    if sep !in s then [s]
    else var i := IndexOf(s, sep); [s[..i]] + Split(s[i + 1..], sep)
  }

  datatype Parsed = BadScheme | BadFormat | URL(pubKey: string, host: string, mode: string, sni: string)

  datatype Options = Options(mode: string, sni: string)

  /** The effect of one part of the query; parts other than key=value are ignored. */
  function Apply(o: Options, part: string): Options {
    var kv := Split(part, '=');
    if |kv| != 2 then o
    else if kv[0] == "obfs" then o.(mode := kv[1])
    else if kv[0] == "sni" then o.(sni := kv[1])
    else o
  }

  function ApplyAll(o: Options, parts: seq<string>): Options {
    if parts == [] then o else Apply(ApplyAll(o, parts[..|parts| - 1]), parts[|parts| - 1])
  }

  const SCHEME := "ant://"

  function ParseSpec(url: string): Parsed {
    if !(SCHEME <= url) then BadScheme else
    var parts := Split(url[|SCHEME|..], '@');
    if |parts| != 2 then BadFormat else
    var rest, plain := parts[1], Options("tls", "");
    if '?' !in rest then URL(parts[0], SanitizeAddress(rest), plain.mode, plain.sni) else
    var i := IndexOf(rest, '?');
    var o := ApplyAll(plain, Split(rest[i + 1..], '&'));
    URL(parts[0], SanitizeAddress(rest[..i]), o.mode, o.sni)
  }

  method ReadOptions(qs: seq<string>) returns (transportMode: string, sni: string)
    ensures Options(transportMode, sni) == ApplyAll(Options("tls", ""), qs)
  {
    transportMode, sni := "tls", "";
    for k := 0 to |qs|
      invariant Options(transportMode, sni) == ApplyAll(Options("tls", ""), qs[..k])
    {
      var kv := Split(qs[k], '=');
      if |kv| == 2 {
        if kv[0] == "obfs" {
          transportMode := kv[1];
        } else if kv[0] == "sni" {
          sni := kv[1];
        }
      }
      assert qs[..k + 1][..k] == qs[..k];
    }
    assert qs[..|qs|] == qs;
  }

  method ParseURL(url: string) returns (r: Parsed)
    ensures r == ParseSpec(url)
  {
    if !(SCHEME <= url) {
      return BadScheme;
    }
    var parts := Split(url[|SCHEME|..], '@');
    if |parts| != 2 {
      return BadFormat;
    }
    var rest := parts[1];
    var hostPart, transportMode, sni := rest, "tls", "";
    if '?' in rest {
      var idx := IndexOf(rest, '?');
      hostPart := rest[..idx];
      transportMode, sni := ReadOptions(Split(rest[idx + 1..], '&'));
    }
    var host := NormalizeInSteps(hostPart);
    return URL(parts[0], host, transportMode, sni);
  }

  // Which strings parse, and to what.

  /** Split gives two parts exactly when there is one separator. */
  lemma SplitInTwo(s: string, sep: char, a: string, b: string)
    ensures Split(s, sep) == [a, b] <==> sep !in a && sep !in b && s == a + [sep] + b
  {
    hide Split, IndexOf;
    if sep !in a && sep !in b && s == a + [sep] + b {
      SplitOnce(a, sep, b);
    }
    if Split(s, sep) == [a, b] {
      OnePart(s, sep);
      var i := IndexOf(s, sep);
      var rest := s[i + 1..];
      SplitHead(s, sep);
      OnePart(rest, sep);
      assert [a, b][1..] == [b];
      assert s == s[..i] + [sep] + rest;
    }
  }

  lemma SplitHead(s: string, sep: char)
    requires sep in s
    ensures Split(s, sep)[0] == s[..IndexOf(s, sep)] && Split(s, sep)[1..] == Split(s[IndexOf(s, sep) + 1..], sep)
  {
  }

  lemma OnePart(s: string, sep: char)
    ensures |Split(s, sep)| == 1 <==> sep !in s
    ensures sep !in s ==> Split(s, sep) == [s]
  {
  }

  /** The errors: a wrong scheme; and anything but one '@' behind it. */
  lemma ParseErrors(url: string)
    ensures ParseSpec(url) == BadScheme <==> !("ant://" <= url)
    ensures ParseSpec(url) == BadFormat <==>
              "ant://" <= url && forall a, b | url == "ant://" + a + "@" + b :: '@' in a || '@' in b
  {
    if "ant://" <= url {
      var rest := url[6..];
      var parts := Split(rest, '@');
      forall a: string, b: string ensures url == "ant://" + a + "@" + b <==> rest == a + "@" + b {
        assert "ant://" + a + "@" + b == "ant://" + (a + "@" + b);
        assert url == "ant://" + rest;
        assert ("ant://" + a + "@" + b)[6..] == a + "@" + b;
      }
      if |parts| == 2 {
        SplitInTwo(rest, '@', parts[0], parts[1]);
        assert parts == [parts[0], parts[1]];
        assert url == "ant://" + parts[0] + "@" + parts[1];
      } else {
        forall a: string, b: string | url == "ant://" + a + "@" + b ensures '@' in a || '@' in b {
          SplitInTwo(rest, '@', a, b);
        }
      }
    }
  }

  /** What one part of the query does: only "obfs=" and "sni=" with a value matter. */
  lemma OptionIs(o: Options, v: string)
    requires '=' !in v
    ensures Apply(o, "obfs=" + v) == Options(v, o.sni)
    ensures Apply(o, "sni=" + v) == Options(o.mode, v)
  {
    assert "obfs=" + v == "obfs" + ['='] + v && "sni=" + v == "sni" + ['='] + v;
    SplitInTwo("obfs=" + v, '=', "obfs", v);
    SplitInTwo("sni=" + v, '=', "sni", v);
    hide Split;
    assert ["obfs", v][0] == "obfs" && ["sni", v][0] == "sni";
  }

  lemma OtherPart(o: Options, part: string)
    requires forall v | part == "obfs=" + v || part == "sni=" + v :: '=' in v
    ensures Apply(o, part) == o
  {
    var kv := Split(part, '=');
    if |kv| == 2 {
      assert kv == [kv[0], kv[1]];
      SplitInTwo(part, '=', kv[0], kv[1]);
      assert part == kv[0] + "=" + kv[1];
    }
  }

  /** Without options: TLS, and no server name. */
  lemma ParsePlain(key: string, addr: string)
    requires '@' !in key && '@' !in addr && '?' !in addr
    ensures ParseSpec("ant://" + key + "@" + addr) == URL(key, SanitizeAddress(addr), "tls", "")
  {
    var rest := key + ['@'] + addr;
    SplitOnce(key, '@', addr);
    assert "ant://" + key + "@" + addr == "ant://" + rest;
    hide Split, SanitizeAddress;
  }

  /** With both options, in either order: the mode and the server name are their values. */
  lemma ParseBoth(key: string, addr: string, mode: string, sni: string)
    requires '@' !in key && '@' !in addr && '?' !in addr && '@' !in mode && '@' !in sni
    requires '&' !in mode && '=' !in mode && '&' !in sni && '=' !in sni
    ensures ParseSpec("ant://" + key + "@" + addr + "?" + "obfs=" + mode + "&" + "sni=" + sni) ==
              URL(key, SanitizeAddress(addr), mode, sni)
    ensures ParseSpec("ant://" + key + "@" + addr + "?" + "sni=" + sni + "&" + "obfs=" + mode) ==
              URL(key, SanitizeAddress(addr), mode, sni)
  {
    hide ParseSpec, Apply, SanitizeAddress;
    var a, b, o := "obfs=" + mode, "sni=" + sni, Options("tls", "");
    NoAmpersand(mode, sni);
    ParseQuery(key, addr, a, b);
    ParseQuery(key, addr, b, a);
    OptionIs(o, mode);
    OptionIs(Options(mode, ""), sni);
    OptionIs(o, sni);
    OptionIs(Options("tls", sni), mode);
    var front := "ant://" + key + "@" + addr + "?";
    assert front + "obfs=" + mode + "&" + "sni=" + sni == front + (a + "&" + b);
    assert front + "sni=" + sni + "&" + "obfs=" + mode == front + (b + "&" + a);
  }

  lemma NoAmpersand(mode: string, sni: string)
    requires '&' !in mode && '&' !in sni && '@' !in mode && '@' !in sni
    ensures '&' !in "obfs=" + mode && '&' !in "sni=" + sni && '@' !in "obfs=" + mode && '@' !in "sni=" + sni
  {
  }

  lemma ParseQuery(key: string, addr: string, p: string, q: string)
    requires '@' !in key && '@' !in addr && '?' !in addr && '@' !in p && '@' !in q && '&' !in p && '&' !in q
    ensures var o := Apply(Apply(Options("tls", ""), p), q);
            ParseSpec("ant://" + key + "@" + addr + "?" + (p + "&" + q)) == URL(key, SanitizeAddress(addr), o.mode, o.sni)
  {
    hide Split, IndexOf, SanitizeAddress, Apply, ApplyAll;
    var query := p + ['&'] + q;
    var rest := addr + ['?'] + query;
    var url := "ant://" + key + "@" + addr + "?" + (p + "&" + q);
    QueryUrl(key, addr, query);
    SplitOnce(key, '@', rest);
    SplitOnce(p, '&', q);
    FirstIndex(addr, '?', query);
    ApplyTwo(Options("tls", ""), p, q);
  }

  lemma ApplyTwo(o: Options, p: string, q: string)
    ensures ApplyAll(o, [p, q]) == Apply(Apply(o, p), q)
  {
    hide Apply;
    var one, two := [p], [p, q];
    assert two[..|two| - 1] == one && one[..|one| - 1] == [];
    assert ApplyAll(o, one) == Apply(o, p);
  }

  lemma QueryUrl(key: string, addr: string, query: string)
    requires '@' !in addr && '@' !in query
    ensures var rest := addr + ['?'] + query; var url := "ant://" + key + "@" + addr + "?" + query;
            && "ant://" <= url && url[6..] == key + ['@'] + rest
            && '?' in rest && '@' !in rest
            && rest[..|addr|] == addr && rest[|addr| + 1..] == query
  {
    var rest := addr + ['?'] + query;
    assert rest[|addr|] == '?' && rest[..|addr|] == addr && rest[|addr| + 1..] == query;
    assert "ant://" + key + "@" + addr + "?" + query == "ant://" + (key + ['@'] + rest);
    assert ("ant://" + (key + ['@'] + rest))[6..] == key + ['@'] + rest;
  }

  /** The string that the server prints, with any address and mode. */
  function ConnectionString(key: string, addr: string, mode: string): string {
    SCHEME + key + "@" + addr + "?" + "obfs=" + mode
  }

  lemma SplitOnce(a: string, sep: char, b: string)
    requires sep !in a && sep !in b
    ensures Split(a + [sep] + b, sep) == [a, b]
  {
    FirstIndex(a, sep, b);
    var s := a + [sep] + b;
    assert s[..|a|] == a && s[|a| + 1..] == b;
  }

  lemma {:induction false} FirstIndex(a: string, sep: char, b: string)
    requires sep !in a
    ensures IndexOf(a + [sep] + b, sep) == |a|
  {
    if a != "" {
      FirstIndex(a[1..], sep, b);
      assert (a + [sep] + b)[1..] == a[1..] + [sep] + b;
    }
  }

  lemma QueryParses(mode: string)
    requires '&' !in mode && '=' !in mode
    ensures ApplyAll(Options("tls", ""), Split("obfs=" + mode, '&')) == Options(mode, "")
  {
    hide IndexOf;
    var query := "obfs=" + mode;
    assert query == "obfs" + ['='] + mode;
    assert '&' !in query;
    SplitOnce("obfs", '=', mode);
    assert Split(query, '=')[0] == "obfs" && Split(query, '=')[1] == mode;
    hide Split;
    assert [query][..0] == [];
    assert ApplyAll(Options("tls", ""), [query]) == Apply(Options("tls", ""), query);
  }

  /** Parsing a connection string gives back the key and the mode, and the address in
    * normal form; so it gives back the address exactly when that is normal. */
  lemma ParseInvertsConnectionString(key: string, addr: string, mode: string)
    requires '@' !in key && '@' !in addr && '@' !in mode
    requires '?' !in addr && '&' !in mode && '=' !in mode
    ensures ParseSpec(ConnectionString(key, addr, mode)) == URL(key, SanitizeAddress(addr), mode, "")
    ensures ParseSpec(ConnectionString(key, addr, mode)) == URL(key, addr, mode, "") <==> Normal(addr)
  {
    hide Split, IndexOf, ApplyAll, SanitizeAddress, Normal;
    var query := "obfs=" + mode;
    var rest := addr + ['?'] + query;
    var url := ConnectionString(key, addr, mode);
    UrlParts(key, addr, mode);
    SplitOnce(key, '@', rest);
    FirstIndex(addr, '?', query);
    QueryParses(mode);
    NormalIsFixed(addr);
  }

  lemma UrlParts(key: string, addr: string, mode: string)
    requires '@' !in addr && '@' !in mode
    ensures var query := "obfs=" + mode; var rest := addr + ['?'] + query; var url := ConnectionString(key, addr, mode);
            && SCHEME <= url
            && url[|SCHEME|..] == key + ['@'] + rest
            && '?' in rest && '@' !in rest
            && rest[..|addr|] == addr && rest[|addr| + 1..] == query
  {
    var query := "obfs=" + mode;
    var rest := addr + ['?'] + query;
    assert rest[|addr|] == '?';
    assert ConnectionString(key, addr, mode) == SCHEME + (key + ['@'] + rest);
  }

  /** A host without colons, with a port of one or more digits, is normal exactly when it
    * does not begin with a space. */
  lemma HostPortIsNormal(host: string, port: string)
    requires ':' !in host
    requires port != "" && forall c <- port :: '0' <= c <= '9'
    ensures Normal(host + ":" + port) <==> host == "" || !IsSpace(host[0])
  {
    var s := host + ":" + port;
    assert s[|host|] == ':';
    assert port[|port| - 1] in port;
    assert host != "" ==> s[0] == host[0];
    NoPairOfColons(host, port);
  }
}
