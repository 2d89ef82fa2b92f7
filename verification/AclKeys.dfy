/**
 * The keys of the permission cache and the glob patterns that invalidate them
 * (services/chat/src/access.rs, services/chat/src/acl_consumer.rs), as strings.
 */
module AclKeys {
  datatype Action = Read | Write

  function Label(action: Action): char {
    match action
    case Read => 'r'
    case Write => 'w'
  }

  // ── Decimal numbers ──

  function Digit(d: nat): char
    requires d < 10
  {
    ('0' as int + d) as char
  }

  function Decimal(n: nat): string {
    if n < 10 then [Digit(n)] else Decimal(n / 10) + [Digit(n % 10)]
  }

  /** An i64 as `format!` prints it. */
  function Printed(n: int): string {
    if n < 0 then "-" + Decimal(-n) else Decimal(n)
  }

  predicate IsDigit(c: char) {
    '0' <= c <= '9'
  }

  /** Digits and signs only: no colon and no wildcard. */
  predicate Plain(s: string) {
    forall c :: c in s ==> IsDigit(c) || c == '-'
  }

  lemma {:induction false} DecimalIsDigits(n: nat)
    ensures Decimal(n) != [] && forall c :: c in Decimal(n) ==> IsDigit(c)
  {
    if n >= 10 {
      DecimalIsDigits(n / 10);
    }
  }

  lemma PrintedIsPlain(n: int)
    ensures Plain(Printed(n)) && Printed(n) != []
  {
    DecimalIsDigits(if n < 0 then -n else n);
  }

  lemma {:induction false} DecimalIsInjective(a: nat, b: nat)
    requires Decimal(a) == Decimal(b)
    ensures a == b
  {
    DecimalIsDigits(a / 10);
    DecimalIsDigits(b / 10);
    var s := Decimal(a);
    assert s[|s| - 1] == Digit(a % 10) == Digit(b % 10);
    if a >= 10 && b >= 10 {
      assert s[..|s| - 1] == Decimal(a / 10) == Decimal(b / 10);
      DecimalIsInjective(a / 10, b / 10);
    }
  }

  lemma PrintedIsInjective(a: int, b: int)
    requires Printed(a) == Printed(b)
    ensures a == b
  {
    var x, y := if a < 0 then -a else a, if b < 0 then -b else b;
    DecimalIsDigits(x);
    DecimalIsDigits(y);
    assert a < 0 ==> Printed(a)[0] == '-' && Printed(a)[1..] == Decimal(x);
    assert b < 0 ==> Printed(b)[0] == '-' && Printed(b)[1..] == Decimal(y);
    assert a >= 0 ==> Printed(a)[0] in Decimal(x);
    assert b >= 0 ==> Printed(b)[0] in Decimal(y);
    DecimalIsInjective(x, y);
  }

  // ── Keys and patterns ──

  function CacheKey(hub: int, channel: int, user: int, action: Action): string {
    "acl:" + Printed(hub) + ":" + Printed(channel) + ":" + Printed(user) + ":" + [Label(action)]
  }

  datatype Scope =
    | ChannelScope(hub: int, channel: int)
    | UserScope(hub: int, user: int)

  function Pattern(scope: Scope): string {
    match scope
    case ChannelScope(hub, channel) => "acl:" + Printed(hub) + ":" + Printed(channel) + ":*"
    case UserScope(hub, user) => "acl:" + Printed(hub) + ":*:" + Printed(user) + ":*"
  }

  predicate InScope(scope: Scope, hub: int, channel: int, user: int) {
    match scope
    case ChannelScope(h, c) => h == hub && c == channel
    case UserScope(h, u) => h == hub && u == user
  }

  /**
   * Redis glob matching for patterns of literals and `*`. A `*` matches any run of
   * characters, colons included.
   */
  predicate Matches(pattern: string, s: string)
    decreases |pattern| + |s|
  {
    if pattern == [] then s == []
    else if pattern[0] == '*' then Matches(pattern[1..], s) || (s != [] && Matches(pattern, s[1..]))
    else s != [] && s[0] == pattern[0] && Matches(pattern[1..], s[1..])
  }

  // ── Matching, piece by piece ──

  predicate Literal(s: string) {
    '*' !in s
  }

  lemma {:induction false} LiteralMatches(lit: string, pattern: string, s: string)
    requires Literal(lit)
    ensures Matches(lit + pattern, s) <==> lit <= s && Matches(pattern, s[|lit|..])
    decreases lit
  {
    if lit == [] {
      assert lit + pattern == pattern;
      assert s[0..] == s;
    } else {
      assert (lit + pattern)[0] == lit[0] && lit[0] in lit;
      assert (lit + pattern)[1..] == lit[1..] + pattern;
      if s != [] && s[0] == lit[0] {
        LiteralMatches(lit[1..], pattern, s[1..]);
        assert lit <= s <==> lit[1..] <= s[1..];
        assert lit <= s ==> s[1..][|lit[1..]|..] == s[|lit|..];
      }
    }
  }

  lemma {:induction false} StarMatches(pattern: string, s: string)
    ensures Matches("*" + pattern, s) <==> exists i :: 0 <= i <= |s| && Matches(pattern, s[i..])
    decreases |s|
  {
    assert ("*" + pattern)[1..] == pattern;
    assert s[0..] == s;
    if s != [] {
      StarMatches(pattern, s[1..]);
      if i :| 0 <= i <= |s[1..]| && Matches(pattern, s[1..][i..]) {
        assert s[1..][i..] == s[i + 1..];
      }
      if i :| 1 <= i <= |s| && Matches(pattern, s[i..]) {
        assert s[i..] == s[1..][i - 1..];
      }
    }
  }

  lemma TrailingStar(s: string)
    ensures Matches("*", s)
  {
    StarMatches("", s);
    assert "*" + "" == "*" && s[|s|..] == [];
  }

  // ── Splitting at colons ──

  lemma FirstColon(field: string, rest: string)
    requires Plain(field)
    ensures var s := field + ":" + rest;
            s[|field|] == ':' && forall i :: 0 <= i < |field| ==> s[i] != ':'
  {
    var s := field + ":" + rest;
    forall i | 0 <= i < |field| ensures s[i] != ':' {
      assert s[i] == field[i] && field[i] in field;
    }
  }

  /** A plain field followed by a colon is determined by the text. */
  lemma FieldIsUnique(a: string, x: string, b: string, y: string)
    requires Plain(a) && Plain(b) && a + ":" + x == b + ":" + y
    ensures a == b && x == y
  {
    var s := a + ":" + x;
    FirstColon(a, x);
    FirstColon(b, y);
    assert |a| == |b|;
    assert a == s[..|a|] && b == s[..|b|];
    assert x == s[|a| + 1..] && y == s[|b| + 1..];
  }

  lemma PrefixAfter(p: string, a: string, b: string)
    ensures p + a <= p + b <==> a <= b
  {
    if p + a <= p + b {
      assert b[..|a|] == (p + b)[|p|..|p| + |a|];
      assert a == (p + a)[|p|..];
    }
  }

  /** Comparing prefixes field by field. */
  lemma PrefixField(a: string, x: string, b: string, y: string)
    requires Plain(a) && Plain(b)
    ensures a + ":" + x <= b + ":" + y <==> a == b && x <= y
  {
    var s := b + ":" + y;
    if a + ":" + x <= s {
      var z := s[|a| + 1 + |x|..];
      assert s == a + ":" + (x + z);
      FieldIsUnique(a, x + z, b, y);
    } else if a == b {
      PrefixAfter(a + ":", x, y);
    }
  }

  lemma KeyShape(hub: int, channel: int, user: int, action: Action)
    ensures CacheKey(hub, channel, user, action)
         == "acl:" + (Printed(hub) + ":" + (Printed(channel) + ":" + (Printed(user) + ":" + [Label(action)])))
  {
  }

  /** Different (hub, channel, user, action) never share a key. */
  lemma KeysAreInjective(h: int, c: int, u: int, a: Action, h': int, c': int, u': int, a': Action)
    requires CacheKey(h, c, u, a) == CacheKey(h', c', u', a')
    ensures h == h' && c == c' && u == u' && a == a'
  {
    KeyShape(h, c, u, a);
    KeyShape(h', c', u', a');
    PrintedIsPlain(h); PrintedIsPlain(h');
    PrintedIsPlain(c); PrintedIsPlain(c');
    PrintedIsPlain(u); PrintedIsPlain(u');
    var tail := Printed(c) + ":" + (Printed(u) + ":" + [Label(a)]);
    var tail' := Printed(c') + ":" + (Printed(u') + ":" + [Label(a')]);
    assert CacheKey(h, c, u, a)[4..] == Printed(h) + ":" + tail;
    assert CacheKey(h', c', u', a')[4..] == Printed(h') + ":" + tail';
    FieldIsUnique(Printed(h), tail, Printed(h'), tail');
    FieldIsUnique(Printed(c), Printed(u) + ":" + [Label(a)], Printed(c'), Printed(u') + ":" + [Label(a')]);
    FieldIsUnique(Printed(u), [Label(a)], Printed(u'), [Label(a')]);
    PrintedIsInjective(h, h');
    PrintedIsInjective(c, c');
    PrintedIsInjective(u, u');
    assert [Label(a)][0] == [Label(a')][0];
  }

  /** The channel glob hits exactly the keys of that channel in that hub. */
  lemma ChannelPatternIsExact(hub: int, channel: int, h: int, c: int, u: int, a: Action)
    ensures Matches(Pattern(ChannelScope(hub, channel)), CacheKey(h, c, u, a)) <==> hub == h && channel == c
  {
    KeyShape(h, c, u, a);
    PrintedIsPlain(hub); PrintedIsPlain(channel); PrintedIsPlain(h); PrintedIsPlain(c);
    ChannelGlob(Printed(hub), Printed(channel), Printed(h), Printed(c), Printed(u) + ":" + [Label(a)]);
    if Printed(hub) == Printed(h) && Printed(channel) == Printed(c) {
      PrintedIsInjective(hub, h);
      PrintedIsInjective(channel, c);
    }
  }

  lemma ChannelGlob(hub: string, channel: string, h: string, c: string, tail: string)
    requires Plain(hub) && Plain(channel) && Plain(h) && Plain(c)
    ensures Matches("acl:" + hub + ":" + channel + ":*", "acl:" + (h + ":" + (c + ":" + tail)))
            <==> hub == h && channel == c
  {
    var lit := "acl:" + (hub + ":" + (channel + ":"));
    var key := "acl:" + (h + ":" + (c + ":" + tail));
    assert "acl:" + hub + ":" + channel + ":*" == lit + "*";
    LiteralMatches(lit, "*", key);
    PrefixAfter("acl:", hub + ":" + (channel + ":"), h + ":" + (c + ":" + tail));
    PrefixField(hub, channel + ":", h, c + ":" + tail);
    assert channel + ":" + "" == channel + ":";
    PrefixField(channel, "", c, tail);
    if lit <= key {
      TrailingStar(key[|lit|..]);
    }
  }

  /** The user glob hits exactly the keys of that user in that hub, though `*` spans colons. */
  lemma UserPatternIsExact(hub: int, user: int, h: int, c: int, u: int, a: Action)
    ensures Matches(Pattern(UserScope(hub, user)), CacheKey(h, c, u, a)) <==> hub == h && user == u
  {
    KeyShape(h, c, u, a);
    PrintedIsPlain(hub); PrintedIsPlain(user); PrintedIsPlain(h); PrintedIsPlain(c); PrintedIsPlain(u);
    UserGlob(Printed(hub), Printed(user), Printed(h), Printed(c), Printed(u), Label(a));
    if Printed(hub) == Printed(h) && Printed(user) == Printed(u) {
      PrintedIsInjective(hub, h);
      PrintedIsInjective(user, u);
    }
  }

  lemma UserGlob(hub: string, user: string, h: string, c: string, u: string, mark: char)
    requires Plain(hub) && Plain(user) && Plain(h) && Plain(c) && Plain(u) && user != [] && mark != ':'
    ensures Matches("acl:" + hub + ":*:" + user + ":*", "acl:" + (h + ":" + (c + ":" + (u + ":" + [mark]))))
            <==> hub == h && user == u
  {
    var rest, glob := c + ":" + (u + ":" + [mark]), ":" + user + ":" + "*";
    UserGlobShape(hub, user);
    HubField(hub, h, rest, "*" + glob);
    if hub == h {
      StarGlob(user, c, u, mark);
    }
  }

  lemma UserGlobShape(hub: string, user: string)
    ensures "acl:" + hub + ":*:" + user + ":*" == "acl:" + (hub + ":") + ("*" + (":" + user + ":" + "*"))
  {
  }

  lemma HubField(hub: string, h: string, rest: string, pattern: string)
    requires Plain(hub) && Plain(h)
    ensures Matches("acl:" + (hub + ":") + pattern, "acl:" + (h + ":" + rest)) <==> hub == h && Matches(pattern, rest)
  {
    var lit, key := "acl:" + (hub + ":"), "acl:" + (h + ":" + rest);
    LiteralMatches(lit, pattern, key);
    PrefixAfter("acl:", hub + ":", h + ":" + rest);
    assert hub + ":" + "" == hub + ":";
    PrefixField(hub, "", h, rest);
    if hub == h {
      assert key[|lit|..] == rest;
    }
  }

  lemma StarGlob(user: string, channel: string, u: string, mark: char)
    requires Plain(user) && Plain(channel) && Plain(u) && user != [] && mark != ':'
    ensures Matches("*" + (":" + user + ":" + "*"), channel + ":" + (u + ":" + [mark])) <==> user == u
  {
    var glob, rest := ":" + user + ":" + "*", channel + ":" + (u + ":" + [mark]);
    StarMatches(glob, rest);
    if i :| 0 <= i <= |rest| && Matches(glob, rest[i..]) {
      MiddleIsUserField(user, channel, u, mark, i);
    }
    if user == u {
      MiddleIsUserField(user, channel, u, mark, |channel|);
    }
  }

  /** `:user:` occurs in `channel:user':action` only after the channel, and only if the users agree. */
  lemma MiddleIsUserField(user: string, channel: string, u: string, mark: char, i: nat)
    requires Plain(user) && Plain(channel) && Plain(u) && user != [] && mark != ':'
    requires i <= |channel + ":" + (u + ":" + [mark])|
    ensures Matches(":" + user + ":" + "*", (channel + ":" + (u + ":" + [mark]))[i..]) <==> i == |channel| && user == u
  {
    var middle := ":" + (user + ":");
    var tail := u + ":" + [mark];
    var rest := channel + ":" + tail;
    assert ":" + user + ":" + "*" == middle + "*";
    LiteralMatches(middle, "*", rest[i..]);
    assert rest[|channel|..] == ":" + tail;
    PrefixAfter(":", user + ":", tail);
    assert user + ":" + "" == user + ":";
    PrefixField(user, "", u, [mark]);
    if middle <= rest[i..] {
      TrailingStar(rest[i..][|middle|..]);
      OnlyTwoColons(channel, u, mark);
      assert rest[i] == rest[i..][0] == middle[0] == ':';
      assert |rest| - i >= |middle| == |user| + 2;
    }
  }

  lemma OnlyTwoColons(channel: string, user: string, mark: char)
    requires Plain(channel) && Plain(user) && mark != ':'
    ensures var rest := channel + ":" + (user + ":" + [mark]);
            forall i :: 0 <= i < |rest| && rest[i] == ':' ==> i == |channel| || i == |channel| + 1 + |user|
  {
    var rest := channel + ":" + (user + ":" + [mark]);
    FirstColon(channel, user + ":" + [mark]);
    FirstColon(user, [mark]);
    forall i | |channel| < i < |rest| ensures rest[i] == (user + ":" + [mark])[i - |channel| - 1] {
    }
  }

  /** Both scopes together: an invalidation deletes the keys in its scope and no others. */
  lemma PatternIsExact(scope: Scope, hub: int, channel: int, user: int, action: Action)
    ensures Matches(Pattern(scope), CacheKey(hub, channel, user, action)) <==> InScope(scope, hub, channel, user)
  {
    match scope
    case ChannelScope(h, c) => ChannelPatternIsExact(h, c, hub, channel, user, action);
    case UserScope(h, u) => UserPatternIsExact(h, u, hub, channel, user, action);
  }
}
