/**
 The `$` syntax of path settings: `$NAME`, `${NAME}`, and `$$` for a dollar.
 */
module Expansion {
  import opened Wrappers

  datatype Expanded = Ok(text: string) | UndefinedVar(name: string)

  /** What a lookup makes of a variable name. */
  type Env = string -> Option<string>

  /** A stretch of a path setting: a plain character, an escaped dollar, a reference. */
  datatype Token =
    | Lit(c: char)
    | Dollar
    | Bare(name: string)
    | Braced(name: string)
  {
    function Raw(): string {
      match this
      case Lit(c) => [c]
      case Dollar => "$$"
      case Bare(name) => "$" + name
      case Braced(name) => "${" + name + "}"
    }

    predicate IsReference() { Bare? || Braced? }
  }

  predicate IsNameChar(c: char) {
    'a' <= c <= 'z' || 'A' <= c <= 'Z' || '0' <= c <= '9' || c == '_'
  }

  /** Length of the longest prefix that can be a variable name. */
  function NameRun(s: string): (n: nat)
    ensures n <= |s| && (forall k | 0 <= k < n :: IsNameChar(s[k])) && (n < |s| ==> !IsNameChar(s[n]))
  {
    if s == "" || !IsNameChar(s[0]) then 0 else 1 + NameRun(s[1..])
  }

  /** Where `c` first occurs, or the length when it does not. */
  function IndexOf(s: string, c: char): (n: nat)
    ensures n <= |s| && (forall k | 0 <= k < n :: s[k] != c) && (n < |s| ==> s[n] == c)
  {
    if s == "" || s[0] == c then 0 else 1 + IndexOf(s[1..], c)
  }

  /** The token a text starts with. */
  function FirstToken(s: string): (t: Token)
    requires s != ""
    ensures 0 < |t.Raw()| <= |s| && t.Raw() == s[..|t.Raw()|]
  {
    if s[0] != '$' || |s| == 1 then Lit(s[0])
    else if s[1] == '$' then Dollar
    else if s[1] == '{' && '}' in s[2..] then
      var close := 2 + IndexOf(s[2..], '}');
      assert s[..close + 1] == "${" + s[2..close] + "}";
      Braced(s[2..close])
    else if IsNameChar(s[1]) then
      var end := 1 + NameRun(s[1..]);
      assert s[..end] == "$" + s[1..end];
      Bare(s[1..end])
    else Lit('$')
  }

  function Parse(s: string): seq<Token> {
    if s == "" then []
    else
      var t := FirstToken(s);
      [t] + Parse(s[|t.Raw()|..])
  }

  function Raw(ts: seq<Token>): string {
    if ts == [] then "" else ts[0].Raw() + Raw(ts[1..])
  }

  /** The names a value refers to, in order. */
  function References(ts: seq<Token>): seq<string> {
    if ts == [] then []
    else (if ts[0].IsReference() then [ts[0].name] else []) + References(ts[1..])
  }

  /** Expansion stops at the first name without a value. */
  function ExpandTokens(ts: seq<Token>, env: Env): Expanded {
    if ts == [] then Ok("")
    else if ts[0].IsReference() && env(ts[0].name).None? then UndefinedVar(ts[0].name)
    else
      match ExpandTokens(ts[1..], env)
      case UndefinedVar(name) => UndefinedVar(name)
      case Ok(rest) => Ok(Text1(ts[0], env) + rest)
  }

  function Expand(s: string, env: Env): Expanded {
    ExpandTokens(Parse(s), env)
  }

  function Text1(t: Token, env: Env): string {
    match t
    case Lit(c) => [c]
    case Dollar => "$"
    case _ => if env(t.name).Some? then env(t.name).value else ""
  }

  /** The expansion when every name has a value. */
  function Text(ts: seq<Token>, env: Env): string {
    if ts == [] then "" else Text1(ts[0], env) + Text(ts[1..], env)
  }

  function FirstUndefined(names: seq<string>, env: Env): Option<string> {
    if names == [] then None
    else if env(names[0]).None? then Some(names[0])
    else FirstUndefined(names[1..], env)
  }

  // ---------------------------------------------------------------- parsing and printing

  /** `t` is read back from its text when `rest` follows it. */
  predicate Fits(t: Token, rest: string) {
    match t
    case Lit(c) =>
      c == '$' && rest != "" ==> rest[0] != '$' && !IsNameChar(rest[0]) && (rest[0] == '{' ==> '}' !in rest)
    case Dollar => true
    case Bare(name) =>
      name != "" && (forall k | 0 <= k < |name| :: IsNameChar(name[k])) && (rest == "" || !IsNameChar(rest[0]))
    case Braced(name) => '}' !in name
  }

  predicate WellFormed(ts: seq<Token>) {
    ts == [] || (Fits(ts[0], Raw(ts[1..])) && WellFormed(ts[1..]))
  }

  lemma PrefixAndRest(s: string, n: nat)
    requires n <= |s|
    ensures s == s[..n] + s[n..]
  {
  }

  lemma RawCons(t: Token, ts: seq<Token>)
    ensures Raw([t] + ts) == t.Raw() + Raw(ts)
    ensures WellFormed([t] + ts) <==> Fits(t, Raw(ts)) && WellFormed(ts)
  {
    assert ([t] + ts)[1..] == ts;
  }

  lemma ReferencesCons(t: Token, ts: seq<Token>)
    ensures References([t] + ts) == (if t.IsReference() then [t.name] else []) + References(ts)
  {
    assert ([t] + ts)[1..] == ts;
  }

  lemma TextCons(t: Token, ts: seq<Token>, env: Env)
    ensures Text([t] + ts, env) == Text1(t, env) + Text(ts, env)
  {
    assert ([t] + ts)[1..] == ts;
  }

  lemma FirstTokenFits(s: string)
    requires s != ""
    ensures var t := FirstToken(s); Fits(t, s[|t.Raw()|..])
  {
    var t := FirstToken(s);
    if t == Lit('$') && |s| > 1 {
      assert '}' in s[1..] ==> s[1] == '}' || '}' in s[2..];
    } else if t.Braced? {
      assert forall k | 0 <= k < |t.name| :: t.name[k] == s[2..][k];
    }
  }

  lemma {:induction false} ParseIsFaithful(s: string)
    ensures Raw(Parse(s)) == s && WellFormed(Parse(s))
  {
    if s != "" {
      var t := FirstToken(s);
      var n := |t.Raw()|;
      ParseIsFaithful(s[n..]);
      FirstTokenFits(s);
      PrefixAndRest(s, n);
      RawCons(t, Parse(s[n..]));
    }
  }

  lemma NameRunOf(name: string, rest: string)
    requires forall k | 0 <= k < |name| :: IsNameChar(name[k])
    requires rest == "" || !IsNameChar(rest[0])
    ensures NameRun(name + rest) == |name|
  {
    var s := name + rest;
    assert forall k | 0 <= k < |name| :: s[k] == name[k];
    assert rest != "" ==> s[|name|] == rest[0];
  }

  lemma CloseOf(name: string, rest: string)
    requires '}' !in name
    ensures IndexOf(name + "}" + rest, '}') == |name|
  {
    var s := name + "}" + rest;
    assert s[|name|] == '}';
    assert forall k | 0 <= k < |name| :: s[k] == name[k];
  }

  lemma FirstIsLit(c: char, rest: string)
    requires Fits(Lit(c), rest)
    ensures FirstToken([c] + rest) == Lit(c)
  {
    var s := [c] + rest;
    if c == '$' && rest != "" {
      assert s[1] == rest[0] && s[2..] == rest[1..];
    }
  }

  lemma FirstIsBare(name: string, rest: string)
    requires Fits(Bare(name), rest)
    ensures FirstToken("$" + name + rest) == Bare(name)
  {
    var s := "$" + name + rest;
    NameRunOf(name, rest);
    assert s[1..] == name + rest && s[1] == name[0];
    assert s[1..1 + |name|] == name;
  }

  lemma FirstIsBraced(name: string, rest: string)
    requires Fits(Braced(name), rest)
    ensures FirstToken("${" + name + "}" + rest) == Braced(name)
  {
    var s := "${" + name + "}" + rest;
    CloseOf(name, rest);
    assert s[2..] == name + "}" + rest && s[2..][|name|] == '}';
    assert s[2..2 + |name|] == name;
  }

  /** A token that fits in front of a text is the one read there. */
  lemma FirstTokenIs(t: Token, rest: string)
    requires Fits(t, rest)
    ensures t.Raw() + rest != "" && FirstToken(t.Raw() + rest) == t
  {
    match t
    case Lit(c) => FirstIsLit(c, rest);
    case Dollar =>
    case Bare(name) => FirstIsBare(name, rest);
    case Braced(name) => FirstIsBraced(name, rest);
  }

  lemma ParseToken(t: Token, rest: string)
    requires Fits(t, rest)
    ensures Parse(t.Raw() + rest) == [t] + Parse(rest)
  {
    FirstTokenIs(t, rest);
    assert (t.Raw() + rest)[|t.Raw()|..] == rest;
  }

  lemma {:induction false} PrintIsFaithful(ts: seq<Token>)
    requires WellFormed(ts)
    ensures Parse(Raw(ts)) == ts
  {
    if ts != [] {
      PrintIsFaithful(ts[1..]);
      ParseToken(ts[0], Raw(ts[1..]));
      assert ts == [ts[0]] + ts[1..];
      RawCons(ts[0], ts[1..]);
    }
  }

  // ---------------------------------------------------------------- laws

  lemma {:induction false} RawAppend(a: seq<Token>, b: seq<Token>)
    ensures Raw(a + b) == Raw(a) + Raw(b)
  {
    if a == [] {
      assert a + b == b;
    } else {
      assert (a + b)[1..] == a[1..] + b;
      RawAppend(a[1..], b);
    }
  }

  lemma {:induction false} ReferencesAppend(a: seq<Token>, b: seq<Token>)
    ensures References(a + b) == References(a) + References(b)
  {
    if a == [] {
      assert a + b == b;
    } else {
      assert (a + b)[1..] == a[1..] + b;
      ReferencesAppend(a[1..], b);
    }
  }

  lemma {:induction false} TextAppend(a: seq<Token>, b: seq<Token>, env: Env)
    ensures Text(a + b, env) == Text(a, env) + Text(b, env)
  {
    if a == [] {
      assert a + b == b;
    } else {
      assert (a + b)[1..] == a[1..] + b;
      TextAppend(a[1..], b, env);
    }
  }

  /** Whether expansion fails, and on which name, depends on the references alone. */
  lemma {:induction false} ExpandedByReferences(ts: seq<Token>, env: Env)
    ensures ExpandTokens(ts, env) ==
            match FirstUndefined(References(ts), env)
            case Some(name) => UndefinedVar(name)
            case None => Ok(Text(ts, env))
  {
    if ts != [] {
      ExpandedByReferences(ts[1..], env);
      if ts[0].IsReference() {
        assert References(ts)[1..] == References(ts[1..]);
      } else {
        assert References(ts) == References(ts[1..]);
      }
    }
  }
}
