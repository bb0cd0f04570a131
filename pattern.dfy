/** The default value pattern `/(\{([$\w]+)\})/g`: a `{`, one or more of
    `[A-Za-z0-9_$]`, then `}`. `String.prototype.replace` with a global pattern
    scans left to right and resumes after each match, so matches never overlap.
    The template is split into a token sequence: literal characters and
    placeholders carrying the captured name. */
module Pattern {
  import opened Common

  datatype Token = Lit(c: char) | Placeholder(name: string)

  predicate IsNameChar(c: char)
  {
    ('a' <= c <= 'z') || ('A' <= c <= 'Z') || ('0' <= c <= '9') || c == '_' || c == '$'
  }

  predicate IsName(n: string)
  {
    |n| > 0 && forall i :: 0 <= i < |n| ==> IsNameChar(n[i])
  }

  /** Length of the longest run of name characters at the start of `s`. */
  function NameRun(s: string): (n: nat)
    ensures n <= |s|
    ensures forall i :: 0 <= i < n ==> IsNameChar(s[i])
    ensures n < |s| ==> !IsNameChar(s[n])
  {
    if s != [] && IsNameChar(s[0]) then 1 + NameRun(s[1..]) else 0
  }

  /** The pattern anchored at the start of `s`. The greedy `+` can only stop at
      the end of the run, because `}` is not a name character. */
  function MatchPrefix(s: string): (r: Option<string>)
    ensures r.Some? ==> IsName(r.value) && |r.value| + 2 <= |s|
    ensures r.Some? ==> s[..|r.value| + 2] == "{" + r.value + "}"
  {
    if |s| >= 2 && s[0] == '{' then
      var n := NameRun(s[1..]);
      if n > 0 && 1 + n < |s| && s[1 + n] == '}' then Some(s[1..1 + n]) else None
    else None
  }

  lemma {:induction false} NameRunOfName(name: string, rest: string)
    requires forall i :: 0 <= i < |name| ==> IsNameChar(name[i])
    requires rest == [] || !IsNameChar(rest[0])
    ensures NameRun(name + rest) == |name|
  {
    if name != [] {
      assert (name + rest)[1..] == name[1..] + rest;
      NameRunOfName(name[1..], rest);
    } else {
      assert name + rest == rest;
    }
  }

  /** The pattern matches exactly the strings that start with `{name}`. */
  lemma MatchPrefixIff(s: string, name: string)
    ensures MatchPrefix(s) == Some(name) <==>
            IsName(name) && |name| + 2 <= |s| && s[..|name| + 2] == "{" + name + "}"
  {
    if IsName(name) && |name| + 2 <= |s| && s[..|name| + 2] == "{" + name + "}" {
      var body := s[1..];
      assert body == name + body[|name|..];
      assert body[|name|] == s[|name| + 1] == '}';
      NameRunOfName(name, body[|name|..]);
      assert s[1..1 + |name|] == name;
    }
  }

  /** The matches of the global pattern, in order, with the text between them. */
  function Tokenize(s: string): (toks: seq<Token>)
    decreases |s|
  {
    if s == [] then []
    else match MatchPrefix(s)
      case Some(name) => [Placeholder(name)] + Tokenize(s[|name| + 2..])
      case None => [Lit(s[0])] + Tokenize(s[1..])
  }

  /** A text that starts with `{name}` begins with that placeholder. */
  lemma TokenizePlaceholderFirst(s: string, name: string)
    requires IsName(name) && |name| + 2 <= |s| && s[..|name| + 2] == "{" + name + "}"
    ensures Tokenize(s) == [Placeholder(name)] + Tokenize(s[|name| + 2..])
  {
    MatchPrefixIff(s, name);
  }

  /** A text that does not start a match begins with its first character. */
  lemma TokenizeLiteralFirst(s: string)
    requires s != [] && MatchPrefix(s).None?
    ensures Tokenize(s) == [Lit(s[0])] + Tokenize(s[1..])
  {
  }

  function TokenSource(t: Token): string
  {
    match t
    case Lit(c) => [c]
    case Placeholder(name) => "{" + name + "}"
  }

  /** The text a token sequence was read from. */
  function Source(toks: seq<Token>): string
  {
    if toks == [] then [] else TokenSource(toks[0]) + Source(toks[1..])
  }

  lemma {:induction false} SourceSnoc(toks: seq<Token>, t: Token)
    ensures Source(toks + [t]) == Source(toks) + TokenSource(t)
  {
    if toks == [] {
      assert [t][1..] == [];
    } else {
      assert (toks + [t])[1..] == toks[1..] + [t];
      SourceSnoc(toks[1..], t);
    }
  }

  predicate WellFormed(toks: seq<Token>)
  {
    forall i :: 0 <= i < |toks| ==> toks[i].Placeholder? ==> IsName(toks[i].name)
  }

  /** Tokenizing loses nothing and every captured name is a valid name. */
  lemma {:induction false} TokenizeSource(s: string)
    ensures Source(Tokenize(s)) == s
    ensures WellFormed(Tokenize(s))
    decreases |s|
  {
    if s != [] {
      match MatchPrefix(s)
      case Some(name) =>
        var rest := s[|name| + 2..];
        TokenizeSource(rest);
        ConsFacts(Placeholder(name), Tokenize(rest));
        assert s == s[..|name| + 2] + rest;
      case None =>
        TokenizeSource(s[1..]);
        ConsFacts(Lit(s[0]), Tokenize(s[1..]));
        assert s == [s[0]] + s[1..];
    }
  }

  lemma ConsFacts(t: Token, toks: seq<Token>)
    ensures Source([t] + toks) == TokenSource(t) + Source(toks)
    ensures WellFormed([t] + toks) <==> (t.Placeholder? ==> IsName(t.name)) && WellFormed(toks)
  {
    assert ([t] + toks)[1..] == toks;
    assert forall i :: 0 < i <= |toks| ==> ([t] + toks)[i] == toks[i - 1];
  }

  /** Some position of `s` starts a placeholder. */
  predicate HasPlaceholder(s: string)
  {
    exists i :: 0 <= i < |s| && MatchPrefix(s[i..]).Some?
  }

  predicate AllLiteral(toks: seq<Token>)
  {
    forall i :: 0 <= i < |toks| ==> toks[i].Lit?
  }

  /** The scan finds a placeholder exactly when the string contains one. */
  lemma {:induction false} AllLiteralIff(s: string)
    ensures AllLiteral(Tokenize(s)) <==> !HasPlaceholder(s)
    decreases |s|
  {
    if s != [] {
      if MatchPrefix(s).None? {
        AllLiteralIff(s[1..]);
        TokenizeLiteralFirst(s);
        AllLiteralCons(Lit(s[0]), Tokenize(s[1..]));
        HasPlaceholderTail(s);
      } else {
        assert Tokenize(s)[0].Placeholder?;
        assert s[0..] == s;
      }
    }
  }

  lemma AllLiteralCons(t: Token, toks: seq<Token>)
    ensures AllLiteral([t] + toks) <==> t.Lit? && AllLiteral(toks)
  {
    var all := [t] + toks;
    assert all[0] == t;
    if AllLiteral(all) {
      forall j | 0 <= j < |toks| ensures toks[j].Lit? {
        assert toks[j] == all[j + 1];
      }
    }
    if t.Lit? && AllLiteral(toks) {
      forall i | 0 < i < |all| ensures all[i].Lit? {
        assert all[i] == toks[i - 1];
      }
    }
  }

  /** Without a match at its first position, `s` has one exactly when its tail does. */
  lemma HasPlaceholderTail(s: string)
    requires s != [] && MatchPrefix(s).None?
    ensures HasPlaceholder(s) <==> HasPlaceholder(s[1..])
  {
    if HasPlaceholder(s) {
      var i :| 0 <= i < |s| && MatchPrefix(s[i..]).Some?;
      assert i != 0 by { assert s[0..] == s; }
      assert s[i..] == s[1..][i - 1..];
    }
    if HasPlaceholder(s[1..]) {
      var j :| 0 <= j < |s[1..]| && MatchPrefix(s[1..][j..]).Some?;
      assert s[j + 1..] == s[1..][j..];
    }
  }

  /** A template without placeholders reads as its own characters. */
  lemma NoPlaceholderTokens(s: string)
    requires !HasPlaceholder(s)
    ensures Tokenize(s) == seq(|s|, i requires 0 <= i < |s| => Lit(s[i]))
  {
    AllLiteralIff(s);
    TokenizeSource(s);
    var toks := Tokenize(s);
    LiteralSource(toks);
  }

  lemma {:induction false} LiteralSource(toks: seq<Token>)
    requires AllLiteral(toks)
    ensures |Source(toks)| == |toks|
    ensures forall i :: 0 <= i < |toks| ==> toks[i] == Lit(Source(toks)[i])
  {
    if toks != [] {
      LiteralSource(toks[1..]);
    }
  }
}
