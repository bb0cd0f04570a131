/** Escaping of inserted values (`escape` in src/index.js and src/index.hooks.js):
    one left-to-right pass that replaces each of the five characters ' " & < >
    by an entity. The apostrophe becomes `&#39`, without a closing semicolon. */
module Escaping {

  predicate IsEscaped(c: char) { c == '\'' || c == '"' || c == '&' || c == '<' || c == '>' }

  function EntityOf(c: char): (e: string)
    requires IsEscaped(c)
    ensures |e| >= 4 && e[0] == '&'
    ensures c == '\'' ==> e == "&#39"
    ensures e[|e| - 1] == ';' <==> c != '\''
  {
    match c
    case '\'' => "&#39"
    case '"' => "&quot;"
    case '&' => "&amp;"
    case '<' => "&lt;"
    case '>' => "&gt;"
  }

  function EscapeChar(c: char): string
  {
    if IsEscaped(c) then EntityOf(c) else [c]
  }

  /** `value.replace(/['"&<>]/g, …)`: each character is looked at once, so the
      entities it produces are never escaped again within the same call. */
  function Escape(s: string): (r: string)
    ensures |r| >= |s|
    ensures forall i :: 0 <= i < |r| ==> r[i] != '<' && r[i] != '>' && r[i] != '"' && r[i] != '\''
  {
    if s == [] then [] else EscapeChar(s[0]) + Escape(s[1..])
  }

  /** Reference decoder for the five entities `Escape` emits. */
  function Unescape(s: string): string
    decreases |s|
  {
    if s == [] then []
    else if |s| >= 6 && s[..6] == "&quot;" then "\"" + Unescape(s[6..])
    else if |s| >= 5 && s[..5] == "&amp;" then "&" + Unescape(s[5..])
    else if |s| >= 4 && s[..4] == "&lt;" then "<" + Unescape(s[4..])
    else if |s| >= 4 && s[..4] == "&gt;" then ">" + Unescape(s[4..])
    else if |s| >= 4 && s[..4] == "&#39" then "'" + Unescape(s[4..])
    else [s[0]] + Unescape(s[1..])
  }

  lemma UnescapeEntity(c: char, t: string)
    ensures Unescape(EscapeChar(c) + t) == [c] + Unescape(t)
  {
    if !IsEscaped(c) {
      var u := [c] + t;
      assert u[0] == c && u[1..] == t;
    } else {
      UnescapeOne(EntityOf(c), c, t);
    }
  }

  /** The decoder reads an entity at the front back as its character. */
  lemma UnescapeOne(e: string, c: char, t: string)
    requires IsEscaped(c) && e == EntityOf(c)
    ensures Unescape(e + t) == [c] + Unescape(t)
  {
    var u := e + t;
    assert u[..|e|] == e && u[|e|..] == t;
    assert u[1] == e[1];
    if c == '\'' {
      assert u[..4] == "&#39";
    } else if c == '"' {
      assert u[..6] == "&quot;";
    } else if c == '&' {
      assert u[..5] == "&amp;";
    } else if c == '<' {
      assert u[..4] == "&lt;";
    } else {
      assert u[..4] == "&gt;";
    }
  }

  /** Escaping loses nothing: the original text is recoverable. */
  lemma {:induction false} UnescapeEscape(s: string)
    ensures Unescape(Escape(s)) == s
  {
    if s != [] {
      UnescapeEntity(s[0], Escape(s[1..]));
      UnescapeEscape(s[1..]);
    }
  }

  /** A single pass: escaping a concatenation escapes each part on its own. */
  lemma {:induction false} EscapeConcat(a: string, b: string)
    ensures Escape(a + b) == Escape(a) + Escape(b)
  {
    if a != [] {
      assert (a + b)[0] == a[0] && (a + b)[1..] == a[1..] + b;
      EscapeConcat(a[1..], b);
      calc {
        Escape(a + b);
        EscapeChar(a[0]) + Escape(a[1..] + b);
        EscapeChar(a[0]) + (Escape(a[1..]) + Escape(b));
        (EscapeChar(a[0]) + Escape(a[1..])) + Escape(b);
      }
    } else {
      assert a + b == b;
    }
  }

  /** Text without any of the five characters passes through unchanged, and
      only such text does. */
  lemma {:induction false} EscapeFixpoint(s: string)
    ensures Escape(s) == s <==> forall i :: 0 <= i < |s| ==> !IsEscaped(s[i])
  {
    if s != [] {
      EscapeFixpoint(s[1..]);
      if IsEscaped(s[0]) {
        assert |Escape(s)| > |s|;
      } else {
        assert Escape(s) == [s[0]] + Escape(s[1..]);
        assert (forall i :: 0 <= i < |s| ==> !IsEscaped(s[i])) <==>
               (forall i :: 0 <= i < |s[1..]| ==> !IsEscaped(s[1..][i]));
      }
    }
  }

  /** Escaping is not idempotent: the `&` of an entity is escaped again by a
      second call. */
  lemma EscapeTwiceDiffers()
    ensures Escape(Escape("<")) == "&amp;lt;" != Escape("<")
  {
    assert Escape("<") == "&lt;";
    EscapeConcat("&", "lt;");
    assert Escape("lt;") == "lt;" by { EscapeFixpoint("lt;"); }
  }

  /** Both angle brackets of a tag become entities. */
  lemma EscapeTag()
    ensures Escape("<b>") == "&lt;b&gt;"
  {
  }
}
