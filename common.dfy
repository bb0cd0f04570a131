/** Small shared vocabulary: an optional value, map lookup, decimal rendering of
    counters and the `name:count` keys built from them. */
module Common {

  datatype Option<T> = None | Some(value: T)

  /** JavaScript property read on a plain object: a missing key reads as absent. */
  function Get<K, V>(m: map<K, V>, k: K): (r: Option<V>)
    ensures r.Some? <==> k in m
    ensures r.Some? ==> r.value == m[k]
  {
    if k in m then Some(m[k]) else None
  }

  predicate IsDigit(c: char) { '0' <= c <= '9' }

  function DigitChar(d: nat): (c: char)
    requires d < 10
    ensures IsDigit(c) && c as int - '0' as int == d
  {
    (d + '0' as int) as char
  }

  /** Decimal text of a counter, as a template literal `${n}` renders a
      non-negative integer Number. */
  function NatToString(n: nat): (s: string)
    ensures |s| >= 1
    ensures forall i :: 0 <= i < |s| ==> IsDigit(s[i])
    ensures n >= 10 ==> |s| >= 2
    decreases n
  {
    if n < 10 then [DigitChar(n)] else NatToString(n / 10) + [DigitChar(n % 10)]
  }

  /** Distinct counters never render to the same text. */
  lemma {:induction false} NatToStringInjective(a: nat, b: nat)
    requires NatToString(a) == NatToString(b)
    ensures a == b
    decreases a
  {
    var s := NatToString(a);
    if a < 10 || b < 10 {
    } else {
      assert NatToString(a) == NatToString(a / 10) + [DigitChar(a % 10)];
      assert NatToString(b) == NatToString(b / 10) + [DigitChar(b % 10)];
      assert s[..|s| - 1] == NatToString(a / 10);
      assert s[..|s| - 1] == NatToString(b / 10);
      assert DigitChar(a % 10) == s[|s| - 1] == DigitChar(b % 10);
      NatToStringInjective(a / 10, b / 10);
    }
  }

  /** The per-pass key `${name}:${count}` of a renderable placeholder. */
  function KeyString(name: string, count: nat): (k: string)
    ensures |k| > |name| + 1 && k[..|name|] == name && k[|name|] == ':'
  {
    name + ":" + NatToString(count)
  }

  /** A key names one (name, count) pair, as long as names never contain ':'
      (placeholder names are made of letters, digits, `_` and `$`). */
  lemma KeyStringInjective(n1: string, c1: nat, n2: string, c2: nat)
    requires ':' !in n1 && ':' !in n2
    ensures KeyString(n1, c1) == KeyString(n2, c2) <==> n1 == n2 && c1 == c2
  {
    var k := KeyString(n1, c1);
    if k == KeyString(n2, c2) {
      assert |n1| == |n2| by {
        // The first ':' of the key ends the name.
        assert forall i :: 0 <= i < |n1| ==> k[i] != ':';
        assert forall i :: 0 <= i < |n2| ==> k[i] != ':';
      }
      assert n1 == k[..|n1|] == n2;
      assert NatToString(c1) == k[|n1| + 1..] == NatToString(c2);
      NatToStringInjective(c1, c2);
    }
  }
}
