/** What several parts share about text: trimming, and the key order of maps. */
module Texts {
  /** Unicode White_Space. */
  predicate IsWhitespace(c: char) {
    var n := c as int;
    || 0x09 <= n <= 0x0D || n == 0x20 || n == 0x85 || n == 0xA0 || n == 0x1680 || 0x2000 <= n <= 0x200A
    || n == 0x2028 || n == 0x2029 || n == 0x202F || n == 0x205F || n == 0x3000
  }

  function Trim(s: string): string {
    if s != "" && IsWhitespace(s[0]) then Trim(s[1..])
    else if s != "" && IsWhitespace(s[|s| - 1]) then Trim(s[..|s| - 1])
    else s
  }

  predicate AllWhitespace(s: string) { forall c | c in s :: IsWhitespace(c) }

  predicate NoWhitespaceAtEnds(s: string) { s != "" ==> !IsWhitespace(s[0]) && !IsWhitespace(s[|s| - 1]) }

  /** Whitespace is removed from both ends, and nothing else. */
  lemma {:induction false} TrimIs(s: string) returns (before: string, after: string)
    ensures s == before + Trim(s) + after && AllWhitespace(before) && AllWhitespace(after)
    ensures NoWhitespaceAtEnds(Trim(s))
  {
    before, after := "", "";
    if s != "" && IsWhitespace(s[0]) {
      before, after := TrimIs(s[1..]);
      before := [s[0]] + before;
    } else if s != "" && IsWhitespace(s[|s| - 1]) {
      before, after := TrimIs(s[..|s| - 1]);
      after := after + [s[|s| - 1]];
    }
  }

  lemma TrimKeeps(s: string)
    requires NoWhitespaceAtEnds(s)
    ensures Trim(s) == s
  {
  }

  /** The order of the keys of a `BTreeMap`: by code points, which is also the order of the bytes. */
  predicate Leq(a: string, b: string) {
    a == "" || (b != "" && (a[0] < b[0] || (a[0] == b[0] && Leq(a[1..], b[1..]))))
  }

  /** It is lexicographic: behind a common part, the shorter text or the first character that
      differs decides. */
  lemma {:induction false} LeqIsLexicographic(p: string, a: string, b: string)
    requires a == "" || b == "" || a[0] != b[0]
    ensures Leq(p + a, p + b) <==> a == "" || (b != "" && a[0] < b[0])
  {
    if p == "" {
      assert p + a == a && p + b == b;
    } else {
      assert (p + a)[1..] == p[1..] + a && (p + b)[1..] == p[1..] + b;
      LeqIsLexicographic(p[1..], a, b);
    }
  }

  lemma {:induction false} LeqTotal(a: string, b: string)
    ensures Leq(a, b) || Leq(b, a)
    ensures Leq(a, b) && Leq(b, a) ==> a == b
  {
    if a != "" && b != "" && a[0] == b[0] {
      LeqTotal(a[1..], b[1..]);
      assert a == [a[0]] + a[1..] && b == [b[0]] + b[1..];
    }
  }

  lemma {:induction false} LeqTransitive(a: string, b: string, c: string)
    requires Leq(a, b) && Leq(b, c)
    ensures Leq(a, c)
  {
    if a != "" && a[0] == b[0] == c[0] { LeqTransitive(a[1..], b[1..], c[1..]); }
  }

  lemma {:induction false} LeastExists(names: set<string>) returns (least: string)
    requires names != {}
    ensures least in names && forall x :: x in names ==> Leq(least, x)
  {
    var x :| x in names;
    if names == {x} {
      least := x;
      LeqTotal(x, x);
    } else {
      var rest := names - {x};
      assert names == rest + {x};
      least := LeastExists(rest);
      LeqTotal(x, least);
      if !Leq(least, x) {
        forall y | y in rest ensures Leq(x, y) { LeqTransitive(x, least, y); }
        LeqTotal(x, x);
        least := x;
      }
    }
  }
}
