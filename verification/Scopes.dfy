/** Preview scopes: how one is normalized, and which scopes a prefix covers. */
module Scopes {
  import opened Texts

  function TrimSlashes(s: string): string {
    if s != "" && s[0] == '/' then TrimSlashes(s[1..])
    else if s != "" && s[|s| - 1] == '/' then TrimSlashes(s[..|s| - 1])
    else s
  }

  function NormalizeScope(value: string): string { WithoutPrefix(TrimSlashes(Trim(value))) }

  function WithoutPrefix(bare: string): string {
    TrimSlashes(if "content:" <= bare then bare[8..] else if "scope:" <= bare then bare[6..] else bare)
  }

  /** Whether a normalized prefix covers a normalized scope, on whole segments. */
  predicate Covers(prefix: string, scope: string) {
    prefix == "*" || scope == prefix || prefix + "/" <= scope
  }

  // ---- What is normalized away ----

  predicate AllSlashes(s: string) { forall c | c in s :: c == '/' }

  predicate NoSlashAtEnds(s: string) { s != "" ==> s[0] != '/' && s[|s| - 1] != '/' }

  /** Slashes are removed from both ends, and nothing else. */
  lemma {:induction false} TrimSlashesIs(s: string) returns (a: string, b: string)
    ensures s == a + TrimSlashes(s) + b && AllSlashes(a) && AllSlashes(b)
    ensures NoSlashAtEnds(TrimSlashes(s))
  {
    a, b := "", "";
    if s != "" && s[0] == '/' {
      a, b := TrimSlashesIs(s[1..]);
      a := "/" + a;
    } else if s != "" && s[|s| - 1] == '/' {
      a, b := TrimSlashesIs(s[..|s| - 1]);
      b := b + "/";
    }
  }

  /** A text is trimmed of whitespace, then of slashes; what is left is the normalized scope behind
      at most one of the two prefixes and slashes after that. */
  lemma ScopeParts(value: string) returns (prefix: string, slashes: string)
    ensures TrimSlashes(Trim(value)) == prefix + slashes + NormalizeScope(value)
    ensures NoSlashAtEnds(NormalizeScope(value)) && AllSlashes(slashes)
    ensures prefix == "" ==> slashes == ""
    ensures var bare := TrimSlashes(Trim(value));
            prefix == if "content:" <= bare then "content:" else if "scope:" <= bare then "scope:" else ""
  {
    var _, _ := TrimSlashesIs(Trim(value));
    prefix, slashes := PrefixParts(TrimSlashes(Trim(value)));
  }

  lemma PrefixParts(bare: string) returns (prefix: string, slashes: string)
    requires NoSlashAtEnds(bare)
    ensures bare == prefix + slashes + WithoutPrefix(bare) && AllSlashes(slashes)
    ensures NoSlashAtEnds(WithoutPrefix(bare))
    ensures prefix == "" ==> slashes == ""
    ensures prefix == if "content:" <= bare then "content:" else if "scope:" <= bare then "scope:" else ""
  {
    prefix := if "content:" <= bare then "content:" else if "scope:" <= bare then "scope:" else "";
    if prefix == "" {
      slashes := "";
      TrimSlashesKeeps(bare);
    } else {
      slashes := SlashesBehind(prefix, bare);
    }
  }

  lemma SlashesBehind(p: string, s: string) returns (slashes: string)
    requires p <= s && NoSlashAtEnds(s)
    ensures s == p + slashes + TrimSlashes(s[|p|..]) && AllSlashes(slashes)
    ensures NoSlashAtEnds(TrimSlashes(s[|p|..]))
  {
    slashes := LeadingSlashes(s[|p|..]);
    assert s == p + s[|p|..];
  }

  lemma {:induction false} LeadingSlashes(s: string) returns (a: string)
    requires s != "" ==> s[|s| - 1] != '/'
    ensures s == a + TrimSlashes(s) && AllSlashes(a) && NoSlashAtEnds(TrimSlashes(s))
  {
    a := "";
    if s != "" && s[0] == '/' {
      a := LeadingSlashes(s[1..]);
      a := "/" + a;
    }
  }

  lemma TrimSlashesKeeps(s: string)
    requires NoSlashAtEnds(s)
    ensures TrimSlashes(s) == s
  {
  }

  /** A scope written in its normal form. */
  predicate Normal(s: string) {
    NoWhitespaceAtEnds(s) && NoSlashAtEnds(s) && !("content:" <= s) && !("scope:" <= s)
  }

  lemma NormalIffKept(s: string)
    ensures NormalizeScope(s) == s <==> Normal(s)
  {
    var before, after := TrimIs(s);
    var a, b := TrimSlashesIs(Trim(s));
    var prefix, slashes := ScopeParts(s);
    if NormalizeScope(s) == s {
      assert |before| == |a| == |prefix| == 0;
    }
    if Normal(s) {
      TrimKeeps(s);
      TrimSlashesKeeps(s);
    }
  }

  // ---- Which scopes a prefix covers ----

  /** The parts of a scope between its slashes. */
  function Segments(s: string): (r: seq<string>)
    ensures |r| > 0
  {
    if s == "" then [""]
    else
      var rest := Segments(s[1..]);
      if s[0] == '/' then [""] + rest else [[s[0]] + rest[0]] + rest[1..]
  }

  function Joined(parts: seq<string>): string
    requires |parts| > 0
  {
    if |parts| == 1 then parts[0] else parts[0] + "/" + Joined(parts[1..])
  }

  /** The parts contain no slash, and joining them gives the scope back. */
  lemma {:induction false} SegmentsSplit(s: string)
    ensures forall p :: p in Segments(s) ==> '/' !in p
    ensures Joined(Segments(s)) == s
  {
    if s != "" {
      var rest := Segments(s[1..]);
      SegmentsSplit(s[1..]);
      assert rest[0] in rest;
      assert Segments(s)[1..] == if s[0] == '/' then rest else rest[1..];
    }
  }

  lemma SoleEmptySegment(p: string)
    requires Segments(p) == [""]
    ensures p == ""
  {
  }

  lemma FirstSegment(s: string)
    requires s != ""
    ensures s[0] == '/' ==> Segments(s)[0] == ""
    ensures s[0] != '/' ==> Segments(s)[0] != "" && Segments(s)[0][0] == s[0]
  {
  }

  lemma SameHead(h: string, x: seq<string>, y: seq<string>)
    ensures [h] + x <= [h] + y <==> x <= y
  {
    assert ([h] + x)[1..] == x && ([h] + y)[1..] == y;
  }

  lemma LongerHead(c: char, x: seq<string>, y: seq<string>)
    requires x != [] && y != []
    ensures [[c] + x[0]] + x[1..] <= [[c] + y[0]] + y[1..] <==> x <= y
  {
    assert ([c] + x[0])[1..] == x[0] && ([c] + y[0])[1..] == y[0];
    assert x == [x[0]] + x[1..] && y == [y[0]] + y[1..];
    if x[0] == y[0] {
      SameHead(x[0], x[1..], y[1..]);
      SameHead([c] + x[0], x[1..], y[1..]);
    } else {
      assert ([[c] + x[0]] + x[1..])[0] != ([[c] + y[0]] + y[1..])[0];
    }
  }

  lemma SegmentsOfTail(p: string, s: string)
    requires p != "" && s != "" && p[0] == s[0]
    ensures Segments(p) <= Segments(s) <==> Segments(p[1..]) <= Segments(s[1..])
  {
    var x, y := Segments(p[1..]), Segments(s[1..]);
    if p[0] == '/' { SameHead("", x, y); } else { LongerHead(p[0], x, y); }
  }

  lemma {:induction false} InitialSegments(p: string, s: string)
    ensures Segments(p) <= Segments(s) <==> s == p || p + "/" <= s
  {
    if p == "" {
      if s != "" { assert Segments(s)[0] == "" <==> s[0] == '/'; }
    } else if s == "" {
      if Segments(p) <= Segments(s) { SoleEmptySegment(p); }
    } else if p[0] == s[0] {
      SegmentsOfTail(p, s);
      InitialSegments(p[1..], s[1..]);
      assert s == [s[0]] + s[1..] && p + "/" == [p[0]] + (p[1..] + "/");
    } else {
      FirstSegment(p);
      FirstSegment(s);
    }
  }

  /** A prefix covers a scope exactly when it is the wildcard or its segments are the first of the
      scope's. */
  lemma CoversBySegments(p: string, s: string)
    ensures Covers(p, s) <==> p == "*" || Segments(p) <= Segments(s)
  {
    InitialSegments(p, s);
  }
}
