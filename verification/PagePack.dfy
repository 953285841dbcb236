/** Page-pack templates: the build-time slot check and the run-time slot filler. */
module PagePack {
  import opened Wrappers

  // ---- The string operations used by both ----

  /** Number of non-overlapping occurrences of a non-empty pattern, from the left. */
  function Count(s: string, pat: string): nat
    requires pat != ""
  {
    if |s| < |pat| then 0
    else if pat <= s then 1 + Count(s[|pat|..], pat)
    else Count(s[1..], pat)
  }

  /** Replaces those occurrences. */
  function Replace(s: string, pat: string, value: string): string
    requires pat != ""
  {
    if |s| < |pat| then s
    else if pat <= s then value + Replace(s[|pat|..], pat, value)
    else [s[0]] + Replace(s[1..], pat, value)
  }

  predicate Contains(s: string, pat: string) {
    exists i | 0 <= i <= |s| :: pat <= s[i..]
  }

  const OPENING := "{{mei:"

  function Marker(name: string): string { OPENING + name + "}}" }

  // ---- The filler and the build-time check ----

  datatype FillError = InvalidTemplate

  datatype Binding = Binding(name: string, value: string)

  function FillAll(html: string, slots: seq<Binding>): Result<string, FillError>
    decreases |slots|
  {
    if slots == [] then Success(html)
    else if Count(html, Marker(slots[0].name)) != 1 then Failure(InvalidTemplate)
    else FillAll(Replace(html, Marker(slots[0].name), slots[0].value), slots[1..])
  }

  function Fill(template: string, slots: seq<Binding>): Result<string, FillError> {
    match FillAll(template, slots)
    case Success(html) => if Contains(html, OPENING) then Failure(InvalidTemplate) else Success(html)
    case Failure(e) => Failure(e)
  }

  /** `fill_page_pack_slots`. Whatever the values are, a page that is returned has no slot left. */
  method FillPagePackSlots(template: string, slots: seq<Binding>) returns (r: Result<string, FillError>)
    ensures r == Fill(template, slots)
    ensures r.Success? ==> !Contains(r.value, OPENING)
  {
    var html := template;
    for k := 0 to |slots|
      invariant FillAll(template, slots) == FillAll(html, slots[k..])
    {
      if Count(html, Marker(slots[k].name)) != 1 {
        return Failure(InvalidTemplate);
      }
      html := Replace(html, Marker(slots[k].name), slots[k].value);
    }
    if Contains(html, OPENING) {
      return Failure(InvalidTemplate);
    }
    return Success(html);
  }

  /** The template with the listed slots deleted one after the other. */
  function Residue(template: string, names: seq<string>): string {
    if names == [] then template else Replace(Residue(template, names[..|names| - 1]), Marker(names[|names| - 1]), "")
  }

  predicate SlotsAccepted(template: string, names: seq<string>) {
    && (forall n | n in names :: Count(template, Marker(n)) == 1)
    && !Contains(Residue(template, names), OPENING)
  }

  /** The slot part of `compile_page_pack`: its assertions hold exactly for accepted templates. */
  method CheckSlots(template: string, names: seq<string>) returns (ok: bool)
    ensures ok <==> SlotsAccepted(template, names)
  {
    var withoutSlots := template;
    for k := 0 to |names|
      invariant withoutSlots == Residue(template, names[..k])
      invariant forall n :: n in names[..k] ==> Count(template, Marker(n)) == 1
    {
      assert names[..k + 1][..k] == names[..k];
      if Count(template, Marker(names[k])) != 1 {
        return false;
      }
      withoutSlots := Replace(withoutSlots, Marker(names[k]), "");
    }
    assert names[..|names|] == names;
    return !Contains(withoutSlots, OPENING);
  }

  // ---- Templates as pieces ----

  datatype Piece = Lit(text: string) | Slot(name: string)

  predicate PlainName(name: string) { '{' !in name && '}' !in name }

  function Shown(p: Piece): string {
    match p
    case Lit(text) => text
    case Slot(name) => Marker(name)
  }

  function Render(ps: seq<Piece>): string {
    if ps == [] then "" else Shown(ps[0]) + Render(ps[1..])
  }

  function Filled(p: Piece, env: map<string, string>): string {
    match p
    case Lit(text) => text
    case Slot(name) => if name in env then env[name] else Marker(name)
  }

  /** Simultaneous substitution: every slot is replaced at once, values are not looked into. */
  function Substitute(ps: seq<Piece>, env: map<string, string>): string {
    if ps == [] then "" else Filled(ps[0], env) + Substitute(ps[1..], env)
  }

  /** Literal text has no opening brace and slot names have no brace. */
  predicate Plain(ps: seq<Piece>) {
    forall p | p in ps :: if p.Lit? then '{' !in p.text else PlainName(p.name)
  }

  function Occurrences(ps: seq<Piece>, name: string): nat {
    if ps == [] then 0 else (if ps[0] == Slot(name) then 1 else 0) + Occurrences(ps[1..], name)
  }

  function Bind(ps: seq<Piece>, name: string, value: string): seq<Piece> {
    if ps == [] then [] else [if ps[0] == Slot(name) then Lit(value) else ps[0]] + Bind(ps[1..], name, value)
  }

  // ---- Counting and replacing piece by piece ----

  lemma Regroup(a: string, b: string, c: string)
    ensures a + (b + c) == a + b + c
  {
  }

  lemma NotPrefix(pat: string, s: string, i: nat)
    requires i < |pat| && i < |s| && pat[i] != s[i]
    ensures !(pat <= s)
  {
  }

  lemma SkipOne(s: string, pat: string, value: string)
    requires pat != "" && s != "" && !(pat <= s)
    ensures Count(s, pat) == Count(s[1..], pat)
    ensures Replace(s, pat, value) == [s[0]] + Replace(s[1..], pat, value)
  {
    if |s| < |pat| {
      assert s == [s[0]] + s[1..];
    }
  }

  lemma TakeOne(s: string, pat: string, value: string)
    requires pat != "" && pat <= s
    ensures Count(s, pat) == 1 + Count(s[|pat|..], pat)
    ensures Replace(s, pat, value) == value + Replace(s[|pat|..], pat, value)
  {
  }

  lemma {:induction false} SkipPlainText(text: string, rest: string, pat: string, value: string)
    requires pat != "" && pat[0] == '{' && '{' !in text
    ensures Count(text + rest, pat) == Count(rest, pat)
    ensures Replace(text + rest, pat, value) == text + Replace(rest, pat, value)
    decreases |text|
  {
    if text == "" {
      assert text + rest == rest;
    } else {
      var s := text + rest;
      assert s[0] == text[0] != '{' && s[1..] == text[1..] + rest;
      SkipPlainText(text[1..], rest, pat, value);
      NotPrefix(pat, s, 0);
      SkipOne(s, pat, value);
      assert [text[0]] + (text[1..] + Replace(rest, pat, value)) == text + Replace(rest, pat, value);
    }
  }

  lemma OtherMarkerIsNoPrefix(n: string, m: string, rest: string)
    requires PlainName(n) && PlainName(m) && n != m
    ensures !(Marker(n) <= Marker(m) + rest)
  {
    var a, b := Marker(n), Marker(m) + rest;
    assert forall i :: 0 <= i < |n| ==> a[6 + i] == n[i];
    assert forall i :: 0 <= i < |m| ==> b[6 + i] == m[i];
    if i :| 0 <= i < |n| && i < |m| && n[i] != m[i] {
      NotPrefix(a, b, 6 + i);
    } else {
      assert |n| != |m|;
      assert a[6 + |n|] == '}' == b[6 + |m|];
      NotPrefix(a, b, 6 + if |n| < |m| then |n| else |m|);
    }
  }

  function MarkerTail(name: string): string { "mei:" + name + "}}" }

  lemma MarkerParts(name: string, rest: string)
    ensures Marker(name) + rest == ['{'] + (['{'] + (MarkerTail(name) + rest))
  {
  }

  lemma SkipBraces(t: string, pat: string, value: string)
    requires |pat| >= 2 && pat[1] == '{' && t != "" && t[0] != '{'
    requires !(pat <= ['{'] + (['{'] + t))
    ensures Count(['{'] + (['{'] + t), pat) == Count(t, pat)
    ensures Replace(['{'] + (['{'] + t), pat, value) == ['{'] + (['{'] + Replace(t, pat, value))
  {
    var inner := ['{'] + t;
    var s := ['{'] + inner;
    assert s[1..] == inner && inner[1..] == t;
    SkipOne(s, pat, value);
    NotPrefix(pat, inner, 1);
    SkipOne(inner, pat, value);
  }

  lemma SkipOtherMarker(m: string, n: string, rest: string, value: string)
    requires PlainName(n) && PlainName(m) && n != m
    ensures Count(Marker(m) + rest, Marker(n)) == Count(rest, Marker(n))
    ensures Replace(Marker(m) + rest, Marker(n), value) == Marker(m) + Replace(rest, Marker(n), value)
  {
    OtherMarkerIsNoPrefix(n, m, rest);
    MarkerParts(m, rest);
    SkipBraces(MarkerTail(m) + rest, Marker(n), value);
    SkipPlainText(MarkerTail(m), rest, Marker(n), value);
    MarkerParts(m, Replace(rest, Marker(n), value));
  }

  lemma HitMarker(n: string, rest: string, value: string)
    ensures Count(Marker(n) + rest, Marker(n)) == 1 + Count(rest, Marker(n))
    ensures Replace(Marker(n) + rest, Marker(n), value) == value + Replace(rest, Marker(n), value)
  {
    var s := Marker(n) + rest;
    assert s[|Marker(n)|..] == rest && Marker(n) <= s;
  }

  /** What counting and replacing make of one piece at the start of a text. */
  lemma AtMarker(m: string, n: string, rest: string, value: string)
    requires PlainName(n) && PlainName(m)
    ensures Count(Marker(m) + rest, Marker(n)) == (if m == n then 1 else 0) + Count(rest, Marker(n))
    ensures Replace(Marker(m) + rest, Marker(n), value)
            == (if m == n then value else Marker(m)) + Replace(rest, Marker(n), value)
  {
    if m == n { HitMarker(n, rest, value); } else { SkipOtherMarker(m, n, rest, value); }
  }

  lemma BracesAreFirst(n: string)
    requires PlainName(n)
    ensures forall i :: 2 <= i < |Marker(n)| ==> Marker(n)[i] != '{'
  {
    forall i | 6 <= i < 6 + |n| ensures Marker(n)[i] != '{' { assert Marker(n)[i] == n[i - 6]; }
  }

  /** A marker does not straddle the border between any text and a marker. */
  lemma NoStraddle(text: string, m: string, n: string, rest: string)
    requires PlainName(n) && text != ""
    ensures Marker(n) <= text + (Marker(m) + rest) <==> Marker(n) <= text
  {
    var pat, s := Marker(n), text + (Marker(m) + rest);
    if |text| >= |pat| {
      assert s[..|pat|] == text[..|pat|];
    } else if |text| == 1 {
      assert s[2] == Marker(m)[1];
      NotPrefix(pat, s, 2);
    } else {
      BracesAreFirst(n);
      assert s[|text|] == Marker(m)[0];
      NotPrefix(pat, s, |text|);
    }
  }

  /** Counting and replacing work on `text` and on `tail` separately. */
  ghost predicate Separate(text: string, tail: string, pat: string, value: string)
    requires pat != ""
  {
    && Count(text + tail, pat) == Count(text, pat) + Count(tail, pat)
    && Replace(text + tail, pat, value) == Replace(text, pat, value) + Replace(tail, pat, value)
  }

  lemma SeparateHit(text: string, tail: string, pat: string, value: string)
    requires pat != "" && pat <= text && Separate(text[|pat|..], tail, pat, value)
    ensures Separate(text, tail, pat, value)
  {
    assert (text + tail)[|pat|..] == text[|pat|..] + tail;
    assert pat <= text + tail;
    TakeOne(text + tail, pat, value);
    TakeOne(text, pat, value);
    Regroup(value, Replace(text[|pat|..], pat, value), Replace(tail, pat, value));
  }

  lemma SeparateMiss(text: string, tail: string, pat: string, value: string)
    requires pat != "" && text != "" && !(pat <= text) && !(pat <= text + tail) && Separate(text[1..], tail, pat, value)
    ensures Separate(text, tail, pat, value)
  {
    assert (text + tail)[1..] == text[1..] + tail;
    SkipOne(text + tail, pat, value);
    SkipOne(text, pat, value);
    Regroup([text[0]], Replace(text[1..], pat, value), Replace(tail, pat, value));
  }

  /** Whatever the text before a marker is, counting and replacing work on the two separately. */
  lemma {:induction false} TextThenMarker(text: string, m: string, n: string, rest: string, value: string)
    requires PlainName(n)
    ensures Separate(text, Marker(m) + rest, Marker(n), value)
    decreases |text|
  {
    var pat, tail := Marker(n), Marker(m) + rest;
    if text == "" {
      assert text + tail == tail;
    } else {
      NoStraddle(text, m, n, rest);
      if pat <= text {
        TextThenMarker(text[|pat|..], m, n, rest, value);
        SeparateHit(text, tail, pat, value);
      } else {
        TextThenMarker(text[1..], m, n, rest, value);
        SeparateMiss(text, tail, pat, value);
      }
    }
  }

  // ---- Runs of text ----

  /** Markers of `name` in the maximal runs of text, `run` being the one now open. */
  function InText(run: string, ps: seq<Piece>, name: string): nat
    decreases |ps|
  {
    if ps == [] then Count(run, Marker(name))
    else
      match ps[0]
      case Lit(text) => InText(run + text, ps[1..], name)
      case Slot(_) => Count(run, Marker(name)) + InText("", ps[1..], name)
  }

  /** The slot names have no brace; text is arbitrary. */
  predicate Named(ps: seq<Piece>) {
    forall p | p in ps :: p.Slot? ==> PlainName(p.name)
  }

  lemma {:induction false} NoneToReplace(s: string, pat: string, value: string)
    requires pat != "" && Count(s, pat) == 0
    ensures Replace(s, pat, value) == s
    decreases |s|
  {
    if |s| >= |pat| {
      NoneToReplace(s[1..], pat, value);
      assert s == [s[0]] + s[1..];
    }
  }

  /** Counting sees the slots of that name and what the runs of text happen to contain. If they
      contain none, replacing hits exactly the slots. */
  lemma {:induction false} MarkersAreSlotsAndText(run: string, ps: seq<Piece>, name: string, value: string)
    requires Named(ps) && PlainName(name)
    ensures Count(run + Render(ps), Marker(name)) == Occurrences(ps, name) + InText(run, ps, name)
    ensures InText(run, ps, name) == 0 ==>
              Replace(run + Render(ps), Marker(name), value) == run + Render(Bind(ps, name, value))
    decreases |ps|, 0
  {
    if ps == [] {
      assert run + Render(ps) == run;
      if InText(run, ps, name) == 0 { NoneToReplace(run, Marker(name), value); }
    } else {
      var rest := ps[1..];
      var b := Bind(ps, name, value);
      assert b[1..] == Bind(rest, name, value);
      assert ps[0] in ps && forall p :: p in rest ==> p in ps;
      match ps[0]
      case Lit(text) => LitStep(run, text, rest, name, value);
      case Slot(m) => SlotStep(run, m, rest, name, value);
    }
  }

  lemma LitStep(run: string, text: string, rest: seq<Piece>, name: string, value: string)
    requires Named(rest) && PlainName(name)
    ensures Count(run + (text + Render(rest)), Marker(name)) == Occurrences(rest, name) + InText(run + text, rest, name)
    ensures InText(run + text, rest, name) == 0 ==>
              Replace(run + (text + Render(rest)), Marker(name), value)
              == run + (text + Render(Bind(rest, name, value)))
    decreases |rest|, 1
  {
    MarkersAreSlotsAndText(run + text, rest, name, value);
    Regroup(run, text, Render(rest));
    Regroup(run, text, Render(Bind(rest, name, value)));
  }

  lemma SlotStep(run: string, m: string, rest: seq<Piece>, name: string, value: string)
    requires Named(rest) && PlainName(name) && PlainName(m)
    ensures var n, tail := Marker(name), Marker(m) + Render(rest);
            && Count(run + tail, n) == Count(run, n) + (if m == name then 1 else 0)
                  + Occurrences(rest, name) + InText("", rest, name)
            && (Count(run, n) == 0 && InText("", rest, name) == 0 ==>
                  Replace(run + tail, n, value)
                  == run + ((if m == name then value else Marker(m)) + Render(Bind(rest, name, value))))
    decreases |rest|, 1
  {
    MarkersAreSlotsAndText("", rest, name, value);
    assert "" + Render(rest) == Render(rest);
    assert "" + Render(Bind(rest, name, value)) == Render(Bind(rest, name, value));
    TextThenMarker(run, m, name, Render(rest), value);
    AtMarker(m, name, Render(rest), value);
    if Count(run, Marker(name)) == 0 { NoneToReplace(run, Marker(name), value); }
  }

  lemma {:induction false} PlainHasNoneInText(run: string, ps: seq<Piece>, name: string)
    requires Plain(ps) && '{' !in run
    ensures InText(run, ps, name) == 0
    decreases |ps|
  {
    SkipPlainText(run, "", Marker(name), "");
    assert run + "" == run;
    if ps != [] {
      assert ps[0] in ps && forall p :: p in ps[1..] ==> p in ps;
      match ps[0]
      case Lit(text) => PlainHasNoneInText(run + text, ps[1..], name);
      case Slot(_) => PlainHasNoneInText("", ps[1..], name);
    }
  }

  /** On plain pieces, counting and replacing a marker see exactly the slots of that name. */
  lemma MarkersAreSlots(ps: seq<Piece>, name: string, value: string)
    requires Plain(ps) && PlainName(name)
    ensures Count(Render(ps), Marker(name)) == Occurrences(ps, name)
    ensures Replace(Render(ps), Marker(name), value) == Render(Bind(ps, name, value))
  {
    MarkersAreSlotsAndText("", ps, name, value);
    PlainHasNoneInText("", ps, name);
    assert "" + Render(ps) == Render(ps);
    assert "" + Render(Bind(ps, name, value)) == Render(Bind(ps, name, value));
  }

  lemma {:induction false} BindFacts(ps: seq<Piece>, name: string, value: string)
    requires Named(ps)
    ensures Named(Bind(ps, name, value))
    ensures Plain(ps) && '{' !in value ==> Plain(Bind(ps, name, value))
    ensures forall m :: Occurrences(Bind(ps, name, value), m) == if m == name then 0 else Occurrences(ps, m)
  {
    if ps != [] {
      var b := Bind(ps[1..], name, value);
      assert forall p :: p in ps[1..] ==> p in ps;
      BindFacts(ps[1..], name, value);
      var h := Bind(ps, name, value);
      assert h[1..] == b && h[0] == (if ps[0] == Slot(name) then Lit(value) else ps[0]);
      assert ps[0] in ps;
      assert forall p :: p in h ==> p == h[0] || p in b;
    }
  }

  lemma {:induction false} BindThenSubstitute(ps: seq<Piece>, name: string, value: string, env: map<string, string>)
    requires name !in env
    ensures Substitute(Bind(ps, name, value), env) == Substitute(ps, env[name := value])
  {
    if ps != [] {
      BindThenSubstitute(ps[1..], name, value, env);
      var h := Bind(ps, name, value);
      assert h[1..] == Bind(ps[1..], name, value);
    }
  }

  /** With no slot left, rendering is substitution. */
  lemma {:induction false} NoSlotsLeft(ps: seq<Piece>, env: map<string, string>)
    requires forall m :: Occurrences(ps, m) == 0
    ensures Render(ps) == Substitute(ps, env)
    ensures Plain(ps) ==> '{' !in Render(ps)
  {
    if ps != [] {
      assert ps[0] in ps && forall p :: p in ps[1..] ==> p in ps;
      if ps[0].Slot? { assert Occurrences(ps, ps[0].name) > 0; }
      forall m ensures Occurrences(ps[1..], m) == 0 { assert Occurrences(ps, m) == 0; }
      NoSlotsLeft(ps[1..], env);
    }
  }

  lemma NoBraceNoOpening(s: string)
    requires '{' !in s
    ensures !Contains(s, OPENING)
  {
    forall i | 0 <= i <= |s| ensures !(OPENING <= s[i..]) {
      if i < |s| { NotPrefix(OPENING, s[i..], 0); }
    }
  }

  // ---- Filling is simultaneous substitution ----

  function Env(slots: seq<Binding>): map<string, string> {
    if slots == [] then map[] else Env(slots[1..])[slots[0].name := slots[0].value]
  }

  function Names(slots: seq<Binding>): seq<string> {
    seq(|slots|, i requires 0 <= i < |slots| => slots[i].name)
  }

  predicate Distinct(names: seq<string>) {
    forall i, j | 0 <= i < j < |names| :: names[i] != names[j]
  }

  /** The bindings name each slot of the template once. Their values are arbitrary. */
  ghost predicate Serves(slots: seq<Binding>, ps: seq<Piece>) {
    && Distinct(Names(slots))
    && (forall b :: b in slots ==> PlainName(b.name) && Occurrences(ps, b.name) == 1)
    && (forall m :: m !in Names(slots) ==> Occurrences(ps, m) == 0)
  }

  lemma {:induction false} EnvNames(slots: seq<Binding>)
    ensures forall m :: m in Env(slots) <==> m in Names(slots)
  {
    if slots != [] {
      EnvNames(slots[1..]);
      assert Names(slots) == [slots[0].name] + Names(slots[1..]);
    }
  }

  lemma NamesRest(slots: seq<Binding>)
    requires slots != [] && Distinct(Names(slots))
    ensures Names(slots) == [slots[0].name] + Names(slots[1..])
    ensures Distinct(Names(slots[1..]))
    ensures slots[0].name !in Names(slots[1..])
    ensures forall x :: x in slots[1..] ==> x in slots && x.name in Names(slots[1..])
  {
    var b, rest, ns := slots[0], slots[1..], Names(slots);
    assert ns == [b.name] + Names(rest);
    forall i | 0 <= i < |Names(rest)| ensures Names(rest)[i] != b.name { assert ns[0] != ns[i + 1]; }
    forall i, j | 0 <= i < j < |Names(rest)| ensures Names(rest)[i] != Names(rest)[j] { assert ns[i + 1] != ns[j + 1]; }
    forall x | x in rest ensures x.name in Names(rest) {
      var i :| 0 <= i < |rest| && rest[i] == x;
      assert Names(rest)[i] == x.name;
    }
  }

  lemma ServesRest(slots: seq<Binding>, ps: seq<Piece>)
    requires slots != [] && Named(ps) && Serves(slots, ps)
    ensures Named(Bind(ps, slots[0].name, slots[0].value))
    ensures Serves(slots[1..], Bind(ps, slots[0].name, slots[0].value))
    ensures slots[0].name !in Names(slots[1..])
  {
    var b, rest := slots[0], slots[1..];
    assert b in slots;
    NamesRest(slots);
    BindFacts(ps, b.name, b.value);
    var qs := Bind(ps, b.name, b.value);
    forall m | m !in Names(rest) ensures Occurrences(qs, m) == 0 {
      if m != b.name { assert m !in Names(slots); }
    }
    forall x | x in rest ensures PlainName(x.name) && Occurrences(qs, x.name) == 1 {
      assert x in slots && x.name != b.name;
    }
  }

  lemma ContainedWithin(s: string, before: string, after: string, pat: string)
    requires Contains(s, pat)
    ensures Contains(before + s + after, pat)
  {
    var i :| 0 <= i <= |s| && pat <= s[i..];
    var t := before + s + after;
    assert t[|before| + i..] == s[i..] + after;
  }

  lemma {:induction false} CountShows(s: string, name: string)
    requires Count(s, Marker(name)) > 0
    ensures Contains(s, OPENING)
    decreases |s|
  {
    if Marker(name) <= s {
      assert OPENING <= s[0..];
    } else {
      CountShows(s[1..], name);
      ContainedWithin(s[1..], [s[0]], "", OPENING);
      assert [s[0]] + s[1..] + "" == s;
    }
  }

  lemma ContainedEither(a: string, b: string, c: string)
    requires Contains(a, OPENING) || Contains(c, OPENING)
    ensures Contains(a + (b + c), OPENING)
  {
    if Contains(a, OPENING) {
      ContainedWithin(a, "", b + c, OPENING);
      assert "" + a == a;
    } else {
      ContainedWithin(c, a + b, "", OPENING);
      Regroup(a, b, c);
      assert a + b + c + "" == a + b + c;
    }
  }

  /** A marker in a run of text is still there, opening first, once all slots are substituted. */
  lemma {:induction false} TextShows(run: string, ps: seq<Piece>, name: string, env: map<string, string>)
    requires InText(run, ps, name) > 0
    ensures Contains(run + Substitute(ps, env), OPENING)
    decreases |ps|
  {
    if ps == [] {
      CountShows(run, name);
      assert run + Substitute(ps, env) == run;
    } else {
      var rest := Substitute(ps[1..], env);
      match ps[0]
      case Lit(text) =>
        TextShows(run + text, ps[1..], name, env);
        Regroup(run, text, rest);
      case Slot(_) =>
        if Count(run, Marker(name)) > 0 {
          CountShows(run, name);
        } else {
          TextShows("", ps[1..], name, env);
          assert "" + rest == rest;
        }
        ContainedEither(run, Filled(ps[0], env), rest);
    }
  }

  /** The outcome for a page on which all slots are substituted at once: it is refused exactly if
      an opening `{{mei:` shows on it. */
  function Assembled(page: string): Result<string, FillError> {
    if Contains(page, OPENING) then Failure(InvalidTemplate) else Success(page)
  }

  /** Filling slot after slot is substituting all at once, for arbitrary text and values. */
  lemma {:induction false} FillIsSubstitution(ps: seq<Piece>, slots: seq<Binding>)
    requires Named(ps) && Serves(slots, ps)
    ensures Fill(Render(ps), slots) == Assembled(Substitute(ps, Env(slots)))
    decreases |slots|
  {
    if slots == [] {
      NoSlotsLeft(ps, Env(slots));
    } else {
      var b, rest := slots[0], slots[1..];
      assert b in slots;
      MarkersAreSlotsAndText("", ps, b.name, b.value);
      assert "" + Render(ps) == Render(ps);
      if InText("", ps, b.name) == 0 {
        assert "" + Render(Bind(ps, b.name, b.value)) == Render(Bind(ps, b.name, b.value));
        ServesRest(slots, ps);
        FillIsSubstitution(Bind(ps, b.name, b.value), rest);
        EnvNames(rest);
        BindThenSubstitute(ps, b.name, b.value, Env(rest));
      } else {
        TextShows("", ps, b.name, Env(slots));
        assert "" + Substitute(ps, Env(slots)) == Substitute(ps, Env(slots));
      }
    }
  }

  // ---- What the build-time check establishes ----

  function Strip(ps: seq<Piece>, names: seq<string>): seq<Piece> {
    if names == [] then ps else Bind(Strip(ps, names[..|names| - 1]), names[|names| - 1], "")
  }

  lemma {:induction false} ResidueIsStrip(ps: seq<Piece>, names: seq<string>)
    requires Plain(ps) && forall n :: n in names ==> PlainName(n)
    ensures Plain(Strip(ps, names))
    ensures Residue(Render(ps), names) == Render(Strip(ps, names))
    ensures forall m :: Occurrences(Strip(ps, names), m) == if m in names then 0 else Occurrences(ps, m)
    decreases |names|
  {
    if names != [] {
      var init, last := names[..|names| - 1], names[|names| - 1];
      assert names == init + [last];
      ResidueIsStrip(ps, init);
      MarkersAreSlots(Strip(ps, init), last, "");
      BindFacts(Strip(ps, init), last, "");
    }
  }

  lemma {:induction false} SlotShows(ps: seq<Piece>, name: string)
    requires Occurrences(ps, name) > 0
    ensures Contains(Render(ps), OPENING)
  {
    var s := Render(ps);
    if ps[0] == Slot(name) {
      assert OPENING <= s[0..];
    } else {
      SlotShows(ps[1..], name);
      var i :| 0 <= i <= |Render(ps[1..])| && OPENING <= Render(ps[1..])[i..];
      var skip := |s| - |Render(ps[1..])|;
      assert s[skip..] == Render(ps[1..]);
      assert s[skip + i..] == Render(ps[1..])[i..];
    }
  }

  lemma ServesWhole(slots: seq<Binding>, ps: seq<Piece>)
    requires slots != [] && Named(ps) && PlainName(slots[0].name) && Occurrences(ps, slots[0].name) == 1
    requires Serves(slots[1..], Bind(ps, slots[0].name, slots[0].value))
    ensures Serves(slots, ps)
  {
    var b, rest := slots[0], slots[1..];
    var qs := Bind(ps, b.name, b.value);
    BindFacts(ps, b.name, b.value);
    assert Names(slots) == [b.name] + Names(rest);
    forall i | 0 <= i < |rest| ensures Names(rest)[i] != b.name { assert rest[i] in rest; }
    forall x | x in slots ensures PlainName(x.name) && Occurrences(ps, x.name) == 1 { assert x == b || x in rest; }
  }

  /** With brace-free text and values a fill succeeds exactly when the listed slots are distinct,
      each occurs once, and the template has no other. */
  lemma {:induction false} FillSucceedsExactly(ps: seq<Piece>, slots: seq<Binding>)
    requires Plain(ps) && forall b :: b in slots ==> PlainName(b.name) && '{' !in b.value
    ensures Fill(Render(ps), slots).Success? <==> Serves(slots, ps)
    decreases |slots|
  {
    if slots == [] {
      if name :| Occurrences(ps, name) > 0 {
        SlotShows(ps, name);
      } else {
        NoSlotsLeft(ps, map[]);
        NoBraceNoOpening(Render(ps));
      }
    } else {
      var b := slots[0];
      assert b in slots && forall x :: x in slots[1..] ==> x in slots;
      MarkersAreSlots(ps, b.name, b.value);
      if Occurrences(ps, b.name) == 1 {
        BindFacts(ps, b.name, b.value);
        FillSucceedsExactly(Bind(ps, b.name, b.value), slots[1..]);
        if Serves(slots, ps) {
          ServesRest(slots, ps);
        } else if Serves(slots[1..], Bind(ps, b.name, b.value)) {
          ServesWhole(slots, ps);
        }
      }
    }
  }

  /** The build-time check accepts a template with brace-free literals exactly when each required
      slot occurs once and there is no other slot. */
  lemma CheckAcceptsExactly(ps: seq<Piece>, names: seq<string>)
    requires Plain(ps) && forall n :: n in names ==> PlainName(n)
    ensures SlotsAccepted(Render(ps), names)
            <==> forall m :: Occurrences(ps, m) == (if m in names then 1 else 0)
  {
    forall n | n in names ensures Count(Render(ps), Marker(n)) == Occurrences(ps, n) { MarkersAreSlots(ps, n, ""); }
    ResidueIsStrip(ps, names);
    var left := Strip(ps, names);
    if m :| Occurrences(left, m) > 0 {
      SlotShows(left, m);
    } else {
      NoSlotsLeft(left, map[]);
      NoBraceNoOpening(Render(left));
      forall m | m !in names ensures Occurrences(ps, m) == 0 { assert Occurrences(left, m) == 0; }
    }
  }

  // ---- Arbitrary templates ----

  /** The first of the names whose marker starts the text. */
  function MarkerAt(t: string, names: seq<string>): (r: Option<string>)
    ensures r.Some? ==> Marker(r.value) <= t && r.value in names
  {
    if names == [] then None
    else if Marker(names[0]) <= t then Some(names[0])
    else MarkerAt(t, names[1..])
  }

  /** What the text starts with: the marker of a given slot, or else one character. */
  function FirstPiece(t: string, names: seq<string>): (p: Piece)
    requires t != ""
    ensures |Shown(p)| > 0 && Shown(p) <= t
  {
    match MarkerAt(t, names)
    case Some(n) => Slot(n)
    case None => Lit([t[0]])
  }

  /** A template read from the left: markers of the given slots, everything else literal. */
  function Parse(t: string, names: seq<string>): seq<Piece>
    decreases |t|
  {
    if t == "" then []
    else [FirstPiece(t, names)] + Parse(t[|Shown(FirstPiece(t, names))|..], names)
  }

  lemma {:induction false} ParseRenders(t: string, names: seq<string>)
    ensures Render(Parse(t, names)) == t
    decreases |t|
  {
    if t != "" {
      var p := FirstPiece(t, names);
      ParseRenders(t[|Shown(p)|..], names);
      assert Parse(t, names)[1..] == Parse(t[|Shown(p)|..], names);
      assert t == Shown(p) + t[|Shown(p)|..];
    }
  }

  lemma {:induction false} ParseNames(t: string, names: seq<string>)
    requires forall n :: n in names ==> PlainName(n)
    ensures Named(Parse(t, names))
    ensures forall m :: m !in names ==> Occurrences(Parse(t, names), m) == 0
    decreases |t|
  {
    if t != "" {
      var ps := Parse(t, names);
      var rest := t[|Shown(ps[0])|..];
      ParseNames(rest, names);
      assert ps[1..] == Parse(rest, names);
      assert forall p :: p in ps ==> p == ps[0] || p in ps[1..];
    }
  }

  lemma {:induction false} MarkerAtFinds(t: string, names: seq<string>, n: string)
    requires n in names && MarkerAt(t, names).None?
    ensures !(Marker(n) <= t)
  {
    if n != names[0] {
      assert n in names[1..];
      MarkerAtFinds(t, names[1..], n);
    }
  }

  lemma FirstPieceCounts(t: string, names: seq<string>, n: string)
    requires t != "" && n in names && forall m :: m in names ==> PlainName(m)
    ensures var p := FirstPiece(t, names);
            Count(t, Marker(n)) == (if p == Slot(n) then 1 else 0) + Count(t[|Shown(p)|..], Marker(n))
  {
    match MarkerAt(t, names)
    case Some(m) =>
      var rest := t[|Marker(m)|..];
      assert t == Marker(m) + rest;
      AtMarker(m, n, rest, "");
    case None =>
      MarkerAtFinds(t, names, n);
      SkipOne(t, Marker(n), "");
  }

  /** Reading a template finds every marker of a given slot that counting finds. */
  lemma {:induction false} ParseCounts(t: string, names: seq<string>, n: string)
    requires n in names && forall m :: m in names ==> PlainName(m)
    ensures Occurrences(Parse(t, names), n) == Count(t, Marker(n))
    decreases |t|
  {
    if t != "" {
      var rest := t[|Shown(FirstPiece(t, names))|..];
      FirstPieceCounts(t, names, n);
      ParseCounts(rest, names, n);
      assert Parse(t, names)[1..] == Parse(rest, names);
    }
  }

  // ---- The build-time check on arbitrary text ----

  /** Deleting the slots one after the other forms a marker that is still to be deleted. */
  predicate FormsMarker(ps: seq<Piece>, names: seq<string>) {
    exists k | 0 <= k < |names| :: InText("", Strip(ps, names[..k]), names[k]) > 0
  }

  /** The page with every slot of `names` deleted at once. */
  function Deleted(ps: seq<Piece>, names: seq<string>): string {
    Substitute(ps, map n | n in names :: "")
  }

  lemma {:induction false} StripFacts(ps: seq<Piece>, names: seq<string>)
    requires Named(ps)
    ensures Named(Strip(ps, names))
    ensures forall m :: Occurrences(Strip(ps, names), m) == if m in names then 0 else Occurrences(ps, m)
    decreases |names|
  {
    if names != [] {
      var init, last := names[..|names| - 1], names[|names| - 1];
      assert names == init + [last];
      StripFacts(ps, init);
      BindFacts(Strip(ps, init), last, "");
    }
  }

  lemma {:induction false} StripIsDeletion(ps: seq<Piece>, names: seq<string>, env: map<string, string>)
    requires forall n :: n in names ==> n in env && env[n] == ""
    ensures Substitute(Strip(ps, names), env) == Substitute(ps, env)
    decreases |names|
  {
    if names != [] {
      var init, last := names[..|names| - 1], names[|names| - 1];
      assert last in names && forall n :: n in init ==> n in names;
      StripIsDeletion(ps, init, env);
      DeletedSlot(Strip(ps, init), last, env);
    }
  }

  lemma DeleteOne(ps: seq<Piece>, name: string)
    requires Named(ps) && PlainName(name)
    ensures Count(Render(ps), Marker(name)) == Occurrences(ps, name) + InText("", ps, name)
    ensures InText("", ps, name) == 0 ==> Replace(Render(ps), Marker(name), "") == Render(Bind(ps, name, ""))
  {
    MarkersAreSlotsAndText("", ps, name, "");
    assert "" + Render(ps) == Render(ps);
    assert "" + Render(Bind(ps, name, "")) == Render(Bind(ps, name, ""));
  }

  lemma {:induction false} ResidueIsStripUnlessFormed(ps: seq<Piece>, names: seq<string>, k: nat)
    requires Named(ps) && (forall n :: n in names ==> PlainName(n)) && k <= |names| && !FormsMarker(ps, names)
    ensures Residue(Render(ps), names[..k]) == Render(Strip(ps, names[..k]))
  {
    if k > 0 {
      var init, last := names[..k - 1], names[k - 1];
      assert names[..k][..k - 1] == init && names[..k][k - 1] == last && last in names;
      ResidueIsStripUnlessFormed(ps, names, k - 1);
      StripFacts(ps, init);
      assert InText("", Strip(ps, init), last) == 0;
      DeleteOne(Strip(ps, init), last);
    }
  }

  lemma {:induction false} DeletedSlot(ps: seq<Piece>, name: string, env: map<string, string>)
    requires name in env && env[name] == ""
    ensures Substitute(Bind(ps, name, ""), env) == Substitute(ps, env)
  {
    if ps != [] {
      DeletedSlot(ps[1..], name, env);
      assert Bind(ps, name, "")[1..] == Bind(ps[1..], name, "");
    }
  }

  /** On arbitrary templates. With each required slot once, the check accepts every template that
      shows no opening `{{mei:` when the slots are deleted at once, and unless deleting slot after
      slot forms a marker it accepts no other. */
  lemma CheckOnArbitraryText(t: string, names: seq<string>)
    requires (forall n :: n in names ==> PlainName(n)) && forall n :: n in names ==> Count(t, Marker(n)) == 1
    ensures !Contains(Deleted(Parse(t, names), names), OPENING) ==> SlotsAccepted(t, names)
    ensures !FormsMarker(Parse(t, names), names) ==>
              (SlotsAccepted(t, names) <==> !Contains(Deleted(Parse(t, names), names), OPENING))
  {
    var ps := Parse(t, names);
    ParseNames(t, names);
    ParseRenders(t, names);
    var env: map<string, string> := map n | n in names :: "";
    if k :| 0 <= k < |names| && InText("", Strip(ps, names[..k]), names[k]) > 0 {
      StripIsDeletion(ps, names[..k], env);
      TextShows("", Strip(ps, names[..k]), names[k], env);
      assert "" + Substitute(ps, env) == Deleted(ps, names);
    } else {
      StripFacts(ps, names);
      StripIsDeletion(ps, names, env);
      ResidueIsStripUnlessFormed(ps, names, |names|);
      assert names[..|names|] == names;
      forall m ensures Occurrences(Strip(ps, names), m) == 0 { if m !in names { ParseNames(t, names); } }
      NoSlotsLeft(Strip(ps, names), env);
    }
  }

  lemma AcceptedIsServed(t: string, names: seq<string>, slots: seq<Binding>)
    requires (forall n :: n in names ==> PlainName(n)) && SlotsAccepted(t, names)
    requires Distinct(Names(slots)) && (forall n :: n in names <==> n in Names(slots))
    ensures Named(Parse(t, names)) && Serves(slots, Parse(t, names))
  {
    ParseNames(t, names);
    forall b | b in slots ensures PlainName(b.name) && Occurrences(Parse(t, names), b.name) == 1 {
      var i :| 0 <= i < |slots| && slots[i] == b;
      assert Names(slots)[i] == b.name;
      ParseCounts(t, names, b.name);
    }
  }

  /** For every template the build-time check accepts and all values whatever, filling the slots,
      in whatever order they are listed, is the simultaneous substitution. It fails exactly if an
      opening `{{mei:` shows on the page so assembled: text and values have formed one. */
  lemma AcceptedTemplateFills(t: string, names: seq<string>, slots: seq<Binding>)
    requires (forall n :: n in names ==> PlainName(n)) && SlotsAccepted(t, names)
    requires Distinct(Names(slots)) && (forall n :: n in names <==> n in Names(slots))
    ensures Fill(t, slots) == Assembled(Substitute(Parse(t, names), Env(slots)))
  {
    AcceptedIsServed(t, names, slots);
    ParseRenders(t, names);
    FillIsSubstitution(Parse(t, names), slots);
  }

  lemma {:induction false} SubstituteHasNoBrace(ps: seq<Piece>, env: map<string, string>)
    requires Plain(ps) && forall m :: Occurrences(ps, m) > 0 ==> m in env && '{' !in env[m]
    ensures '{' !in Substitute(ps, env)
  {
    if ps != [] {
      assert ps[0] in ps && forall p :: p in ps[1..] ==> p in ps;
      if ps[0].Slot? { assert Occurrences(ps, ps[0].name) > 0; }
      forall m | Occurrences(ps[1..], m) > 0 ensures m in env && '{' !in env[m] { assert Occurrences(ps, m) > 0; }
      SubstituteHasNoBrace(ps[1..], env);
    }
  }

  /** Text and values without an opening brace form none: such a fill always succeeds. */
  lemma BraceFreeFillSucceeds(t: string, names: seq<string>, slots: seq<Binding>)
    requires (forall n :: n in names ==> PlainName(n)) && SlotsAccepted(t, names)
    requires Distinct(Names(slots)) && (forall n :: n in names <==> n in Names(slots))
    requires Plain(Parse(t, names)) && forall b :: b in slots ==> '{' !in b.value
    ensures Fill(t, slots) == Success(Substitute(Parse(t, names), Env(slots)))
  {
    var ps := Parse(t, names);
    AcceptedTemplateFills(t, names, slots);
    AcceptedIsServed(t, names, slots);
    forall m | Occurrences(ps, m) > 0 ensures m in Env(slots) && '{' !in Env(slots)[m] {
      assert m in Names(slots);
      var i :| 0 <= i < |slots| && Names(slots)[i] == m;
      EnvLooksUp(slots, slots[i]);
    }
    SubstituteHasNoBrace(ps, Env(slots));
    NoBraceNoOpening(Substitute(ps, Env(slots)));
  }

  lemma {:induction false} SubstituteShowsValue(ps: seq<Piece>, name: string, env: map<string, string>)
    requires Occurrences(ps, name) > 0 && name in env && Contains(env[name], OPENING)
    ensures Contains(Substitute(ps, env), OPENING)
  {
    var rest := Substitute(ps[1..], env);
    if ps[0] == Slot(name) {
      ContainedWithin(env[name], "", rest, OPENING);
      assert "" + env[name] + rest == Substitute(ps, env);
    } else {
      SubstituteShowsValue(ps[1..], name, env);
      var head := Substitute(ps, env)[..|Substitute(ps, env)| - |rest|];
      ContainedWithin(rest, head, "", OPENING);
      assert head + rest + "" == Substitute(ps, env);
    }
  }

  /** A value that shows an opening `{{mei:` by itself always makes the fill fail. */
  lemma ValueWithOpeningFails(t: string, names: seq<string>, slots: seq<Binding>, b: Binding)
    requires (forall n :: n in names ==> PlainName(n)) && SlotsAccepted(t, names)
    requires Distinct(Names(slots)) && (forall n :: n in names <==> n in Names(slots))
    requires b in slots && Contains(b.value, OPENING)
    ensures Fill(t, slots) == Failure(InvalidTemplate)
  {
    AcceptedTemplateFills(t, names, slots);
    AcceptedIsServed(t, names, slots);
    EnvLooksUp(slots, b);
    SubstituteShowsValue(Parse(t, names), b.name, Env(slots));
  }

  lemma {:induction false} EnvLooksUp(slots: seq<Binding>, b: Binding)
    requires Distinct(Names(slots)) && b in slots
    ensures b.name in Env(slots) && Env(slots)[b.name] == b.value
  {
    NamesRest(slots);
    if b != slots[0] {
      assert b in slots[1..];
      EnvLooksUp(slots[1..], b);
    }
  }

  /** The order in which distinct slots are listed does not matter, whatever their values. */
  lemma SlotOrderIsIrrelevant(t: string, names: seq<string>, slots: seq<Binding>, others: seq<Binding>)
    requires (forall n :: n in names ==> PlainName(n)) && SlotsAccepted(t, names)
    requires Distinct(Names(slots)) && Distinct(Names(others)) && (forall b :: b in slots <==> b in others)
    requires forall n :: n in names <==> n in Names(slots)
    ensures Fill(t, slots) == Fill(t, others)
  {
    forall n ensures n in Names(slots) <==> n in Names(others) {
      if n in Names(slots) { SameNames(slots, others, n); }
      if n in Names(others) { SameNames(others, slots, n); }
    }
    EnvNames(slots);
    EnvNames(others);
    forall n | n in Env(slots) ensures Env(others)[n] == Env(slots)[n] {
      var i :| 0 <= i < |slots| && Names(slots)[i] == n;
      EnvLooksUp(slots, slots[i]);
      EnvLooksUp(others, slots[i]);
    }
    assert Env(slots) == Env(others);
    AcceptedTemplateFills(t, names, slots);
    AcceptedTemplateFills(t, names, others);
  }

  lemma SameNames(slots: seq<Binding>, others: seq<Binding>, n: string)
    requires forall b :: b in slots ==> b in others
    requires n in Names(slots)
    ensures n in Names(others)
  {
    var i :| 0 <= i < |slots| && Names(slots)[i] == n;
    assert slots[i] in slots;
    var j :| 0 <= j < |others| && others[j] == slots[i];
    assert Names(others)[j] == n;
  }
}
