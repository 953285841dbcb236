/** The three built-in page-pack templates and the build-time check. */
module PagePackTemplates {
  import opened PagePack

  /** A template that alternates text and slots. */
  function Weave(texts: seq<string>, names: seq<string>, last: string): seq<Piece>
    requires |texts| == |names|
  {
    if texts == [] then [Lit(last)] else [Lit(texts[0]), Slot(names[0])] + Weave(texts[1..], names[1..], last)
  }

  lemma {:induction false} WeaveOccurrences(texts: seq<string>, names: seq<string>, last: string, m: string)
    requires |texts| == |names| && Distinct(names)
    ensures Occurrences(Weave(texts, names, last), m) == if m in names then 1 else 0
  {
    var w := Weave(texts, names, last);
    if names != [] {
      var rest := Weave(texts[1..], names[1..], last);
      assert w[1..] == [Slot(names[0])] + rest && w[1..][1..] == rest;
      forall i | 0 <= i < |names[1..]| ensures names[1..][i] != names[0] { assert names[0] != names[i + 1]; }
      forall i, j | 0 <= i < j < |names[1..]| ensures names[1..][i] != names[1..][j]
      { assert names[i + 1] != names[j + 1]; }
      WeaveOccurrences(texts[1..], names[1..], last, m);
      assert names == [names[0]] + names[1..];
    }
  }

  lemma {:induction false} WeaveIsPlain(texts: seq<string>, names: seq<string>, last: string)
    requires |texts| == |names| && '{' !in last
    requires (forall t :: t in texts ==> '{' !in t) && (forall n :: n in names ==> PlainName(n))
    ensures Plain(Weave(texts, names, last))
  {
    if names != [] {
      WeaveIsPlain(texts[1..], names[1..], last);
      assert texts[0] in texts && names[0] in names;
    }
  }

  /** Any such template with distinct slots and brace-free text passes the build-time check. */
  lemma WeaveIsAccepted(texts: seq<string>, names: seq<string>, last: string)
    requires |texts| == |names| && Distinct(names) && '{' !in last
    requires (forall t :: t in texts ==> '{' !in t) && (forall n :: n in names ==> PlainName(n))
    ensures Plain(Weave(texts, names, last)) && SlotsAccepted(Render(Weave(texts, names, last)), names)
  {
    var ps := Weave(texts, names, last);
    WeaveIsPlain(texts, names, last);
    forall m ensures Occurrences(ps, m) == if m in names then 1 else 0 { WeaveOccurrences(texts, names, last, m); }
    CheckAcceptsExactly(ps, names);
  }

  const OPEN_TEXT := "<section class=\""
  const PACK_TEXT := "\" data-mei-pagepack=\""
  const DIGEST_TEXT := "\" data-mei-pagepack-digest=\""
  const SURFACE_TEXT := "\" data-mei-page-surface=\""
  const LAST_TEXT := "\n</section>"

  /** The shape of the built-in templates: a section of some class with the three identity slots,
      and body slots on lines of their own. */
  function BuiltInTexts(cssClass: string, body: seq<string>): seq<string> {
    [OPEN_TEXT + cssClass + PACK_TEXT, DIGEST_TEXT, SURFACE_TEXT] + BodyTexts("\">\n  ", body)
  }

  function BodyTexts(first: string, body: seq<string>): seq<string>
    decreases body
  {
    if body == [] then [] else [first] + BodyTexts("\n  ", body[1..])
  }

  function BuiltInSlots(body: seq<string>): seq<string> { ["pack_id", "digest", "surface"] + body }

  const BUILT_IN: seq<(string, seq<string>)> := [
    ("mei-host-shell__home", ["workspace_line", "app_cards"]),
    ("mei-host-shell__runtime", ["host_tools", "runtime_control"]),
    ("mei-host-shell__workspace-share", ["share_explorer"])]

  lemma {:induction false} BodyTextsArePlain(first: string, body: seq<string>)
    requires '{' !in first
    ensures |BodyTexts(first, body)| == |body| && forall t :: t in BodyTexts(first, body) ==> '{' !in t
    decreases body
  {
    if body != [] { BodyTextsArePlain("\n  ", body[1..]); }
  }

  /** A template of that shape passes the check if its class has no opening brace and its body
      slots are distinct plain names other than the identity slots. */
  lemma ShapeIsAccepted(cssClass: string, body: seq<string>)
    requires '{' !in cssClass && Distinct(BuiltInSlots(body)) && forall n :: n in body ==> PlainName(n)
    ensures |BuiltInTexts(cssClass, body)| == |BuiltInSlots(body)|
    ensures var names := BuiltInSlots(body);
            SlotsAccepted(Render(Weave(BuiltInTexts(cssClass, body), names, LAST_TEXT)), names)
  {
    BodyTextsArePlain("\">\n  ", body);
    var texts, names := BuiltInTexts(cssClass, body), BuiltInSlots(body);
    forall t | t in texts ensures '{' !in t {
      if t !in BodyTexts("\">\n  ", body) { assert t in [OPEN_TEXT + cssClass + PACK_TEXT, DIGEST_TEXT, SURFACE_TEXT]; }
    }
    forall n | n in names ensures PlainName(n) {
      if n !in body { assert n in ["pack_id", "digest", "surface"]; }
    }
    WeaveIsAccepted(texts, names, LAST_TEXT);
  }

  /** Names that differ in their first character, or else in their second, are distinct. */
  lemma BuiltInSlotsAreDistinct(k: nat)
    requires k < |BUILT_IN|
    ensures Distinct(BuiltInSlots(BUILT_IN[k].1))
  {
    var body := BUILT_IN[k].1;
    var names := BuiltInSlots(body);
    assert names[..3] == ["pack_id", "digest", "surface"] && names[3..] == body;
    assert names[0][0] == 'p' && names[1][0] == 'd' && names[2][..2] == "su";
    assert |body| == 2 ==> body[0][0] != body[1][0];
    assert forall i :: 0 <= i < |body| ==> body[i][0] in "wahr" || body[i][1] == 'h';
  }

  lemma BuiltInNamesArePlain(k: nat)
    requires k < |BUILT_IN|
    ensures '{' !in BUILT_IN[k].0 && forall n :: n in BUILT_IN[k].1 ==> PlainName(n)
  {
    var body := BUILT_IN[k].1;
    assert |body| <= 2 && forall i :: 0 <= i < |body| ==> PlainName(body[i]);
  }

  /** The three built-in templates pass the check. */
  lemma BuiltInTemplatesAreAccepted(k: nat)
    requires k < |BUILT_IN|
    ensures
      var names := BuiltInSlots(BUILT_IN[k].1);
      |BuiltInTexts(BUILT_IN[k].0, BUILT_IN[k].1)| == |names|
      && SlotsAccepted(Render(Weave(BuiltInTexts(BUILT_IN[k].0, BUILT_IN[k].1), names, LAST_TEXT)), names)
  {
    BuiltInSlotsAreDistinct(k);
    BuiltInNamesArePlain(k);
    ShapeIsAccepted(BUILT_IN[k].0, BUILT_IN[k].1);
  }

  // ---- Where the check is not exact ----

  /** A template in which deleting slot `a` forms the marker of slot `b`. */
  const TRICKY: seq<Piece> := [Lit(OPENING), Slot("a"), Lit("b}}"), Slot("b")]

  function TrickyWith(a: Piece, b: Piece): seq<Piece> { [Lit(OPENING), a, Lit("b}}"), b] }

  lemma RenderTricky(a: Piece, b: Piece)
    ensures Render(TrickyWith(a, b)) == OPENING + (Shown(a) + ("b}}" + (Shown(b) + "")))
  {
    var ps := TrickyWith(a, b);
    assert ps[1..] == [a, Lit("b}}"), b] && ps[1..][1..] == [Lit("b}}"), b] && ps[1..][1..][1..] == [b];
    assert Render([b]) == Shown(b) + "";
    assert Render([Lit("b}}"), b]) == "b}}" + Render([b]);
    assert Render([a, Lit("b}}"), b]) == Shown(a) + Render([Lit("b}}"), b]);
  }

  lemma BindTricky(a: Piece, b: Piece, name: string)
    ensures Bind(TrickyWith(a, b), name, "")
            == TrickyWith(if a == Slot(name) then Lit("") else a, if b == Slot(name) then Lit("") else b)
  {
    var ps := TrickyWith(a, b);
    assert ps[1..] == [a, Lit("b}}"), b] && ps[1..][1..] == [Lit("b}}"), b] && ps[1..][1..][1..] == [b];
    assert Bind([b], name, "") == [if b == Slot(name) then Lit("") else b];
    assert Bind([Lit("b}}"), b], name, "") == [Lit("b}}")] + Bind([b], name, "");
    assert Bind([a, Lit("b}}"), b], name, "")
        == [if a == Slot(name) then Lit("") else a] + Bind([Lit("b}}"), b], name, "");
  }

  /** While slot `a` is there, the text around it holds no marker. */
  lemma NoMarkerInTricky(b: Piece, name: string)
    requires b in {Slot("b"), Lit("")} && |name| == 1
    ensures InText("", TrickyWith(Slot("a"), b), name) == 0
    ensures Occurrences(TrickyWith(Slot("a"), b), name)
            == (if name == "a" then 1 else 0) + if b == Slot(name) then 1 else 0
  {
    var ps := TrickyWith(Slot("a"), b);
    assert ps[1..] == [Slot("a"), Lit("b}}"), b] && ps[1..][1..] == [Lit("b}}"), b] && ps[1..][1..][1..] == [b];
    assert "" + OPENING == OPENING && "" + "b}}" == "b}}" && "b}}" + "" == "b}}";
    assert InText("b}}", [b], name) == 0;
    assert InText("", [Lit("b}}"), b], name) == 0;
    assert InText(OPENING, [Slot("a"), Lit("b}}"), b], name) == 0;
    assert Occurrences([b], name) == if b == Slot(name) then 1 else 0;
    assert Occurrences([Lit("b}}"), b], name) == Occurrences([b], name);
  }

  lemma DeleteFromTricky(b: Piece, name: string)
    requires b in {Slot("b"), Lit("")} && name in {"a", "b"}
    ensures var ps := TrickyWith(Slot("a"), b);
            && Count(Render(ps), Marker(name)) == Occurrences(ps, name)
            && Replace(Render(ps), Marker(name), "") == Render(Bind(ps, name, ""))
  {
    NoMarkerInTricky(b, name);
    DeleteOne(TrickyWith(Slot("a"), b), name);
  }

  lemma ResidueOfTwo(t: string, x: string, y: string)
    ensures Residue(t, [x, y]) == Replace(Replace(t, Marker(x), ""), Marker(y), "")
  {
    assert [x, y][..1] == [x] && [x][..0] == [];
    assert Residue(t, [x]) == Replace(Residue(t, []), Marker(x), "");
  }

  lemma TrickyCounts()
    ensures Count(Render(TRICKY), Marker("a")) == 1 && Count(Render(TRICKY), Marker("b")) == 1
  {
    assert TRICKY == TrickyWith(Slot("a"), Slot("b"));
    NoMarkerInTricky(Slot("b"), "a");
    NoMarkerInTricky(Slot("b"), "b");
    DeleteFromTricky(Slot("b"), "a");
    DeleteFromTricky(Slot("b"), "b");
  }

  lemma Joined(rest: string)
    ensures OPENING + ("" + ("b}}" + rest)) == Marker("b") + rest
  {
    assert "b" + "}}" == "b}}";
  }

  lemma WithoutA()
    ensures Replace(Render(TRICKY), Marker("a"), "") == Marker("b") + (Marker("b") + "")
  {
    assert TRICKY == TrickyWith(Slot("a"), Slot("b"));
    DeleteFromTricky(Slot("b"), "a");
    BindTricky(Slot("a"), Slot("b"), "a");
    RenderTricky(Lit(""), Slot("b"));
    Joined(Marker("b") + "");
  }

  lemma WithoutBoth()
    ensures Residue(Render(TRICKY), ["a", "b"]) == ""
  {
    ResidueOfTwo(Render(TRICKY), "a", "b");
    WithoutA();
    HitMarker("b", Marker("b") + "", "");
    HitMarker("b", "", "");
  }

  lemma WithoutB()
    ensures Replace(Render(TRICKY), Marker("b"), "") == Render(TrickyWith(Slot("a"), Lit("")))
  {
    assert TRICKY == TrickyWith(Slot("a"), Slot("b"));
    DeleteFromTricky(Slot("b"), "b");
    BindTricky(Slot("a"), Slot("b"), "b");
  }

  lemma WithoutBThenA()
    ensures Residue(Render(TRICKY), ["b", "a"]) == Marker("b")
  {
    ResidueOfTwo(Render(TRICKY), "b", "a");
    WithoutB();
    DeleteFromTricky(Lit(""), "a");
    BindTricky(Slot("a"), Lit(""), "a");
    RenderTricky(Lit(""), Lit(""));
    Joined("" + "");
  }

  /** Where deleting a slot forms another's marker, the check may accept a template on which an
      opening shows once all slots are deleted; with the names in another order it refuses it. */
  lemma CheckMayMissFormedMarker()
    ensures SlotsAccepted(Render(TRICKY), ["a", "b"])
    ensures !SlotsAccepted(Render(TRICKY), ["b", "a"])
    ensures Contains(Deleted(Parse(Render(TRICKY), ["b", "a"]), ["b", "a"]), OPENING)
  {
    TrickyCounts();
    WithoutBoth();
    WithoutBThenA();
    NoBraceNoOpening("");
    assert OPENING <= Marker("b")[0..];
    CheckOnArbitraryText(Render(TRICKY), ["b", "a"]);
  }
}
