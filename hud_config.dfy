/**
 * The MangoHUD configuration text written before launch (`getHudConfig`): an optional
 * background-image prefix, a body chosen by the `hud` mode, and the placeholders
 * %SYSTEMNAME%, %GAMENAME%, %EMULATORCORE% and %THUMBNAIL% replaced in that order.
 * Also the game information read from the front-end's XML (`extractGameInfosFromXml`).
 */
module HudConfig {
  import opened Wrappers

  const SystemNameTag: string := "%SYSTEMNAME%"
  const GameNameTag: string := "%GAMENAME%"
  const EmulatorCoreTag: string := "%EMULATORCORE%"
  const ThumbnailTag: string := "%THUMBNAIL%"

  const HideBackground: string := "background_alpha=0\n"

  /** The text before the first placeholder of the "perf" layout. */
  const PerfHead: string :=
    "position=bottom-left\n" + "background_alpha=0.9\n" + "legacy_layout=false\n" + "custom_text="
  /** The text after the last placeholder of the "perf" layout. */
  const PerfTail: string :=
    "\nfps\n" + "gpu_name\n" + "engine_version\n" + "vulkan_driver\n" + "resolution\n" + "ram\n" +
    "gpu_stats\n" + "gpu_temp\n" + "cpu_stats\n" + "cpu_temp\n" + "core_load"
  /** The text before the first placeholder of the "game" layout. */
  const GameHead: string :=
    "position=bottom-left\n" + "background_alpha=0\n" + "legacy_layout=false\n" + "font_size=32\n" +
    "image_max_width=200\n" + "image="
  /** The text between two placeholders of both layouts. */
  const NextText: string := "\ncustom_text="

  /** Line 397. */
  const PerfTemplate: string :=
    PerfHead + GameNameTag + NextText + SystemNameTag + NextText + EmulatorCoreTag + PerfTail

  /** Line 399. */
  const GameTemplate: string :=
    GameHead + ThumbnailTag + NextText + GameNameTag + NextText + SystemNameTag + NextText + EmulatorCoreTag

  /** `hudConfig_protectStr`: `None` becomes the empty string. */
  function ProtectStr(s: Option<string>): (r: string)
    ensures s.Some? ==> r == s.value
    ensures s.None? ==> r == ""
  {
    s.GetOr("")
  }

  /** Python's `s.replace(pat, rep)`: every non-overlapping occurrence, scanning left to right. */
  function ReplaceAll(s: string, pat: string, rep: string): string
    requires pat != []
    decreases |s|
  {
    if |s| < |pat| then s
    else if s[..|pat|] == pat then rep + ReplaceAll(s[|pat|..], pat, rep)
    else [s[0]] + ReplaceAll(s[1..], pat, rep)
  }

  /** `pat` occurs in `s` at index `i`. */
  predicate OccursAt(s: string, pat: string, i: int) {
    0 <= i && i + |pat| <= |s| && s[i..i + |pat|] == pat
  }

  /** Replacing a text by itself, or a text that does not occur, changes nothing. */
  lemma {:induction false} ReplaceUnchanged(s: string, pat: string, rep: string)
    requires pat != []
    ensures rep == pat ==> ReplaceAll(s, pat, rep) == s
    ensures (forall i :: !OccursAt(s, pat, i)) ==> ReplaceAll(s, pat, rep) == s
    decreases |s|
  {
    if |s| >= |pat| {
      if s[..|pat|] == pat {
        assert OccursAt(s, pat, 0);
        ReplaceUnchanged(s[|pat|..], pat, rep);
        if rep == pat {
          assert s == pat + s[|pat|..];
        }
      } else {
        ReplaceUnchanged(s[1..], pat, rep);
        forall i | OccursAt(s[1..], pat, i)
          ensures OccursAt(s, pat, i + 1)
        {
          assert s[1..][i..i + |pat|] == s[i + 1..i + 1 + |pat|];
        }
        assert s == [s[0]] + s[1..];
      }
    }
  }

  /** With a replacement as long as the text it replaces, the length is kept. */
  lemma {:induction false} ReplaceSameLength(s: string, pat: string, rep: string)
    requires pat != [] && |rep| == |pat|
    ensures |ReplaceAll(s, pat, rep)| == |s|
    decreases |s|
  {
    if |s| >= |pat| {
      if s[..|pat|] == pat {
        ReplaceSameLength(s[|pat|..], pat, rep);
      } else {
        ReplaceSameLength(s[1..], pat, rep);
      }
    }
  }

  /** Lines 376-377: the background image lines, for a bezel that is set and not empty. */
  function Prefix(bezel: Option<string>): string {
    if bezel.Some? && bezel.value != "" then "background_image=" + bezel.value + "\nlegacy_layout=false\n" else ""
  }

  /** Lines 384-386: the emulator, followed by "/core" when a core is given and differs from it. */
  function EmulatorLabel(emulator: string, core: Option<string>): string {
    if core.Some? && emulator != core.value then emulator + "/" + core.value else emulator
  }

  /** Lines 396-403: the body for a `hud` mode. */
  function Body(mode: string, hudCustom: Option<string>): string {
    if mode == "perf" then PerfTemplate
    else if mode == "game" then GameTemplate
    else if mode == "custom" && hudCustom.Some? && hudCustom.value != "" then ReplaceAll(hudCustom.value, "\\n", "\n")
    else HideBackground
  }

  /** Lines 388-393: a game information value, empty when missing. */
  function GameValue(gameinfos: map<string, Option<string>>, key: string): string {
    if key in gameinfos then ProtectStr(gameinfos[key]) else ""
  }

  /** `getHudConfig`. */
  function HudConfigText(hud: Option<string>, hudCustom: Option<string>, systemName: Option<string>,
                         emulator: string, core: Option<string>, gameinfos: map<string, Option<string>>,
                         bezel: Option<string>): (r: string)
    ensures hud.None? ==> r == Prefix(bezel) + HideBackground
    ensures hud.Some? && '%' !in Prefix(bezel) + Body(hud.value, hudCustom) ==> r == Prefix(bezel) + Body(hud.value, hudCustom)
  {
    if hud.None? then Prefix(bezel) + HideBackground
    else
      NoTagsUnchanged(Prefix(bezel) + Body(hud.value, hudCustom), ProtectStr(systemName),
        GameValue(gameinfos, "name"), EmulatorLabel(emulator, core), GameValue(gameinfos, "thumbnail"));
      var text := Prefix(bezel) + Body(hud.value, hudCustom);
      var withSystem := ReplaceAll(text, SystemNameTag, ProtectStr(systemName));
      var withGame := ReplaceAll(withSystem, GameNameTag, GameValue(gameinfos, "name"));
      var withEmulator := ReplaceAll(withGame, EmulatorCoreTag, EmulatorLabel(emulator, core));
      ReplaceAll(withEmulator, ThumbnailTag, GameValue(gameinfos, "thumbnail"))
  }

  // ---------------------------------------------------------------------------------
  // Game information

  /**
   * The parts of the game-information XML document that are read: for `./game/name` and
   * `./game/thumbnail`, `None` when the element is missing, else the element's text
   * (`None` when it has none).
   */
  datatype GameDoc = GameDoc(name: Option<Option<string>>, thumbnail: Option<Option<string>>)

  /** `extractGameInfosFromXml` as written: `ET` is never imported, so it always returns `{}`. */
  function GameInfosAsWritten(doc: Option<GameDoc>): map<string, Option<string>>
  {
    map[]
  }

  /** `extractGameInfosFromXml` as intended: the elements found, nothing when the document does not parse. */
  function GameInfos(doc: Option<GameDoc>): (vals: map<string, Option<string>>)
    ensures doc.None? ==> vals == map[]
    ensures doc.Some? ==> ("name" in vals <==> doc.value.name.Some?)
    ensures doc.Some? ==> ("thumbnail" in vals <==> doc.value.thumbnail.Some?)
    ensures doc.Some? && doc.value.name.Some? ==> vals["name"] == doc.value.name.value
    ensures doc.Some? && doc.value.thumbnail.Some? ==> vals["thumbnail"] == doc.value.thumbnail.value
    ensures vals.Keys <= {"name", "thumbnail"}
  {
    match doc
    case None => map[]
    case Some(d) =>
      var withName: map<string, Option<string>> := if d.name.Some? then map["name" := d.name.value] else map[];
      if d.thumbnail.Some? then withName["thumbnail" := d.thumbnail.value] else withName
  }

  /** The core handed to `getHudConfig` as written: `effectiveCore`, "" when no core is set. */
  function HudCoreAsWritten(effectiveCore: string): Option<string>
  {
    Some(effectiveCore)
  }

  /** The core handed to `getHudConfig` as intended: none when no core is set. */
  function HudCore(effectiveCore: string): (core: Option<string>)
    ensures core.None? <==> effectiveCore == ""
    ensures core.Some? ==> core.value == effectiveCore
  {
    if effectiveCore == "" then None else Some(effectiveCore)
  }

  // ---------------------------------------------------------------------------------
  // Templates as pieces

  /** A template is literal text and placeholders. */
  datatype Piece = Lit(text: string) | Tag(tag: string)

  predicate IsTag(t: string) {
    t == SystemNameTag || t == GameNameTag || t == EmulatorCoreTag || t == ThumbnailTag
  }

  function Flatten(ps: seq<Piece>): string {
    if ps == [] then "" else (match ps[0] case Lit(x) => x case Tag(t) => t) + Flatten(ps[1..])
  }

  /**
   * Literal text holds no '%', every placeholder is one of the four tags, and a
   * placeholder is followed by nothing or by literal text that starts a new line, so no
   * tag can be matched across two pieces.
   */
  predicate WellFormed(ps: seq<Piece>) {
    forall i :: 0 <= i < |ps| ==>
      (ps[i].Lit? ==> '%' !in ps[i].text) &&
      (ps[i].Tag? ==> IsTag(ps[i].tag)) &&
      (ps[i].Tag? && i + 1 < |ps| ==> ps[i + 1].Lit? && ps[i + 1].text != [] && ps[i + 1].text[0] == '\n')
  }

  /** The pieces after `ReplaceAll(_, t, v)`: each placeholder `t` becomes the text `v`. */
  function Subst(ps: seq<Piece>, t: string, v: string): (r: seq<Piece>)
    ensures |r| == |ps|
    ensures forall i :: 0 <= i < |ps| ==> r[i] == (if ps[i] == Tag(t) then Lit(v) else ps[i])
  {
    if ps == [] then []
    else [if ps[0] == Tag(t) then Lit(v) else ps[0]] + Subst(ps[1..], t, v)
  }

  /** The value of a placeholder. */
  function TagValue(t: string, system: string, game: string, core: string, thumbnail: string): string {
    if t == SystemNameTag then system
    else if t == GameNameTag then game
    else if t == EmulatorCoreTag then core
    else if t == ThumbnailTag then thumbnail
    else t
  }

  function RenderPiece(p: Piece, system: string, game: string, core: string, thumbnail: string): string {
    match p
    case Lit(x) => x
    case Tag(t) => TagValue(t, system, game, core, thumbnail)
  }

  /** A template with every placeholder replaced by its value, all at once. */
  function Render(ps: seq<Piece>, system: string, game: string, core: string, thumbnail: string): string {
    if ps == [] then "" else RenderPiece(ps[0], system, game, core, thumbnail) + Render(ps[1..], system, game, core, thumbnail)
  }

  const PerfPieces: seq<Piece> := [
    Lit(PerfHead), Tag(GameNameTag), Lit(NextText), Tag(SystemNameTag), Lit(NextText), Tag(EmulatorCoreTag), Lit(PerfTail)
  ]

  const GamePieces: seq<Piece> := [
    Lit(GameHead), Tag(ThumbnailTag), Lit(NextText), Tag(GameNameTag), Lit(NextText), Tag(SystemNameTag),
    Lit(NextText), Tag(EmulatorCoreTag)
  ]

  // ---------------------------------------------------------------------------------
  // Replacement lemmas

  /** The shape of a placeholder: '%', a name starting with a capital letter, '%'. */
  lemma TagShape(t: string)
    requires IsTag(t)
    ensures |t| >= 3 && t[0] == '%' && t[|t| - 1] == '%' && t[1] != '\n' && t[1] != '%'
    ensures '%' !in t[1..|t| - 1] && t == "%" + t[1..|t| - 1] + "%"
  {
  }

  /**
   * Text without the first character of the pattern holds no occurrence of it: it is kept,
   * and the rest is replaced on its own.
   */
  lemma {:induction false} ReplaceLitPrefix(a: string, b: string, t: string, v: string)
    requires t != [] && t[0] !in a
    ensures ReplaceAll(a + b, t, v) == a + ReplaceAll(b, t, v)
    decreases |a|
  {
    if a == [] {
      assert a + b == b;
    } else {
      var s := a + b;
      assert a[0] in a;
      assert |s| >= |t| ==> s[..|t|] != t by {
        if |s| >= |t| {
          assert s[..|t|][0] == a[0];
        }
      }
      ReplaceSkipHead(s, t, v);
      assert s[1..] == a[1..] + b;
      assert t[0] !in a[1..] by {
        assert forall c :: c in a[1..] ==> c in a;
      }
      ReplaceLitPrefix(a[1..], b, t, v);
      assert [a[0]] + (a[1..] + ReplaceAll(b, t, v)) == a + ReplaceAll(b, t, v) by {
        assert [a[0]] + a[1..] == a;
      }
    }
  }

  /** A placeholder at the front is replaced. */
  lemma ReplaceTagHead(t: string, b: string, v: string)
    requires t != []
    ensures ReplaceAll(t + b, t, v) == v + ReplaceAll(b, t, v)
  {
    assert (t + b)[..|t|] == t;
    assert (t + b)[|t|..] == b;
  }

  /** Where no occurrence starts at the front, the first character is kept. */
  lemma ReplaceSkipHead(s: string, t: string, v: string)
    requires t != [] && s != []
    requires |s| >= |t| ==> s[..|t|] != t
    ensures ReplaceAll(s, t, v) == [s[0]] + ReplaceAll(s[1..], t, v)
  {
    if |s| < |t| {
      assert [s[0]] + s[1..] == s;
    }
  }

  lemma ReplaceOtherTagShape(u: string, inner: string, b: string, t: string, v: string)
    requires u == "%" + inner + "%" && '%' !in inner && |u| >= 2
    requires |t| >= 2 && t[0] == '%' && t[1] != '\n' && u[1] != t[1]
    requires b == [] || b[0] == '\n'
    ensures ReplaceAll(u + b, t, v) == u + ReplaceAll(b, t, v)
  {
    var s := u + b;
    var rest := "%" + b;
    assert s == "%" + (inner + rest);
    assert |s| >= |t| ==> s[..|t|] != t by {
      if |s| >= |t| {
        assert s[..|t|][1] == u[1];
      }
    }
    ReplaceSkipHead(s, t, v);
    assert s[1..] == inner + rest;
    ReplaceLitPrefix(inner, rest, t, v);
    assert |rest| >= |t| ==> rest[..|t|] != t by {
      if |rest| >= |t| {
        assert rest[..|t|][1] == b[0];
      }
    }
    ReplaceSkipHead(rest, t, v);
    assert rest[1..] == b;
    assert u == "%" + inner + "%";
  }

  /** Another placeholder at the front, ending where a new line or the text ends, is kept. */
  lemma ReplaceOtherTag(u: string, b: string, t: string, v: string)
    requires IsTag(u) && IsTag(t) && u != t
    requires b == [] || b[0] == '\n'
    ensures ReplaceAll(u + b, t, v) == u + ReplaceAll(b, t, v)
  {
    TagShape(u);
    TagShape(t);
    assert u[1] != t[1];
    ReplaceOtherTagShape(u, u[1..|u| - 1], b, t, v);
  }

  lemma WellFormedTail(ps: seq<Piece>)
    requires ps != [] && WellFormed(ps)
    ensures WellFormed(ps[1..])
  {
    forall i | 0 <= i < |ps| - 1
      ensures ps[1..][i] == ps[i + 1]
    {
    }
  }

  lemma FlattenCons(p: Piece, ps: seq<Piece>)
    ensures Flatten([p] + ps) == (match p case Lit(x) => x case Tag(t) => t) + Flatten(ps)
  {
    assert ([p] + ps)[1..] == ps;
  }

  /** `ReplaceAll` of one placeholder over a well-formed template replaces exactly its pieces. */
  lemma {:induction false} ReplacePieces(ps: seq<Piece>, t: string, v: string)
    requires WellFormed(ps) && IsTag(t)
    ensures ReplaceAll(Flatten(ps), t, v) == Flatten(Subst(ps, t, v))
    decreases |ps|
  {
    if ps != [] {
      WellFormedTail(ps);
      ReplacePieces(ps[1..], t, v);
      var rest := Flatten(ps[1..]);
      assert Subst(ps, t, v) == [Subst(ps, t, v)[0]] + Subst(ps[1..], t, v);
      FlattenCons(Subst(ps, t, v)[0], Subst(ps[1..], t, v));
      match ps[0]
      case Lit(x) =>
        TagShape(t);
        ReplaceLitPrefix(x, rest, t, v);
      case Tag(u) =>
        if u == t {
          ReplaceTagHead(t, rest, v);
        } else {
          if |ps| > 1 {
            FlattenCons(ps[1], ps[2..]);
            assert ps[1..] == [ps[1]] + ps[2..];
          }
          ReplaceOtherTag(u, rest, t, v);
        }
    }
  }

  /** Replacing a placeholder by text without '%' leaves a well-formed template. */
  lemma SubstWellFormed(ps: seq<Piece>, t: string, v: string)
    requires WellFormed(ps) && '%' !in v
    ensures WellFormed(Subst(ps, t, v))
  {
  }

  /** After the four replacements in order, every piece is rendered. */
  lemma {:induction false} FlattenRendered(qs: seq<Piece>, ps: seq<Piece>, system: string, game: string, core: string, thumbnail: string)
    requires |qs| == |ps|
    requires forall i :: 0 <= i < |ps| ==> qs[i] == Lit(RenderPiece(ps[i], system, game, core, thumbnail))
    ensures Flatten(qs) == Render(ps, system, game, core, thumbnail)
    decreases |ps|
  {
    if ps != [] {
      FlattenRendered(qs[1..], ps[1..], system, game, core, thumbnail);
    }
  }

  /**
   * The four replacements of `getHudConfig`, applied in order to a well-formed template,
   * give the template with each placeholder replaced by its value, provided the first three
   * values carry no '%' themselves.
   */
  lemma RenderTemplate(ps: seq<Piece>, system: string, game: string, core: string, thumbnail: string)
    requires WellFormed(ps)
    requires '%' !in system && '%' !in game && '%' !in core
    ensures ReplaceAll(ReplaceAll(ReplaceAll(ReplaceAll(Flatten(ps), SystemNameTag, system),
              GameNameTag, game), EmulatorCoreTag, core), ThumbnailTag, thumbnail)
            == Render(ps, system, game, core, thumbnail)
  {
    var p1 := Subst(ps, SystemNameTag, system);
    ReplacePieces(ps, SystemNameTag, system);
    SubstWellFormed(ps, SystemNameTag, system);
    var p2 := Subst(p1, GameNameTag, game);
    ReplacePieces(p1, GameNameTag, game);
    SubstWellFormed(p1, GameNameTag, game);
    var p3 := Subst(p2, EmulatorCoreTag, core);
    ReplacePieces(p2, EmulatorCoreTag, core);
    SubstWellFormed(p2, EmulatorCoreTag, core);
    var p4 := Subst(p3, ThumbnailTag, thumbnail);
    ReplacePieces(p3, ThumbnailTag, thumbnail);
    FlattenRendered(p4, ps, system, game, core, thumbnail);
  }

  lemma {:induction false} ReplaceKeepsOut(s: string, pat: string, rep: string, c: char)
    requires pat != [] && c !in s && c !in rep
    ensures c !in ReplaceAll(s, pat, rep)
    decreases |s|
  {
    if |s| >= |pat| {
      if s[..|pat|] == pat {
        ReplaceKeepsOut(s[|pat|..], pat, rep, c);
      } else {
        ReplaceKeepsOut(s[1..], pat, rep, c);
      }
    }
  }

  lemma PrefixClean(bezel: Option<string>)
    requires bezel.Some? ==> '%' !in bezel.value
    ensures '%' !in Prefix(bezel)
  {
  }

  lemma WellFormedCons(x: string, ps: seq<Piece>)
    requires '%' !in x && WellFormed(ps)
    ensures WellFormed([Lit(x)] + ps)
  {
    var qs := [Lit(x)] + ps;
    forall i | 1 <= i < |qs|
      ensures qs[i] == ps[i - 1]
    {
    }
  }

  lemma RenderCons(x: string, ps: seq<Piece>, system: string, game: string, core: string, thumbnail: string)
    ensures Render([Lit(x)] + ps, system, game, core, thumbnail) == x + Render(ps, system, game, core, thumbnail)
  {
    assert ([Lit(x)] + ps)[1..] == ps;
  }

  /** A template after the optional background image lines. */
  lemma RenderWithPrefix(bezel: Option<string>, ps: seq<Piece>, system: string, game: string, core: string, thumbnail: string)
    requires bezel.Some? ==> '%' !in bezel.value
    requires WellFormed(ps)
    requires '%' !in system && '%' !in game && '%' !in core
    ensures ReplaceAll(ReplaceAll(ReplaceAll(ReplaceAll(Prefix(bezel) + Flatten(ps), SystemNameTag, system),
              GameNameTag, game), EmulatorCoreTag, core), ThumbnailTag, thumbnail)
            == Prefix(bezel) + Render(ps, system, game, core, thumbnail)
  {
    PrefixClean(bezel);
    WellFormedCons(Prefix(bezel), ps);
    FlattenCons(Lit(Prefix(bezel)), ps);
    RenderCons(Prefix(bezel), ps, system, game, core, thumbnail);
    RenderTemplate([Lit(Prefix(bezel))] + ps, system, game, core, thumbnail);
  }

  lemma PerfHeadClean()
    ensures '%' !in PerfHead
  {
    var a := "position=bottom-left\n" + "background_alpha=0.9\n";
    var b := "legacy_layout=false\n" + "custom_text=";
    assert '%' !in a && '%' !in b;
    assert PerfHead == a + b;
  }

  lemma PerfTextsClean()
    ensures '%' !in PerfHead && '%' !in PerfTail && PerfTail[0] == '\n'
  {
    PerfHeadClean();
    var a := "\nfps\n" + "gpu_name\n" + "engine_version\n";
    var b := "vulkan_driver\n" + "resolution\n" + "ram\n";
    var c := "gpu_stats\n" + "gpu_temp\n" + "cpu_stats\n";
    var d := "cpu_temp\n" + "core_load";
    assert '%' !in a && '%' !in b && '%' !in c && '%' !in d;
    assert PerfTail == a + b + c + d;
  }

  lemma GameTextsClean()
    ensures '%' !in GameHead && '%' !in NextText && NextText[0] == '\n'
  {
    var a := "position=bottom-left\n" + "background_alpha=0\n";
    var b := "legacy_layout=false\n" + "font_size=32\n" + "image_max_width=200\n" + "image=";
    assert '%' !in a && '%' !in b;
    assert GameHead == a + b;
  }

  lemma PerfPiecesWellFormed()
    ensures WellFormed(PerfPieces)
  {
    PerfTextsClean();
    GameTextsClean();
  }

  lemma PerfPiecesFlatten()
    ensures Flatten(PerfPieces) == PerfTemplate
  {
    var ps := PerfPieces;
    assert ps[6..][1..] == [];
    assert ps[5..][1..] == ps[6..];
    assert ps[4..][1..] == ps[5..];
    assert ps[3..][1..] == ps[4..];
    assert ps[2..][1..] == ps[3..];
    assert ps[1..][1..] == ps[2..];
    assert Flatten(ps[6..]) == PerfTail;
    assert Flatten(ps[5..]) == EmulatorCoreTag + PerfTail;
    assert Flatten(ps[4..]) == NextText + (EmulatorCoreTag + PerfTail);
    assert Flatten(ps[3..]) == SystemNameTag + (NextText + (EmulatorCoreTag + PerfTail));
    assert Flatten(ps[2..]) == NextText + (SystemNameTag + (NextText + (EmulatorCoreTag + PerfTail)));
    assert Flatten(ps[1..]) == GameNameTag + (NextText + (SystemNameTag + (NextText + (EmulatorCoreTag + PerfTail))));
  }

  /** Each placeholder stands for its own value: the four tags are distinct. */
  lemma TagValues(system: string, game: string, core: string, thumbnail: string)
    ensures TagValue(SystemNameTag, system, game, core, thumbnail) == system
    ensures TagValue(GameNameTag, system, game, core, thumbnail) == game
    ensures TagValue(EmulatorCoreTag, system, game, core, thumbnail) == core
    ensures TagValue(ThumbnailTag, system, game, core, thumbnail) == thumbnail
  {
    assert GameNameTag[1] == 'G' && SystemNameTag[1] == 'S' && EmulatorCoreTag[1] == 'E' && ThumbnailTag[1] == 'T';
  }

  /** Rendering a literal followed by a placeholder. */
  lemma RenderLitTag(x: string, t: string, rest: seq<Piece>, system: string, game: string, core: string, thumbnail: string)
    ensures Render([Lit(x), Tag(t)] + rest, system, game, core, thumbnail) ==
      x + TagValue(t, system, game, core, thumbnail) + Render(rest, system, game, core, thumbnail)
  {
    var ps := [Lit(x), Tag(t)] + rest;
    assert ps[1..][1..] == rest;
  }

  /** The "perf" layout's shape, for any texts around its placeholders. */
  lemma RenderPerfShape(head: string, next: string, tail: string, system: string, game: string, core: string,
                        thumbnail: string)
    ensures Render([Lit(head), Tag(GameNameTag), Lit(next), Tag(SystemNameTag), Lit(next), Tag(EmulatorCoreTag),
                    Lit(tail)], system, game, core, thumbnail) ==
      head + game + next + system + next + core + tail
  {
    TagValues(system, game, core, thumbnail);
    var last := [Lit(tail)];
    assert Render(last, system, game, core, thumbnail) == tail by {
      assert last[1..] == [];
    }
    var third := [Lit(next), Tag(EmulatorCoreTag)] + last;
    var second := [Lit(next), Tag(SystemNameTag)] + third;
    assert [Lit(head), Tag(GameNameTag), Lit(next), Tag(SystemNameTag), Lit(next), Tag(EmulatorCoreTag), Lit(tail)] ==
      [Lit(head), Tag(GameNameTag)] + second;
    RenderLitTag(next, EmulatorCoreTag, last, system, game, core, thumbnail);
    RenderLitTag(next, SystemNameTag, third, system, game, core, thumbnail);
    RenderLitTag(head, GameNameTag, second, system, game, core, thumbnail);
  }

  lemma PerfPiecesRender(system: string, game: string, core: string, thumbnail: string)
    ensures Render(PerfPieces, system, game, core, thumbnail) ==
      PerfHead + game + NextText + system + NextText + core + PerfTail
  {
    RenderPerfShape(PerfHead, NextText, PerfTail, system, game, core, thumbnail);
  }

  lemma PerfPiecesShape(system: string, game: string, core: string, thumbnail: string)
    ensures WellFormed(PerfPieces) && Flatten(PerfPieces) == PerfTemplate
    ensures Render(PerfPieces, system, game, core, thumbnail) ==
      PerfHead + game + NextText + system + NextText + core + PerfTail
  {
    PerfPiecesWellFormed();
    PerfPiecesFlatten();
    PerfPiecesRender(system, game, core, thumbnail);
  }

  lemma GamePiecesWellFormed()
    ensures WellFormed(GamePieces)
  {
    GameTextsClean();
  }

  lemma GamePiecesFlatten()
    ensures Flatten(GamePieces) == GameTemplate
  {
    var ps := GamePieces;
    assert ps[7..][1..] == [];
    assert ps[6..][1..] == ps[7..];
    assert ps[5..][1..] == ps[6..];
    assert ps[4..][1..] == ps[5..];
    assert ps[3..][1..] == ps[4..];
    assert ps[2..][1..] == ps[3..];
    assert ps[1..][1..] == ps[2..];
    assert Flatten(ps[7..]) == EmulatorCoreTag;
    assert Flatten(ps[6..]) == NextText + EmulatorCoreTag;
    assert Flatten(ps[5..]) == SystemNameTag + (NextText + EmulatorCoreTag);
    assert Flatten(ps[4..]) == NextText + (SystemNameTag + (NextText + EmulatorCoreTag));
    assert Flatten(ps[3..]) == GameNameTag + (NextText + (SystemNameTag + (NextText + EmulatorCoreTag)));
    assert Flatten(ps[2..]) == NextText + (GameNameTag + (NextText + (SystemNameTag + (NextText + EmulatorCoreTag))));
    assert Flatten(ps[1..]) == ThumbnailTag + (NextText + (GameNameTag + (NextText + (SystemNameTag + (NextText + EmulatorCoreTag)))));
  }

  /** The "game" layout's shape, for any texts around its placeholders. */
  lemma RenderGameShape(head: string, next: string, system: string, game: string, core: string, thumbnail: string)
    ensures Render([Lit(head), Tag(ThumbnailTag), Lit(next), Tag(GameNameTag), Lit(next), Tag(SystemNameTag),
                    Lit(next), Tag(EmulatorCoreTag)], system, game, core, thumbnail) ==
      head + thumbnail + next + game + next + system + next + core
  {
    TagValues(system, game, core, thumbnail);
    assert head + thumbnail + next + game + next + system + next + core ==
      head + (thumbnail + (next + (game + (next + (system + (next + core))))));
    RenderFourTags(head, ThumbnailTag, next, GameNameTag, next, SystemNameTag, next, EmulatorCoreTag,
      system, game, core, thumbnail);
  }

  /** Four texts, each followed by a placeholder. */
  lemma RenderFourTags(x1: string, t1: string, x2: string, t2: string, x3: string, t3: string, x4: string, t4: string,
                       system: string, game: string, core: string, thumbnail: string)
    ensures Render([Lit(x1), Tag(t1), Lit(x2), Tag(t2), Lit(x3), Tag(t3), Lit(x4), Tag(t4)], system, game, core, thumbnail) ==
      x1 + (TagValue(t1, system, game, core, thumbnail) + (x2 + (TagValue(t2, system, game, core, thumbnail) +
      (x3 + (TagValue(t3, system, game, core, thumbnail) + (x4 + TagValue(t4, system, game, core, thumbnail)))))))
  {
    var r1, r2, r3, r4, r5, r6, r7, r8 := [Lit(x1), Tag(t1), Lit(x2), Tag(t2), Lit(x3), Tag(t3), Lit(x4), Tag(t4)],
      [Tag(t1), Lit(x2), Tag(t2), Lit(x3), Tag(t3), Lit(x4), Tag(t4)], [Lit(x2), Tag(t2), Lit(x3), Tag(t3), Lit(x4), Tag(t4)],
      [Tag(t2), Lit(x3), Tag(t3), Lit(x4), Tag(t4)], [Lit(x3), Tag(t3), Lit(x4), Tag(t4)], [Tag(t3), Lit(x4), Tag(t4)],
      [Lit(x4), Tag(t4)], [Tag(t4)];
    assert r8[1..] == [];
    assert r7[1..] == r8 && r6[1..] == r7 && r5[1..] == r6 && r4[1..] == r5;
    assert r3[1..] == r4 && r2[1..] == r3 && r1[1..] == r2;
    var v1, v2 := TagValue(t1, system, game, core, thumbnail), TagValue(t2, system, game, core, thumbnail);
    var v3, v4 := TagValue(t3, system, game, core, thumbnail), TagValue(t4, system, game, core, thumbnail);
    assert v4 + "" == v4;
    assert Render(r8, system, game, core, thumbnail) == v4;
    assert Render(r7, system, game, core, thumbnail) == x4 + v4;
    assert Render(r6, system, game, core, thumbnail) == v3 + (x4 + v4);
    assert Render(r5, system, game, core, thumbnail) == x3 + (v3 + (x4 + v4));
    assert Render(r4, system, game, core, thumbnail) == v2 + (x3 + (v3 + (x4 + v4)));
    assert Render(r3, system, game, core, thumbnail) == x2 + (v2 + (x3 + (v3 + (x4 + v4))));
    assert Render(r2, system, game, core, thumbnail) == v1 + (x2 + (v2 + (x3 + (v3 + (x4 + v4)))));
  }

  lemma GamePiecesRender(system: string, game: string, core: string, thumbnail: string)
    ensures Render(GamePieces, system, game, core, thumbnail) ==
      GameHead + thumbnail + NextText + game + NextText + system + NextText + core
  {
    RenderGameShape(GameHead, NextText, system, game, core, thumbnail);
  }

  lemma GamePiecesShape(system: string, game: string, core: string, thumbnail: string)
    ensures WellFormed(GamePieces) && Flatten(GamePieces) == GameTemplate
    ensures Render(GamePieces, system, game, core, thumbnail) ==
      GameHead + thumbnail + NextText + game + NextText + system + NextText + core
  {
    GamePiecesWellFormed();
    GamePiecesFlatten();
    GamePiecesRender(system, game, core, thumbnail);
  }

  /** Text without '%' goes through the four replacements unchanged. */
  lemma NoTagsUnchanged(x: string, system: string, game: string, core: string, thumbnail: string)
    ensures '%' !in x ==>
      ReplaceAll(ReplaceAll(ReplaceAll(ReplaceAll(x, SystemNameTag, system),
        GameNameTag, game), EmulatorCoreTag, core), ThumbnailTag, thumbnail) == x
  {
    if '%' !in x {
      assert x + [] == x;
      ReplaceLitPrefix(x, [], SystemNameTag, system);
      ReplaceLitPrefix(x, [], GameNameTag, game);
      ReplaceLitPrefix(x, [], EmulatorCoreTag, core);
      ReplaceLitPrefix(x, [], ThumbnailTag, thumbnail);
    }
  }

  // ---------------------------------------------------------------------------------
  // What `getHudConfig` writes

  /**
   * The "perf" layout: the game name, the system name and the emulator label, one per
   * line, then the performance counters, all after the optional background image lines.
   */
  lemma PerfModeText(hudCustom: Option<string>, systemName: Option<string>, emulator: string, core: Option<string>,
                     gameinfos: map<string, Option<string>>, bezel: Option<string>)
    requires bezel.Some? ==> '%' !in bezel.value
    requires '%' !in ProtectStr(systemName) && '%' !in GameValue(gameinfos, "name")
    requires '%' !in EmulatorLabel(emulator, core)
    ensures HudConfigText(Some("perf"), hudCustom, systemName, emulator, core, gameinfos, bezel) ==
      Prefix(bezel) + (PerfHead + GameValue(gameinfos, "name") + NextText + ProtectStr(systemName) + NextText +
      EmulatorLabel(emulator, core) + PerfTail)
  {
    var system, game, lbl := ProtectStr(systemName), GameValue(gameinfos, "name"), EmulatorLabel(emulator, core);
    var thumbnail := GameValue(gameinfos, "thumbnail");
    PerfPiecesShape(system, game, lbl, thumbnail);
    RenderWithPrefix(bezel, PerfPieces, system, game, lbl, thumbnail);
  }

  /**
   * The "game" layout: the thumbnail image, then the game name, the system name and the
   * emulator label, one per line.
   */
  lemma GameModeText(hudCustom: Option<string>, systemName: Option<string>, emulator: string, core: Option<string>,
                     gameinfos: map<string, Option<string>>, bezel: Option<string>)
    requires bezel.Some? ==> '%' !in bezel.value
    requires '%' !in ProtectStr(systemName) && '%' !in GameValue(gameinfos, "name")
    requires '%' !in EmulatorLabel(emulator, core)
    ensures HudConfigText(Some("game"), hudCustom, systemName, emulator, core, gameinfos, bezel) ==
      Prefix(bezel) + (GameHead + GameValue(gameinfos, "thumbnail") + NextText + GameValue(gameinfos, "name") +
      NextText + ProtectStr(systemName) + NextText + EmulatorLabel(emulator, core))
  {
    var system, game, lbl := ProtectStr(systemName), GameValue(gameinfos, "name"), EmulatorLabel(emulator, core);
    var thumbnail := GameValue(gameinfos, "thumbnail");
    GamePiecesShape(system, game, lbl, thumbnail);
    RenderWithPrefix(bezel, GamePieces, system, game, lbl, thumbnail);
  }

  /**
   * Missing values are written as empty text: with no system name and no game
   * information the "game" layout shows empty lines and only the emulator label.
   */
  lemma GameModeWithoutInfos(hudCustom: Option<string>, emulator: string, core: Option<string>)
    requires '%' !in EmulatorLabel(emulator, core)
    ensures HudConfigText(Some("game"), hudCustom, None, emulator, core, GameInfos(None), None) ==
      GameHead + NextText + NextText + NextText + EmulatorLabel(emulator, core)
  {
    GameModeText(hudCustom, None, emulator, core, map[], None);
    assert GameHead + [] == GameHead;
    assert GameHead + NextText + [] == GameHead + NextText;
    assert GameHead + NextText + NextText + [] == GameHead + NextText + NextText;
  }

  /**
   * The "custom" layout is the user's text with each `\n` escape turned into a line break,
   * then with its placeholders filled in: when the unescaped text is a template (its '%'
   * signs are the four placeholders, each ending its line), every placeholder in it is
   * replaced by its value.
   */
  lemma CustomTemplateText(custom: string, ps: seq<Piece>, systemName: Option<string>, emulator: string,
                           core: Option<string>, gameinfos: map<string, Option<string>>, bezel: Option<string>)
    requires custom != "" && WellFormed(ps) && ReplaceAll(custom, "\\n", "\n") == Flatten(ps)
    requires bezel.Some? ==> '%' !in bezel.value
    requires '%' !in ProtectStr(systemName) && '%' !in GameValue(gameinfos, "name")
    requires '%' !in EmulatorLabel(emulator, core)
    ensures HudConfigText(Some("custom"), Some(custom), systemName, emulator, core, gameinfos, bezel) ==
      Prefix(bezel) + Render(ps, ProtectStr(systemName), GameValue(gameinfos, "name"),
        EmulatorLabel(emulator, core), GameValue(gameinfos, "thumbnail"))
  {
    RenderWithPrefix(bezel, ps, ProtectStr(systemName), GameValue(gameinfos, "name"),
      EmulatorLabel(emulator, core), GameValue(gameinfos, "thumbnail"));
  }

  /** A custom text without placeholders is written as it is, once unescaped. */
  lemma CustomModeText(custom: string, systemName: Option<string>, emulator: string, core: Option<string>,
                       gameinfos: map<string, Option<string>>, bezel: Option<string>)
    requires custom != "" && '%' !in custom
    requires bezel.Some? ==> '%' !in bezel.value
    ensures HudConfigText(Some("custom"), Some(custom), systemName, emulator, core, gameinfos, bezel) ==
      Prefix(bezel) + ReplaceAll(custom, "\\n", "\n")
  {
    PrefixClean(bezel);
    ReplaceKeepsOut(custom, "\\n", "\n", '%');
    NoTagsUnchanged(Prefix(bezel) + ReplaceAll(custom, "\\n", "\n"), ProtectStr(systemName),
      GameValue(gameinfos, "name"), EmulatorLabel(emulator, core), GameValue(gameinfos, "thumbnail"));
  }

  /** An escaped `\n` becomes a line break; text before it without a backslash is kept. */
  lemma EscapedNewline(a: string, b: string)
    requires '\\' !in a
    ensures ReplaceAll(a + "\\n" + b, "\\n", "\n") == a + "\n" + ReplaceAll(b, "\\n", "\n")
  {
    assert a + "\\n" + b == a + ("\\n" + b);
    ReplaceLitPrefix(a, "\\n" + b, "\\n", "\n");
    ReplaceTagHead("\\n", b, "\n");
  }

  /**
   * Without a `hud` setting, and for any mode other than "perf", "game" or "custom" with a
   * non-empty text, only the background is hidden.
   */
  lemma HiddenBackground(hud: Option<string>, hudCustom: Option<string>, systemName: Option<string>, emulator: string,
                         core: Option<string>, gameinfos: map<string, Option<string>>, bezel: Option<string>)
    requires bezel.Some? ==> '%' !in bezel.value
    requires hud.Some? ==> hud.value != "perf" && hud.value != "game"
    requires hud.Some? && hud.value == "custom" ==> hudCustom.None? || hudCustom.value == ""
    ensures HudConfigText(hud, hudCustom, systemName, emulator, core, gameinfos, bezel) ==
      Prefix(bezel) + "background_alpha=0\n"
  {
    if hud.Some? {
      PrefixClean(bezel);
      assert '%' !in HideBackground;
      NoTagsUnchanged(Prefix(bezel) + HideBackground, ProtectStr(systemName),
        GameValue(gameinfos, "name"), EmulatorLabel(emulator, core), GameValue(gameinfos, "thumbnail"));
    }
  }

  /**
   * A bezel image only adds its two lines in front: the rest of the text is the same as
   * without one, whatever the mode. An empty bezel adds nothing.
   */
  lemma BezelPrefix(hud: Option<string>, hudCustom: Option<string>, systemName: Option<string>, emulator: string,
                    core: Option<string>, gameinfos: map<string, Option<string>>, b: string)
    requires '%' !in b
    ensures HudConfigText(hud, hudCustom, systemName, emulator, core, gameinfos, Some(b)) ==
      (if b == "" then "" else "background_image=" + b + "\nlegacy_layout=false\n") +
      HudConfigText(hud, hudCustom, systemName, emulator, core, gameinfos, None)
  {
    var p := Prefix(Some(b));
    PrefixClean(Some(b));
    if hud.Some? {
      var body := Body(hud.value, hudCustom);
      assert Prefix(None) + body == body;
      var system, game := ProtectStr(systemName), GameValue(gameinfos, "name");
      var lbl, thumbnail := EmulatorLabel(emulator, core), GameValue(gameinfos, "thumbnail");
      ReplaceLitPrefix(p, body, SystemNameTag, system);
      var r1 := ReplaceAll(body, SystemNameTag, system);
      ReplaceLitPrefix(p, r1, GameNameTag, game);
      var r2 := ReplaceAll(r1, GameNameTag, game);
      ReplaceLitPrefix(p, r2, EmulatorCoreTag, lbl);
      var r3 := ReplaceAll(r2, EmulatorCoreTag, lbl);
      ReplaceLitPrefix(p, r3, ThumbnailTag, thumbnail);
    }
  }

  /**
   * The replacements run one after the other over the text so far: a system name that is
   * itself the game-name placeholder gets replaced by the game name.
   */
  lemma SubstitutionOrder()
    ensures HudConfigText(Some("custom"), Some(SystemNameTag), Some(GameNameTag), "yuzu", None,
                          map["name" := Some("Zelda")], None) == "Zelda"
  {
    var infos: map<string, Option<string>> := map["name" := Some("Zelda")];
    assert SystemNameTag + [] == SystemNameTag && GameNameTag + [] == GameNameTag;
    ReplaceLitPrefix(SystemNameTag, [], "\\n", "\n");
    assert Body("custom", Some(SystemNameTag)) == SystemNameTag;
    assert Prefix(None) + SystemNameTag == SystemNameTag;
    ReplaceTagHead(SystemNameTag, [], GameNameTag);
    assert ReplaceAll(SystemNameTag, SystemNameTag, ProtectStr(Some(GameNameTag))) == GameNameTag;
    ReplaceTagHead(GameNameTag, [], "Zelda");
    assert ReplaceAll(GameNameTag, GameNameTag, GameValue(infos, "name")) == "Zelda";
    ReplaceLitPrefix("Zelda", [], EmulatorCoreTag, "yuzu");
    ReplaceLitPrefix("Zelda", [], ThumbnailTag, "");
    assert "Zelda" + [] == "Zelda";
  }

  /** A replaced value is not scanned again for earlier placeholders: a game name that is the
   * system-name placeholder is written as it is. */
  lemma NoSecondPass()
    ensures HudConfigText(Some("custom"), Some(GameNameTag), None, "yuzu", None,
                          map["name" := Some(SystemNameTag)], None) == SystemNameTag
  {
    var infos: map<string, Option<string>> := map["name" := Some(SystemNameTag)];
    assert SystemNameTag + [] == SystemNameTag && GameNameTag + [] == GameNameTag;
    ReplaceLitPrefix(GameNameTag, [], "\\n", "\n");
    assert Body("custom", Some(GameNameTag)) == GameNameTag;
    assert Prefix(None) + GameNameTag == GameNameTag;
    ReplaceOtherTag(GameNameTag, [], SystemNameTag, "");
    assert ReplaceAll(GameNameTag, SystemNameTag, ProtectStr(None)) == GameNameTag;
    ReplaceTagHead(GameNameTag, [], SystemNameTag);
    assert ReplaceAll(GameNameTag, GameNameTag, GameValue(infos, "name")) == SystemNameTag;
    ReplaceOtherTag(SystemNameTag, [], EmulatorCoreTag, "yuzu");
    ReplaceOtherTag(SystemNameTag, [], ThumbnailTag, "");
  }

  // ---------------------------------------------------------------------------------
  // The emulator label and the game information

  /**
   * The label names a core exactly when one is given that differs from the emulator,
   * and always starts with the emulator.
   */
  lemma EmulatorLabelShape(emulator: string, core: Option<string>)
    requires '/' !in emulator
    ensures var lbl := EmulatorLabel(emulator, core);
      |lbl| >= |emulator| && lbl[..|emulator|] == emulator &&
      (('/' in lbl) <==> core.Some? && core.value != emulator) &&
      (core.Some? && core.value != emulator ==> lbl == emulator + "/" + core.value)
  {
    var lbl := EmulatorLabel(emulator, core);
    if core.Some? && core.value != emulator {
      assert lbl[|emulator|] == '/';
    }
  }

  /**
   * Without a core the launcher passes the empty string as the core, so the label ends in
   * a bare "/"; passing no core gives the emulator alone.
   */
  lemma EmptyCoreLabel(emulator: string)
    requires emulator != ""
    ensures EmulatorLabel(emulator, HudCoreAsWritten("")) == emulator + "/"
    ensures EmulatorLabel(emulator, HudCore("")) == emulator
  {
    assert emulator + "/" + "" == emulator + "/";
  }

  /** With the intended core argument the label names the core only when there is one. */
  lemma HudCoreLabel(emulator: string, effectiveCore: string)
    requires '/' !in emulator
    ensures var lbl := EmulatorLabel(emulator, HudCore(effectiveCore));
      ('/' in lbl <==> effectiveCore != "" && effectiveCore != emulator) &&
      (effectiveCore == "" ==> lbl == emulator)
  {
    EmulatorLabelShape(emulator, HudCore(effectiveCore));
  }

  /**
   * The game information as written is always empty, so the game name shown is empty even
   * when the document names the game; read as intended it shows the element's text.
   */
  lemma GameNameShown(d: GameDoc)
    ensures GameValue(GameInfosAsWritten(Some(d)), "name") == ""
    ensures GameValue(GameInfos(Some(d)), "name") == (if d.name.Some? then ProtectStr(d.name.value) else "")
    ensures GameValue(GameInfos(Some(d)), "thumbnail") == (if d.thumbnail.Some? then ProtectStr(d.thumbnail.value) else "")
  {
  }

  /** A named game shows no name as written. */
  lemma GameNameLost()
    ensures var d := Some(GameDoc(Some(Some("Zelda")), None));
      GameValue(GameInfosAsWritten(d), "name") == "" && GameValue(GameInfos(d), "name") == "Zelda"
  {
  }
}
