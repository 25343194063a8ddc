/**
 * `getHudBezel`: decide whether the configured decoration image ("bezel") can frame the
 * game picture, through a short-circuiting chain of gates on sizes and ratios, and pick
 * the image file to show (the original, a resized copy, or a tattooed copy).
 * Arithmetic is over `real`; a zero divisor is the `ZeroDivisionError` Python raises.
 */
module Bezel {
  import opened Wrappers
  import opened Host

  /** Largest share of the picture a bezel border may cover. */
  const MaxCover: real := 0.05
  /** Largest difference between the screen ratio and the bezel ratio. */
  const MaxRatioDelta: real := 0.01
  const ResizedPng: string := "/tmp/bezel.png"
  const TattooedPng: string := "/tmp/bezel_tattooed.png"

  /** What `bezelsUtil.getBezelInfos` finds: the info file and the image of a bezel. */
  datatype BezelFiles = BezelFiles(info: string, png: string)

  datatype Size = Size(width: real, height: real)

  /** Everything `getHudBezel` reads: settings, backend answers and image-tool answers. */
  datatype BezelQuery = BezelQuery(
    bezel: Option<string>,                // system.config['bezel'], when set
    tattoo: Option<string>,               // system.config['bezel.tattoo'], when set
    internalBezels: bool,                 // backend.supportsInternalBezels()
    files: Option<BezelFiles>,            // bezelsUtil.getBezelInfos(rom, bezel, system.name)
    infoFile: Option<map<string, real>>,  // the JSON object of the info file, when it exists and parses
    pngSize: Size,                        // bezelsUtil.fast_image_size(png)
    game: Resolution,                     // the game resolution
    ingameRatio: real,                    // backend.getInGameRatio(...)
    resizeFails: bool,                    // bezelsUtil.resizeImage raises
    tattooFails: bool)                    // bezelsUtil.tatooImage raises

  /** The outcome of `getHudBezel`: the image to show (or none, or an exception) and the image work done. */
  datatype BezelRun = BezelRun(result: Result<Option<string>, Failure>, events: seq<Event>)

  function Abs(x: real): real {
    if x < 0.0 then -x else x
  }

  /** Lines 262-268: the bezel size comes from the info when it gives both dimensions, else from the image. */
  function BezelSize(q: BezelQuery, infos: map<string, real>): Size {
    if "width" in infos && "height" in infos then Size(infos["width"], infos["height"]) else q.pngSize
  }

  /** The side inset assumed when the info gives none: a 4:3 picture centred in the bezel. */
  function DefaultInset(s: Size): real {
    (s.width - (s.height / 3.0 * 4.0)) / 2.0
  }

  /** How far a side inset is from the inset the game picture leaves, relative to the picture width. */
  function SideOffset(inset: real, s: Size, imgWidth: real): real
    requires imgWidth != 0.0
  {
    Abs((inset - ((s.width - imgWidth) / 2.0)) / imgWidth)
  }

  /** Lines 277-280: the screen ratio and the bezel ratio differ by more than 0.01. */
  predicate RatioTooFar(gw: real, gh: real, bw: real, bh: real)
    requires gh != 0.0 && bh != 0.0
  {
    Abs(gw / gh - bw / bh) > MaxRatioDelta
  }

  /** Lines 284-289: the info gives a top (or bottom) border covering more than 5% of the height. */
  predicate CoversTooMuch(infos: map<string, real>, side: string, height: real)
    requires height != 0.0
  {
    side in infos && infos[side] / height > MaxCover
  }

  /** Lines 298-319: a side inset is off by more than 5% of the picture width. */
  predicate SideTooFar(inset: real, s: Size, imgWidth: real)
    requires imgWidth != 0.0
  {
    SideOffset(inset, s, imgWidth) > MaxCover
  }

  /** Line 296: the width of the game picture scaled to the bezel height. */
  function ImageWidth(height: real, ingameRatio: real): real {
    height * ingameRatio
  }

  /** Lines 298-319, in source order: the side gates for a picture `imgWidth` wide. */
  function SidesFit(infos: map<string, real>, s: Size, imgWidth: real): Result<bool, Failure> {
    if imgWidth == 0.0 then Err(DivisionByZero)
    else Ok(!(("left" !in infos && SideTooFar(DefaultInset(s), s, imgWidth)) ||
              ("right" !in infos && SideTooFar(DefaultInset(s), s, imgWidth)) ||
              ("left" in infos && SideTooFar(infos["left"], s, imgWidth)) ||
              ("right" in infos && SideTooFar(infos["right"], s, imgWidth))))
  }

  /**
   * Lines 274-319, in source order: `Ok(true)` when every gate lets a bezel of size `s`
   * through for a `gw` x `gh` game picture whose in-game ratio is `ingameRatio`.
   */
  function Fits(infos: map<string, real>, s: Size, gw: real, gh: real, ingameRatio: real): (r: Result<bool, Failure>)
    ensures r.Err? ==> r.error == DivisionByZero
    ensures r == Ok(true) <==>
      gh != 0.0 && s.height != 0.0 && ImageWidth(s.height, ingameRatio) != 0.0 &&
      !RatioTooFar(gw, gh, s.width, s.height) &&
      !CoversTooMuch(infos, "top", s.height) && !CoversTooMuch(infos, "bottom", s.height) &&
      !SideTooFar(Inset(infos, "left", s), s, ImageWidth(s.height, ingameRatio)) &&
      !SideTooFar(Inset(infos, "right", s), s, ImageWidth(s.height, ingameRatio))
  {
    if gh == 0.0 || s.height == 0.0 then Err(DivisionByZero)
    else if RatioTooFar(gw, gh, s.width, s.height) then Ok(false)
    else if CoversTooMuch(infos, "top", s.height) then Ok(false)
    else if CoversTooMuch(infos, "bottom", s.height) then Ok(false)
    else SidesFit(infos, s, ImageWidth(s.height, ingameRatio))
  }

  /** A pixel count as a number the ratio arithmetic works on. */
  function Pixels(n: int): real {
    n as real
  }

  /** The gates for a query. */
  function QueryFits(q: BezelQuery, infos: map<string, real>): Result<bool, Failure> {
    Fits(infos, BezelSize(q, infos), Pixels(q.game.width), Pixels(q.game.height), q.ingameRatio)
  }

  predicate Enabled(q: BezelQuery) {
    q.bezel.Some? && q.bezel.value != "" && q.bezel.value != "none"
  }

  predicate TattooWanted(q: BezelQuery) {
    q.tattoo.Some? && q.tattoo.value != "0"
  }

  /** Line 322: the bezel is exactly the size of the game picture. */
  predicate SameSize(s: Size, game: Resolution) {
    s.width == Pixels(game.width) && s.height == Pixels(game.height)
  }

  /** Lines 321-338: resize when the sizes differ, then tattoo when asked. */
  function ChooseImage(q: BezelQuery, s: Size, png: string): (r: BezelRun)
    ensures |r.events| <= 2 && forall e :: e in r.events ==> e.ImageWork?
    ensures r.result.Err? ==> r.result.error == TattooFailed && TattooWanted(q) && q.tattooFails
    ensures r.result == Ok(None) <==> !SameSize(s, q.game) && q.resizeFails
    ensures r.result.Ok? && r.result.value.Some? ==>
      r.result.value.value == (if TattooWanted(q) then TattooedPng else if SameSize(s, q.game) then png else ResizedPng)
  {
    var resize := !SameSize(s, q.game);
    var resized := ImageWork(Resize(png, ResizedPng, q.game.width, q.game.height), !q.resizeFails);
    if resize && q.resizeFails then BezelRun(Ok(None), [resized])
    else
      var current := if resize then ResizedPng else png;
      var before := if resize then [resized] else [];
      if TattooWanted(q) then
        var tattooed := ImageWork(Tattoo(current, TattooedPng), !q.tattooFails);
        if q.tattooFails then BezelRun(Err(TattooFailed), before + [tattooed])
        else BezelRun(Ok(Some(TattooedPng)), before + [tattooed])
      else BezelRun(Ok(Some(current)), before)
  }

  /**
   * `getHudBezel` given the bezel info `infos` it works with: no bezel and no image work
   * when it is off, drawn by the backend, without files or rejected by a gate; a bezel
   * shown has passed every gate; only the image tools are called, at most twice.
   */
  function HudBezelWith(q: BezelQuery, infos: map<string, real>): (r: BezelRun)
    ensures |r.events| <= 2 && forall e :: e in r.events ==> e.ImageWork?
    ensures !Enabled(q) || q.internalBezels || q.files.None? ==> r == BezelRun(Ok(None), [])
    ensures QueryFits(q, infos) == Ok(false) ==> r == BezelRun(Ok(None), [])
    ensures r.result.Ok? && r.result.value.Some? ==> QueryFits(q, infos) == Ok(true)
  {
    if !Enabled(q) || q.internalBezels || q.files.None? then BezelRun(Ok(None), [])
    else
      match QueryFits(q, infos)
      case Err(e) => BezelRun(Err(e), [])
      case Ok(fits) =>
        if fits then ChooseImage(q, BezelSize(q, infos), q.files.value.png) else BezelRun(Ok(None), [])
  }

  /** The info as the code stands: `json` is never imported, so reading always fails into `{}`. */
  function InfosAsWritten(q: BezelQuery): map<string, real>
  {
    map[]
  }

  /** The info as intended: the info file's object when it exists and parses, else `{}`. */
  function Infos(q: BezelQuery): (infos: map<string, real>)
    ensures q.infoFile.Some? ==> infos == q.infoFile.value
    ensures q.infoFile.None? ==> infos == map[]
  {
    q.infoFile.GetOr(map[])
  }

  /** `getHudBezel` as written: a bezel shown has passed the gates without any info. */
  function HudBezelAsWritten(q: BezelQuery): (r: BezelRun)
    ensures r.result.Ok? && r.result.value.Some? ==> QueryFits(q, map[]) == Ok(true)
  {
    HudBezelWith(q, InfosAsWritten(q))
  }

  /** `getHudBezel` with the info file read: a bezel shown has passed the gates on its info file. */
  function HudBezel(q: BezelQuery): (r: BezelRun)
    ensures r.result.Ok? && r.result.value.Some? ==>
      QueryFits(q, if q.infoFile.Some? then q.infoFile.value else map[]) == Ok(true)
  {
    HudBezelWith(q, Infos(q))
  }

  // ---------------------------------------------------------------------------------
  // Arithmetic over positive divisors

  lemma DivGreater(x: real, d: real, c: real)
    requires d > 0.0
    ensures x / d > c <==> x > c * d
  {
    assert x == (x / d) * d;
    if x / d > c {
      assert (x / d) * d > c * d;
    }
    if x > c * d {
      assert (x / d) * d > c * d;
    }
  }

  lemma AbsDiv(x: real, d: real)
    requires d > 0.0
    ensures Abs(x / d) == Abs(x) / d
  {
    if x < 0.0 {
      assert x / d < 0.0;
      assert -(x / d) == (-x) / d;
    } else {
      assert x / d >= 0.0;
    }
  }

  lemma DiffOfRatios(a: real, b: real, c: real, d: real)
    requires b > 0.0 && d > 0.0
    ensures a / b - c / d == (a * d - c * b) / (b * d)
  {
    assert b * d > 0.0;
    assert (a / b) * (b * d) == a * d;
    assert (c / d) * (b * d) == c * b;
  }

  lemma HalveDivisor(y: real, d: real)
    requires d > 0.0
    ensures (y / 2.0) / d == y / (2.0 * d)
  {
    var r, q := (y / 2.0) / d, y / (2.0 * d);
    assert r * d == y / 2.0;
    assert q * (2.0 * d) == y;
    assert (r - q) * (2.0 * d) == 0.0;
  }

  /** The ratio gate, without division. */
  lemma RatioGateCross(gw: real, gh: real, bw: real, bh: real)
    requires gh > 0.0 && bh > 0.0
    ensures RatioTooFar(gw, gh, bw, bh) <==> !RatioClose(gw, gh, bw, bh)
  {
    DiffOfRatios(gw, gh, bw, bh);
    assert gh * bh > 0.0;
    AbsDiv(gw * bh - bw * gh, gh * bh);
    DivGreater(Abs(gw * bh - bw * gh), gh * bh, MaxRatioDelta);
  }

  /** A side gate, without division. */
  lemma SideGateCross(inset: real, s: Size, imgWidth: real)
    requires imgWidth > 0.0
    ensures SideTooFar(inset, s, imgWidth) <==> !SideClose(inset, s.width, imgWidth)
  {
    var y := 2.0 * inset - s.width + imgWidth;
    assert inset - ((s.width - imgWidth) / 2.0) == y / 2.0;
    HalveDivisor(y, imgWidth);
    assert SideOffset(inset, s, imgWidth) == Abs(y / (2.0 * imgWidth));
    AbsDiv(y, 2.0 * imgWidth);
    DivGreater(Abs(y), 2.0 * imgWidth, MaxCover);
  }

  /** A cover gate, without division. */
  lemma CoverGateCross(infos: map<string, real>, side: string, h: real)
    requires h > 0.0
    ensures CoversTooMuch(infos, side, h) <==> !CoverSmall(infos, side, h)
  {
    if side in infos {
      DivGreater(infos[side], h, MaxCover);
    }
  }

  /** The inset a side check compares: the info's, or the default one. */
  function Inset(infos: map<string, real>, side: string, s: Size): real {
    if side in infos then infos[side] else DefaultInset(s)
  }

  predicate RatioClose(gw: real, gh: real, bw: real, bh: real) {
    Abs(gw * bh - bw * gh) <= MaxRatioDelta * (gh * bh)
  }

  predicate CoverSmall(infos: map<string, real>, side: string, h: real) {
    side in infos ==> infos[side] <= MaxCover * h
  }

  predicate SideClose(inset: real, width: real, imgWidth: real) {
    Abs(2.0 * inset - width + imgWidth) <= 2.0 * MaxCover * imgWidth
  }

  /**
   * An order-free, division-free statement of the gates, for positive heights and a
   * positive in-game ratio.
   */
  predicate Compatible(infos: map<string, real>, s: Size, gw: real, gh: real, ingameRatio: real) {
    var imgWidth := ImageWidth(s.height, ingameRatio);
    RatioClose(gw, gh, s.width, s.height) &&
    CoverSmall(infos, "top", s.height) && CoverSmall(infos, "bottom", s.height) &&
    SideClose(Inset(infos, "left", s), s.width, imgWidth) &&
    SideClose(Inset(infos, "right", s), s.width, imgWidth)
  }

  lemma PositiveProduct(height: real, ingameRatio: real)
    requires height > 0.0 && ingameRatio > 0.0
    ensures ImageWidth(height, ingameRatio) > 0.0
  {
  }

  lemma SidesFitCases(infos: map<string, real>, s: Size, imgWidth: real)
    requires imgWidth != 0.0
    ensures SidesFit(infos, s, imgWidth) ==
      Ok(!SideTooFar(Inset(infos, "left", s), s, imgWidth) && !SideTooFar(Inset(infos, "right", s), s, imgWidth))
  {
  }

  /**
   * For a positive game height, bezel height and in-game ratio the gate chain lets the
   * bezel through exactly when it is `Compatible`: the order of the gates only decides
   * which log line is written.
   */
  lemma FitsIffCompatible(infos: map<string, real>, s: Size, gw: real, gh: real, ingameRatio: real)
    requires gh > 0.0 && s.height > 0.0 && ingameRatio > 0.0
    ensures Fits(infos, s, gw, gh, ingameRatio) == Ok(Compatible(infos, s, gw, gh, ingameRatio))
  {
    var imgWidth := ImageWidth(s.height, ingameRatio);
    PositiveProduct(s.height, ingameRatio);
    RatioGateCross(gw, gh, s.width, s.height);
    CoverGateCross(infos, "top", s.height);
    CoverGateCross(infos, "bottom", s.height);
    SidesFitCases(infos, s, imgWidth);
    SideGateCross(Inset(infos, "left", s), s, imgWidth);
    SideGateCross(Inset(infos, "right", s), s, imgWidth);
  }

  lemma AbsScale(h: real, x: real)
    requires h > 0.0
    ensures Abs(h * x) == h * Abs(x)
  {
    if x < 0.0 {
      assert h * x == -(h * (-x));
      assert h * (-x) > 0.0;
    } else {
      assert h * x >= 0.0;
    }
  }

  /** Multiplying both sides by a positive factor keeps an order. */
  lemma ScaleLe(h: real, a: real, b: real, x: real, z: real)
    requires h > 0.0 && x == h * a && z == h * b
    ensures x <= z <==> a <= b
  {
    assert z - x == h * (b - a);
  }

  /**
   * Without side insets in the info, the side gates depend on the in-game ratio alone:
   * they pass exactly when it is within 10% of its own value from 4:3.
   */
  lemma DefaultInsetGate(s: Size, ingameRatio: real)
    requires s.height > 0.0 && ingameRatio > 0.0
    ensures SideOffset(DefaultInset(s), s, ImageWidth(s.height, ingameRatio)) <= MaxCover <==>
      Abs(ingameRatio - 4.0 / 3.0) <= 2.0 * MaxCover * ingameRatio
  {
    var imgWidth := ImageWidth(s.height, ingameRatio);
    assert imgWidth > 0.0;
    SideGateCross(DefaultInset(s), s, imgWidth);
    assert SideTooFar(DefaultInset(s), s, imgWidth) == (SideOffset(DefaultInset(s), s, imgWidth) > MaxCover);
    var y := 2.0 * DefaultInset(s) - s.width + imgWidth;
    var a, b := Abs(ingameRatio - 4.0 / 3.0), 2.0 * MaxCover * ingameRatio;
    DefaultInsetOffset(s, ingameRatio);
    AbsScale(s.height, ingameRatio - 4.0 / 3.0);
    assert Abs(y) == s.height * a;
    assert 2.0 * MaxCover * imgWidth == s.height * b by {
      assert imgWidth == s.height * ingameRatio;
    }
    ScaleLe(s.height, a, b, Abs(y), 2.0 * MaxCover * imgWidth);
  }

  /** The doubled offset of the default inset is the height times the distance of the ratio from 4:3. */
  lemma DefaultInsetOffset(s: Size, ingameRatio: real)
    ensures 2.0 * DefaultInset(s) - s.width + ImageWidth(s.height, ingameRatio) == s.height * (ingameRatio - 4.0 / 3.0)
  {
    assert 2.0 * DefaultInset(s) == s.width - s.height / 3.0 * 4.0;
    assert s.height / 3.0 * 4.0 == s.height * (4.0 / 3.0);
    assert s.height * (ingameRatio - 4.0 / 3.0) == s.height * ingameRatio - s.height * (4.0 / 3.0);
  }

  /** So a 4:3 game fits a bezel without side info, and a 16:9 game does not. */
  lemma DefaultInsetExamples(s: Size)
    requires s.height > 0.0
    ensures SideOffset(DefaultInset(s), s, ImageWidth(s.height, 4.0 / 3.0)) <= MaxCover
    ensures SideOffset(DefaultInset(s), s, ImageWidth(s.height, 16.0 / 9.0)) > MaxCover
  {
    DefaultInsetGate(s, 4.0 / 3.0);
    DefaultInsetGate(s, 16.0 / 9.0);
  }

  /**
   * The image shown: the tattooed copy when a tattoo is asked for, else the resized copy
   * when the bezel and game sizes differ, else the bezel image itself. The image is
   * resized only when the sizes differ, and a failed resize degrades to no bezel.
   */
  lemma ImageChoice(q: BezelQuery, infos: map<string, real>)
    requires Enabled(q) && !q.internalBezels && q.files.Some?
    requires QueryFits(q, infos) == Ok(true)
    ensures var s := BezelSize(q, infos);
      var differ := !SameSize(s, q.game);
      var r := HudBezelWith(q, infos).result;
      (differ && q.resizeFails ==> r == Ok(None)) &&
      (!(differ && q.resizeFails) && TattooWanted(q) ==>
        r == if q.tattooFails then Err(TattooFailed) else Ok(Some(TattooedPng))) &&
      (!(differ && q.resizeFails) && !TattooWanted(q) ==>
        r == Ok(Some(if differ then ResizedPng else q.files.value.png))) &&
      (differ <==> exists e :: e in HudBezelWith(q, infos).events && e.ImageWork? && e.op.Resize?)
  {
    var s := BezelSize(q, infos);
    var differ := !SameSize(s, q.game);
    var run := HudBezelWith(q, infos);
    if differ {
      assert run.events[0].ImageWork? && run.events[0].op.Resize?;
    }
  }

  /** The ratio gate is strict: screen 101x100 against a 100x100 bezel differs by exactly 0.01 and passes. */
  lemma RatioBoundaryPasses()
    ensures var q := BezelQuery(Some("default"), None, false, Some(BezelFiles("b.info", "b.png")), None,
        Size(100.0, 100.0), Resolution(101, 100), 4.0 / 3.0, false, false);
      QueryFits(q, Infos(q)) == Ok(true) && HudBezel(q).result == Ok(Some(ResizedPng)) &&
      HudBezelAsWritten(q) == HudBezel(q)
  {
    var q := BezelQuery(Some("default"), None, false, Some(BezelFiles("b.info", "b.png")), None,
        Size(100.0, 100.0), Resolution(101, 100), 4.0 / 3.0, false, false);
    assert 101.0 / 100.0 - 100.0 / 100.0 == 0.01;
    var s := Size(100.0, 100.0);
    DefaultInsetExamples(s);
  }

  // ---------------------------------------------------------------------------------
  // The info file as written and as intended

  /** As written, the info file never matters: the result is that of a bezel without one. */
  lemma AsWrittenIgnoresInfoFile(q: BezelQuery)
    ensures HudBezelAsWritten(q) == HudBezel(q.(infoFile := None))
  {
  }

  /** With the info file read, a bezel whose top border covers more than 5% is never shown. */
  lemma TopCoverRejected(q: BezelQuery)
    requires q.infoFile.Some? && "top" in q.infoFile.value
    requires BezelSize(q, Infos(q)).height > 0.0
    requires q.infoFile.value["top"] > MaxCover * BezelSize(q, Infos(q)).height
    ensures !(HudBezel(q).result.Ok? && HudBezel(q).result.value.Some?)
  {
    CoverGateCross(Infos(q), "top", BezelSize(q, Infos(q)).height);
  }

  /**
   * A 1920x1080 bezel whose info file says its top border is 540 pixels high: as written
   * it frames a 4:3 game on a 1920x1080 screen; with the info file read it is rejected.
   */
  lemma InfoFileCounterexample()
    ensures var q := BezelQuery(Some("default"), None, false, Some(BezelFiles("b.info", "b.png")),
        Some(map["width" := 1920.0, "height" := 1080.0, "top" := 540.0]),
        Size(1920.0, 1080.0), Resolution(1920, 1080), 4.0 / 3.0, false, false);
      HudBezelAsWritten(q).result == Ok(Some("b.png")) && HudBezel(q).result == Ok(None)
  {
    var q := BezelQuery(Some("default"), None, false, Some(BezelFiles("b.info", "b.png")),
        Some(map["width" := 1920.0, "height" := 1080.0, "top" := 540.0]),
        Size(1920.0, 1080.0), Resolution(1920, 1080), 4.0 / 3.0, false, false);
    DefaultInsetExamples(Size(1920.0, 1080.0));
    assert BezelSize(q, map[]) == Size(1920.0, 1080.0);
    assert 1920.0 / 1080.0 - 1920.0 / 1080.0 == 0.0;
    assert Infos(q)["top"] / 1080.0 == 0.5;
  }
}
