/** client/src/components/editor/ControlsSidebar.tsx: the gradient palette and its
    preview, and the handlers that turn each control into a partial editor state.
    Every handler spreads the current nested record and replaces one field of it;
    the page then merges the partial state at the top level (`Editor.Merge`). */
module ControlsSidebar {
  import opened Wrappers
  import opened Text
  import opened EditorTypes
  import opened GradientStops
  import opened ImageUtils
  import opened Editor
  import opened EditorCanvas

  // ---------------------------------------------------------------------------
  // The gradient palette

  datatype GradientOption = GradientOption(id: string, name: string, value: string)

  const Gradients: seq<GradientOption> := [
    GradientOption("g1", "Ivory", "from-[#f5f0e8] to-[#e6d9c2]"),
    GradientOption("g2", "Subtle Blue", "from-blue-100 to-cyan-100"),
    GradientOption("g3", "Soft Pink", "from-pink-100 to-purple-100"),
    GradientOption("g4", "Mint", "from-green-100 to-teal-100"),
    GradientOption("g5", "Peach", "from-orange-100 to-yellow-100"),
    GradientOption("g6", "Lavender", "from-indigo-100 to-purple-100"),
    GradientOption("g7", "Sunset", "from-orange-200 to-rose-200"),
    GradientOption("g8", "Ocean", "from-cyan-200 to-blue-200")
  ]

  /** `getGradientBackground`: the swatch preview of a gradient value. Unlike the
      canvas it has no outer test for the keys; each stop starts at the default. */
  function GradientBackground(value: string): string {
    LinearGradient(ResolveStop(value, From), ResolveStop(value, To))
  }

  /** `isGradientSelected`. */
  predicate IsGradientSelected(st: EditorState, gradient: string) {
    st.background.kind == Gradient && st.background.value == gradient
  }

  // ---------------------------------------------------------------------------
  // The handlers

  /** The value each background type starts with when the type is switched. */
  function TypeDefault(kind: BackgroundType): string {
    match kind
    case Transparent => "transparent"
    case Solid => "#ffffff"
    case Gradient => "from-[#f5f0e8] to-[#e6d9c2]"
    case Image => ""
  }

  /** `handleColorTypeChange`: a fresh background of the new type with its default value. */
  function ColorTypeChange(kind: BackgroundType): (u: EditorUpdate)
    ensures u == NoChanges.(background := u.background) && u.background.Some?
    ensures u.background.value.kind == kind
    ensures u.background.value.value == match kind
      case Transparent => "transparent"
      case Solid => "#ffffff"
      case Gradient => "from-[#f5f0e8] to-[#e6d9c2]"
      case Image => ""
  {
    NoChanges.(background := Some(Background(kind, TypeDefault(kind))))
  }

  /** `handleColorSelect`: a swatch, a picked colour or a palette gradient becomes the
      value; the type stays. */
  function ColorSelect(st: EditorState, color: string): (u: EditorUpdate)
    ensures u == NoChanges.(background := u.background) && u.background.Some?
    ensures u.background.value.kind == st.background.kind && u.background.value.value == color
  {
    NoChanges.(background := Some(st.background.(value := color)))
  }

  /** `handleBorderWidthChange`, from a slider over 0..10. */
  function BorderWidthChange(st: EditorState, width: int): (u: EditorUpdate)
    requires 0 <= width <= 10
    ensures u == NoChanges.(border := u.border) && u.border.Some?
    ensures u.border.value.width == width
    ensures u.border.value.radius == st.border.radius && u.border.value.color == st.border.color
  {
    NoChanges.(border := Some(st.border.(width := width)))
  }

  /** `handleBorderRadiusChange`, from a slider over 0..50. */
  function BorderRadiusChange(st: EditorState, radius: int): (u: EditorUpdate)
    requires 0 <= radius <= 50
    ensures u == NoChanges.(border := u.border) && u.border.Some?
    ensures u.border.value.radius == radius
    ensures u.border.value.width == st.border.width && u.border.value.color == st.border.color
  {
    NoChanges.(border := Some(st.border.(radius := radius)))
  }

  /** `handleBorderColorChange`. */
  function BorderColorChange(st: EditorState, color: string): (u: EditorUpdate)
    ensures u == NoChanges.(border := u.border) && u.border.Some?
    ensures u.border.value.color == color
    ensures u.border.value.width == st.border.width && u.border.value.radius == st.border.radius
  {
    NoChanges.(border := Some(st.border.(color := color)))
  }

  /** `handleShadowToggle`: the other shadow settings survive a switch off and on. */
  function ShadowToggle(st: EditorState, enabled: bool): (u: EditorUpdate)
    ensures u == NoChanges.(shadow := u.shadow) && u.shadow.Some?
    ensures u.shadow.value.enabled == enabled
    ensures u.shadow.value.(enabled := st.shadow.enabled) == st.shadow
  {
    NoChanges.(shadow := Some(st.shadow.(enabled := enabled)))
  }

  /** `handleShadowIntensityChange`: a slider over 0..100 divided by 100, which in
      hundredths is the slider value itself. */
  function ShadowIntensityChange(st: EditorState, percent: int): (u: EditorUpdate)
    requires 0 <= percent <= 100
    ensures u == NoChanges.(shadow := u.shadow) && u.shadow.Some?
    ensures u.shadow.value.intensity == percent
    ensures u.shadow.value.(intensity := st.shadow.intensity) == st.shadow
  {
    NoChanges.(shadow := Some(st.shadow.(intensity := percent)))
  }

  /** `handleShadowPosition`: the preset's x and y spread over the current position. */
  function ShadowPositionChange(st: EditorState, x: int, y: int): (u: EditorUpdate)
    ensures u == NoChanges.(shadow := u.shadow) && u.shadow.Some?
    ensures u.shadow.value.position.x == x && u.shadow.value.position.y == y
    ensures u.shadow.value.position.blur == st.shadow.position.blur
    ensures u.shadow.value.position.spread == st.shadow.position.spread
    ensures u.shadow.value.(position := st.shadow.position) == st.shadow
  {
    NoChanges.(shadow := Some(st.shadow.(position := st.shadow.position.(x := x, y := y))))
  }

  /** The nine position buttons, row by row: the eight directions at distance 5 and
      a centre button that drops the shadow by 10. */
  const PositionPresets: seq<(int, int)> :=
    [(-5, -5), (0, -5), (5, -5), (-5, 0), (0, 10), (5, 0), (-5, 5), (0, 5), (5, 5)]

  /** `handleShadowBlurChange`, from a slider over 0..100. */
  function ShadowBlurChange(st: EditorState, blur: int): (u: EditorUpdate)
    requires 0 <= blur <= 100
    ensures u == NoChanges.(shadow := u.shadow) && u.shadow.Some?
    ensures u.shadow.value.position.blur == blur
    ensures u.shadow.value.position.(blur := st.shadow.position.blur) == st.shadow.position
    ensures u.shadow.value.(position := st.shadow.position) == st.shadow
  {
    NoChanges.(shadow := Some(st.shadow.(position := st.shadow.position.(blur := blur))))
  }

  /** `handleShadowSpreadChange`, from a slider over 0..50. */
  function ShadowSpreadChange(st: EditorState, spread: int): (u: EditorUpdate)
    requires 0 <= spread <= 50
    ensures u == NoChanges.(shadow := u.shadow) && u.shadow.Some?
    ensures u.shadow.value.position.spread == spread
    ensures u.shadow.value.position.(spread := st.shadow.position.spread) == st.shadow.position
    ensures u.shadow.value.(position := st.shadow.position) == st.shadow
  {
    NoChanges.(shadow := Some(st.shadow.(position := st.shadow.position.(spread := spread))))
  }

  /** `handleShadowColorChange`. */
  function ShadowColorChange(st: EditorState, color: string): (u: EditorUpdate)
    ensures u == NoChanges.(shadow := u.shadow) && u.shadow.Some?
    ensures u.shadow.value.color == color
    ensures u.shadow.value.(color := st.shadow.color) == st.shadow
  {
    NoChanges.(shadow := Some(st.shadow.(color := color)))
  }

  // ---------------------------------------------------------------------------
  // Every control of the sidebar, for statements about all of them at once

  datatype Control =
    | SetColorType(kind: BackgroundType)
    | SelectColor(color: string)
    | SetBorderWidth(width: int)
    | SetBorderRadius(radius: int)
    | SetBorderColor(color: string)
    | ToggleShadow(enabled: bool)
    | SetShadowIntensity(percent: int)
    | SetShadowPosition(x: int, y: int)
    | SetShadowBlur(blur: int)
    | SetShadowSpread(spread: int)
    | SetShadowColor(color: string)

  /** The values the sliders can produce. */
  predicate WithinSliders(c: Control) {
    match c
    case SetBorderWidth(w) => 0 <= w <= 10
    case SetBorderRadius(r) => 0 <= r <= 50
    case SetShadowIntensity(p) => 0 <= p <= 100
    case SetShadowBlur(b) => 0 <= b <= 100
    case SetShadowSpread(s) => 0 <= s <= 50
    case _ => true
  }

  /** The partial state the sidebar hands to `updateEditorState` for a control. */
  function Handle(st: EditorState, c: Control): EditorUpdate
    requires WithinSliders(c)
  {
    match c
    case SetColorType(kind) => ColorTypeChange(kind)
    case SelectColor(color) => ColorSelect(st, color)
    case SetBorderWidth(w) => BorderWidthChange(st, w)
    case SetBorderRadius(r) => BorderRadiusChange(st, r)
    case SetBorderColor(color) => BorderColorChange(st, color)
    case ToggleShadow(enabled) => ShadowToggle(st, enabled)
    case SetShadowIntensity(p) => ShadowIntensityChange(st, p)
    case SetShadowPosition(x, y) => ShadowPositionChange(st, x, y)
    case SetShadowBlur(b) => ShadowBlurChange(st, b)
    case SetShadowSpread(s) => ShadowSpreadChange(st, s)
    case SetShadowColor(color) => ShadowColorChange(st, color)
  }

  /** The state after a run of controls, each built from the state the previous one left. */
  function RunControls(st: EditorState, cs: seq<Control>): EditorState
    requires forall i :: 0 <= i < |cs| ==> WithinSliders(cs[i])
    decreases |cs|
  {
    if cs == [] then st else RunControls(Merge(st, Handle(st, cs[0])), cs[1..])
  }

  /** Every slider-driven number lies in its slider's range. */
  predicate InSliderRanges(st: EditorState) {
    && 0 <= st.border.width <= 10
    && 0 <= st.border.radius <= 50
    && 0 <= st.shadow.intensity <= 100
    && 0 <= st.shadow.position.blur <= 100
    && 0 <= st.shadow.position.spread <= 50
  }

  // ---------------------------------------------------------------------------
  // Properties of the sidebar

  /** The swatch preview and the canvas paint every gradient value alike: the
      canvas's outer test for the keys only ever picks the defaults the stops
      would keep anyway. */
  lemma PreviewMatchesCanvas(value: string)
    ensures BackgroundStyle(Background(Gradient, value)) == map["background" := GradientBackground(value)]
  {
    if !Contains(value, "from-") && !Contains(value, "to-") {
      StopWithoutKey(value, From);
      StopWithoutKey(value, To);
    }
  }

  /** A bare token as the palette writes them: letters, digits and dashes. */
  predicate IsFamilyToken(t: string) {
    t != "" && IsTokenString(t)
  }

  /** A palette entry of the form `from-<a> to-<b>` with bare tokens previews the
      families of its two tokens. */
  lemma FamilyEntry(value: string, a: string, b: string, fromColor: string, toColor: string)
    requires value == FamilyPair(a, b)
    requires IsFamilyToken(a) && IsFamilyToken(b) && 't' !in a
    requires FamilyStop(a, From) == fromColor && FamilyStop(b, To) == toColor
    ensures GradientBackground(value) == LinearGradient(fromColor, toColor)
  {
    MissingCharNotContained(a, "to-", 0);
    FamilyPairStops(a, b);
  }

  /** The Ivory entry is the explicit default pair and previews as written. */
  lemma IvoryEntry()
    ensures GradientBackground(Gradients[0].value) == LinearGradient("#f5f0e8", "#e6d9c2")
  {
    IvoryValue();
    IvoryShapes();
    BracketPairStops("#f5f0e8", "#e6d9c2");
  }

  lemma IvoryValue()
    ensures Gradients[0].value == BracketPair("#f5f0e8", "#e6d9c2")
  {
    assert Gradients[0].value == "from-[#f5f0e8] to-[#e6d9c2]";
  }

  lemma IvoryShapes()
    ensures IsBracketable("#f5f0e8") && IsBracketable("#e6d9c2")
  {
  }

  /** Subtle Blue: blue, then cyan from the "to" table. */
  lemma SubtleBlueEntry()
    ensures GradientBackground(Gradients[1].value) == LinearGradient("#dbeafe", "#a5f3fc")
  {
    SubtleBlueValue();
    TokenBlue100();
    TokenCyan100();
    SubtleBlueShapes();
    FamilyEntry(Gradients[1].value, "blue-100", "cyan-100", "#dbeafe", "#a5f3fc");
  }

  lemma SubtleBlueShapes()
    ensures IsFamilyToken("blue-100") && IsFamilyToken("cyan-100") && 't' !in "blue-100"
  {
  }

  lemma SubtleBlueValue()
    ensures Gradients[1].value == FamilyPair("blue-100", "cyan-100")
  {
    assert Gradients[1].value == "from-blue-100 to-cyan-100";
  }

  /** Soft Pink: pink, then purple from the "to" table. */
  lemma SoftPinkEntry()
    ensures GradientBackground(Gradients[2].value) == LinearGradient("#fbcfe8", "#ddd6fe")
  {
    SoftPinkValue();
    TokenPink100();
    TokenPurple100();
    SoftPinkShapes();
    FamilyEntry(Gradients[2].value, "pink-100", "purple-100", "#fbcfe8", "#ddd6fe");
  }

  lemma SoftPinkShapes()
    ensures IsFamilyToken("pink-100") && IsFamilyToken("purple-100") && 't' !in "pink-100"
  {
  }

  lemma SoftPinkValue()
    ensures Gradients[2].value == FamilyPair("pink-100", "purple-100")
  {
    assert Gradients[2].value == "from-pink-100 to-purple-100";
  }

  /** Mint: green, and teal is in neither table, so the ivory "to" stop stays. */
  lemma MintEntry()
    ensures GradientBackground(Gradients[3].value) == LinearGradient("#d1fae5", "#e6d9c2")
  {
    MintValue();
    TokenGreen100();
    TokenTeal100();
    MintShapes();
    FamilyEntry(Gradients[3].value, "green-100", "teal-100", "#d1fae5", "#e6d9c2");
  }

  lemma MintShapes()
    ensures IsFamilyToken("green-100") && IsFamilyToken("teal-100") && 't' !in "green-100"
  {
  }

  lemma MintValue()
    ensures Gradients[3].value == FamilyPair("green-100", "teal-100")
  {
    assert Gradients[3].value == "from-green-100 to-teal-100";
  }

  /** Peach: orange, then yellow from the "to" table. */
  lemma PeachEntry()
    ensures GradientBackground(Gradients[4].value) == LinearGradient("#ffedd5", "#fde68a")
  {
    PeachValue();
    OrangeToken("orange-100", "-100");
    TokenYellow100();
    PeachShapes();
    FamilyEntry(Gradients[4].value, "orange-100", "yellow-100", "#ffedd5", "#fde68a");
  }

  lemma PeachShapes()
    ensures IsFamilyToken("orange-100") && IsFamilyToken("yellow-100") && 't' !in "orange-100"
  {
  }

  lemma PeachValue()
    ensures Gradients[4].value == FamilyPair("orange-100", "yellow-100")
  {
    assert Gradients[4].value == "from-orange-100 to-yellow-100";
  }

  /** Lavender: indigo, then purple from the "to" table. */
  lemma LavenderEntry()
    ensures GradientBackground(Gradients[5].value) == LinearGradient("#e0e7ff", "#ddd6fe")
  {
    LavenderValue();
    TokenIndigo100();
    TokenPurple100();
    LavenderShapes();
    FamilyEntry(Gradients[5].value, "indigo-100", "purple-100", "#e0e7ff", "#ddd6fe");
  }

  lemma LavenderShapes()
    ensures IsFamilyToken("indigo-100") && IsFamilyToken("purple-100") && 't' !in "indigo-100"
  {
  }

  lemma LavenderValue()
    ensures Gradients[5].value == FamilyPair("indigo-100", "purple-100")
  {
    assert Gradients[5].value == "from-indigo-100 to-purple-100";
  }

  /** Sunset: orange, then rose from the "to" table. */
  lemma SunsetEntry()
    ensures GradientBackground(Gradients[6].value) == LinearGradient("#ffedd5", "#fda4af")
  {
    SunsetValue();
    OrangeToken("orange-200", "-200");
    TokenRose200();
    SunsetShapes();
    FamilyEntry(Gradients[6].value, "orange-200", "rose-200", "#ffedd5", "#fda4af");
  }

  lemma SunsetShapes()
    ensures IsFamilyToken("orange-200") && IsFamilyToken("rose-200") && 't' !in "orange-200"
  {
  }

  lemma SunsetValue()
    ensures Gradients[6].value == FamilyPair("orange-200", "rose-200")
  {
    assert Gradients[6].value == "from-orange-200 to-rose-200";
  }

  /** Ocean: cyan, then blue from the "to" table. */
  lemma OceanEntry()
    ensures GradientBackground(Gradients[7].value) == LinearGradient("#cffafe", "#bfdbfe")
  {
    OceanValue();
    TokenCyan200();
    TokenBlue200();
    OceanShapes();
    FamilyEntry(Gradients[7].value, "cyan-200", "blue-200", "#cffafe", "#bfdbfe");
  }

  lemma OceanShapes()
    ensures IsFamilyToken("cyan-200") && IsFamilyToken("blue-200") && 't' !in "cyan-200"
  {
  }

  lemma OceanValue()
    ensures Gradients[7].value == FamilyPair("cyan-200", "blue-200")
  {
    assert Gradients[7].value == "from-cyan-200 to-blue-200";
  }

  // The family of each token. `FirstFamily` takes, for every earlier family, the
  // position of a letter of its name that the token lacks.

  lemma TokenBlue100()
    ensures FamilyStop("blue-100", From) == "#dbeafe"
  {
    ContainsFront("blue", "-100", "", "");
    FirstFamily("blue-100", 0, []);
  }

  lemma TokenCyan100()
    ensures FamilyStop("cyan-100", To) == "#a5f3fc"
  {
    ContainsFront("cyan", "-100", "", "");
    FirstFamily("cyan-100", 6, [0, 0, 0, 0, 0, 0]);
  }

  lemma TokenPink100()
    ensures FamilyStop("pink-100", From) == "#fbcfe8"
  {
    ContainsFront("pink", "-100", "", "");
    FirstFamily("pink-100", 1, [0]);
  }

  /** purple-100: "pink" fails on its 'i'. */
  lemma TokenPurple100()
    ensures FamilyStop("purple-100", To) == "#ddd6fe"
  {
    ContainsFront("purple", "-100", "", "");
    FirstFamily("purple-100", 4, [0, 1, 0, 0]);
  }

  lemma TokenGreen100()
    ensures FamilyStop("green-100", From) == "#d1fae5"
  {
    ContainsFront("green", "-100", "", "");
    FirstFamily("green-100", 2, [0, 0]);
  }

  /** teal-100: teal is in no table: the token lacks the first letter of every family name, so the default stays. */
  lemma TokenTeal100()
    ensures FamilyStop("teal-100", To) == "#e6d9c2"
  {
    NoFamily("teal-100", [0, 0, 0, 0, 0, 0, 0, 0, 0]);
  }

  /** yellow-100: "orange" fails on its 'r'. */
  lemma TokenYellow100()
    ensures FamilyStop("yellow-100", To) == "#fde68a"
  {
    ContainsFront("yellow", "-100", "", "");
    FirstFamily("yellow-100", 8, [0, 0, 0, 1, 0, 0, 0, 0]);
  }

  /** indigo-100: "green" and "orange" fail on their 'r'. */
  lemma TokenIndigo100()
    ensures FamilyStop("indigo-100", From) == "#e0e7ff"
  {
    ContainsFront("indigo", "-100", "", "");
    FirstFamily("indigo-100", 5, [0, 0, 1, 1, 0]);
  }

  /** rose-200: "orange" fails on its 'a', "cyan" on its 'c'. */
  lemma TokenRose200()
    ensures FamilyStop("rose-200", To) == "#fda4af"
  {
    ContainsFront("rose", "-200", "", "");
    FirstFamily("rose-200", 7, [0, 0, 0, 2, 0, 0, 0]);
  }

  lemma TokenCyan200()
    ensures FamilyStop("cyan-200", From) == "#cffafe"
  {
    ContainsFront("cyan", "-200", "", "");
    FirstFamily("cyan-200", 6, [0, 0, 0, 0, 0, 0]);
  }

  lemma TokenBlue200()
    ensures FamilyStop("blue-200", To) == "#bfdbfe"
  {
    ContainsFront("blue", "-200", "", "");
    FirstFamily("blue-200", 0, []);
  }

  /** An orange token holds every letter of "green", but never a 'g' before an 'r'. */
  lemma OrangeToken(t: string, shade: string)
    requires t == "orange" + shade && shade in {"-100", "-200"}
    ensures FamilyStop(t, From) == "#ffedd5"
  {
    ContainsFront("orange", shade, "", "");
    MissingCharNotContained(t, Families[0].name, 0);
    MissingCharNotContained(t, Families[1].name, 0);
    MissingPairNotContained(t, Families[2].name, 0);
    FirstContainedFamily(t, 3);
  }

  /** Selecting a palette entry selects it exactly when the background is already
      a gradient: the handler keeps the type. */
  lemma SelectThenSelected(st: EditorState, gradient: string)
    ensures IsGradientSelected(Merge(st, ColorSelect(st, gradient)), gradient) <==> st.background.kind == Gradient
  {
  }

  /** Switching to the gradient type selects the Ivory entry. */
  lemma GradientTypeSelectsIvory(st: EditorState)
    ensures IsGradientSelected(Merge(st, ColorTypeChange(Gradient)), Gradients[0].value)
  {
  }

  /** No two palette entries share a value, so at most one is highlighted. */
  lemma AtMostOneSelected(st: EditorState, i: nat, j: nat)
    requires i < |Gradients| && j < |Gradients|
    requires IsGradientSelected(st, Gradients[i].value) && IsGradientSelected(st, Gradients[j].value)
    ensures i == j
  {
    if i != j {
      DistinctAt(i, j);
    }
  }

  /** Two different entries differ at the first character after "from-", except
      the two purple entries and the two orange ones, which differ further on. */
  lemma DistinctAt(i: nat, j: nat)
    requires i < |Gradients| && j < |Gradients| && i != j
    ensures Gradients[i].value != Gradients[j].value
  {
    var vi, vj := Gradients[i].value, Gradients[j].value;
    if vi[5] == vj[5] {
      assert vi[6] != vj[6] || vi[12] != vj[12];
    }
  }

  /** Each default the type switch installs paints as its type promises: nothing,
      white, the ivory pair, or (an image without data) nothing. */
  lemma TypeDefaultPaints(kind: BackgroundType)
    ensures kind == Solid ==> BackgroundStyle(Background(kind, TypeDefault(kind))) == map["backgroundColor" := "#ffffff"]
    ensures kind == Gradient ==>
      BackgroundStyle(Background(kind, TypeDefault(kind))) == map["background" := LinearGradient(DefaultStop(From), DefaultStop(To))]
    ensures kind in {Transparent, Image} ==> BackgroundStyle(Background(kind, TypeDefault(kind))) == map[]
  {
    if kind == Gradient {
      IvoryValue();
      IvoryShapes();
      assert TypeDefault(kind) == Gradients[0].value;
      BracketPairPainted("#f5f0e8", "#e6d9c2");
    }
  }

  /** A control changes one nested record; the image, the template and the effects
      are never touched by the sidebar. */
  lemma HandleTouchesOneRecord(st: EditorState, c: Control)
    requires WithinSliders(c)
    ensures Merge(st, Handle(st, c)).image == st.image
    ensures Merge(st, Handle(st, c)).frameTemplate == st.frameTemplate
    ensures Merge(st, Handle(st, c)).effects == st.effects
    ensures !(c.SetColorType? || c.SelectColor?) ==> Merge(st, Handle(st, c)).background == st.background
    ensures !(c.SetBorderWidth? || c.SetBorderRadius? || c.SetBorderColor?) ==> Merge(st, Handle(st, c)).border == st.border
    ensures (c.SetColorType? || c.SelectColor? || c.SetBorderWidth? || c.SetBorderRadius? || c.SetBorderColor?) ==>
      Merge(st, Handle(st, c)).shadow == st.shadow
  {
  }

  /** A control within its slider keeps every slider value in range. */
  lemma HandleKeepsRanges(st: EditorState, c: Control)
    requires InSliderRanges(st) && WithinSliders(c)
    ensures InSliderRanges(Merge(st, Handle(st, c)))
  {
  }

  /** From the initial state, any run of sidebar controls keeps every slider value
      in range. */
  lemma {:induction false} RunKeepsRanges(st: EditorState, cs: seq<Control>)
    requires InSliderRanges(st)
    requires forall i :: 0 <= i < |cs| ==> WithinSliders(cs[i])
    ensures InSliderRanges(RunControls(st, cs))
    decreases |cs|
  {
    if cs != [] {
      HandleKeepsRanges(st, cs[0]);
      RunKeepsRanges(Merge(st, Handle(st, cs[0])), cs[1..]);
    }
  }

  lemma InitialInRanges()
    ensures InSliderRanges(InitialState()) && InSliderRanges(ResetState())
  {
  }

  /** The border controls commute: two of them on different fields give the same
      border in either order. */
  lemma BorderControlsCommute(st: EditorState, width: int, radius: int)
    requires 0 <= width <= 10 && 0 <= radius <= 50
    ensures var s1 := Merge(st, BorderWidthChange(st, width));
            var s2 := Merge(st, BorderRadiusChange(st, radius));
            Merge(s1, BorderRadiusChange(s1, radius)) == Merge(s2, BorderWidthChange(s2, width))
  {
  }

  /** A position preset followed by blur and spread changes keeps the preset's
      direction: the three shadow controls never overwrite each other. */
  lemma PresetSurvivesBlurAndSpread(st: EditorState, p: nat, blur: int, spread: int)
    requires p < |PositionPresets| && 0 <= blur <= 100 && 0 <= spread <= 50
    ensures var s1 := Merge(st, ShadowPositionChange(st, PositionPresets[p].0, PositionPresets[p].1));
            var s2 := Merge(s1, ShadowBlurChange(s1, blur));
            var s3 := Merge(s2, ShadowSpreadChange(s2, spread));
            s3.shadow.position == ShadowPosition(PositionPresets[p].0, PositionPresets[p].1, blur, spread)
  {
  }

  /** The intensity slider's value is the alpha the shadow text carries. */
  lemma IntensityReadsBack(st: EditorState, percent: int)
    requires 0 <= percent <= 100 && st.shadow.enabled
    ensures var s := Merge(st, ShadowIntensityChange(st, percent));
            ParseShadowCss(ShadowCss(s.shadow)).Some? && ParseShadowCss(ShadowCss(s.shadow)).value.intensity == percent
  {
    ShadowCssRoundTrip(st.shadow.(intensity := percent));
  }

  /** Switching the shadow off and on again restores the very same shadow text. */
  lemma ToggleRoundTrip(st: EditorState)
    requires st.shadow.enabled
    ensures var off := Merge(st, ShadowToggle(st, false));
            var on := Merge(off, ShadowToggle(off, true));
            ShadowCss(off.shadow) == "none" && on == st
  {
  }
}
