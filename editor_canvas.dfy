/** client/src/components/editor/EditorCanvas.tsx: the preview of the editor state
    (canvas background, frame wrapper, browser chrome and image content) and the
    canvas's own actions (export, auto-enhance, website capture, uploads). */
module EditorCanvas {
  import opened Wrappers
  import opened Text
  import opened EditorTypes
  import opened GradientStops
  import opened ImageUtils
  import opened Editor

  /** An inline CSS style object. */
  type Style = map<string, string>

  /** The sample image the canvas substitutes for a website capture. */
  const MockScreenshot: string := "data:image/jpeg;base64,/9j/4AAQSkZJRgABAQAAAQABAAD/2wCEAAkGBw8Q"

  // ---------------------------------------------------------------------------
  // getBackgroundStyle

  /** The background of the canvas. A gradient value without either key keeps the
      ivory default; an image without a value paints nothing. */
  function BackgroundStyle(bg: Background): (style: Style)
    ensures bg.kind == Transparent ==> style == map[]
    ensures bg.kind == Solid ==> style == map["backgroundColor" := bg.value]
    ensures bg.kind == Gradient ==> style.Keys == {"background"}
    ensures bg.kind == Image && bg.value == "" ==> style == map[]
    ensures bg.kind == Image && bg.value != "" ==>
      style == map["backgroundImage" := "url(" + bg.value + ")", "backgroundSize" := "cover", "backgroundPosition" := "center"]
  {
    match bg.kind
    case Transparent => map[]
    case Solid => map["backgroundColor" := bg.value]
    case Gradient =>
      if Contains(bg.value, "from-") || Contains(bg.value, "to-") then
        map["background" := LinearGradient(ResolveStop(bg.value, From), ResolveStop(bg.value, To))]
      else
        map["background" := LinearGradient("#f5f0e8", "#e6d9c2")]
    case Image =>
      if bg.value != "" then
        map["backgroundImage" := "url(" + bg.value + ")", "backgroundSize" := "cover", "backgroundPosition" := "center"]
      else map[]
  }

  /** The style of the `screenshot-canvas` element: the background spread first,
      then the fixed layout keys. The zoom level is never changed from 100. */
  function CanvasStyle(bg: Background): Style {
    BackgroundStyle(bg) + map[
      "maxWidth" := "900px",
      "width" := "100%",
      "transform" := "scale(1)",
      "transformOrigin" := "center center",
      "transition" := "transform 0.2s ease-out"]
  }

  // ---------------------------------------------------------------------------
  // getFrameStyle, getBrowserChrome, getImageContent

  /** The frame style of each template; `standard` and unknown ids have none. */
  function FrameStyle(template: string): Style {
    if template == "standard" then map[]
    else if template == "rotated-right" then map["transform" := "rotate(3deg)"]
    else if template == "rotated-left" then map["transform" := "rotate(-3deg)"]
    else if template == "browser" then map["borderRadius" := "0.75rem 0.75rem 0 0", "border" := "1px solid #e5e7eb"]
    else if template == "circular" then map["borderRadius" := "50%", "overflow" := "hidden"]
    else if template == "rounded" then map["borderRadius" := "1rem", "overflow" := "hidden"]
    else if template == "phone" then
      map["width" := "280px", "padding" := "20px 10px", "borderRadius" := "2rem", "backgroundColor" := "#000",
          "boxShadow" := "0 4px 6px -1px rgba(0, 0, 0, 0.1), 0 2px 4px -1px rgba(0, 0, 0, 0.06)"]
    else if template == "mac" then map["borderRadius" := "0.5rem", "border" := "1px solid #e5e7eb", "overflow" := "hidden"]
    else if template == "split" then map["display" := "flex", "gap" := "10px"]
    else map[]
  }

  /** The ids `getFrameStyle` gives a style of its own. */
  const StyledTemplates: set<string> :=
    {"rotated-right", "rotated-left", "browser", "circular", "rounded", "phone", "mac", "split"}

  /** The wrapper around chrome and image: the frame style spread first, then the
      editor's shadow, radius and clipping. */
  function WrapperStyle(st: EditorState): Style {
    FrameStyle(st.frameTemplate) + map[
      "boxShadow" := ShadowCss(st.shadow),
      "borderRadius" := Px(st.border.radius),
      "overflow" := "hidden"]
  }

  /** The title bar of the browser and mac frames (three dots and a caption) or the
      notch of the phone frame. */
  datatype Chrome =
    | NoChrome
    | TitleBar(dots: seq<string>, caption: string, roundedTop: bool)
    | Notch

  const Dots: seq<string> := ["red-500", "yellow-500", "green-500"]

  function BrowserChrome(template: string): (c: Chrome)
    ensures c.TitleBar? <==> template == "browser" || template == "mac"
    ensures c.Notch? <==> template == "phone"
    ensures c.TitleBar? ==> c.dots == Dots
  {
    if template == "browser" then TitleBar(Dots, "supashot.io", true)
    else if template == "mac" then TitleBar(Dots, "SupaShot", false)
    else if template == "phone" then Notch
    else NoChrome
  }

  /** An `<img>` element. */
  datatype Img = Img(src: string, alt: string, style: Style)

  /** One image, or the two halves of the split frame. */
  datatype Content = Single(img: Img) | SplitPair(left: Img, right: Img)

  /** The border style every image carries. */
  function ImageStyle(border: Border): Style {
    map[
      "borderWidth" := Px(border.width),
      "borderColor" := border.color,
      "borderStyle" := if border.width > 0 then "solid" else "none",
      "borderRadius" := Px(border.radius)]
  }

  const Dimmed: string := "brightness(0.9) contrast(1.1)"

  function ImageContent(st: EditorState): (c: Option<Content>)
    ensures c.None? <==> !HasImage(st.image)
    ensures c.Some? ==> (c.value.SplitPair? <==> st.frameTemplate == "split")
  {
    if !HasImage(st.image) then None
    else if st.frameTemplate == "split" then
      Some(SplitPair(
        Img(st.image.value, "Screenshot Preview Left", ImageStyle(st.border)),
        Img(st.image.value, "Screenshot Preview Right", ImageStyle(st.border)["filter" := Dimmed])))
    else Some(Single(Img(st.image.value, "Screenshot Preview", ImageStyle(st.border))))
  }

  /** The framed image, shown only when there is an image. */
  datatype Framed = Framed(wrapper: Style, chrome: Chrome, content: Content)

  /** The whole preview: the canvas style and either the framed image or, when
      there is no image, the drop zone (`None`). */
  datatype View = View(canvas: Style, framed: Option<Framed>)

  function Render(st: EditorState): (v: View)
    ensures v.framed.Some? <==> HasImage(st.image)
  {
    View(CanvasStyle(st.background),
      if HasImage(st.image) then Some(Framed(WrapperStyle(st), BrowserChrome(st.frameTemplate), ImageContent(st).value))
      else None)
  }

  // ---------------------------------------------------------------------------
  // Properties of the preview

  /** The explicit pair the editor writes is painted as exactly that pair. */
  lemma BracketPairPainted(a: string, b: string)
    requires IsBracketable(a) && IsBracketable(b)
    ensures BackgroundStyle(Background(Gradient, BracketPair(a, b))) == map["background" := LinearGradient(a, b)]
  {
    BracketPairGroup(a, b);
    assert "to-" + "[" == "to-[";
    ContainsPrefixOfPattern(BracketPair(a, b), "to-", "[");
    BracketPairStops(a, b);
  }

  /** A gradient value with neither key paints the ivory default. */
  lemma GradientWithoutKeys(value: string)
    requires !Contains(value, "from-") && !Contains(value, "to-")
    ensures BackgroundStyle(Background(Gradient, value)) ==
      map["background" := LinearGradient(DefaultStop(From), DefaultStop(To))]
  {
  }

  /** The canvas keeps every key of the background style: the layout keys never clash with it. */
  lemma CanvasKeepsBackground(bg: Background)
    ensures forall k :: k in BackgroundStyle(bg) ==> k in CanvasStyle(bg) && CanvasStyle(bg)[k] == BackgroundStyle(bg)[k]
  {
  }

  /** `standard` and every id outside the styled set have no frame style. */
  lemma UnstyledTemplates(template: string)
    ensures FrameStyle(template) == map[] <==> template !in StyledTemplates
  {
    if template in StyledTemplates {
      var k := if template in {"rotated-right", "rotated-left"} then "transform"
               else if template == "split" then "display" else "borderRadius";
      assert k in FrameStyle(template);
    }
  }

  /** The two rotated frames turn by opposite angles. */
  lemma RotatedFrames()
    ensures FrameStyle("rotated-right") == map["transform" := "rotate(3deg)"]
    ensures FrameStyle("rotated-left") == map["transform" := "rotate(-3deg)"]
  {
  }

  /** The wrapper's radius, shadow and clipping always come from the editor state:
      a frame's own `borderRadius` (browser, circular, rounded, phone, mac) never
      reaches the page, and a phone's box shadow is replaced. Every other frame key survives. */
  lemma WrapperOverridesFrame(st: EditorState)
    ensures WrapperStyle(st)["borderRadius"] == Px(st.border.radius)
    ensures WrapperStyle(st)["boxShadow"] == ShadowCss(st.shadow)
    ensures WrapperStyle(st)["overflow"] == "hidden"
    ensures forall k :: k in FrameStyle(st.frameTemplate) && k !in {"boxShadow", "borderRadius", "overflow"} ==>
      WrapperStyle(st)[k] == FrameStyle(st.frameTemplate)[k]
  {
  }

  /** The border width an image carries reads back as the editor's border width,
      and its style is solid exactly when the width is positive. */
  lemma ImageBorder(border: Border)
    ensures PxValue(ImageStyle(border)["borderWidth"]) == Some(border.width)
    ensures PxValue(ImageStyle(border)["borderRadius"]) == Some(border.radius)
    ensures ImageStyle(border)["borderStyle"] == "solid" <==> border.width > 0
  {
    PxRoundTrip(border.width);
    PxRoundTrip(border.radius);
  }

  /** The split frame shows the same image twice with the same border; only the
      right half is dimmed. */
  lemma SplitHalves(st: EditorState)
    requires HasImage(st.image) && st.frameTemplate == "split"
    ensures ImageContent(st).Some? && ImageContent(st).value.SplitPair?
    ensures ImageContent(st).value.left.src == ImageContent(st).value.right.src == st.image.value
    ensures "filter" !in ImageContent(st).value.left.style
    ensures ImageContent(st).value.right.style == ImageContent(st).value.left.style["filter" := Dimmed]
  {
  }

  /** Every other template shows one image of the editor's picture, undimmed and
      styled exactly like the left half of the split frame. */
  lemma SingleImage(st: EditorState)
    requires HasImage(st.image) && st.frameTemplate != "split"
    ensures ImageContent(st).Some? && ImageContent(st).value.Single?
    ensures ImageContent(st).value.img.src == st.image.value
    ensures "filter" !in ImageContent(st).value.img.style
    ensures ImageContent(st).value.img.style == ImageContent(st.(frameTemplate := "split")).value.left.style
  {
  }

  /** The `effects` list is never read: the preview does not depend on it. */
  lemma RenderIgnoresEffects(st: EditorState, effects: seq<Effect>)
    ensures Render(st.(effects := effects)) == Render(st)
  {
  }

  /** The shadow colour is never read either. */
  lemma RenderIgnoresShadowColor(st: EditorState, color: string)
    ensures Render(st.(shadow := st.shadow.(color := color))) == Render(st)
  {
  }

  // ---------------------------------------------------------------------------
  // The canvas's actions

  /** A toast notification. */
  datatype Toast = Toast(title: string, description: string, destructive: bool)

  /** A call of `downloadImage(elementId, filename)`. */
  datatype Download = Download(elementId: string, filename: string)

  const NoImageToExport := Toast("Export failed", "Please upload or capture a screenshot first.", true)
  const ExportSucceeded := Toast("Export successful", "Your beautified screenshot has been downloaded.", false)
  const ExportFailed := Toast("Export failed", "Failed to export image. Please try again.", true)
  const Enhanced := Toast("Auto-enhance applied", "Your screenshot has been automatically enhanced.", false)
  const WebsiteCaptured := Toast("Website captured", "Screenshot has been generated successfully.", false)
  const Uploaded := Toast("Image uploaded successfully", "Your screenshot is ready to be customized.", false)
  const UploadFailed := Toast("Upload failed", "Failed to upload image. Please try again.", true)

  const CanvasDownload := Download("screenshot-canvas", "supashot-screenshot.png")

  /** The settings `handleAutoEnhance` assembles. It builds them and never passes
      them on. */
  function EnhancedUpdate(st: EditorState): EditorUpdate {
    NoChanges.(
      background := Some(Background(Gradient, "from-[#f5f0e8] to-[#e6d9c2]")),
      border := Some(st.border.(radius := 12)),
      shadow := Some(Shadow(true, "#000000", 25, ShadowPosition(0, 10, 25, 0))))
  }

  /** The canvas component: its dialog flag, the toasts it raised and the downloads
      it started, next to the page whose `onImageUpload` it calls. */
  class Canvas {
    const page: EditorPage
    var websiteModalOpen: bool
    var toasts: seq<Toast>
    var downloads: seq<Download>

    constructor(page: EditorPage)
      ensures this.page == page
      ensures !websiteModalOpen && toasts == [] && downloads == []
    {
      this.page := page;
      websiteModalOpen := false;
      toasts := [];
      downloads := [];
    }

    /** `handleExport`. Without an image nothing is downloaded; otherwise one
        download of the canvas is started, and `downloadOk` says whether it
        completed. */
    method HandleExport(downloadOk: bool)
      modifies this
      ensures websiteModalOpen == old(websiteModalOpen)
      ensures !HasImage(page.state.image) ==> downloads == old(downloads) && toasts == old(toasts) + [NoImageToExport]
      ensures HasImage(page.state.image) ==> downloads == old(downloads) + [CanvasDownload]
      ensures HasImage(page.state.image) ==> toasts == old(toasts) + [if downloadOk then ExportSucceeded else ExportFailed]
    {
      if !HasImage(page.state.image) {
        toasts := toasts + [NoImageToExport];
        return;
      }
      downloads := downloads + [CanvasDownload];
      if downloadOk {
        toasts := toasts + [ExportSucceeded];
      } else {
        toasts := toasts + [ExportFailed];
      }
    }

    /** `handleAutoEnhance`: the enhanced settings are computed and dropped; only a
        missing image is replaced by the sample. */
    method HandleAutoEnhance()
      modifies this, page
      ensures page.state == if HasImage(old(page.state.image)) then old(page.state)
                            else old(page.state).(image := Some(MockScreenshot))
      ensures toasts == old(toasts) + [Enhanced]
      ensures downloads == old(downloads) && websiteModalOpen == old(websiteModalOpen)
    {
      var enhancedState := EnhancedUpdate(page.state);
      if !HasImage(page.state.image) {
        page.HandleImageUpload(MockScreenshot);
      }
      toasts := toasts + [Enhanced];
    }

    /** `handleWebsiteCapture`: the URL is not used; the sample stands in for the capture. */
    method HandleWebsiteCapture(url: string)
      modifies this, page
      ensures page.state == old(page.state).(image := Some(MockScreenshot))
      ensures !websiteModalOpen
      ensures toasts == old(toasts) + [WebsiteCaptured] && downloads == old(downloads)
    {
      page.HandleImageUpload(MockScreenshot);
      websiteModalOpen := false;
      toasts := toasts + [WebsiteCaptured];
    }

    /** `handleFileUpload`: `read` is the data URL the file reader delivers, or
        `None` when starting the read throws. An empty result is ignored. */
    method HandleFileUpload(read: Option<string>)
      modifies this, page
      ensures read.None? ==> page.state == old(page.state) && toasts == old(toasts) + [UploadFailed]
      ensures read.Some? && read.value != "" ==>
        page.state == old(page.state).(image := Some(read.value)) && toasts == old(toasts) + [Uploaded]
      ensures read.Some? && read.value == "" ==> page.state == old(page.state) && toasts == old(toasts)
      ensures downloads == old(downloads) && websiteModalOpen == old(websiteModalOpen)
    {
      match read
      case None =>
        toasts := toasts + [UploadFailed];
      case Some(result) =>
        if result != "" {
          page.HandleImageUpload(result);
          toasts := toasts + [Uploaded];
        }
    }

    /** The "Use Sample Image" button. */
    method UseSampleImage()
      modifies page
      ensures page.state == old(page.state).(image := Some(MockScreenshot))
    {
      page.HandleImageUpload(MockScreenshot);
    }

    /** The capture dialog's open/close and cancel callbacks. */
    method SetWebsiteModalOpen(open: bool)
      modifies this
      ensures websiteModalOpen == open && toasts == old(toasts) && downloads == old(downloads)
    {
      websiteModalOpen := open;
    }
  }

  /** After an auto-enhance or a website capture there is always an image to export. */
  lemma MockIsImage()
    ensures HasImage(Some(MockScreenshot))
  {
  }
}
