# SupaShot editor core, modelled in Dafny

SupaShot is a screenshot beautifier. Its editor holds one `EditorState`: the image,
a frame template, a background (transparent, solid colour, gradient or image), a
border, a drop shadow and an unused list of effects. A sidebar of controls turns
each user gesture into a partial state, which the page merges into the current
state at the top level. The canvas turns the state into paint: a background style,
a frame wrapper with the shadow text, optional title bar or notch, and one or two
image elements. Next to the editor sit three smaller pieces, all modelled here:
- the data-URL to `Blob` conversion;
- the dialog that normalises a website address before a capture;
- the server's in-memory store of users and screenshots.

One module per source file:

| module | source |
|---|---|
| `Wrappers` | `Option` and `Result` |
| `Text` | the JavaScript string primitives the core uses: `includes`, the first match of `/p(.*?)c/` and `/p([a-zA-Z0-9-]+)/`, `split`, and `${n}` for an integer |
| `EditorTypes` | client/src/types/index.ts |
| `GradientStops` | the colour-stop extraction that `getBackgroundStyle` and `getGradientBackground` both carry, stated once |
| `ImageUtils` | client/src/lib/imageUtils.ts |
| `Editor` | client/src/pages/Editor.tsx |
| `EditorCanvas` | client/src/components/editor/EditorCanvas.tsx |
| `ControlsSidebar` | client/src/components/editor/ControlsSidebar.tsx |
| `Storage` | server/storage.ts |
| `WebsiteInputModal` | client/src/components/editor/WebsiteInputModal.tsx |

Modelling choices:
- A CSS style object is a `map<string, string>`. Object spread is map union, and the right-hand side wins.
- Shadow intensity is an integer number of hundredths. The slider hands over `value / 100`, and the text renders it with `toFixed(2)`.
- `image` is `Option<string>`. JavaScript truthiness is `HasImage`, under which `null` and `""` are both falsy.
- A partial state (`Partial<EditorState>`) is `EditorUpdate`, with one `Option` per key.
- The editor page, the canvas component, the capture dialog and the store are classes. Their methods update fields in place.
- The sidebar handlers only build partial states, so they are functions.
- A JavaScript `Map` iterates in insertion order. The store keeps each map together with the sequence of its keys in that order.
- Foreign calls become parameters:
  - `atob` is a function that may fail;
  - the `URL` constructor is a validity predicate;
  - the outcome of `downloadImage` is a boolean;
  - the DOM lookup is a set of ids, and rasterisation is a function.

The code never clamps: the handlers rely on the sliders' `min`/`max`, so the slider bounds are preconditions of the handlers. `RunKeepsRanges` proves that the ranges then hold after any run of controls.

## Model

Proof helpers have no row. In `ControlsSidebar` these are the `<Name>Value` and `<Name>Shapes` lemmas of the eight palette entries (`IvoryValue`, `IvoryShapes`, `SubtleBlueValue`, … `OceanShapes`), which feed the `<Name>Entry` lemmas, and `DistinctAt`, which feeds `AtMostOneSelected`.

| member | source | states |
|---|---|---|
| Text.IndexOf | client/src/components/editor/EditorCanvas.tsx:189 | the index found is an occurrence and no earlier index is one; none means no occurrence at all |
| Text.ContainsIff | client/src/components/editor/EditorCanvas.tsx:189 | `includes` holds exactly when the pattern occurs somewhere |
| Text.LazyGroup | client/src/components/editor/EditorCanvas.tsx:195 | `match(/open(.*?)close/)` fails exactly when no position matches; a capture never holds the close character or a line terminator |
| Text.LazyGroupAt | client/src/components/editor/EditorCanvas.tsx:195-198 | the capture is the text between the first opening and the first close character reached through clean text |
| Text.LazyGroupUnclosed | client/src/components/editor/EditorCanvas.tsx:195-198 | without a close character there is no match |
| Text.TokenGroup | client/src/components/editor/EditorCanvas.tsx:200 | `match(/open([a-zA-Z0-9-]+)/)` fails exactly when no position matches; a capture is a non-empty run of token characters |
| Text.TokenGroupAt | client/src/components/editor/EditorCanvas.tsx:200-201 | the capture is the longest token run after the first opening |
| Text.Split | client/src/lib/imageUtils.ts:44 | `split` yields at least one piece and no piece holds the separator |
| Text.JoinSplit | client/src/lib/imageUtils.ts:44 | joining the pieces of a split with the separator gives the string back |
| Text.SplitJoin | client/src/lib/imageUtils.ts:44 | splitting the join of separator-free pieces gives the pieces back |
| Text.IntToStringRoundTrip | client/src/lib/imageUtils.ts:17 | the decimal rendering of any integer reads back as that integer |
| GradientStops.FamilyIndex | client/src/components/editor/EditorCanvas.tsx:203-211 | the family chosen is the first in the order blue, pink, green, orange, purple, indigo, cyan, rose, yellow whose name the token contains; none means no name occurs |
| GradientStops.FirstFamily | client/src/components/editor/EditorCanvas.tsx:203-211 | a token containing family k and lacking a letter of each earlier family name resolves to k |
| GradientStops.FirstContainedFamily | client/src/components/editor/EditorCanvas.tsx:203-211 | a token containing family k and none of the earlier names resolves to k |
| GradientStops.NoFamily | client/src/components/editor/EditorCanvas.tsx:199-212 | a token lacking a letter of every family name has no family, so the stop keeps its default |
| GradientStops.StopWithoutKey | client/src/components/editor/EditorCanvas.tsx:190-235 | a value without `from-` (or `to-`) keeps the default `#f5f0e8` (or `#e6d9c2`) for that stop |
| GradientStops.BracketedFront | client/src/components/editor/EditorCanvas.tsx:194-198 | a value opening with `key[c]` extracts `c`, or the default when `c` is empty |
| GradientStops.ResolveBracketed | client/src/components/editor/EditorCanvas.tsx:194-198 | a value with `key[` resolves to the text of its first bracket when that text is non-empty |
| GradientStops.BracketStop | client/src/components/editor/EditorCanvas.tsx:194-198 | a bracketed stop is taken verbatim; an empty bracket keeps the default |
| GradientStops.UnterminatedBracketStop | client/src/components/editor/EditorCanvas.tsx:194-198 | a bracket that is never closed keeps the default, and the bare-token branch is not tried |
| GradientStops.TokenStop | client/src/components/editor/EditorCanvas.tsx:199-212 | a bare token resolves through the family table |
| GradientStops.BracketPairStops | client/src/components/editor/EditorCanvas.tsx:190-235 | round trip: the explicit pair `from-[a] to-[b]` resolves to exactly `a` and `b` |
| GradientStops.FamilyPairStops | client/src/components/editor/EditorCanvas.tsx:199-234 | in `from-<a> to-<b>` each stop resolves through its token's family |
| ImageUtils.UnsignedFixed2 | client/src/lib/imageUtils.ts:12 | the alpha text has digits, a point and exactly two decimals |
| ImageUtils.Fixed2RoundTrip | client/src/lib/imageUtils.ts:12 | the two-decimal text reads back as the number of hundredths, negative or not |
| ImageUtils.Fixed2Samples | client/src/lib/imageUtils.ts:12 | 25 hundredths render as `0.25`, 100 as `1.00`, 20 as `0.20` |
| ImageUtils.PxRoundTrip | client/src/lib/imageUtils.ts:17 | `${n}px` reads back as `n` |
| ImageUtils.ShadowCssSplit | client/src/lib/imageUtils.ts:10-17 | an enabled shadow's text splits at spaces into the four offsets and the four pieces of the black `rgba` |
| ImageUtils.ShadowCssRoundTrip | client/src/lib/imageUtils.ts:10-17 | round trip: the enabled shadow's text carries exactly its x, y, blur, spread and intensity |
| ImageUtils.ShadowDisabled | client/src/lib/imageUtils.ts:8 | a disabled shadow renders as `none` whatever its other fields hold |
| ImageUtils.ShadowEnabledText | client/src/lib/imageUtils.ts:10-17 | an enabled shadow is never `none`; two enabled shadows render alike exactly when position and intensity agree, so the colour is never used |
| ImageUtils.ToUint8 | client/src/lib/imageUtils.ts:51 | a byte stored in the array lies in 0..255 |
| ImageUtils.Bytes | client/src/lib/imageUtils.ts:47-52 | the byte array is as long as the decoded string |
| ImageUtils.BytesLatin1 | client/src/lib/imageUtils.ts:51 | for a decoded string (every character below 256) byte i is the character code at i |
| ImageUtils.BytesInjective | client/src/lib/imageUtils.ts:51 | two decoded strings give the same bytes exactly when they are equal |
| ImageUtils.DataUrlToBlob | client/src/lib/imageUtils.ts:43-55 | the countdown loop fills every index; the blob is the bytes of the decoded payload under the header's MIME type as the `Blob` constructor records it (lower-cased, or empty when a character lies outside U+0020..U+007E); a missing `:...;` or an `atob` failure is an error |
| ImageUtils.BlobType | client/src/lib/imageUtils.ts:54 | the recorded type is empty when a character lies outside U+0020..U+007E, and otherwise the given type with each capital lowered |
| ImageUtils.BlobTypeNormal | client/src/lib/imageUtils.ts:54 | recording a recorded type again changes nothing, and a recorded type holds no capital letter |
| ImageUtils.BlobTypeSamples | client/src/lib/imageUtils.ts:54 | `image/PNG` is recorded as `image/png`; a type holding `é` is recorded as empty |
| ImageUtils.SplitDataUrl | client/src/lib/imageUtils.ts:44 | a base64 data URL splits at its comma into header and payload |
| ImageUtils.HeaderMime | client/src/lib/imageUtils.ts:45 | the lazy `:(.*?);` group of `data:m;base64` is `m` |
| ImageUtils.DataUrlParts | client/src/lib/imageUtils.ts:44-46 | the MIME type is the text between `data:` and `;base64`, and the payload the text after the comma |
| ImageUtils.CaptureElementAsImage | client/src/lib/imageUtils.ts:23-38 | capture fails exactly when the id is absent, before rasterising; otherwise it returns the rasterised element |
| ImageUtils.CaptureFailureNamesId | client/src/lib/imageUtils.ts:27 | the failure message names the missing id |
| Editor.InitialState | client/src/pages/Editor.tsx:8-32 | the page starts without an image |
| Editor.ResetState | client/src/pages/Editor.tsx:49-75 | a reset leaves no image |
| Editor.InitialIsReset | client/src/pages/Editor.tsx:8-32 | the initial state and the reset state are the same state |
| Editor.Merge | client/src/pages/Editor.tsx:34-39 | each supplied key replaces the previous value wholesale; each missing key is kept |
| Editor.MergeNoChanges | client/src/pages/Editor.tsx:34-39 | an update without keys leaves the state unchanged |
| Editor.MergeIdempotent | client/src/pages/Editor.tsx:34-39 | applying an update twice is applying it once |
| Editor.MergeThen | client/src/pages/Editor.tsx:34-39 | two merges in a row are one merge of the spread of both updates |
| Editor.MergeFull | client/src/pages/Editor.tsx:34-39 | an update supplying every key makes the result independent of any earlier update |
| Editor.FrameTemplateOnly | client/src/pages/Editor.tsx:41-43 | a template change alters only `frameTemplate` |
| Editor.ImageOnly | client/src/pages/Editor.tsx:45-47 | an upload alters only `image`, and there is an image afterwards exactly when the data is non-empty |
| Editor.EditorPage.constructor | client/src/pages/Editor.tsx:8-32 | the page's state starts as the initial state |
| Editor.EditorPage.UpdateEditorState | client/src/pages/Editor.tsx:34-39 | the new state is the shallow merge of the old state and the update |
| Editor.EditorPage.HandleFrameTemplateChange | client/src/pages/Editor.tsx:41-43 | only the template changes |
| Editor.EditorPage.HandleImageUpload | client/src/pages/Editor.tsx:45-47 | only the image changes |
| Editor.EditorPage.HandleReset | client/src/pages/Editor.tsx:49-75 | the state becomes the reset state, which is the initial state, whatever it was before |
| EditorCanvas.BackgroundStyle | client/src/components/editor/EditorCanvas.tsx:180-246 | transparent paints nothing; solid sets exactly `backgroundColor`; a gradient sets only `background`; an image with a value sets exactly `backgroundImage` to `url(value)`, `backgroundSize` to `cover` and `backgroundPosition` to `center`, and one without a value sets nothing |
| EditorCanvas.BracketPairPainted | client/src/components/editor/EditorCanvas.tsx:187-238 | an explicit pair `from-[a] to-[b]` is painted as exactly that pair |
| EditorCanvas.GradientWithoutKeys | client/src/components/editor/EditorCanvas.tsx:239-240 | a gradient value with neither key paints the ivory default |
| EditorCanvas.CanvasKeepsBackground | client/src/components/editor/EditorCanvas.tsx:385-392 | the canvas style keeps every background key unchanged |
| EditorCanvas.UnstyledTemplates | client/src/components/editor/EditorCanvas.tsx:249-283 | a template has no frame style exactly when it is `standard` or an unknown id |
| EditorCanvas.RotatedFrames | client/src/components/editor/EditorCanvas.tsx:254-257 | the rotated frames turn by `3deg` and `-3deg` |
| EditorCanvas.WrapperOverridesFrame | client/src/components/editor/EditorCanvas.tsx:399-404 | the wrapper's radius, shadow and clipping come from the editor state; every other frame key survives |
| EditorCanvas.BrowserChrome | client/src/components/editor/EditorCanvas.tsx:286-320 | only `browser` and `mac` get the three-dot title bar, and only `phone` the notch |
| EditorCanvas.ImageContent | client/src/components/editor/EditorCanvas.tsx:323-324 | there is image content exactly when there is an image, and it is a split pair exactly when the template is `split` |
| EditorCanvas.ImageBorder | client/src/components/editor/EditorCanvas.tsx:335-338 | an image's border width and radius read back as the editor's, and its style is `solid` exactly when the width is positive |
| EditorCanvas.SplitHalves | client/src/components/editor/EditorCanvas.tsx:326-357 | the split frame shows the same image twice with the same border; only the right half carries the dimming filter |
| EditorCanvas.SingleImage | client/src/components/editor/EditorCanvas.tsx:358-371 | every other template shows one image of the editor's picture, undimmed and styled exactly like the left half of the split frame |
| EditorCanvas.Render | client/src/components/editor/EditorCanvas.tsx:396-443 | the framed image is shown exactly when there is an image |
| EditorCanvas.RenderIgnoresEffects | client/src/components/editor/EditorCanvas.tsx:380-447 | the preview does not depend on `effects` |
| EditorCanvas.RenderIgnoresShadowColor | client/src/lib/imageUtils.ts:11-15 | the preview does not depend on the shadow colour |
| EditorCanvas.Canvas.constructor | client/src/components/editor/EditorCanvas.tsx:40 | the dialog starts closed, with no toasts and no downloads |
| EditorCanvas.Canvas.HandleExport | client/src/components/editor/EditorCanvas.tsx:115-139 | without an image only the failure toast is raised and nothing is downloaded; otherwise one canvas download starts and its outcome picks the toast |
| EditorCanvas.Canvas.HandleAutoEnhance | client/src/components/editor/EditorCanvas.tsx:141-174 | the enhanced settings are never applied: the state is unchanged except that a missing image becomes the sample |
| EditorCanvas.Canvas.HandleWebsiteCapture | client/src/components/editor/EditorCanvas.tsx:69-78 | the sample image stands in for the capture, the dialog closes and one toast is raised |
| EditorCanvas.Canvas.HandleFileUpload | client/src/components/editor/EditorCanvas.tsx:44-67 | a non-empty read result becomes the image; an empty one is ignored; a failing read changes nothing but the failure toast |
| EditorCanvas.Canvas.UseSampleImage | client/src/components/editor/EditorCanvas.tsx:433-437 | the sample becomes the image and nothing else changes |
| EditorCanvas.Canvas.SetWebsiteModalOpen | client/src/components/editor/EditorCanvas.tsx:418-428 | only the dialog flag changes |
| EditorCanvas.MockIsImage | client/src/components/editor/EditorCanvas.tsx:33 | the sample is a truthy image, so export is possible after a capture or auto-enhance |
| ControlsSidebar.ColorTypeChange | client/src/components/editor/ControlsSidebar.tsx:50-59 | the update carries only a background of the new type, whose value is that type's default: `transparent`, `#ffffff`, the Ivory gradient `from-[#f5f0e8] to-[#e6d9c2]`, or empty for an image |
| ControlsSidebar.TypeDefaultPaints | client/src/components/editor/ControlsSidebar.tsx:50-59 | the type defaults paint as promised: white for solid, the ivory pair for gradient, nothing for transparent and image |
| ControlsSidebar.GradientTypeSelectsIvory | client/src/components/editor/ControlsSidebar.tsx:50-59 | switching to gradient selects the Ivory palette entry |
| ControlsSidebar.ColorSelect | client/src/components/editor/ControlsSidebar.tsx:61-68 | only the background value changes; the type is kept |
| ControlsSidebar.BorderWidthChange | client/src/components/editor/ControlsSidebar.tsx:70-77 | only the width changes; radius and colour are kept |
| ControlsSidebar.BorderRadiusChange | client/src/components/editor/ControlsSidebar.tsx:79-86 | only the radius changes; width and colour are kept |
| ControlsSidebar.BorderColorChange | client/src/components/editor/ControlsSidebar.tsx:88-95 | only the colour changes; width and radius are kept |
| ControlsSidebar.ShadowToggle | client/src/components/editor/ControlsSidebar.tsx:97-104 | only `enabled` changes |
| ControlsSidebar.ShadowIntensityChange | client/src/components/editor/ControlsSidebar.tsx:106-113 | the intensity is the slider value in hundredths; nothing else changes |
| ControlsSidebar.ShadowPositionChange | client/src/components/editor/ControlsSidebar.tsx:115-125 | only x and y change; blur and spread are kept |
| ControlsSidebar.ShadowBlurChange | client/src/components/editor/ControlsSidebar.tsx:127-137 | only the blur changes |
| ControlsSidebar.ShadowSpreadChange | client/src/components/editor/ControlsSidebar.tsx:139-149 | only the spread changes |
| ControlsSidebar.ShadowColorChange | client/src/components/editor/ControlsSidebar.tsx:151-158 | only the shadow colour changes |
| ControlsSidebar.HandleTouchesOneRecord | client/src/components/editor/ControlsSidebar.tsx:50-158 | no control touches image, template or effects, and each touches only its own record |
| ControlsSidebar.HandleKeepsRanges | client/src/components/editor/ControlsSidebar.tsx:333-504 | a control within its slider's range keeps every slider-backed value in range |
| ControlsSidebar.RunKeepsRanges | client/src/components/editor/ControlsSidebar.tsx:333-504 | any run of controls keeps every slider-backed value in range |
| ControlsSidebar.InitialInRanges | client/src/pages/Editor.tsx:15-30 | the initial and reset states lie within the slider ranges |
| ControlsSidebar.BorderControlsCommute | client/src/components/editor/ControlsSidebar.tsx:70-86 | width and radius changes commute |
| ControlsSidebar.PresetSurvivesBlurAndSpread | client/src/components/editor/ControlsSidebar.tsx:404-475 | a position preset followed by blur and spread changes keeps the preset's x and y |
| ControlsSidebar.IntensityReadsBack | client/src/components/editor/ControlsSidebar.tsx:106-113 | the intensity slider's value is the alpha the shadow text carries |
| ControlsSidebar.ToggleRoundTrip | client/src/components/editor/ControlsSidebar.tsx:97-104 | switching the shadow off renders `none`, and switching it back on restores the very same state |
| ControlsSidebar.PreviewMatchesCanvas | client/src/components/editor/ControlsSidebar.tsx:178-227 | the swatch preview and the canvas paint every gradient value alike |
| ControlsSidebar.FamilyEntry | client/src/components/editor/ControlsSidebar.tsx:178-227 | an entry `from-<a> to-<b>` previews the families of its two tokens |
| ControlsSidebar.IvoryEntry | client/src/components/editor/ControlsSidebar.tsx:36 | Ivory previews as `#f5f0e8`, `#e6d9c2` |
| ControlsSidebar.SubtleBlueEntry | client/src/components/editor/ControlsSidebar.tsx:37 | Subtle Blue previews as `#dbeafe`, `#a5f3fc` |
| ControlsSidebar.SoftPinkEntry | client/src/components/editor/ControlsSidebar.tsx:38 | Soft Pink previews as `#fbcfe8`, `#ddd6fe` |
| ControlsSidebar.MintEntry | client/src/components/editor/ControlsSidebar.tsx:39 | Mint previews as `#d1fae5`, `#e6d9c2`; teal is in no table and keeps the default |
| ControlsSidebar.PeachEntry | client/src/components/editor/ControlsSidebar.tsx:40 | Peach previews as `#ffedd5`, `#fde68a` |
| ControlsSidebar.LavenderEntry | client/src/components/editor/ControlsSidebar.tsx:41 | Lavender previews as `#e0e7ff`, `#ddd6fe` |
| ControlsSidebar.SunsetEntry | client/src/components/editor/ControlsSidebar.tsx:42 | Sunset previews as `#ffedd5`, `#fda4af` |
| ControlsSidebar.OceanEntry | client/src/components/editor/ControlsSidebar.tsx:43 | Ocean previews as `#cffafe`, `#bfdbfe` |
| ControlsSidebar.TokenBlue100 | client/src/components/editor/ControlsSidebar.tsx:192 | `blue-100` is blue |
| ControlsSidebar.TokenCyan100 | client/src/components/editor/ControlsSidebar.tsx:214-220 | `cyan-100` is cyan: no earlier name occurs in it |
| ControlsSidebar.TokenPink100 | client/src/components/editor/ControlsSidebar.tsx:192-193 | `pink-100` is pink |
| ControlsSidebar.TokenPurple100 | client/src/components/editor/ControlsSidebar.tsx:214-218 | `purple-100` is purple |
| ControlsSidebar.TokenGreen100 | client/src/components/editor/ControlsSidebar.tsx:192-194 | `green-100` is green |
| ControlsSidebar.TokenTeal100 | client/src/components/editor/ControlsSidebar.tsx:213-222 | `teal-100` matches no family and keeps the default |
| ControlsSidebar.TokenYellow100 | client/src/components/editor/ControlsSidebar.tsx:214-222 | `yellow-100` is yellow |
| ControlsSidebar.TokenIndigo100 | client/src/components/editor/ControlsSidebar.tsx:192-197 | `indigo-100` is indigo |
| ControlsSidebar.TokenRose200 | client/src/components/editor/ControlsSidebar.tsx:214-221 | `rose-200` is rose |
| ControlsSidebar.TokenCyan200 | client/src/components/editor/ControlsSidebar.tsx:192-198 | `cyan-200` is cyan |
| ControlsSidebar.TokenBlue200 | client/src/components/editor/ControlsSidebar.tsx:214 | `blue-200` is blue |
| ControlsSidebar.OrangeToken | client/src/components/editor/ControlsSidebar.tsx:192-195 | `orange-100` and `orange-200` are orange, although they hold every letter of "green" |
| ControlsSidebar.SelectThenSelected | client/src/components/editor/ControlsSidebar.tsx:173-175 | after selecting a gradient it is highlighted exactly when the type was already gradient |
| ControlsSidebar.AtMostOneSelected | client/src/components/editor/ControlsSidebar.tsx:35-44 | no two palette entries share a value, so at most one is highlighted |
| Storage.Patched | server/storage.ts:71 | each supplied field replaces the old one and the id is kept |
| Storage.PatchLaws | server/storage.ts:67-74 | an empty patch changes nothing, and a patch applied twice equals one application |
| Storage.Values | server/storage.ts:37 | the values of a map, listed in key insertion order |
| Storage.ValuesMembers | server/storage.ts:55 | a value is listed exactly when some key in the order maps to it |
| Storage.ListedIff | server/storage.ts:55 | a screenshot is listed exactly when it is stored under its own id |
| Storage.FirstNamed | server/storage.ts:36-40 | the first user in insertion order with that name, or none when nobody has it |
| Storage.FirstNamedAt | server/storage.ts:36-40 | the first index holding the name is the one found |
| Storage.OwnedByMembers | server/storage.ts:54-58 | the filter keeps exactly the screenshots of the user |
| Storage.OwnedByAscending | server/storage.ts:54-58 | the filter keeps the ascending id order |
| Storage.OwnedByStore | server/storage.ts:54-58 | filtering the store lists exactly the user's stored screenshots, in ascending id order |
| Storage.Without | server/storage.ts:77 | deleting a key removes it from the order and keeps every other key |
| Storage.WithoutIncreasing | server/storage.ts:76-78 | deletion keeps the key order increasing |
| Storage.AppendIncreasing | server/storage.ts:42-47 | appending a fresh id above every key keeps the order increasing |
| Storage.MemStorage.constructor | server/storage.ts:24-29 | a new store has empty maps and both counters at 1 |
| Storage.MemStorage.GetUser | server/storage.ts:32-34 | the stored user for the id, or none |
| Storage.MemStorage.GetUserByUsername | server/storage.ts:36-40 | the loop returns the first user in insertion order with that name, or none |
| Storage.MemStorage.CreateUser | server/storage.ts:42-47 | the user gets the current counter as a fresh id, is stored and appended, and the counter grows by one |
| Storage.MemStorage.GetScreenshot | server/storage.ts:50-52 | the stored screenshot for the id, or none |
| Storage.MemStorage.GetScreenshotsByUserId | server/storage.ts:54-58 | exactly the user's stored screenshots, in insertion order |
| Storage.MemStorage.CreateScreenshot | server/storage.ts:60-65 | the screenshot gets the current counter as a fresh id, is stored and appended, and the counter grows by one |
| Storage.MemStorage.UpdateScreenshot | server/storage.ts:67-74 | a missing id yields none and changes nothing; otherwise the patched screenshot replaces the old one in place |
| Storage.MemStorage.DeleteScreenshot | server/storage.ts:76-78 | returns whether the id was present; afterwards it is absent, every other entry is kept and the counter does not go back |
| Text.LowerAscii | client/src/components/editor/WebsiteInputModal.tsx:39 | the `i` flag folds an ASCII capital to its small letter and leaves every other character alone |
| WebsiteInputModal.ProcessUrl | client/src/components/editor/WebsiteInputModal.tsx:38-41 | the processed address always has an http or https scheme, equals the input exactly when the input had one, and ends with the input |
| WebsiteInputModal.ProcessUrlIdempotent | client/src/components/editor/WebsiteInputModal.tsx:38-41 | processing twice is processing once |
| WebsiteInputModal.ProcessUrlAddsHttps | client/src/components/editor/WebsiteInputModal.tsx:38-41 | the result is the input, or `https://` followed by the input when it had no scheme |
| WebsiteInputModal.SchemeIgnoresCase | client/src/components/editor/WebsiteInputModal.tsx:39 | upper-case `HTTP://` and `HTTPS://` count as schemes |
| WebsiteInputModal.NoSchemeWithoutH | client/src/components/editor/WebsiteInputModal.tsx:39-41 | an address not starting with an `h` of either case gets `https://` |
| WebsiteInputModal.CaptureDialog.constructor | client/src/components/editor/WebsiteInputModal.tsx:23-25 | empty address, no error, not loading, nothing captured |
| WebsiteInputModal.CaptureDialog.SetUrl | client/src/components/editor/WebsiteInputModal.tsx:77 | only the address changes |
| WebsiteInputModal.CaptureDialog.HandleSubmit | client/src/components/editor/WebsiteInputModal.tsx:27-52 | an empty address sets "Please enter a URL"; an invalid one sets "Please enter a valid URL" and leaves loading alone; a valid one clears the error, starts loading and captures the processed address once; every captured address has a scheme |

## Left out

- html2canvas rasterisation, FileSaver and client/src/lib/downloadUtils.ts are foreign libraries. Rasterisation is a function parameter, and the outcome of a download is a boolean parameter.
- `atob` is not modelled as base64. It is a parameter that returns the decoded string or fails.
- The `URL` constructor is a validity predicate passed to `HandleSubmit`. URL syntax is not modelled.
- server/services/screenshot.ts, server/controllers/screenshot.ts and server/routes.ts are not part of this model: network fetches, image resizing and HTTP plumbing.
- shared/schema.ts is not part of this model beyond the record shapes of users and screenshots. The database's unique-username constraint does not apply to `MemStorage`, which the model follows.
- The JSX markup, the UI components and the 40 colour swatches are not modelled. `ColorSelect` accepts any colour string.
- The zoom level is never changed from 100, so the canvas carries `scale(1)`. CSS transitions are carried as fixed text.
- Floating point is not modelled. Intensities are integer hundredths, and the other slider values are integers as the step-1 sliders produce them. `toFixed` rounding of values between hundredths does not arise.
- No sidebar offers `phone` or `mac`: the template list at client/src/components/editor/FrameTemplatesSidebar.tsx:9-62 holds seven other ids. The canvas styles those two anyway, and the model keeps those branches and accepts any template id.
- Promises and `async` are not modelled. Every store and canvas operation completes in one step. The file reader's asynchronous `onload` is folded into `HandleFileUpload`.
- A store counter beyond the precision of a JavaScript number is not modelled. Ids are unbounded integers.
- The settings JSON of a screenshot is an opaque string.
- A patch key present with the value `undefined` is not modelled. `ScreenshotPatch` has only present and absent keys.
- `Uint8Array` stores a UTF-16 code unit modulo 256. A Dafny `char` is a Unicode scalar value, so characters above U+FFFF are not modelled as code-unit pairs.
- EditorCanvas.MockScreenshot: the sample image's base64 payload is abbreviated. Only its `data:` prefix and its non-emptiness matter to the model.
- EditorCanvas.Canvas.HandleWebsiteCapture: the catch branch and its "Capture failed" toast are left out, because the calls inside the try cannot throw.
- ControlsSidebar.BorderWidthChange: requires the slider's range 0..10, because the source does not clamp and relies on the slider's bounds.
- ControlsSidebar.BorderRadiusChange: requires the slider's range 0..50, because the source does not clamp and relies on the slider's bounds.
- ControlsSidebar.ShadowIntensityChange: requires the slider's range 0..100, because the source does not clamp and relies on the slider's bounds.
- ControlsSidebar.ShadowBlurChange: requires the slider's range 0..100, because the source does not clamp and relies on the slider's bounds.
- ControlsSidebar.ShadowSpreadChange: requires the slider's range 0..50, because the source does not clamp and relies on the slider's bounds.
- Editor.InitialState and Editor.ResetState state only that there is no image. Their full content is the literal in the source, and `InitialIsReset` relates the two.
