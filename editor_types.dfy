/** The editor's state record and the partial update that `updateEditorState` accepts.
    Numbers from sliders are integers; the shadow intensity, a fraction in the
    source, is held in hundredths. */
module EditorTypes {
  import opened Wrappers

  datatype BackgroundType = Transparent | Solid | Gradient | Image

  /** `value` is a colour for Solid, a Tailwind-style stop pair for Gradient and an
      image reference for Image. */
  datatype Background = Background(kind: BackgroundType, value: string)

  datatype Border = Border(width: int, color: string, radius: int)

  datatype ShadowPosition = ShadowPosition(x: int, y: int, blur: int, spread: int)

  /** `intensity` is the alpha in hundredths: 20 stands for 0.2. */
  datatype Shadow = Shadow(enabled: bool, color: string, intensity: int, position: ShadowPosition)

  /** Declared by the editor but never read by any renderer; the value is opaque. */
  datatype Effect = Effect(kind: string, value: string)

  /** `image` is `None` for `null`. */
  datatype EditorState = EditorState(
    image: Option<string>,
    frameTemplate: string,
    background: Background,
    border: Border,
    shadow: Shadow,
    effects: seq<Effect>)

  /** `Partial<EditorState>`: a key is supplied exactly when its field is `Some`.
      For `image`, `Some(None)` supplies `null`. */
  datatype EditorUpdate = EditorUpdate(
    image: Option<Option<string>>,
    frameTemplate: Option<string>,
    background: Option<Background>,
    border: Option<Border>,
    shadow: Option<Shadow>,
    effects: Option<seq<Effect>>)

  /** The update with no keys. */
  const NoChanges: EditorUpdate := EditorUpdate(None, None, None, None, None, None)

  /** JavaScript truthiness of `image`: `null` and the empty string are both falsy. */
  predicate HasImage(image: Option<string>) {
    image.Some? && image.value != ""
  }
}
