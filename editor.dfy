/** The editor page (client/src/pages/Editor.tsx): one `EditorState` held by the
    page, replaced by a shallow top-level merge on every update, and reset to the
    same state the page starts with. */
module Editor {
  import opened Wrappers
  import opened EditorTypes

  /** The state the page is created with. */
  function InitialState(): (st: EditorState)
    ensures !HasImage(st.image)
  {
    EditorState(
      None,
      "standard",
      Background(Transparent, "transparent"),
      Border(0, "#000000", 8),
      Shadow(true, "#000000", 20, ShadowPosition(0, 10, 15, 0)),
      [])
  }

  /** The state `handleReset` installs; written out separately in the source. */
  function ResetState(): (st: EditorState)
    ensures !HasImage(st.image)
  {
    EditorState(
      None,
      "standard",
      Background(Transparent, "transparent"),
      Border(0, "#000000", 8),
      Shadow(true, "#000000", 20, ShadowPosition(0, 10, 15, 0)),
      [])
  }

  /** `{ ...prev, ...updates }`: every supplied key replaces the previous value
      wholesale, every other key is kept. */
  function Merge(prev: EditorState, u: EditorUpdate): (st: EditorState)
    ensures u.image.Some? ==> st.image == u.image.value
    ensures u.image.None? ==> st.image == prev.image
    ensures u.frameTemplate.Some? ==> st.frameTemplate == u.frameTemplate.value
    ensures u.frameTemplate.None? ==> st.frameTemplate == prev.frameTemplate
    ensures u.background.Some? ==> st.background == u.background.value
    ensures u.background.None? ==> st.background == prev.background
    ensures u.border.Some? ==> st.border == u.border.value
    ensures u.border.None? ==> st.border == prev.border
    ensures u.shadow.Some? ==> st.shadow == u.shadow.value
    ensures u.shadow.None? ==> st.shadow == prev.shadow
    ensures u.effects.Some? ==> st.effects == u.effects.value
    ensures u.effects.None? ==> st.effects == prev.effects
  {
    EditorState(
      if u.image.Some? then u.image.value else prev.image,
      if u.frameTemplate.Some? then u.frameTemplate.value else prev.frameTemplate,
      if u.background.Some? then u.background.value else prev.background,
      if u.border.Some? then u.border.value else prev.border,
      if u.shadow.Some? then u.shadow.value else prev.shadow,
      if u.effects.Some? then u.effects.value else prev.effects)
  }

  /** `{ ...first, ...second }` for two partial states: the later key wins. */
  function Then(first: EditorUpdate, second: EditorUpdate): EditorUpdate {
    EditorUpdate(
      if second.image.Some? then second.image else first.image,
      if second.frameTemplate.Some? then second.frameTemplate else first.frameTemplate,
      if second.background.Some? then second.background else first.background,
      if second.border.Some? then second.border else first.border,
      if second.shadow.Some? then second.shadow else first.shadow,
      if second.effects.Some? then second.effects else first.effects)
  }

  /** The update that touches only the frame template. */
  function FrameTemplateUpdate(templateId: string): EditorUpdate {
    NoChanges.(frameTemplate := Some(templateId))
  }

  /** The update that touches only the image. */
  function ImageUpdate(imageData: string): EditorUpdate {
    NoChanges.(image := Some(Some(imageData)))
  }

  // ---------------------------------------------------------------------------
  // Properties of the state model

  /** The page starts in exactly the state a reset produces. */
  lemma InitialIsReset()
    ensures InitialState() == ResetState()
  {
  }

  /** An update without keys leaves the state as it is. */
  lemma MergeNoChanges(st: EditorState)
    ensures Merge(st, NoChanges) == st
  {
  }

  /** Applying the same update twice is applying it once. */
  lemma MergeIdempotent(st: EditorState, u: EditorUpdate)
    ensures Merge(Merge(st, u), u) == Merge(st, u)
  {
  }

  /** Two merges in a row are one merge of the spread of both updates. */
  lemma MergeThen(st: EditorState, first: EditorUpdate, second: EditorUpdate)
    ensures Merge(Merge(st, first), second) == Merge(st, Then(first, second))
  {
  }

  /** An update that supplies every key makes the result independent of the previous state. */
  lemma MergeFull(st: EditorState, earlier: EditorUpdate, full: EditorUpdate)
    requires full.image.Some? && full.frameTemplate.Some? && full.background.Some?
    requires full.border.Some? && full.shadow.Some? && full.effects.Some?
    ensures Merge(st, full) == Merge(Merge(st, earlier), full)
  {
  }

  /** A template change alters the template alone. */
  lemma FrameTemplateOnly(st: EditorState, templateId: string)
    ensures Merge(st, FrameTemplateUpdate(templateId)) == st.(frameTemplate := templateId)
  {
  }

  /** An upload alters the image alone, and afterwards there is an image unless the data is empty. */
  lemma ImageOnly(st: EditorState, imageData: string)
    ensures Merge(st, ImageUpdate(imageData)) == st.(image := Some(imageData))
    ensures HasImage(Merge(st, ImageUpdate(imageData)).image) <==> imageData != ""
  {
  }

  /** The page: the one mutable `editorState` and the callbacks it hands to its children. */
  class EditorPage {
    var state: EditorState

    constructor()
      ensures state == InitialState()
    {
      state := InitialState();
    }

    /** `updateEditorState`: shallow merge of the partial state into the current one. */
    method UpdateEditorState(u: EditorUpdate)
      modifies this
      ensures state == Merge(old(state), u)
    {
      state := Merge(state, u);
    }

    method HandleFrameTemplateChange(templateId: string)
      modifies this
      ensures state == old(state).(frameTemplate := templateId)
    {
      UpdateEditorState(FrameTemplateUpdate(templateId));
    }

    method HandleImageUpload(imageData: string)
      modifies this
      ensures state == old(state).(image := Some(imageData))
    {
      UpdateEditorState(ImageUpdate(imageData));
    }

    /** Replaces the whole state, whatever it was, by the reset state. */
    method HandleReset()
      modifies this
      ensures state == ResetState() && state == InitialState()
    {
      state := ResetState();
    }
  }
}
