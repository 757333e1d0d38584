/** The image-size picker of the settings panel
    (src/components/ImageSizeControl.jsx): the fixed size presets, the
    preset shown for the current settings, choosing a preset, and typing a
    custom width or height. */
module ImageSizeControl {
  import opened JsValues
  import opened JsStrings
  import opened ChatContext

  /** A preset; `Custom` is the one with no size. */
  datatype Preset = Preset(name: string, width: Option<int>, height: Option<int>)

  const CustomName := "Custom"

  /** `sizePresets`, in order. */
  const Presets: seq<Preset> := [
    Preset("Square (Default)", Some(1024), Some(1024)),
    Preset("Landscape (3:2)", Some(1264), Some(848)),
    Preset("Cinema (16:9)", Some(1280), Some(720)),
    Preset("Tall (9:16)", Some(720), Some(1280)),
    Preset("Portrait (2:3)", Some(848), Some(1264)),
    Preset("Instagram (4:5)", Some(1011), Some(1264)),
    Preset(CustomName, None, None)
  ]

  /** The component's own state: the preset in the select box and the
      numbers in the two custom fields (absent when the field does not
      parse, the `NaN` of `parseInt`). */
  datatype Control = Control(activePreset: string, customWidth: Option<int>, customHeight: Option<int>)

  /** A handler's result: the new component state and the patch handed to
      `updateSettings`, if any. */
  datatype Handled = Handled(control: Control, patch: Option<SettingsPatch>)

  /** `sizePresets.find(preset => preset.width === w && preset.height === h)`,
      as an index. */
  function FindBySize(ps: seq<Preset>, w: int, h: int): (r: Option<nat>)
    ensures r.Some? ==> r.value < |ps| && ps[r.value].width == Some(w) && ps[r.value].height == Some(h)
    ensures r.Some? ==> forall j :: 0 <= j < r.value ==> !(ps[j].width == Some(w) && ps[j].height == Some(h))
    ensures r.None? ==> forall j :: 0 <= j < |ps| ==> !(ps[j].width == Some(w) && ps[j].height == Some(h))
    decreases |ps|
  {
    if |ps| == 0 then None
    else if ps[0].width == Some(w) && ps[0].height == Some(h) then Some(0)
    else match FindBySize(ps[1..], w, h)
      case None => None
      case Some(k) => Some(k + 1)
  }

  /** `sizePresets.find(preset => preset.name === name)`, as an index. */
  function FindByName(ps: seq<Preset>, name: string): (r: Option<nat>)
    ensures r.Some? ==> r.value < |ps| && ps[r.value].name == name
    ensures r.Some? ==> forall j :: 0 <= j < r.value ==> ps[j].name != name
    ensures r.None? ==> forall j :: 0 <= j < |ps| ==> ps[j].name != name
    decreases |ps|
  {
    if |ps| == 0 then None
    else if ps[0].name == name then Some(0)
    else match FindByName(ps[1..], name)
      case None => None
      case Some(k) => Some(k + 1)
  }

  /** The preset shown first: the first whose size is the settings' size,
      otherwise `Custom`. */
  function InitialPreset(settings: Settings): string {
    match FindBySize(Presets, settings.width, settings.height)
    case Some(k) => if Presets[k].name != "" then Presets[k].name else CustomName
    case None => CustomName
  }

  /** The component's first state. */
  function InitialControl(settings: Settings): Control {
    Control(InitialPreset(settings), Some(settings.width), Some(settings.height))
  }

  /** `handlePresetSelect`: the name goes into the select box; a known
      preset other than `Custom` writes its width and height. */
  function SelectPreset(c: Control, name: string): Handled {
    var patch := match FindByName(Presets, name)
      case Some(k) =>
        var p := Presets[k];
        if p.name != CustomName && p.width.Some? && p.height.Some?
        then Some(NoSettings.(width := p.width, height := p.height))
        else None
      case None => None;
    Handled(c.(activePreset := name), patch)
  }

  /** `handleCustomWidthChange`: the field keeps what `parseInt` made of the
      text; only a positive number is written, and only as the width. */
  function CustomWidth(c: Control, text: string): Handled {
    var w := ParseInt(text);
    Handled(c.(customWidth := w), if w.Some? && w.value > 0 then Some(NoSettings.(width := w)) else None)
  }

  /** `handleCustomHeightChange`, the same for the height. */
  function CustomHeight(c: Control, text: string): Handled {
    var h := ParseInt(text);
    Handled(c.(customHeight := h), if h.Some? && h.value > 0 then Some(NoSettings.(height := h)) else None)
  }

  /** The settings after a handler's patch, if any, has been dispatched. */
  function Apply(s: State, h: Handled): State {
    if h.patch.Some? then Reduce(s, UpdateSettings(h.patch.value)) else s
  }

  // ---------------------------------------------------------------------
  // Properties

  /** Every preset but the last has a positive width and height, the last
      is `Custom` with neither, and no two presets share a name or (among
      the sized ones) a size. */
  lemma PresetsWellFormed()
    ensures |Presets| == 7 && Presets[6] == Preset(CustomName, None, None)
    ensures forall i :: 0 <= i < 6 ==>
      Presets[i].width.Some? && Presets[i].width.value > 0 && Presets[i].height.Some? && Presets[i].height.value > 0
    ensures forall i, j :: 0 <= i < j < 7 ==> Presets[i].name != Presets[j].name
    ensures forall i, j :: 0 <= i < j < 6 ==>
      (Presets[i].width, Presets[i].height) != (Presets[j].width, Presets[j].height)
  {
    PresetsShape();
    PresetNamesDistinct();
    PresetSizesDistinct();
  }

  lemma PresetsShape()
    ensures |Presets| == 7 && Presets[6] == Preset(CustomName, None, None)
    ensures forall i :: 0 <= i < 6 ==>
      Presets[i].width.Some? && Presets[i].width.value > 0 && Presets[i].height.Some? && Presets[i].height.value > 0
  {
  }

  lemma PresetNamesDistinct()
    ensures forall i, j :: 0 <= i < j < 7 ==> Presets[i].name != Presets[j].name
  {
    forall i, j | 0 <= i < j < 7 ensures Presets[i].name != Presets[j].name {
      if j == 6 && i == 2 {
        assert Presets[i].name[1] != Presets[j].name[1];
      } else {
        assert Presets[i].name[0] != Presets[j].name[0];
      }
    }
  }

  lemma PresetSizesDistinct()
    ensures forall i, j :: 0 <= i < j < 6 ==>
      (Presets[i].width, Presets[i].height) != (Presets[j].width, Presets[j].height)
  {
  }

  /** The preset shown for given settings is `Custom` exactly when no sized
      preset has their size; otherwise it is the preset of that size. */
  lemma InitialPresetMatches(settings: Settings)
    ensures InitialPreset(settings) == CustomName <==>
      forall i :: 0 <= i < |Presets| ==> !(Presets[i].width == Some(settings.width) && Presets[i].height == Some(settings.height))
    ensures InitialPreset(settings) != CustomName ==>
      exists i :: 0 <= i < 6 && Presets[i].name == InitialPreset(settings)
        && Presets[i].width == Some(settings.width) && Presets[i].height == Some(settings.height)
  {
    PresetsWellFormed();
    var k := FindBySize(Presets, settings.width, settings.height);
    if k.Some? {
      assert k.value < 6;
      assert Presets[k.value].name != CustomName;
    }
  }

  /** Choosing a preset writes a patch exactly when the name is one of the
      six sized presets, and the patch holds that preset's width and height
      and nothing else; the select box shows the name either way. */
  lemma SelectPresetEffect(c: Control, name: string)
    ensures SelectPreset(c, name).control == c.(activePreset := name)
    ensures SelectPreset(c, name).patch.Some? <==> exists i :: 0 <= i < 6 && Presets[i].name == name
    ensures forall i :: 0 <= i < 6 && Presets[i].name == name ==>
      SelectPreset(c, name).patch == Some(NoSettings.(width := Presets[i].width, height := Presets[i].height))
  {
    PresetsWellFormed();
    var k := FindByName(Presets, name);
    if k.Some? && k.value == 6 {
      assert forall i :: 0 <= i < 6 ==> Presets[i].name != name;
    }
  }

  /** Choosing a sized preset and reopening the picker shows that preset
      again. */
  lemma SelectThenInitial(s: State, i: nat)
    requires i < 6
    ensures InitialPreset(Apply(s, SelectPreset(InitialControl(s.settings), Presets[i].name)).settings) == Presets[i].name
  {
    SelectSizedPreset(s, i);
    InitialPresetOfSize(Apply(s, SelectPreset(InitialControl(s.settings), Presets[i].name)).settings, i);
  }

  /** Choosing a sized preset writes its width and height. */
  lemma SelectSizedPreset(s: State, i: nat)
    requires i < 6
    ensures var st := Apply(s, SelectPreset(InitialControl(s.settings), Presets[i].name)).settings;
      Presets[i].width == Some(st.width) && Presets[i].height == Some(st.height)
  {
    PresetsShape();
    SelectPresetEffect(InitialControl(s.settings), Presets[i].name);
  }

  /** Settings of a sized preset's size show that preset. */
  lemma InitialPresetOfSize(st: Settings, i: nat)
    requires i < 6 && Presets[i].width == Some(st.width) && Presets[i].height == Some(st.height)
    ensures InitialPreset(st) == Presets[i].name
  {
    PresetsShape();
    PresetSizesDistinct();
    var k := FindBySize(Presets, st.width, st.height);
    assert k.Some? && k.value <= i;
  }

  /** Dispatching a settings patch merges it into the settings and
      changes nothing else. */
  lemma ApplyPatch(s: State, h: Handled)
    ensures h.patch.None? ==> Apply(s, h) == s
    ensures h.patch.Some? ==> Apply(s, h) == s.(settings := MergeSettings(s.settings, h.patch.value))
    ensures var r := Apply(s, h);
      r.chats == s.chats && r.activeChatId == s.activeChatId && r.isLoading == s.isLoading && r.error == s.error
    ensures Apply(Apply(s, h), h) == Apply(s, h)
    ensures h.patch.Some? && Agrees(h.patch.value, s.settings) ==> Apply(s, h) == s
  {
  }

  /** A custom width is written exactly when the text parses to a positive
      number, and then only the width changes. */
  lemma CustomWidthEffect(s: State, c: Control, text: string)
    ensures CustomWidth(c, text).control == c.(customWidth := ParseInt(text))
    ensures CustomWidth(c, text).patch.Some? <==> ParseInt(text).Some? && ParseInt(text).value > 0
    ensures var w := ParseInt(text);
      Apply(s, CustomWidth(c, text)) == if w.Some? && w.value > 0 then s.(settings := s.settings.(width := w.value)) else s
  {
    ApplyPatch(s, CustomWidth(c, text));
  }

  /** A custom height is written exactly when the text parses to a
      positive number, and then only the height changes. */
  lemma CustomHeightEffect(s: State, c: Control, text: string)
    ensures CustomHeight(c, text).control == c.(customHeight := ParseInt(text))
    ensures CustomHeight(c, text).patch.Some? <==> ParseInt(text).Some? && ParseInt(text).value > 0
    ensures var h := ParseInt(text);
      Apply(s, CustomHeight(c, text)) == if h.Some? && h.value > 0 then s.(settings := s.settings.(height := h.value)) else s
  {
    ApplyPatch(s, CustomHeight(c, text));
  }

  /** Typing a positive number writes exactly that number; typing zero or
      a negative number writes nothing. */
  lemma CustomSizeRoundTrip(s: State, c: Control, n: int)
    ensures Apply(s, CustomWidth(c, IntToString(n))).settings ==
      if n > 0 then s.settings.(width := n) else s.settings
    ensures Apply(s, CustomHeight(c, IntToString(n))).settings ==
      if n > 0 then s.settings.(height := n) else s.settings
  {
    ParseIntRoundTrip(n);
    CustomWidthEffect(s, c, IntToString(n));
    CustomHeightEffect(s, c, IntToString(n));
  }
}
