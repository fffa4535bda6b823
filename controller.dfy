/**
 * `AIController`: the registry of controllable widgets, the colour history,
 * the chat transcript and the status line, and the operations the AI's JSON
 * commands run on them. JavaFX nodes are updated in place, so a widget is an
 * object; the sample button and the title label are the same objects the
 * registry holds.
 *
 * `Platform.runLater` and the asynchronous client calls are taken to run at
 * once and in order. The chat area and the status label are modelled by what
 * is written to them: a transcript of (sender, notice) lines and the last
 * (text, colour) status.
 */
module Controller {
  import opened Wrappers
  import opened Strings
  import opened Json
  import opened Colors
  import opened ColorHistory
  import opened ColorParsing
  import opened Styles
  import opened Widgets
  import opened Chat
  import Commands
  import opened Qwen

  /** Reference 1 (or anything clamped to it) names the colour added last. */
  lemma LatestColorFirst(s: string, h: seq<Color>, c: Color)
    requires HistoryIndex(IndexText(s)).Some? && HistoryIndex(IndexText(s)).value <= 1
    ensures ParseHistoryColorIndex(s, Added(h, c)) == Some(c)
  {
    AddedHead(h, c);
  }

  /** The line the colour picker's onAction handler writes when it runs. */
  function HandlerLines(handled: bool, c: Color): seq<ChatLine>
  {
    if handled then [SystemLine(Selected("手动选择", c))] else []
  }

  /** The title label after one selection, or two when the handler ran as well. */
  function TitleFills(handled: bool, c: Color, style: string): string
  {
    if handled then TitleStyle(c, TitleStyle(c, style)) else TitleStyle(c, style)
  }

  function NotFoundLine(id: string): ChatLine
  {
    SystemLine(NotFound(id))
  }

  /** What `handleQwenResponse` shows for a reply that is not a command: its text, its raw text, or the rendered JSON. */
  function ReplyNotice(j: Json, codec: Codec): (n: Notice)
    ensures Has(j, "text") ==> n == Said(AsText(Get(j, "text")))
    ensures !Has(j, "text") && Has(j, "raw_response") ==> n == Said(AsText(Get(j, "raw_response")))
    ensures !Has(j, "text") && !Has(j, "raw_response") ==> n == Received(codec.render(j))
  {
    if Has(j, "text") then Said(AsText(Get(j, "text")))
    else if Has(j, "raw_response") then Said(AsText(Get(j, "raw_response")))
    else Received(codec.render(j))
  }

  /** `String.format("历史颜色%d", index)`: how an applied history colour is described. */
  function HistorySource(index: int): string
  {
    "历史颜色" + IntToDecimal(index)
  }

  /** Whether an action completes, judged on the registry and history before it runs. */
  predicate Succeeds(a: Commands.Action, registry: map<string, Widget>, history: seq<Color>, parsers: ColorParsers)
  {
    match a
    case ShowComponent(target) => target in registry
    case HideComponent(target) => target in registry
    case ChangeText(target, _) => target in registry && HasText(registry[target].kind)
    case ChangeColor(target, color) => target in registry && ParseColorString(color, history, parsers).Some?
    case SetColorPicker(target, color) =>
      target in registry && registry[target].kind == ColorPicker && ParseColorString(color, history, parsers).Some?
    case SetStyle(target, _) => target in registry
    case ShowColorHistory => true
    case ClearColorHistory => true
    case ApplyHistoryColor(index, component) => 1 <= index <= |history| && component in registry
    case MissingParams => false
    case Unknown(_) => false
  }

  /** The history after an action: a colour that was set is recorded, a clear empties it. */
  function HistoryAfter(a: Commands.Action, registry: map<string, Widget>, history: seq<Color>, parsers: ColorParsers): seq<Color>
  {
    match a
    case ChangeColor(_, color) =>
      if Succeeds(a, registry, history, parsers) then Added(history, ParseColorString(color, history, parsers).value)
      else history
    case SetColorPicker(_, color) =>
      if Succeeds(a, registry, history, parsers) then Added(history, ParseColorString(color, history, parsers).value)
      else history
    case ClearColorHistory => []
    case _ => history
  }

  /** What a colour command's outcome and new history mean in terms of Succeeds and HistoryAfter. */
  lemma ColorActionOutcome(a: Commands.Action, registry: map<string, Widget>, history: seq<Color>,
                           parsers: ColorParsers, ok: bool, after: seq<Color>)
    requires a.ChangeColor? || a.SetColorPicker?
    requires ok <==>
      a.target in registry && (a.SetColorPicker? ==> registry[a.target].kind == ColorPicker)
      && ParseColorString(a.color, history, parsers).Some?
    requires !ok ==> after == history
    requires ok ==> after == Added(history, ParseColorString(a.color, history, parsers).value)
    ensures ok == Succeeds(a, registry, history, parsers)
    ensures after == HistoryAfter(a, registry, history, parsers)
  {
  }

  class AIController {
    var registry: map<string, Widget>
    var history: seq<Color>
    var transcript: seq<ChatLine>
    var status: Status
    var client: QwenClient?
    const btn1: Widget?
    const titleLabel: Widget?
    const commandInput: Widget?
    const colorPicker: Widget?
    const systemPrompt: string
    const parsers: ColorParsers
    const codec: Codec

    /**
     * The history invariant; the sample button, the title label, the
     * command input field and the colour picker are what their names say.
     */
    predicate Valid()
      reads this
    {
      ValidHistory(history)
      && (btn1 != null ==> btn1.kind == Button)
      && (titleLabel != null ==> titleLabel.kind == Label)
      && (commandInput != null ==> commandInput.kind == TextField)
      && (colorPicker != null ==> colorPicker.kind == ColorPicker)
    }

    /** The registered widget for an id, as a frame. */
    function Lookup(id: string): set<Widget>
      reads this
    {
      if id in registry then {registry[id]} else {}
    }

    constructor (btn1: Widget?, titleLabel: Widget?, commandInput: Widget?, colorPicker: Widget?,
                 systemPrompt: string, parsers: ColorParsers, codec: Codec)
      requires btn1 != null ==> btn1.kind == Button
      requires titleLabel != null ==> titleLabel.kind == Label
      requires commandInput != null ==> commandInput.kind == TextField
      requires colorPicker != null ==> colorPicker.kind == ColorPicker
      ensures Valid()
      ensures this.btn1 == btn1 && this.titleLabel == titleLabel && this.commandInput == commandInput
      ensures this.colorPicker == colorPicker
      ensures this.systemPrompt == systemPrompt
      ensures this.parsers == parsers && this.codec == codec
      ensures registry == map[] && history == [] && transcript == [] && client == null
      ensures status == Status("初始化中...", "orange")
    {
      this.btn1 := btn1;
      this.titleLabel := titleLabel;
      this.commandInput := commandInput;
      this.colorPicker := colorPicker;
      this.systemPrompt := systemPrompt;
      this.parsers := parsers;
      this.codec := codec;
      registry := map[];
      history := [];
      transcript := [];
      client := null;
      status := Status("初始化中...", "orange");
    }

    /** `registerComponent`: binds the id to the node, replacing an earlier binding. */
    method RegisterComponent(id: string, w: Widget)
      requires Valid()
      modifies this
      ensures registry == old(registry)[id := w]
      ensures Valid()
      ensures history == old(history) && transcript == old(transcript) && status == old(status)
      ensures client == old(client)
    {
      registry := registry[id := w];
    }

    /**
     * `initializeQwenConnection`: without a non-blank key only the notice and a
     * red status; otherwise a client with the handler set, connected.
     */
    method InitializeQwenConnection(apiKey: Option<string>)
      requires Valid()
      modifies this
      ensures registry == old(registry) && history == old(history)
      ensures Valid()
      ensures apiKey.None? || Trim(apiKey.value) == [] ==>
        client == old(client) && status == Status("需要 API 密钥", "red")
        && transcript == old(transcript) + [SystemLine(MissingKey),
                                            SystemLine(KeyHint)]
      ensures apiKey.Some? && Trim(apiKey.value) != [] ==>
        client != null && fresh(client) && client.isInitialized && client.hasHandler && client.sent == []
        && client.apiKey == apiKey.value && client.systemPrompt == systemPrompt && client.codec == codec
        && status == Status("已连接", "green")
        && transcript == old(transcript) + [SystemLine(Connecting), SystemLine(Connected)]
    {
      if apiKey.None? || Trim(apiKey.value) == [] {
        transcript := transcript + [SystemLine(MissingKey),
                                    SystemLine(KeyHint)];
        status := Status("需要 API 密钥", "red");
        return;
      }
      transcript := transcript + [SystemLine(Connecting)];
      var c := new QwenClient(apiKey.value, systemPrompt, codec);
      client := c;
      c.SetResponseHandler();
      var success := c.Connect();
      // connect() always completes with true, so its failure notice never appears
      transcript := transcript + [SystemLine(Connected)];
      status := Status("已连接", "green");
    }

    /** `addToColorHistory`: the history becomes `Added(history, c)`, and stays valid. */
    method AddToColorHistory(c: Color)
      requires Valid()
      modifies this
      ensures registry == old(registry) && transcript == old(transcript) && status == old(status)
      ensures Valid()
      ensures history == Added(old(history), c)
      ensures client == old(client)
    {
      AddedValid(history, c);
      history := WithoutHex(history, ColorToHex(c));
      history := [c] + history;
      if |history| > MaxHistorySize {
        history := history[..|history| - 1];
      }
    }

    /** `clearColorHistory`: empties the history and always succeeds. */
    method ClearColorHistory() returns (ok: bool)
      requires Valid()
      modifies this
      ensures registry == old(registry) && status == old(status) && client == old(client)
      ensures Valid()
      ensures ok && history == []
      ensures transcript == old(transcript) + [SystemLine(HistoryCleared)]
    {
      history := [];
      transcript := transcript + [SystemLine(HistoryCleared)];
      ok := true;
    }

    /** `showColorHistory`: writes `HistoryListing(history)` and always succeeds. */
    method ShowColorHistory() returns (ok: bool)
      requires Valid()
      modifies this
      ensures registry == old(registry) && history == old(history) && status == old(status)
      ensures Valid()
      ensures ok && transcript == old(transcript) + HistoryListing(history)
      ensures client == old(client)
    {
      ok := true;
      if history == [] {
        transcript := transcript + [SystemLine(HistoryEmpty)];
        return;
      }
      transcript := transcript + [SystemLine(HistoryHeader)];
      var i := 0;
      while i < |history|
        invariant 0 <= i <= |history|
        invariant transcript == old(transcript) + [SystemLine(HistoryHeader)] + EntryLines(history[..i])
        invariant registry == old(registry) && history == old(history) && status == old(status)
        invariant client == old(client)
      {
        assert EntryLines(history[..i + 1]) == EntryLines(history[..i]) + [EntryLine(i, history[i])];
        transcript := transcript + [EntryLine(i, history[i])];
        i := i + 1;
      }
      assert history[..|history|] == history;
    }

    /** `applyColorToComponent`: restyles the node (see AppliedStyle) and reports it; it always succeeds. */
    method ApplyColorToComponent(w: Widget, c: Color, source: string) returns (ok: bool)
      modifies this, w
      ensures registry == old(registry) && history == old(history) && status == old(status)
      ensures ok
      ensures w.style == AppliedStyle(w.kind, c, old(w.style)) && OnlyStyleChanged(w)
      ensures transcript == old(transcript) + [SystemLine(Applied(source, ComponentName(w), c))]
      ensures client == old(client)
    {
      var style := AppliedStyle(w.kind, c, w.style);
      w.SetStyle(style);
      transcript := transcript + [SystemLine(Applied(source, ComponentName(w), c))];
      ok := true;
    }

    /**
     * `applyHistoryColorByIndex`: index is 1-based. An index outside
     * 1..size, or an unknown id, is reported and changes nothing; otherwise
     * entry index - 1 is applied to the node.
     */
    method ApplyHistoryColorByIndex(index: int, componentId: string) returns (ok: bool)
      requires Valid()
      modifies this, Lookup(componentId)
      ensures registry == old(registry) && history == old(history) && status == old(status)
      ensures Valid()
      ensures ok <==> 1 <= index <= |old(history)| && componentId in registry
      ensures !(1 <= index <= |old(history)|) ==>
        transcript == old(transcript) + [SystemLine(NoSuchHistoryColor(index, |old(history)|))]
      ensures 1 <= index <= |old(history)| && componentId !in registry ==>
        transcript == old(transcript) + [NotFoundLine(componentId)]
      ensures !ok ==> componentId !in registry || unchanged(old(registry)[componentId])
      ensures ok ==>
        registry[componentId].style ==
          AppliedStyle(registry[componentId].kind, old(history)[index - 1], old(registry[componentId].style))
        && transcript == old(transcript) + [SystemLine(Applied(HistorySource(index), ComponentName(registry[componentId]), old(history)[index - 1]))]
        && registry[componentId].visible == old(registry[componentId].visible)
        && registry[componentId].managed == old(registry[componentId].managed)
        && registry[componentId].text == old(registry[componentId].text)
        && registry[componentId].pickerValue == old(registry[componentId].pickerValue)
      ensures client == old(client)
    {
      var internalIndex := index - 1;
      if internalIndex < 0 || internalIndex >= |history| {
        transcript := transcript + [SystemLine(NoSuchHistoryColor(index, |history|))];
        return false;
      }
      var c := history[internalIndex];
      if componentId !in registry {
        transcript := transcript + [NotFoundLine(componentId)];
        return false;
      }
      ok := ApplyColorToComponent(registry[componentId], c, HistorySource(index));
    }

    /** `showComponent`: a registered node becomes visible and managed, whatever it was. */
    method ShowComponent(id: string) returns (ok: bool)
      requires Valid()
      modifies this, Lookup(id)
      ensures registry == old(registry) && history == old(history) && status == old(status)
      ensures Valid()
      ensures ok <==> id in registry
      ensures ok ==>
        registry[id].visible && registry[id].managed
        && registry[id].style == old(registry[id].style) && registry[id].text == old(registry[id].text)
        && registry[id].pickerValue == old(registry[id].pickerValue)
        && transcript == old(transcript) + [SystemLine(Shown(id))]
      ensures !ok ==> transcript == old(transcript) + [NotFoundLine(id)]
      ensures client == old(client)
    {
      if id !in registry {
        transcript := transcript + [NotFoundLine(id)];
        return false;
      }
      var w := registry[id];
      w.SetVisible(true);
      w.SetManaged(true);
      transcript := transcript + [SystemLine(Shown(id))];
      ok := true;
    }

    /** `hideComponent`: a registered node becomes invisible and unmanaged, whatever it was. */
    method HideComponent(id: string) returns (ok: bool)
      requires Valid()
      modifies this, Lookup(id)
      ensures registry == old(registry) && history == old(history) && status == old(status)
      ensures Valid()
      ensures ok <==> id in registry
      ensures ok ==>
        !registry[id].visible && !registry[id].managed
        && registry[id].style == old(registry[id].style) && registry[id].text == old(registry[id].text)
        && registry[id].pickerValue == old(registry[id].pickerValue)
        && transcript == old(transcript) + [SystemLine(Hidden(id))]
      ensures !ok ==> transcript == old(transcript) + [NotFoundLine(id)]
      ensures client == old(client)
    {
      if id !in registry {
        transcript := transcript + [NotFoundLine(id)];
        return false;
      }
      var w := registry[id];
      w.SetVisible(false);
      w.SetManaged(false);
      transcript := transcript + [SystemLine(Hidden(id))];
      ok := true;
    }

    /** `changeText`: labels, buttons and text inputs take the text; other kinds are refused. */
    method ChangeText(id: string, text: string) returns (ok: bool)
      requires Valid()
      modifies this, Lookup(id)
      ensures registry == old(registry) && history == old(history) && status == old(status)
      ensures Valid()
      ensures ok <==> id in registry && HasText(registry[id].kind)
      ensures ok ==>
        registry[id].text == text
        && registry[id].style == old(registry[id].style) && registry[id].visible == old(registry[id].visible)
        && registry[id].managed == old(registry[id].managed)
        && registry[id].pickerValue == old(registry[id].pickerValue)
        && transcript == old(transcript) + [SystemLine(TextChanged(id, text))]
      ensures id !in registry ==> transcript == old(transcript) + [NotFoundLine(id)]
      ensures id in registry && !HasText(registry[id].kind) ==>
        unchanged(old(registry)[id]) && transcript == old(transcript) + [SystemLine(TextUnsupported(id))]
      ensures client == old(client)
    {
      if id !in registry {
        transcript := transcript + [NotFoundLine(id)];
        return false;
      }
      var w := registry[id];
      if !HasText(w.kind) {
        transcript := transcript + [SystemLine(TextUnsupported(id))];
        return false;
      }
      w.SetText(text);
      transcript := transcript + [SystemLine(TextChanged(id, text))];
      ok := true;
    }

    /**
     * `changeColor`: appends the colour pair to the node's style as it is, with
     * no cleaning, and records the colour in the history. A text that does not
     * name a colour is reported and changes nothing.
     */
    method ChangeColor(id: string, colorText: string) returns (ok: bool)
      requires Valid()
      modifies this, Lookup(id)
      ensures registry == old(registry) && status == old(status) && client == old(client)
      ensures Valid()
      ensures ok <==> id in registry && ParseColorString(colorText, old(history), parsers).Some?
      ensures !ok ==> history == old(history)
      ensures old(transcript) <= transcript
      ensures id !in registry ==> transcript == old(transcript) + [NotFoundLine(id)]
      ensures id in registry && ParseColorString(colorText, old(history), parsers).None? ==>
        unchanged(old(registry)[id]) && transcript == old(transcript) + [SystemLine(BadColorFormat(colorText))]
      ensures ok ==> var c := ParseColorString(colorText, old(history), parsers).value;
        registry[id].style == old(registry[id].style) + ColorStyle(ColorToHex(c), TextFill(c))
        && OnlyStyleChanged(registry[id])
        && history == Added(old(history), c)
        && transcript == old(transcript) + [SystemLine(ColorChanged(id, colorText))]
    {
      if id !in registry {
        transcript := transcript + [NotFoundLine(id)];
        return false;
      }
      ok := ChangeRegisteredColor(registry[id], id, colorText, ParseColorString(colorText, history, parsers));
    }

    /** `changeColor` once the node is found, given what the text parsed to. */
    method ChangeRegisteredColor(w: Widget, id: string, colorText: string, parsed: Option<Color>) returns (ok: bool)
      requires Valid()
      modifies this, w
      ensures registry == old(registry) && status == old(status) && client == old(client)
      ensures Valid()
      ensures ok <==> parsed.Some?
      ensures !ok ==>
        unchanged(w) && history == old(history)
        && transcript == old(transcript) + [SystemLine(BadColorFormat(colorText))]
      ensures ok ==>
        w.style == old(w.style) + ColorStyle(ColorToHex(parsed.value), TextFill(parsed.value)) && OnlyStyleChanged(w)
        && history == Added(old(history), parsed.value)
        && transcript == old(transcript) + [SystemLine(ColorChanged(id, colorText))]
    {
      if parsed.None? {
        transcript := transcript + [SystemLine(BadColorFormat(colorText))];
        return false;
      }
      Recolour(w, parsed.value, id, colorText);
      ok := true;
    }

    /** The effect of a successful `changecolor`: the pair appended to the style, the colour recorded. */
    method Recolour(w: Widget, c: Color, id: string, colorText: string)
      requires Valid()
      modifies this, w
      ensures registry == old(registry) && status == old(status) && client == old(client)
      ensures Valid()
      ensures w.style == old(w.style) + ColorStyle(ColorToHex(c), TextFill(c)) && OnlyStyleChanged(w)
      ensures history == Added(old(history), c)
      ensures transcript == old(transcript) + [SystemLine(ColorChanged(id, colorText))]
    {
      w.SetStyle(w.style + ColorStyle(ColorToHex(c), TextFill(c)));
      transcript := transcript + [SystemLine(ColorChanged(id, colorText))];
      AddToColorHistory(c);
    }

    /** `setStyle`: replaces the node's whole style. */
    method SetStyle(id: string, style: string) returns (ok: bool)
      requires Valid()
      modifies this, Lookup(id)
      ensures registry == old(registry) && history == old(history) && status == old(status)
      ensures Valid()
      ensures ok <==> id in registry
      ensures ok ==>
        registry[id].style == style
        && registry[id].text == old(registry[id].text) && registry[id].visible == old(registry[id].visible)
        && registry[id].managed == old(registry[id].managed)
        && registry[id].pickerValue == old(registry[id].pickerValue)
        && transcript == old(transcript) + [SystemLine(StyleSet(id))]
      ensures !ok ==> transcript == old(transcript) + [NotFoundLine(id)]
      ensures client == old(client)
    {
      if id !in registry {
        transcript := transcript + [NotFoundLine(id)];
        return false;
      }
      registry[id].SetStyle(style);
      transcript := transcript + [SystemLine(StyleSet(id))];
      ok := true;
    }

    /**
     * `applyColorToSampleComponents`: the sample button gets the colour pair in
     * front of its cleaned style, the title label an appended text fill.
     */
    method ApplyColorToSampleComponents(c: Color)
      requires Valid()
      modifies btn1, titleLabel
      ensures btn1 != null ==>
        btn1.style == SampleButtonStyle(c, old(btn1.style))
        && btn1.text == old(btn1.text) && btn1.visible == old(btn1.visible)
        && btn1.managed == old(btn1.managed) && btn1.pickerValue == old(btn1.pickerValue)
      ensures titleLabel != null ==>
        titleLabel.style == TitleStyle(c, old(titleLabel.style))
        && titleLabel.text == old(titleLabel.text) && titleLabel.visible == old(titleLabel.visible)
        && titleLabel.managed == old(titleLabel.managed) && titleLabel.pickerValue == old(titleLabel.pickerValue)
    {
      var hex := ColorToHex(c);
      var textColor := TextFill(c);
      if btn1 != null {
        var cleaned := RemoveColorProperties(btn1.style);
        btn1.SetStyle(ColorStyle(hex, textColor) + cleaned);
      }
      if titleLabel != null {
        titleLabel.SetStyle(titleLabel.style + TextFillStyle(hex));
      }
    }

    /** `handleColorSelection`: records the colour, reports it, and recolours the sample widgets. */
    method HandleColorSelection(c: Color, source: string)
      requires Valid()
      modifies this, btn1, titleLabel
      ensures registry == old(registry) && status == old(status) && client == old(client)
      ensures Valid()
      ensures history == Added(old(history), c)
      ensures transcript == old(transcript) + [SystemLine(Selected(source, c))]
      ensures btn1 != null ==>
        btn1.style == SampleButtonStyle(c, old(btn1.style))
        && btn1.text == old(btn1.text) && btn1.visible == old(btn1.visible)
        && btn1.managed == old(btn1.managed) && btn1.pickerValue == old(btn1.pickerValue)
      ensures titleLabel != null ==>
        titleLabel.style == TitleStyle(c, old(titleLabel.style))
        && titleLabel.text == old(titleLabel.text) && titleLabel.visible == old(titleLabel.visible)
        && titleLabel.managed == old(titleLabel.managed) && titleLabel.pickerValue == old(titleLabel.pickerValue)
    {
      AddToColorHistory(c);
      transcript := transcript + [SystemLine(Selected(source, c))];
      ApplyColorToSampleComponents(c);
    }

    /**
     * `setColorPickerValue`: only a registered colour picker, and only a text
     * that names a colour; then the picker shows it and the colour is handled
     * as a selection.
     */
    method SetColorPickerValue(id: string, colorText: string) returns (ok: bool)
      requires Valid()
      modifies this, Lookup(id), btn1, titleLabel
      ensures registry == old(registry) && status == old(status) && client == old(client)
      ensures Valid()
      ensures ok <==>
                      id in registry && registry[id].kind == ColorPicker
                      && ParseColorString(colorText, old(history), parsers).Some?
      ensures !ok ==> history == old(history)
      ensures old(transcript) <= transcript
      ensures id !in registry ==>
        transcript == old(transcript) + [SystemLine(PickerNotFound(id))] && history == old(history)
      ensures id in registry && registry[id].kind != ColorPicker ==>
        transcript == old(transcript) + [SystemLine(NotAPicker(id))] && history == old(history)
      ensures (id in registry && registry[id].kind == ColorPicker
               && ParseColorString(colorText, old(history), parsers).None?) ==>
        transcript == old(transcript) + [SystemLine(UnknownColor(colorText))] && history == old(history)
      ensures !ok ==>
        (id !in registry || unchanged(old(registry)[id]))
        && (btn1 != null ==> unchanged(btn1)) && (titleLabel != null ==> unchanged(titleLabel))
      ensures ok ==> var c := ParseColorString(colorText, old(history), parsers).value;
        var w := registry[id];
        var handled := w == colorPicker && old(w.pickerValue) != c;
        w.pickerValue == c && history == Added(old(history), c)
        && transcript == old(transcript) + HandlerLines(handled, c) + [SystemLine(Selected("通过AI指令设置", c))]
        && (btn1 != null ==> btn1.style == SampleButtonStyle(c, old(btn1.style)))
        && (titleLabel != null ==> titleLabel.style == TitleFills(handled, c, old(titleLabel.style)))
    {
      if id !in registry {
        transcript := transcript + [SystemLine(PickerNotFound(id))];
        return false;
      }
      var w := registry[id];
      if w.kind != ColorPicker {
        transcript := transcript + [SystemLine(NotAPicker(id))];
        return false;
      }
      var parsed := ParseColorString(colorText, history, parsers);
      if parsed.None? {
        transcript := transcript + [SystemLine(UnknownColor(colorText))];
        return false;
      }
      ShowInPicker(w, parsed.value);
      ok := true;
    }

    /**
     * The effect of a successful `setcolorpicker`: the picker shows the
     * colour. On the registered colour picker a changed value fires its
     * onAction handler, a "手动选择" selection, before the command's own
     * selection; the history and the sample button end as after one.
     */
    method ShowInPicker(w: Widget, c: Color)
      requires Valid() && w.kind == ColorPicker
      modifies this, w, btn1, titleLabel
      ensures registry == old(registry) && status == old(status) && client == old(client)
      ensures Valid()
      ensures var handled := w == colorPicker && old(w.pickerValue) != c;
        w.pickerValue == c && history == Added(old(history), c)
        && transcript == old(transcript) + HandlerLines(handled, c) + [SystemLine(Selected("通过AI指令设置", c))]
        && (btn1 != null ==> btn1.style == SampleButtonStyle(c, old(btn1.style)))
        && (titleLabel != null ==> titleLabel.style == TitleFills(handled, c, old(titleLabel.style)))
    {
      var handled := w == colorPicker && w.pickerValue != c;
      w.SetValue(c);
      if handled {
        HandleColorSelection(c, "手动选择");
        HandleColorSelection(c, "通过AI指令设置");
        AddedTwice(old(history), c);
        if btn1 != null {
          SampleButtonLastColorWins(c, c, old(btn1.style));
        }
      } else {
        HandleColorSelection(c, "通过AI指令设置");
      }
    }

    /** The node operations of the switch. */
    method RunWidgetAction(a: Commands.Action) returns (ok: bool)
      requires Valid()
      requires a.ShowComponent? || a.HideComponent? || a.ChangeText? || a.SetStyle?
      modifies this, registry.Values
      ensures registry == old(registry) && client == old(client) && status == old(status)
      ensures history == old(history)
      ensures Valid()
      ensures ok == Succeeds(a, old(registry), old(history), parsers)
      ensures old(transcript) <= transcript
      ensures a.ShowComponent? && ok ==> registry[a.target].visible && registry[a.target].managed
      ensures a.HideComponent? && ok ==> !registry[a.target].visible && !registry[a.target].managed
      ensures a.ChangeText? && ok ==> registry[a.target].text == a.text
      ensures a.SetStyle? && ok ==> registry[a.target].style == a.style
    {
      match a {
        case ShowComponent(target) =>
          ok := ShowComponent(target);
        case HideComponent(target) =>
          ok := HideComponent(target);
        case ChangeText(target, text) =>
          ok := ChangeText(target, text);
        case SetStyle(target, style) =>
          ok := SetStyle(target, style);
      }
    }

    /** The `changecolor` case of the switch. */
    method RunChangeColor(a: Commands.Action) returns (ok: bool)
      requires Valid() && a.ChangeColor?
      modifies this, registry.Values, btn1, titleLabel
      ensures registry == old(registry) && client == old(client) && status == old(status)
      ensures Valid()
      ensures ok == Succeeds(a, old(registry), old(history), parsers)
      ensures history == HistoryAfter(a, old(registry), old(history), parsers)
      ensures old(transcript) <= transcript
    {
      ok := ChangeColor(a.target, a.color);
      ColorActionOutcome(a, old(registry), old(history), parsers, ok, history);
    }

    /** The `setcolorpicker` case of the switch. */
    method RunSetColorPicker(a: Commands.Action) returns (ok: bool)
      requires Valid() && a.SetColorPicker?
      modifies this, registry.Values, btn1, titleLabel
      ensures registry == old(registry) && client == old(client) && status == old(status)
      ensures Valid()
      ensures ok == Succeeds(a, old(registry), old(history), parsers)
      ensures history == HistoryAfter(a, old(registry), old(history), parsers)
      ensures old(transcript) <= transcript
    {
      ok := SetColorPickerValue(a.target, a.color);
      ColorActionOutcome(a, old(registry), old(history), parsers, ok, history);
    }

    /** The `applyhistorycolor` case of the switch. */
    method RunApplyHistoryColor(a: Commands.Action) returns (ok: bool)
      requires Valid() && a.ApplyHistoryColor?
      modifies this, registry.Values, btn1, titleLabel
      ensures registry == old(registry) && client == old(client) && status == old(status)
      ensures Valid()
      ensures ok == Succeeds(a, old(registry), old(history), parsers)
      ensures history == HistoryAfter(a, old(registry), old(history), parsers)
      ensures old(transcript) <= transcript
      ensures ok ==>
        registry[a.component].style ==
          AppliedStyle(registry[a.component].kind, old(history)[a.index - 1], old(registry[a.component].style))
    {
      ok := ApplyHistoryColorByIndex(a.index, a.component);
    }

    /** The switch of `executeJsonCommand`: runs the routed operation, or reports an unknown kind. */
    method RunAction(a: Commands.Action) returns (ok: bool)
      requires Valid()
      modifies this, registry.Values, btn1, titleLabel
      ensures registry == old(registry) && client == old(client) && status == old(status)
      ensures Valid()
      ensures ok == Succeeds(a, old(registry), old(history), parsers)
      ensures history == HistoryAfter(a, old(registry), old(history), parsers)
      ensures old(transcript) <= transcript
      ensures a.Unknown? ==> transcript == old(transcript) + [SystemLine(UnknownCommand(a.command))]
      ensures a.MissingParams? ==> transcript == old(transcript) && unchanged(registry.Values)
      ensures a.ShowColorHistory? ==> transcript == old(transcript) + HistoryListing(history)
      ensures a.ClearColorHistory? ==> transcript == old(transcript) + [SystemLine(HistoryCleared)]
    {
      match a {
        case ShowComponent(_) =>
          ok := RunWidgetAction(a);
        case HideComponent(_) =>
          ok := RunWidgetAction(a);
        case ChangeText(_, _) =>
          ok := RunWidgetAction(a);
        case SetStyle(_, _) =>
          ok := RunWidgetAction(a);
        case ChangeColor(_, _) =>
          ok := RunChangeColor(a);
        case SetColorPicker(_, _) =>
          ok := RunSetColorPicker(a);
        case ApplyHistoryColor(_, _) =>
          ok := RunApplyHistoryColor(a);
        case ShowColorHistory =>
          ok := ShowColorHistory();
        case ClearColorHistory =>
          ok := ClearColorHistory();
        case MissingParams =>
          ok := false;
        case Unknown(command) =>
          transcript := transcript + [SystemLine(UnknownCommand(command))];
          ok := false;
      }
    }

    /**
     * `executeJsonCommand`: writes the description first, runs what Route
     * selects, and sets the status from the outcome.
     */
    method ExecuteJsonCommand(cmd: Json) returns (ok: bool)
      requires Valid()
      modifies this, registry.Values, btn1, titleLabel
      ensures registry == old(registry) && client == old(client)
      ensures Valid()
      ensures ok == Succeeds(Commands.Route(cmd, codec.readDouble), old(registry), old(history), parsers)
      ensures history == HistoryAfter(Commands.Route(cmd, codec.readDouble), old(registry), old(history), parsers)
      ensures old(transcript) + [ChatLine(AISender, Said(PathText(cmd, "description")))] <= transcript
      ensures status == if ok then Status("命令执行成功", "green") else Status("执行失败", "orange")
      ensures Commands.Route(cmd, codec.readDouble).Unknown? ==>
        transcript == old(transcript) + [ChatLine(AISender, Said(PathText(cmd, "description"))),
                                         SystemLine(UnknownCommand(PathText(cmd, "command")))]
      ensures Commands.Route(cmd, codec.readDouble).MissingParams? ==>
        transcript == old(transcript) + [ChatLine(AISender, Said(PathText(cmd, "description")))]
    {
      var description := PathText(cmd, "description");
      transcript := transcript + [ChatLine(AISender, Said(description))];
      var action := Commands.Route(cmd, codec.readDouble);
      ok := RunAction(action);
      if ok {
        status := Status("命令执行成功", "green");
      } else {
        status := Status("执行失败", "orange");
      }
    }

    /**
     * `handleQwenResponse`: a decoded command with a description runs; a text
     * or raw reply is shown; anything else is shown as rendered JSON.
     */
    method HandleQwenResponse(response: string)
      requires Valid()
      modifies this, registry.Values, btn1, titleLabel
      ensures registry == old(registry) && client == old(client)
      ensures Valid()
      ensures var j := ParseAIResponse(response, codec);
        Has(j, "command") && Has(j, "description") ==>
          old(transcript) + [ChatLine(AISender, Said(PathText(j, "description")))] <= transcript
          && (status == Status("命令执行成功", "green") || status == Status("执行失败", "orange"))
      ensures var j := ParseAIResponse(response, codec);
        !(Has(j, "command") && Has(j, "description")) ==>
          history == old(history) && status == Status("就绪", "green")
          && transcript == old(transcript) + [ChatLine(AISender, ReplyNotice(j, codec))]
    {
      var parsed := ParseAIResponse(response, codec);
      if Has(parsed, "command") && Has(parsed, "description") {
        var _ := ExecuteJsonCommand(parsed);
      } else if Has(parsed, "text") {
        transcript := transcript + [ChatLine(AISender, Said(AsText(Get(parsed, "text"))))];
        status := Status("就绪", "green");
      } else if Has(parsed, "raw_response") {
        transcript := transcript + [ChatLine(AISender, Said(AsText(Get(parsed, "raw_response"))))];
        status := Status("就绪", "green");
      } else {
        transcript := transcript + [ChatLine(AISender, Received(codec.render(parsed)))];
        status := Status("就绪", "green");
      }
    }

    /**
     * `executeNaturalLanguageCommand`: reads the command input field. A blank
     * command does nothing; without a connected client a red notice; otherwise
     * the trimmed command is shown and sent, and the field is cleared.
     */
    method ExecuteNaturalLanguageCommand()
      requires Valid() && commandInput != null
      modifies this, client, commandInput
      ensures registry == old(registry) && history == old(history) && client == old(client)
      ensures Valid()
      ensures var command := Trim(old(commandInput.text));
        command == [] ==>
          transcript == old(transcript) && status == old(status)
          && unchanged(commandInput) && (client != null ==> unchanged(client))
      ensures var command := Trim(old(commandInput.text));
        command != [] && (client == null || !old(client.isInitialized)) ==>
          transcript == old(transcript) + [SystemLine(NotConnected)]
          && status == Status("未连接", "red")
          && unchanged(commandInput) && (client != null ==> unchanged(client))
      ensures var command := Trim(old(commandInput.text));
        command != [] && client != null && old(client.isInitialized) ==>
          transcript == old(transcript) + [ChatLine(UserSender, Said(command))]
          && status == Status("AI 思考中...", "orange")
          && client.sent == old(client.sent) + [BuildRequest(client.systemPrompt, command)]
          && client.isInitialized && client.hasHandler == old(client.hasHandler)
          && commandInput.text == []
          && commandInput.visible == old(commandInput.visible) && commandInput.managed == old(commandInput.managed)
          && commandInput.style == old(commandInput.style) && commandInput.pickerValue == old(commandInput.pickerValue)
    {
      var command := Trim(commandInput.text);
      if command == [] {
        return;
      }
      var connected := false;
      if client != null {
        connected := client.IsConnected();
      }
      if !connected {
        transcript := transcript + [SystemLine(NotConnected)];
        status := Status("未连接", "red");
        return;
      }
      transcript := transcript + [ChatLine(UserSender, Said(command))];
      status := Status("AI 思考中...", "orange");
      client.SendInstruction(command);
      commandInput.SetText("");
    }
  }

  /**
   * A failed HTTP status reaches the chat as "收到响应: " and the rendered
   * `{error: "API Error"}`, under a green "就绪" status: neither the status code
   * nor the body survives the decoder.
   */
  lemma HttpErrorShownAsReady(status: int, body: string, codec: Codec)
    requires status != 200
    requires codec.parse(codec.render(HttpErrorObject(status, body))) == Parsed(HttpErrorObject(status, body))
    ensures var j := ParseAIResponse(HandlerPayload(Reply(status, body), codec), codec);
      !Has(j, "command") && !Has(j, "text") && !Has(j, "raw_response")
      && j == JObj(map["error" := JStr("API Error")])
  {
    HttpErrorDetailLost(status, body, codec);
  }
}
