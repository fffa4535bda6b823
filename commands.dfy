/**
 * The routing half of `executeJsonCommand`: which operation a command object
 * asks for, with which arguments, or why none runs. The command kind is read
 * case-insensitively; a known kind whose required parameters are missing runs
 * nothing.
 */
module Commands {
  import opened Wrappers
  import opened Strings
  import opened Json

  /** The operation a command object selects. */
  datatype Action =
    | ShowComponent(target: string)
    | HideComponent(target: string)
    | ChangeText(target: string, text: string)
    | ChangeColor(target: string, color: string)
    | SetColorPicker(target: string, color: string)
    | SetStyle(target: string, style: string)
    | ShowColorHistory
    | ClearColorHistory
    | ApplyHistoryColor(index: int, component: string)
    | MissingParams            // a known kind without its parameters: nothing runs
    | Unknown(command: string) // the default branch, with the command text as given

  /** The command kinds the switch knows, lower case. */
  const CommandNames: seq<string> := [
    "showcomponent", "hidecomponent", "changetext", "changecolor", "setcolorpicker",
    "setstyle", "showcolorhistory", "clearcolorhistory", "applyhistorycolor"]

  /** The parameters each kind checks with `params.has(...)` before it acts. */
  function RequiredParams(kind: string): seq<string>
  {
    if kind == "changetext" then ["text"]
    else if kind == "changecolor" || kind == "setcolorpicker" then ["color"]
    else if kind == "setstyle" then ["style"]
    else if kind == "applyhistorycolor" then ["index", "target"]
    else []
  }

  /** The kind an action carries out. */
  function ActionKind(a: Action): string
  {
    match a
    case ShowComponent(_) => "showcomponent"
    case HideComponent(_) => "hidecomponent"
    case ChangeText(_, _) => "changetext"
    case ChangeColor(_, _) => "changecolor"
    case SetColorPicker(_, _) => "setcolorpicker"
    case SetStyle(_, _) => "setstyle"
    case ShowColorHistory => "showcolorhistory"
    case ClearColorHistory => "clearcolorhistory"
    case ApplyHistoryColor(_, _) => "applyhistorycolor"
    case MissingParams => ""
    case Unknown(_) => ""
  }

  /** `commandNode.path("params")`; a missing member reads like null, which has no members. */
  function Params(cmd: Json): Json
  {
    if Has(cmd, "params") then Get(cmd, "params") else JNull
  }

  /** `params.has(key)`. */
  predicate HasParam(cmd: Json, key: string)
  {
    Has(Params(cmd), key)
  }

  /** Every one of the keys is a parameter. */
  predicate HasParams(cmd: Json, keys: seq<string>)
  {
    forall k | k in keys :: HasParam(cmd, k)
  }

  /** `commandNode.path("command").asText().toLowerCase()`. */
  function Kind(cmd: Json): string
  {
    ToLower(PathText(cmd, "command"))
  }

  /** The switch of `executeJsonCommand`: the default branch, or the case of a known kind. */
  function Route(cmd: Json, readDouble: string -> Option<int>): (r: Action)
    ensures r.Unknown? <==> Kind(cmd) !in CommandNames
    ensures r.Unknown? ==> r.command == PathText(cmd, "command")
    ensures r.MissingParams? ==> Kind(cmd) in CommandNames
    ensures !r.Unknown? && !r.MissingParams? ==> ActionKind(r) == Kind(cmd)
  {
    var kind := Kind(cmd);
    if kind in CommandNames then KnownRoute(kind, PathText(cmd, "target"), Params(cmd), readDouble)
    else Unknown(PathText(cmd, "command"))
  }

  /** The case of a known kind, given the command's target and parameters. */
  function KnownRoute(kind: string, target: string, params: Json, readDouble: string -> Option<int>): (r: Action)
    requires kind in CommandNames
    ensures !r.Unknown?
    ensures !r.MissingParams? ==> ActionKind(r) == kind
  {
    if kind == "showcomponent" then ShowComponent(target)
    else if kind == "hidecomponent" then HideComponent(target)
    else if kind == "changetext" then
      (if Has(params, "text") then ChangeText(target, PathText(params, "text")) else MissingParams)
    else if kind == "changecolor" then
      (if Has(params, "color") then ChangeColor(target, PathText(params, "color")) else MissingParams)
    else if kind == "setcolorpicker" then
      (if Has(params, "color") then SetColorPicker(target, PathText(params, "color")) else MissingParams)
    else if kind == "setstyle" then
      (if Has(params, "style") then SetStyle(target, PathText(params, "style")) else MissingParams)
    else if kind == "showcolorhistory" then ShowColorHistory
    else if kind == "clearcolorhistory" then ClearColorHistory
    else if Has(params, "index") && Has(params, "target") then
      ApplyHistoryColor(PathInt(params, "index", readDouble), PathText(params, "target"))
    else MissingParams
  }

  /**
   * Nothing runs exactly when the kind is known and one of the parameters it
   * needs is absent.
   */
  lemma RouteMissingParams(cmd: Json, readDouble: string -> Option<int>)
    ensures Route(cmd, readDouble).MissingParams? <==>
      Kind(cmd) in CommandNames && !HasParams(cmd, RequiredParams(Kind(cmd)))
  {
    var kind := Kind(cmd);
    var keys := RequiredParams(kind);
    if Route(cmd, readDouble).MissingParams? {
      if kind == "applyhistorycolor" {
        assert !HasParam(cmd, "index") || !HasParam(cmd, "target");
        assert "index" in keys && "target" in keys;
      } else if kind == "setstyle" {
        assert !HasParam(cmd, "style") && "style" in keys;
      } else if kind == "changetext" {
        assert !HasParam(cmd, "text") && "text" in keys;
      } else {
        assert !HasParam(cmd, "color") && "color" in keys;
      }
    }
  }

  /** Every argument of a routed action is read from the command object. */
  lemma RouteArguments(cmd: Json, readDouble: string -> Option<int>)
    ensures var r := Route(cmd, readDouble);
      (r.ShowComponent? || r.HideComponent? || r.ChangeText? || r.ChangeColor? || r.SetColorPicker? || r.SetStyle?)
        ==> r.target == PathText(cmd, "target")
    ensures Route(cmd, readDouble).ChangeText? ==> Route(cmd, readDouble).text == PathText(Params(cmd), "text")
    ensures Route(cmd, readDouble).ChangeColor? ==> Route(cmd, readDouble).color == PathText(Params(cmd), "color")
    ensures Route(cmd, readDouble).SetColorPicker? ==> Route(cmd, readDouble).color == PathText(Params(cmd), "color")
    ensures Route(cmd, readDouble).SetStyle? ==> Route(cmd, readDouble).style == PathText(Params(cmd), "style")
    ensures Route(cmd, readDouble).ApplyHistoryColor? ==>
      Route(cmd, readDouble).index == PathInt(Params(cmd), "index", readDouble) && Route(cmd, readDouble).component == PathText(Params(cmd), "target")
  {
  }

  /** The command object with its `command` member set to a text. */
  function WithCommand(fields: map<string, Json>, name: string): Json
  {
    JObj(fields["command" := JStr(name)])
  }

  /** The kind is matched case-insensitively: upper-casing letters of it changes nothing. */
  lemma RouteIgnoresCase(fields: map<string, Json>, name: string, other: string, readDouble: string -> Option<int>)
    requires ToLower(name) == ToLower(other)
    ensures Route(WithCommand(fields, name), readDouble).Unknown? == Route(WithCommand(fields, other), readDouble).Unknown?
    ensures !Route(WithCommand(fields, name), readDouble).Unknown? ==>
      Route(WithCommand(fields, name), readDouble) == Route(WithCommand(fields, other), readDouble)
  {
    assert Kind(WithCommand(fields, name)) == ToLower(name);
    assert Kind(WithCommand(fields, other)) == ToLower(other);
    assert Params(WithCommand(fields, name)) == Params(WithCommand(fields, other));
    assert PathText(WithCommand(fields, name), "target") == PathText(WithCommand(fields, other), "target");
  }
}
