/**
 * The chat area and the status label, as what is written to them. A line is
 * kept as its sender and a structured notice; `MessageText` gives the text
 * `appendToChat` shows for it.
 */
module Chat {
  import opened Wrappers
  import opened Strings
  import opened Colors
  import opened ColorHistory

  /** The three senders `appendToChat` is called with. */
  datatype Sender = SystemSender | AISender | UserSender

  function SenderName(s: Sender): (name: string)
    ensures name in ["系统", "AI", "您"]
  {
    match s
    case SystemSender => "系统"
    case AISender => "AI"
    case UserSender => "您"
  }

  /** What a chat line says. */
  datatype Notice =
    | Said(text: string)                                 // a description, a reply text, a user command
    | Received(rendered: string)                         // a reply that is neither command nor text
    | Shown(id: string)
    | Hidden(id: string)
    | NotFound(id: string)
    | TextChanged(id: string, newText: string)
    | TextUnsupported(id: string)
    | ColorChanged(id: string, colorText: string)
    | BadColorFormat(colorText: string)
    | StyleSet(id: string)
    | PickerNotFound(id: string)
    | NotAPicker(id: string)
    | UnknownColor(colorText: string)
    | Selected(source: string, color: Color)
    | Applied(source: string, name: string, color: Color)
    | NoSuchHistoryColor(index: int, size: nat)
    | HistoryCleared
    | HistoryEmpty
    | HistoryHeader
    | HistoryEntry(position: nat, color: Color)
    | UnknownCommand(command: string)
    | NotConnected
    | MissingKey
    | KeyHint
    | Connecting
    | Connected

  /** The text shown for a notice. */
  function MessageText(n: Notice): (t: string)
    ensures n.Said? ==> t == n.text
    ensures n.Received? ==> t == "收到响应: " + n.rendered
  {
    match n
    case Said(text) => text
    case Received(rendered) => "收到响应: " + rendered
    case Shown(id) => "✅ 已显示: " + id
    case Hidden(id) => "✅ 已隐藏: " + id
    case NotFound(id) => "❌ 未找到组件: " + id
    case TextChanged(id, text) => "✅ 已修改文本: " + id + " → " + text
    case TextUnsupported(id) => "❌ 组件 " + id + " 不支持文本修改"
    case ColorChanged(id, colorText) => "✅ 已修改颜色: " + id + " → " + colorText
    case BadColorFormat(colorText) => "❌ 颜色格式错误: " + colorText
    case StyleSet(id) => "✅ 已设置样式: " + id
    case PickerNotFound(id) => "❌ 未找到颜色选择器: " + id
    case NotAPicker(id) => "❌ 组件 " + id + " 不是颜色选择器"
    case UnknownColor(colorText) => "❌ 无法识别的颜色: " + colorText
    case Selected(source, c) => SelectedText(source, c)
    case Applied(source, name, c) => AppliedText(source, name, c)
    case NoSuchHistoryColor(index, size) =>
      "❌ 历史颜色" + IntToDecimal(index) + "不存在，当前只有" + NatToDecimal(size) + "个历史颜色"
    case HistoryCleared => "✅ 已清空颜色历史记录"
    case HistoryEmpty => "📭 颜色历史记录为空"
    case HistoryHeader => "🎨 最近使用的颜色："
    case HistoryEntry(i, c) => EntryText(i, c)
    case UnknownCommand(command) => "❌ 未识别的命令类型: " + command
    case NotConnected => "❌ AI 服务未连接，请检查连接状态"
    case MissingKey => "❌ 未找到 QWEN_API_KEY 环境变量"
    case KeyHint => "请设置环境变量: export QWEN_API_KEY=your_key_here"
    case Connecting => "正在连接 Qwen AI 服务..."
    case Connected => "✅ 成功连接到 Qwen AI 助手"
  }

  /** `String.format("  %d. %s (%s)", i + 1, name, hex)`. */
  function EntryText(i: nat, c: Color): string
  {
    EntryHead(i, c) + Parenthesised(ColorToHex(c))
  }

  /** The number and the colour's name, in front of the parenthesised hex. */
  function EntryHead(i: nat, c: Color): string
  {
    "  " + NatToDecimal(i + 1) + ". " + ColorName(c)
  }

  /** `source + "了颜色: " + colorName + " (" + hexColor + ")"`. */
  function SelectedText(source: string, c: Color): string
  {
    source + "了颜色: " + ColorName(c) + Parenthesised(ColorToHex(c))
  }

  /** `String.format("✅ 已将%s应用到%s (%s)", source, name, colorName)`. */
  function AppliedText(source: string, name: string, c: Color): string
  {
    "✅ 已将" + source + "应用到" + name + Parenthesised(ColorName(c))
  }

  function Parenthesised(s: string): string
  {
    " (" + s + ")"
  }

  /** The notices that report a refused operation. */
  predicate IsFailure(n: Notice)
  {
    n.NotFound? || n.TextUnsupported? || n.BadColorFormat? || n.PickerNotFound? || n.NotAPicker?
    || n.UnknownColor? || n.NoSuchHistoryColor? || n.UnknownCommand? || n.NotConnected? || n.MissingKey?
  }

  /** The notices that report a completed operation. */
  predicate IsSuccess(n: Notice)
  {
    n.Shown? || n.Hidden? || n.TextChanged? || n.ColorChanged? || n.StyleSet? || n.Applied?
    || n.HistoryCleared? || n.Connected?
  }

  /** A text whose first character is the mark starts with the one-character mark. */
  lemma MarkedFirst(t: string, mark: string)
    requires |mark| == 1 && |t| >= 1 && t[0] == mark[0]
    ensures StartsWith(t, mark)
  {
    assert t[..1] == mark;
  }

  /** A refusal is shown with a cross in front. */
  lemma FailureMarked(n: Notice)
    requires IsFailure(n)
    ensures StartsWith(MessageText(n), "❌")
  {
    MarkedFirst(MessageText(n), "❌");
  }

  /** A completion is shown with a tick in front. */
  lemma SuccessMarked(n: Notice)
    requires IsSuccess(n)
    ensures StartsWith(MessageText(n), "✅")
  {
    MarkedFirst(MessageText(n), "✅");
  }

  /** One line of the chat area. */
  datatype ChatLine = ChatLine(sender: Sender, notice: Notice)

  function SystemLine(n: Notice): ChatLine
  {
    ChatLine(SystemSender, n)
  }

  /** The status label's text and the colour name passed to `updateStatus`. */
  datatype Status = Status(text: string, color: string)

  /** The line `showColorHistory` writes for entry i (0-based). */
  function EntryLine(i: nat, c: Color): ChatLine
  {
    SystemLine(HistoryEntry(i, c))
  }

  function EntryLines(h: seq<Color>): (lines: seq<ChatLine>)
    ensures |lines| == |h|
    ensures forall i | 0 <= i < |h| :: lines[i] == EntryLine(i, h[i])
  {
    seq(|h|, i requires 0 <= i < |h| => EntryLine(i, h[i]))
  }

  /** What `showColorHistory` writes: a notice for an empty history, else a header and one line per entry. */
  function HistoryListing(h: seq<Color>): seq<ChatLine>
  {
    if h == [] then [SystemLine(HistoryEmpty)] else [SystemLine(HistoryHeader)] + EntryLines(h)
  }

  /** The listing numbers the entries from 1, newest first, one line each after a header. */
  lemma HistoryListingShape(h: seq<Color>)
    ensures |HistoryListing(h)| == Max(1, |h| + 1)
    ensures h == [] <==> HistoryListing(h) == [SystemLine(HistoryEmpty)]
    ensures h != [] ==> HistoryListing(h)[0] == SystemLine(HistoryHeader)
    ensures forall i | 0 <= i < |h| :: HistoryListing(h)[i + 1] == EntryLine(i, h[i])
  {
  }

  lemma HexInParentheses(t: string, head: string, hex: string)
    requires |hex| == 7 && t == head + Parenthesised(hex)
    ensures |t| >= 10 && t[|t| - 10..] == Parenthesised(hex) && t[|t| - 8..|t| - 1] == hex
  {
  }

  /**
   * An entry line ends with the colour's hex in parentheses, which HexToColor
   * reads back as the colour (HexRoundTrip).
   */
  lemma EntryShowsHex(i: nat, c: Color)
    ensures var t := EntryText(i, c);
      |t| >= 10 && t[|t| - 10..] == Parenthesised(ColorToHex(c)) && t[|t| - 8..|t| - 1] == ColorToHex(c)
  {
    HexInParentheses(EntryText(i, c), EntryHead(i, c), ColorToHex(c));
  }

  /** After an add, the listing's first entry is the colour just added, under number 1. */
  lemma ListingAfterAdd(h: seq<Color>, c: Color)
    ensures |HistoryListing(Added(h, c))| >= 2 && HistoryListing(Added(h, c))[1] == EntryLine(0, c)
  {
    AddedHead(h, c);
  }
}
