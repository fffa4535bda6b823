# JavaFX AI Assistant: colour history, styles, command dispatch and the Qwen client

The application is a JavaFX window driven by a language model. A user types an
instruction. `QwenClient` posts it to the DashScope chat-completions endpoint.
`parseAIResponse` decodes the reply into a JSON value. `AIController` then runs
the JSON command it carries on a registry of named widgets.

This project models those parts of `AIController` and `QwenClient`:

- **Colour history** (`ColorHistory`, `Controller.AIController.AddToColorHistory`).
  A list of at most eight colours, newest first, with no two entries sharing a hex text.
  A colour is three integer channels 0..255, so hex equality is exact.
  The history is read back through `historycolor N` / `历史颜色N` references.
  `ColorParsing.ParseHistoryColorIndex` clamps the index into `1..size`.
- **Colour names and hex** (`Colors`).
  `colorToHex`, the ten presets, `getColorName` and `getChineseColorName`.
- **Style strings** (`Styles`, `Widgets`).
  `removeColorProperties` is both a specification function and the StringBuilder loop proved against it.
  The regular-expression clean used by `applyColorToComponent` is modelled separately.
  So are the styles the colour operations leave on the sample button and the title label.
- **Registry and dispatcher** (`Commands`, `Controller`).
  `AIController` is a class over a `map<string, Widget>` of JavaFX nodes, which are objects updated in place.
  `Commands.Route` is the `switch` of `executeJsonCommand`, with its parameter checks.
  Each operation is a method whose postcondition gives the node's new fields and the chat lines it writes.
  For the dispatcher, `Succeeds` and `HistoryAfter` give the outcome and the new history.
- **Qwen client** (`Qwen`).
  The modelled parts:
  - the `parseAIResponse` decision tree and its fence stripping
  - the request envelope
  - the text handed to the response handler for each HTTP outcome
  - the `isInitialized` flag behind `connect`, `sendInstruction` and `isConnected`

Text-to-JSON parsing and JSON rendering belong to Jackson and org.json. They are a
`Codec` value of uninterpreted functions. The parser is partial: it returns `Parsed` or
`ParseError`. A third function is `Double.parseDouble` as Jackson's `asInt` falls back on it. `Color.web` and the double-based `rgb(...)` reader are left to JavaFX.
They are likewise passed in as a `ColorParsers` value. The chat area is modelled
as the transcript of (sender, notice) lines written to it. The status label is
the last (text, colour name) pair given to `updateStatus`.

Some behaviour of the code is easy to misread; the model does what the code does:

- Which key source wins: `initializeQwenConnection` reads the `qwen.api.key` property first and falls back to `QWEN_API_KEY`.
  The model takes the key that lookup yields as a parameter.
- `close()` only logs. The client stays connected (`Qwen.QwenClient.Close`).
- A non-200 HTTP status gives the handler `{error: "HTTP n", message: body}`, not a red status with the code and body.
  `parseAIResponse` sees a root `error` that is not an object and keeps only `"API Error"`.
  The chat then shows the rendered `{"error":"API Error"}` under a green "就绪" status
  (`Qwen.HttpErrorDetailLost`, `Controller.HttpErrorShownAsReady`).
- A known command without its required parameter writes no error line.
  Only the orange "执行失败" status shows it (`Controller.AIController.ExecuteJsonCommand`).
- `connect()` always completes with `true`, so the "连接 Qwen 服务失败" branch never runs.
- JavaFX's `Color.GREEN` is `#008000`, while the preset table keys it as `"#00FF00"`.
  `getColorName` names `#008000` 绿色 and shows pure green `#00FF00` as its hex (`Colors.GreenPresetNaming`).

## Model

| member | source | states |
|---|---|---|
| Colors.HexDigit | src/main/java/com/example/AIController.java:743 | a digit 0..15 becomes the upper-case hex character whose value it is |
| Colors.HexByte | src/main/java/com/example/AIController.java:743 | `%02X` of a channel is exactly two upper-case hex digits |
| Colors.ColorToHex | src/main/java/com/example/AIController.java:742-747 | the text is `#` followed by six upper-case hex digits |
| Colors.HexRoundTrip | src/main/java/com/example/AIController.java:742-747 | reading the hex text back gives the colour again |
| Colors.HexInjective | src/main/java/com/example/AIController.java:754 | two colours have the same hex exactly when they are equal, so the hex dedup of the history compares colours |
| Colors.TextFill | src/main/java/com/example/AIController.java:825 | the text colour is black exactly for a bright colour and white exactly for the others |
| Colors.ChineseColorName | src/main/java/com/example/AIController.java:925-939 | a preset hex gets its Chinese name from the table; any other text is returned as it is |
| Colors.ColorName | src/main/java/com/example/AIController.java:908-920 | the Chinese name of the first preset whose colour has the colour's hex, otherwise the hex itself |
| Colors.PresetKeyFor | src/main/java/com/example/AIController.java:912-919 | the preset scan finds nothing only when no preset colour has the hex |
| Colors.PresetKeyForFirst | src/main/java/com/example/AIController.java:912-916 | the scan returns the key of the first preset whose colour has the hex |
| Colors.PresetKeyForNone | src/main/java/com/example/AIController.java:912-919 | the scan returns nothing when no preset from the start index on has the hex |
| Colors.PresetHexes | src/main/java/com/example/AIController.java:115-124 | the hex texts of the ten JavaFX constants in the preset table, GREEN being `#008000` |
| Colors.PresetColorsDistinct | src/main/java/com/example/AIController.java:115-124 | the ten preset colours are pairwise different, so the hash order of the scan does not matter |
| Colors.PresetNames | src/main/java/com/example/AIController.java:908-920 | every preset colour other than GREEN is keyed by its own hex and named by the Chinese name of that key |
| Colors.GreenNamed | src/main/java/com/example/AIController.java:116 | GREEN (`#008000`) is found under the key `"#00FF00"` and named 绿色 |
| Colors.PureGreenHex | src/main/java/com/example/AIController.java:743 | rgb(0, 255, 0) prints as `#00FF00` |
| Colors.PureGreenUnnamed | src/main/java/com/example/AIController.java:908-920 | pure green matches no preset colour and is shown by its hex |
| Colors.GreenPresetNaming | src/main/java/com/example/AIController.java:114-125 | pure green is named `#00FF00` while GREEN is named 绿色 |
| ColorHistory.WithoutHex | src/main/java/com/example/AIController.java:754 | `removeIf` by hex keeps no entry with the hex, keeps only old entries, and keeps every entry with another hex |
| ColorHistory.AddedBounded | src/main/java/com/example/AIController.java:757-762 | with at most eight entries before an add there are between one and eight after it |
| ColorHistory.AddedHead | src/main/java/com/example/AIController.java:754-757 | after adding c, entry 0 is c and no other entry has c's hex |
| ColorHistory.AddedEntries | src/main/java/com/example/AIController.java:754-762 | after an add, entry i (i >= 1) is the (i - 1)-th surviving older entry, so the old order is kept |
| ColorHistory.WithoutHexDistinct | src/main/java/com/example/AIController.java:754 | removing the entries with a hex keeps pairwise-distinct hexes distinct |
| ColorHistory.WithoutHexAvoids | src/main/java/com/example/AIController.java:754 | a hex that no entry has is not had by any entry kept |
| ColorHistory.DistinctCons | src/main/java/com/example/AIController.java:757 | putting in front a colour whose hex no entry has keeps the hexes distinct |
| ColorHistory.AddedDistinct | src/main/java/com/example/AIController.java:754-762 | distinct hexes before an add means distinct hexes after it |
| ColorHistory.AddedValid | src/main/java/com/example/AIController.java:752-766 | the history invariant (at most eight entries, distinct hexes) survives every add |
| ColorHistory.WithoutAbsentHex | src/main/java/com/example/AIController.java:754 | when no entry has the hex, nothing is removed |
| ColorHistory.WithoutPresentHex | src/main/java/com/example/AIController.java:754 | in a history with distinct hexes, exactly the one entry with the hex is removed and the rest keep their order |
| ColorHistory.AddedWhenPresent | src/main/java/com/example/AIController.java:754-762 | re-adding a colour whose hex is at entry k moves it to the front; the others keep their order and none is evicted |
| ColorHistory.AddedTwice | src/main/java/com/example/AIController.java:750-763 | adding the history's newest colour again leaves the history as it was |
| ColorHistory.AddedWhenAbsent | src/main/java/com/example/AIController.java:754-762 | a new hex goes in front of the whole history; only when eight entries are already there is the oldest dropped |
| ColorParsing.HistoryIndex | src/main/java/com/example/AIController.java:706-721 | the value of a Chinese numeral, otherwise what `Integer.parseInt` makes of the text, digits of every Unicode decimal block included |
| ColorParsing.ChineseNumeralsDenote | src/main/java/com/example/AIController.java:707-714 | 一..八 denote 1..8 |
| ColorParsing.Clamp | src/main/java/com/example/AIController.java:724 | the result lies in [lo, hi]: it is n inside the range and the nearer bound outside it |
| ColorParsing.ParseHistoryColorIndex | src/main/java/com/example/AIController.java:694-736 | none for an empty history or an unreadable index; otherwise entry clamp(n, 1, size) - 1, for every n including 0, negatives and values past the size |
| ColorParsing.FullWidthIndex | src/main/java/com/example/AIController.java:720 | a full-width digit reads as its value |
| ColorParsing.IndexTextOfWordAndChar | src/main/java/com/example/AIController.java:697-703 | removing the reference words from "历史颜色" and a non-blank character leaves that character |
| ColorParsing.FullWidthReference | src/main/java/com/example/AIController.java:694-736 | "历史颜色" and a full-width digit d names entry clamp(d, 1, size) - 1, so "历史颜色１" is the newest entry |
| ColorParsing.HistoryEntryAt | src/main/java/com/example/AIController.java:724-730 | an index selects the entry it clamps to; no index or no history selects none |
| ColorParsing.ParseColorString | src/main/java/com/example/AIController.java:597-600 | a blank colour text names no colour |
| ColorParsing.HistoryReferenceIsLocal | src/main/java/com/example/AIController.java:602-610 | a history reference is resolved from the history alone, whatever `Color.web` and the `rgb(...)` reader do |
| ColorParsing.NamesAreNotOtherForms | src/main/java/com/example/AIController.java:644-676 | a table name is neither a history reference, nor a hex text, nor `rgb(...)`, and no name is in both tables |
| ColorParsing.NamesReachTables | src/main/java/com/example/AIController.java:605-680 | a table name passes the history, hex and `rgb(...)` branches and reaches the name lookup |
| ColorParsing.NamedColorsResolve | src/main/java/com/example/AIController.java:644-680 | a Chinese or English colour name, in any ASCII case and with blanks around it, parses to the table's colour |
| Controller.LatestColorFirst | src/main/java/com/example/AIController.java:694-736 | after adding c, reference 1, or any index clamped to 1, gives c |
| Strings.ReplaceAll | src/main/java/com/example/AIController.java:697-703 | a text without the pattern is unchanged |
| Strings.Trim | src/main/java/com/example/AIController.java:871 | nothing is left to trim at either end, and every character of the result comes from the input |
| Strings.TrimIsMiddle | src/main/java/com/example/AIController.java:871 | the trim is one contiguous middle of the text, and only characters up to U+0020 lie before and after it |
| Strings.TrimIdempotent | src/main/java/com/example/AIController.java:871 | trimming twice is trimming once |
| Strings.Split | src/main/java/com/example/AIController.java:867 | there is at least one piece, and no piece contains the separator |
| Strings.JoinSplit | src/main/java/com/example/AIController.java:867 | joining the pieces with the separator gives the string back |
| Strings.SplitAround | src/main/java/com/example/AIController.java:867 | splitting `x;y` gives the pieces of x followed by the pieces of y |
| Strings.SplitWithout | src/main/java/com/example/AIController.java:867 | a text without the separator is one piece |
| Strings.ToLower | src/main/java/com/example/AIController.java:602 | same length; each ASCII capital becomes its small letter and every other character is kept |
| Strings.ToLowerIdempotent | src/main/java/com/example/AIController.java:284 | lower-casing twice is lower-casing once |
| Strings.NatToDecimal | src/main/java/com/example/AIController.java:955 | `%d` of a non-negative value is a non-empty string of digits |
| Strings.ParseJavaInt | src/main/java/com/example/AIController.java:720 | a value only within the 32-bit range, for a sign or digit followed by digits of any Unicode decimal block; non-negative unless the text starts with '-' |
| Strings.DigitsOfDecimal | src/main/java/com/example/AIController.java:955 | the digits `%d` prints have the number's value |
| Strings.ParseIntOfDecimal | src/main/java/com/example/AIController.java:720 | `Integer.parseInt` reads back every 32-bit value that `%d` prints |
| Strings.DigitZero | src/main/java/com/example/AIController.java:720 | the zero of the decimal-digit block holding the code point, or -1 when no block holds it |
| Strings.JavaDigit | src/main/java/com/example/AIController.java:720 | a character is a digit exactly when a digit block holds it, and its value lies in 0..9 |
| Strings.AsciiDigit | src/main/java/com/example/AIController.java:720 | an ASCII digit has its own value |
| Strings.FullWidthDigit | src/main/java/com/example/AIController.java:720 | a full-width digit U+FF10..U+FF19 has the value of its ASCII twin |
| Strings.DigitsValueTwins | src/main/java/com/example/AIController.java:720 | digits of another block read as the ASCII digits with the same values |
| Strings.Utf16Prefix | src/main/java/com/example/QwenClient.java:345 | a prefix of at most n UTF-16 units, the whole text when it fits, and no longer prefix fits |
| Strings.Utf16PrefixBmp | src/main/java/com/example/QwenClient.java:345 | on text without supplementary characters the cut keeps the first min(n, length) characters |
| Json.Path | src/main/java/com/example/AIController.java:273-276 | `path` yields a member exactly when `has` holds, and it is that member |
| Json.AsText | src/main/java/com/example/AIController.java:273 | a string node's text is its own string; a fractional number's text is the one the parser recorded |
| Json.PathText | src/main/java/com/example/AIController.java:273-276 | a missing member reads as ""; otherwise the member's text |
| Json.WrapInt32 | src/main/java/com/example/AIController.java:319 | the result is a 32-bit value, equal to the input when the input fits |
| Json.PathInt | src/main/java/com/example/AIController.java:319 | 0 for a missing member; integral numbers wrap to 32 bits, fractional ones saturate, booleans are 1 or 0, text is read as `TextAsInt` reads it, anything else is 0 |
| Json.SaturateInt32 | src/main/java/com/example/AIController.java:319 | a `(int)` cast of a double: the value when it fits, the nearer bound otherwise |
| Json.TextAsInt | src/main/java/com/example/AIController.java:319 | Jackson's `asInt` of a text node is a 32-bit value, 0 for blank text |
| Json.TextAsIntOfDecimal | src/main/java/com/example/AIController.java:319 | every 32-bit value printed in decimal reads back as itself |
| Json.TextAsIntDecimalFallback | src/main/java/com/example/AIController.java:319 | a text with a non-digit goes through `Double.parseDouble`, truncated and saturated, and is 0 where that throws |
| Styles.WithoutColors | src/main/java/com/example/AIController.java:872-875 | no kept declaration is a background, text-fill or border colour |
| Styles.Declarations | src/main/java/com/example/AIController.java:870-874 | at most one declaration per piece, each non-empty with nothing to trim at either end |
| Styles.Terminated | src/main/java/com/example/AIController.java:876 | empty exactly for no declarations; otherwise the text ends with "; " |
| Styles.CleanedStyle | src/main/java/com/example/AIController.java:861-881 | an empty style cleans to ""; any other result ends with "; " |
| Styles.RemoveColorProperties | src/main/java/com/example/AIController.java:861-881 | the StringBuilder loop over the pieces builds exactly CleanedStyle: "" for an empty style, otherwise each kept declaration followed by "; " |
| Styles.TrimmedPieces | src/main/java/com/example/AIController.java:871 | one trimmed text per piece, in order |
| Styles.KeptDeclarationsMembers | src/main/java/com/example/AIController.java:870-877 | a declaration is kept exactly when it is non-empty, not a colour declaration, and the trim of some piece |
| Styles.DeclarationsConcat | src/main/java/com/example/AIController.java:870-878 | the pieces are judged one at a time: the declarations of two lists joined are those of each, in order |
| Styles.WithoutColorsConcat | src/main/java/com/example/AIController.java:872-875 | the colour filter works element by element, keeping order |
| Styles.TerminatedConcat | src/main/java/com/example/AIController.java:876 | appending "; "-terminated declarations to the builder concatenates their texts |
| Styles.DeclarationsOfTerminated | src/main/java/com/example/AIController.java:876 | a text of declarations each followed by "; " splits back into exactly those declarations |
| Styles.DeclarationsOfCleaned | src/main/java/com/example/AIController.java:861-881 | splitting the cleaned style again gives exactly the kept declarations of the original, in order |
| Styles.CleanedStyleIdempotent | src/main/java/com/example/AIController.java:861-881 | cleaning a cleaned style changes nothing |
| Styles.WithoutColorsOfClean | src/main/java/com/example/AIController.java:872-875 | a list without colour declarations passes the filter unchanged |
| Styles.RecolouredDeclarations | src/main/java/com/example/AIController.java:833-842 | the new colour pair followed by a cleaned style has the pair's two declarations and then the kept declarations |
| Styles.AppendedTextFill | src/main/java/com/example/AIController.java:854 | appending a text fill to a style that ends in `;` adds exactly one declaration after the old ones |
| Styles.TextFillDeclarations | src/main/java/com/example/AIController.java:850-853 | a text-fill style alone has one declaration |
| Styles.AfterValue | src/main/java/com/example/AIController.java:397 | `[^;]*;?` leaves a suffix of the text |
| Styles.AfterValueSkips | src/main/java/com/example/AIController.java:397 | `[^;]*;?` consumes a value and its `;` and nothing more |
| Styles.StripBackground | src/main/java/com/example/AIController.java:397 | a style without `-fx-background-color:` is unchanged |
| Styles.RegexCleaned | src/main/java/com/example/AIController.java:396-399 | the cleaned prior style has nothing left to trim at either end |
| Styles.BackgroundDeclarationRemoved | src/main/java/com/example/AIController.java:397 | a background declaration is removed whole, value and `;` included, and the rest is cleaned the same way |
| Styles.RewrittenBackgroundDropped | src/main/java/com/example/AIController.java:392-401 | the background written in front by `applyColorToComponent` is removed again by its next clean |
| Styles.RegexCleanedPlain | src/main/java/com/example/AIController.java:396-399 | a style without a background declaration or a doubled `;` is only trimmed |
| Widgets.Widget.SetStyle | src/main/java/com/example/AIController.java:524 | the style is replaced and no other field changes |
| Widgets.Widget.SetVisible | src/main/java/com/example/AIController.java:348 | the visible flag is set and no other field changes |
| Widgets.Widget.SetManaged | src/main/java/com/example/AIController.java:349 | the managed flag is set and no other field changes |
| Widgets.Widget.SetText | src/main/java/com/example/AIController.java:459-466 | the text is set and no other field changes |
| Widgets.Widget.SetValue | src/main/java/com/example/AIController.java:559 | the picker value is set and no other field changes |
| Widgets.HexIsValue | src/main/java/com/example/AIController.java:392 | a hex text has no `;` and nothing to trim, so it is one whole value |
| Widgets.ComponentName | src/main/java/com/example/AIController.java:428-436 | "按钮: " or "标签: " and the text for a button or a label, otherwise the id, or "未命名组件" without one |
| Widgets.AppliedStyle | src/main/java/com/example/AIController.java:385-412 | a region gets the region step, a labelled node the labelled step, a node that is both gets both in that order, any other node keeps its style |
| Widgets.RegionStyle | src/main/java/com/example/AIController.java:394-400 | the new background declaration, a blank, then the regex-cleaned prior style |
| Widgets.LabeledStyle | src/main/java/com/example/AIController.java:403-407 | the style as it was, a blank, then the contrasting text fill |
| Widgets.ReapplyRegion | src/main/java/com/example/AIController.java:390-402 | on a region, a second colour's background replaces the first's and the kept style is cleaned again |
| Widgets.FirstFillKept | src/main/java/com/example/AIController.java:396-410 | the clean drops the first background and keeps the text fill appended after it |
| Widgets.ReapplyLabeled | src/main/java/com/example/AIController.java:390-412 | on a labelled node the first colour's text fill stays behind the kept style when a second colour is applied |
| Widgets.ReapplyReplacesBackground | src/main/java/com/example/AIController.java:385-412 | applying a second colour to a region gives what applying it to the first application's kept style gives |
| Widgets.SampleButtonDeclarations | src/main/java/com/example/AIController.java:828-842 | the sample button has exactly one background and one text fill, the new colour's, ahead of its other declarations in their old order |
| Widgets.ColorPairDropped | src/main/java/com/example/AIController.java:833 | the colour pair is wholly removed by the next `removeColorProperties` |
| Widgets.KeptOfRecoloured | src/main/java/com/example/AIController.java:833-842 | the button's own declarations survive a recolouring, and nothing else does |
| Widgets.SampleButtonLastColorWins | src/main/java/com/example/AIController.java:828-846 | recolouring the sample button twice leaves what recolouring it once with the second colour does |
| Widgets.TitleStyleDeclarations | src/main/java/com/example/AIController.java:849-854 | the title label keeps all old declarations and gains one more text fill each time |
| Chat.SenderName | src/main/java/com/example/AIController.java:1016-1021 | every line is sent by 系统, AI or 您 |
| Chat.MessageText | src/main/java/com/example/AIController.java:246-256 | a said text is shown as it is, and a received reply after "收到响应: " |
| Chat.FailureMarked | src/main/java/com/example/AIController.java:536-556 | every notice of a refused operation starts with ❌ |
| Chat.SuccessMarked | src/main/java/com/example/AIController.java:345-356 | every notice of a completed operation starts with ✅ |
| Chat.EntryLines | src/main/java/com/example/AIController.java:951-956 | one line per history entry, line i for entry i |
| Chat.HistoryListingShape | src/main/java/com/example/AIController.java:944-958 | an empty history gives one notice; otherwise a header and then the entries numbered from 1, newest first |
| Chat.EntryShowsHex | src/main/java/com/example/AIController.java:955 | an entry line ends with the colour's hex in parentheses |
| Chat.ListingAfterAdd | src/main/java/com/example/AIController.java:944-958 | after an add, the first entry listed is the colour just added |
| Commands.Route | src/main/java/com/example/AIController.java:284-326 | the default branch is taken exactly for an unknown lower-cased kind and keeps the command text as given; any other action carries out the kind asked for |
| Commands.KnownRoute | src/main/java/com/example/AIController.java:285-323 | a known kind never reaches the default branch, and runs its own operation or nothing |
| Commands.RouteMissingParams | src/main/java/com/example/AIController.java:291-323 | nothing runs exactly when the kind is known and one of its required parameters is absent |
| Commands.RouteArguments | src/main/java/com/example/AIController.java:273-321 | every argument of the routed operation is read from the command's `target` and `params` |
| Commands.RouteIgnoresCase | src/main/java/com/example/AIController.java:284 | two commands whose kinds lower-case alike route alike |
| Controller.ColorActionOutcome | src/main/java/com/example/AIController.java:481-570 | what `changeColor` and `setColorPickerValue` report and record agrees with Succeeds and HistoryAfter |
| Controller.AIController.RegisterComponent | src/main/java/com/example/AIController.java:973-976 | the id is bound to the node, replacing an earlier binding, and nothing else changes |
| Controller.AIController.InitializeQwenConnection | src/main/java/com/example/AIController.java:130-174 | without a non-blank key: the two notices and a red status; otherwise a fresh connected client with the handler set, and a green status |
| Controller.AIController.AddToColorHistory | src/main/java/com/example/AIController.java:752-766 | the in-place removeIf/insert/truncate leaves exactly Added(old history, c) and keeps the history invariant |
| Controller.AIController.ClearColorHistory | src/main/java/com/example/AIController.java:963-968 | the history is empty, one notice is written, and it succeeds |
| Controller.AIController.ShowColorHistory | src/main/java/com/example/AIController.java:944-958 | the loop writes exactly HistoryListing(history) and changes nothing else |
| Controller.AIController.ApplyColorToComponent | src/main/java/com/example/AIController.java:385-423 | the node's style becomes AppliedStyle of its old style, only the style changes, and the notice names the node |
| Controller.AIController.ApplyHistoryColorByIndex | src/main/java/com/example/AIController.java:359-380 | it fails without touching the node when the index is outside 1..size or the id is unknown; otherwise it applies entry index - 1 |
| Controller.AIController.ShowComponent | src/main/java/com/example/AIController.java:345-356 | a registered node becomes visible and managed whatever it was, so a second call changes nothing; an unknown id only gets the not-found line |
| Controller.AIController.HideComponent | src/main/java/com/example/AIController.java:438-449 | a registered node becomes invisible and unmanaged whatever it was; an unknown id only gets the not-found line |
| Controller.AIController.ChangeText | src/main/java/com/example/AIController.java:451-479 | labels, buttons and text inputs take the text; any other kind is refused and left unchanged |
| Controller.AIController.ChangeColor | src/main/java/com/example/AIController.java:481-514 | it succeeds exactly for a registered node and a text that parses; the colour pair is then appended to the style without cleaning, and the colour is recorded |
| Controller.AIController.ChangeRegisteredColor | src/main/java/com/example/AIController.java:488-513 | a text that names no colour is reported and changes nothing; otherwise the node is recoloured |
| Controller.AIController.Recolour | src/main/java/com/example/AIController.java:492-506 | the pair is appended to the old style, the notice written, and the colour added to the history |
| Controller.AIController.SetStyle | src/main/java/com/example/AIController.java:516-531 | a registered node's whole style is replaced, and only the style |
| Controller.AIController.ApplyColorToSampleComponents | src/main/java/com/example/AIController.java:823-856 | the sample button gets the pair in front of its cleaned style; the title label gets a text fill appended |
| Controller.AIController.HandleColorSelection | src/main/java/com/example/AIController.java:575-592 | the colour is recorded, reported with its name and hex, and applied to the sample widgets |
| Controller.AIController.SetColorPickerValue | src/main/java/com/example/AIController.java:536-570 | only a registered colour picker and a text that parses succeed, each refusal with its own notice and no change; the picker then shows the colour; on the registered `colorPicker` a changed value first runs its onAction "手动选择" selection, then the command's own selection follows |
| Controller.AIController.ShowInPicker | src/main/java/com/example/AIController.java:559-562 | the picker shows the colour; when it is the registered `colorPicker` and the value changed, the onAction handler of lines 104-107 writes a "手动选择" line and appends one more title fill; the history and the sample button end as after one selection |
| Controller.AIController.RunWidgetAction | src/main/java/com/example/AIController.java:285-310 | the node cases report Succeeds and leave the field they set |
| Controller.AIController.RunChangeColor | src/main/java/com/example/AIController.java:296-300 | the `changecolor` case reports Succeeds and leaves HistoryAfter |
| Controller.AIController.RunSetColorPicker | src/main/java/com/example/AIController.java:301-305 | the `setcolorpicker` case reports Succeeds and leaves HistoryAfter |
| Controller.AIController.RunApplyHistoryColor | src/main/java/com/example/AIController.java:317-323 | the `applyhistorycolor` case reports Succeeds and applies the chosen entry |
| Controller.AIController.RunAction | src/main/java/com/example/AIController.java:284-326 | every branch reports Succeeds and leaves HistoryAfter; an unknown kind writes exactly one error line; missing parameters touch nothing |
| Controller.AIController.ExecuteJsonCommand | src/main/java/com/example/AIController.java:270-340 | the description is written first; then the routed operation runs, and the status is green on success and orange otherwise |
| Controller.AIController.HandleQwenResponse | src/main/java/com/example/AIController.java:231-265 | a reply with `command` and `description` is executed; any other reply is shown (text, raw text or rendered JSON) under a green "就绪" status |
| Controller.AIController.ExecuteNaturalLanguageCommand | src/main/java/com/example/AIController.java:200-226 | the command is the trimmed text of the input field; a blank one changes nothing; without a connected client a notice and a red status, the field kept; otherwise the command is shown, exactly one request is sent and the field is emptied |
| Controller.HttpErrorShownAsReady | src/main/java/com/example/AIController.java:244-258 | a non-200 reply is not a command, text or raw reply, and is shown as `{"error":"API Error"}` |
| Controller.ReplyNotice | src/main/java/com/example/AIController.java:246-257 | a wrapper's `text` first, then its `raw_response`, otherwise the rendered JSON after "收到响应: " |
| Qwen.ContentOf | src/main/java/com/example/QwenClient.java:270-277 | content exists exactly when `choices` is a non-empty array whose element 0 has `message.content`; it is that text, trimmed |
| Qwen.TextReply | src/main/java/com/example/QwenClient.java:292-304 | the wrapper has the content as `text`, `is_json` false, `parse_error` exactly when the parser failed, and no `command` |
| Qwen.ErrorSummary | src/main/java/com/example/QwenClient.java:312-323 | `error` is "API Error"; `message` is copied exactly when the error is an object with a message; no other member |
| Qwen.DecodeContent | src/main/java/com/example/QwenClient.java:283-305 | content that does not start with `{` once fences are removed, or whose parse fails, becomes a text reply with the original content; only a failed parse carries `parse_error` |
| Qwen.ParseAIResponse | src/main/java/com/example/QwenClient.java:263-351 | an unparsable reply becomes `error` "解析失败"; a reply without content but with a root `error` becomes `error` "API Error" |
| Qwen.ParseAIResponseCases | src/main/java/com/example/QwenClient.java:263-351 | the order of the branches: outer parse failure (the longest prefix of at most 500 UTF-16 units kept, all of a short text), content path, root `error`, a quoted "error" in the text, otherwise the raw wrapper |
| Qwen.DecodeContentCases | src/main/java/com/example/QwenClient.java:281-305 | content that, fences removed, starts with `{` gives its parse; a failed parse or any other start gives a text reply with the original content |
| Qwen.NoFenceRemains | src/main/java/com/example/QwenClient.java:284 | removing every "```" leaves none behind |
| Qwen.StripFencesRemovesFences | src/main/java/com/example/QwenClient.java:283-285 | the cleaned content never contains a code fence |
| Qwen.FencedReplyDecoded | src/main/java/com/example/QwenClient.java:283-289 | a "```json" block whose body has no backticks decodes like the trimmed body |
| Qwen.UnfencedReply | src/main/java/com/example/QwenClient.java:283-285 | content without backticks is only trimmed |
| Qwen.BuildRequest | src/main/java/com/example/QwenClient.java:72-91 | the request has exactly `model` = "qwen-max", `messages` = [system prompt, user command] and `stream` = false |
| Qwen.RequestCarriesCommand | src/main/java/com/example/QwenClient.java:76-88 | the system prompt comes first and the last message is the user's command, unchanged |
| Qwen.HandlerPayload | src/main/java/com/example/QwenClient.java:110-134 | status 200 passes the body unchanged; any other status passes `{error: "HTTP n", message: body}`; a failed request passes `{error: "请求异常", message}` |
| Qwen.HttpErrorDetailLost | src/main/java/com/example/QwenClient.java:117-124 | decoding the payload of a non-200 status leaves only `{error: "API Error"}` |
| Qwen.QwenClient.constructor | src/main/java/com/example/QwenClient.java:24-31 | a new client is not initialized, has no handler and has sent nothing |
| Qwen.QwenClient.Connect | src/main/java/com/example/QwenClient.java:36-51 | the flag is set and the result is true |
| Qwen.QwenClient.SetResponseHandler | src/main/java/com/example/QwenClient.java:56-58 | a handler is set; nothing else changes |
| Qwen.QwenClient.IsConnected | src/main/java/com/example/QwenClient.java:256-258 | the result is the flag |
| Qwen.QwenClient.Close | src/main/java/com/example/QwenClient.java:249-251 | nothing changes; the client stays connected |
| Qwen.QwenClient.SendInstruction | src/main/java/com/example/QwenClient.java:63-143 | before `connect` nothing is sent; afterwards exactly one request with the command |
| Qwen.QwenClient.Deliver | src/main/java/com/example/QwenClient.java:106-136 | the handler, if one is set, receives HandlerPayload of the outcome |

## Left out

- Floating point. Channels are integers 0..255, so the `(int)(x * 255)` truncation of `colorToHex` is the identity on them.
  `getBrightness() > 0.5` is read as "the largest channel is at least 128".
  Alpha is not modelled, so `rgba(...)` keeps only its colour.
- `Color.web` and the `Double.parseDouble` reader of `rgb(...)` belong to JavaFX and the JDK. They are the `ColorParsers` parameter.
- Jackson and org.json: the text-to-JSON parser and the renderer are the `Codec` parameter, and a wrapper built with org.json and read back with Jackson is that object itself.
  A JSON number with a fraction or exponent is `JFrac`. It holds the text and the truncated value the parser gives it. `Double.parseDouble` on text is the codec's `readDouble`.
- Strings.ToLower: lower-cases the ASCII capitals only and assumes a default locale that is not Turkish or Azeri.
  `toLowerCase()` also folds non-ASCII letters, some of them onto ASCII (the Kelvin sign U+212A to 'k', so "setcolorpic\u212Aer" routes in Java and is Unknown here).
  Under a Turkish locale Java turns 'I' into dotless 'ı', so "SETCOLORPICKER" matches no case there but routes here.
  Commands.Route, Commands.Kind and ColorParsing.ParseColorString inherit this.
- Strings.JavaDigit: the decimal-digit blocks are those of the Basic Multilingual Plane from Unicode 7 on. A JDK older than 9 lacks the Sinhala Lith and Myanmar Tai Laing digits.
  Java's `parseInt` works on UTF-16 units, so digits outside the BMP are never digits there either.
- Strings.Utf16Prefix: keeps whole characters. When unit 500 is the first half of a surrogate pair, Java keeps that lone high surrogate and the model drops it, since a Dafny `char` cannot hold one.
  Qwen.ParseAIResponseCases inherits this.
- Concurrency: `CompletableFuture`, `Platform.runLater` and `HttpClient.sendAsync` are taken to run at once and in order.
  The HTTP exchange itself is network I/O. Its outcome is the argument of `Qwen.QwenClient.Deliver`.
- `connect`'s exceptional branch and the controller's "连接 Qwen 服务失败" and "连接错误" branches. `connect` cannot fail as written.
- The `catch` blocks of `applyColorToComponent`, `changeText`, `setStyle`, `setColorPickerValue`, `executeJsonCommand` and `handleQwenResponse`, for the same reason.
  The modelled setters and lookups cannot throw. The one exception the code relies on, `changeColor`'s null colour, is modelled as its `BadColorFormat` notice.
- `handleQwenResponse`'s null check: `parseAIResponse` returns null only when re-reading its own wrapper fails, which the model rules out.
- The system-prompt literal (`buildSystemPrompt`) is static text. It is a constant of the controller and the client.
- `testConnection`, `initialize`, `setupUIComponents`, `registerDefaultComponents`, `registerNewComponent`, `cleanup` and Main.java.
  They are window set-up and start-up messages with no logic to verify.
- UI only: `updateColorHistoryDisplay` and `createColorRectangle` (swatches, hover, tooltips), `applyColorPreset` (focus lookup), `btn1.setMinSize`, the chat's line prefixes and scrolling, and the status label's CSS.
  The status is kept as the (text, colour name) pair.
- Text never null: `getComponentName` tests the text for null, but the model's text is never null.
- Environment: which of `qwen.api.key` and `QWEN_API_KEY` supplies the key is not modelled; `InitializeQwenConnection` takes the result of that lookup.
- Controller.AIController.HandleQwenResponse: for a command reply it states only that the description comes first and that the status is one of the two outcomes. Controller.AIController.ExecuteJsonCommand states the rest.
- Controller.AIController.RunAction: for the node and colour cases it states the outcome and the history, not every field set. The Run* methods and the individual operations state those.
- Styles.Declarations: its own contract bounds the length and says each declaration is a trimmed non-empty piece. Which pieces they are is stated by the lemmas about it (DeclarationsOfTerminated, DeclarationsOfCleaned, KeptDeclarationsMembers).
- Strings.Split: keeps the trailing empty pieces that Java's `split` drops. The only caller, `removeColorProperties`, discards empty pieces, so its result is the same.
- The chat area and the status label as registry nodes: they are registered as "chatArea" and "statusLabel", so commands can reach them as widgets.
  In the model those widgets are separate from `transcript` and `status`.
  `changetext chatArea x` does not replace the transcript here, and a `changetext` or `setstyle` on `statusLabel` is not shown being overwritten by the `updateStatus` that ends `executeJsonCommand`.
