/**
 * The DashScope (Qwen) client: the request envelope `sendInstruction` posts,
 * the text the response handler receives for each HTTP outcome, the
 * `isInitialized` flag behind `connect`/`isConnected`, and `parseAIResponse`,
 * which turns a response text into the JSON value the controller acts on.
 *
 * Parsing and rendering JSON text are the libraries' business (a `Codec`).
 * A wrapper object the code builds with org.json and reads back with Jackson
 * is modelled as that object itself.
 */
module Qwen {
  import opened Wrappers
  import opened Strings
  import opened Json

  const ModelName: string := "qwen-max"
  const TextFence: string := "```"
  const JsonFence: string := "```json"

  // ---------------------------------------------------------------------
  // Decoding a response

  /** `choices[0].message.content`, trimmed, when every step of that path exists. */
  function ContentOf(root: Json): (r: Option<string>)
    ensures r.Some? <==>
      Has(root, "choices") && Get(root, "choices").JArr? && |Get(root, "choices").items| > 0
      && Has(Get(root, "choices").items[0], "message")
      && Has(Get(Get(root, "choices").items[0], "message"), "content")
    ensures r.Some? ==>
      r.value == Trim(AsText(Get(Get(Get(root, "choices").items[0], "message"), "content")))
  {
    if Has(root, "choices") then
      var choices := Get(root, "choices");
      if choices.JArr? && |choices.items| > 0 then
        var choice := choices.items[0];
        if Has(choice, "message") then
          var message := Get(choice, "message");
          if Has(message, "content") then Some(Trim(AsText(Get(message, "content"))))
          else None
        else None
      else None
    else None
  }

  /** The content with every "```json" and then every "```" removed, trimmed. */
  function StripFences(content: string): string
  {
    Trim(ReplaceAll(ReplaceAll(content, JsonFence, ""), TextFence, ""))
  }

  /** `{text: content, is_json: false}`, with the parser's message when there is one. */
  function TextReply(content: string, parseError: Option<string>): (j: Json)
    ensures Has(j, "text") && Get(j, "text") == JStr(content)
    ensures Has(j, "is_json") && Get(j, "is_json") == JBool(false)
    ensures Has(j, "parse_error") <==> parseError.Some?
    ensures !Has(j, "command")
  {
    var fields := map["text" := JStr(content), "is_json" := JBool(false)];
    match parseError
    case None => JObj(fields)
    case Some(m) => JObj(fields["parse_error" := JStr(m)])
  }

  /** What `parseAIResponse` makes of the model's reply text. */
  function DecodeContent(content: string, codec: Codec): (j: Json)
    ensures !StartsWith(StripFences(content), "{") ==>
      Has(j, "text") && Get(j, "text") == JStr(content) && !Has(j, "parse_error")
    ensures StartsWith(StripFences(content), "{") && codec.parse(StripFences(content)).ParseError? ==>
      Has(j, "text") && Get(j, "text") == JStr(content) && Has(j, "parse_error")
  {
    var cleaned := StripFences(content);
    if StartsWith(cleaned, "{") then
      match codec.parse(cleaned)
      case Parsed(v) => v
      case ParseError(m) => TextReply(content, Some(m))
    else TextReply(content, None)
  }

  /** The replacement for an API error: `error` is "API Error", plus the error object's message. */
  function ErrorSummary(error: Json): (j: Json)
    ensures Has(j, "error") && Get(j, "error") == JStr("API Error")
    ensures Has(j, "message") <==> error.JObj? && Has(error, "message")
    ensures Has(j, "message") ==> Get(j, "message") == JStr(AsText(Get(error, "message")))
    ensures j.JObj? && j.fields.Keys <= {"error", "message"}
  {
    if error.JObj? && Has(error, "message") then
      JObj(map["message" := JStr(AsText(Get(error, "message"))), "error" := JStr("API Error")])
    else JObj(map["error" := JStr("API Error")])
  }

  /** `{raw_response: response, is_json: false}`. */
  function RawReply(response: string): Json
  {
    JObj(map["raw_response" := JStr(response), "is_json" := JBool(false)])
  }

  /** The reply to a text the parser rejects: its message and the first 500 UTF-16 units. */
  function ParseFailure(response: string, message: string): Json
  {
    JObj(map["error" := JStr("解析失败"), "message" := JStr(message),
             "raw_response" := JStr(Utf16Prefix(response, 500))])
  }

  /**
   * `parseAIResponse`: the content path first, then a root `error`, then any
   * text mentioning "error" in quotes as it is, and otherwise the raw text.
   */
  function ParseAIResponse(response: string, codec: Codec): (r: Json)
    ensures codec.parse(response).ParseError? ==> Has(r, "error") && Get(r, "error") == JStr("解析失败")
    ensures codec.parse(response).Parsed? && ContentOf(codec.parse(response).value).None?
            && Has(codec.parse(response).value, "error") ==>
      Has(r, "error") && Get(r, "error") == JStr("API Error")
  {
    match codec.parse(response)
    case ParseError(m) => ParseFailure(response, m)
    case Parsed(root) =>
      match ContentOf(root)
      case Some(content) => DecodeContent(content, codec)
      case None =>
        if Has(root, "error") then ErrorSummary(Get(root, "error"))
        else if Contains(response, "\"error\"") then root
        else RawReply(response)
  }

  /** The decision tree, branch by branch. */
  lemma ParseAIResponseCases(response: string, codec: Codec)
    ensures codec.parse(response).ParseError? ==>
      (var j := ParseAIResponse(response, codec);
       Get(j, "error") == JStr("解析失败") && Get(j, "message") == JStr(codec.parse(response).message)
       && Get(j, "raw_response").s == Utf16Prefix(response, 500)
       && Utf16Length(Get(j, "raw_response").s) <= 500
       && (Utf16Length(response) <= 500 ==> Get(j, "raw_response").s == response))
    ensures codec.parse(response).Parsed? && ContentOf(codec.parse(response).value).Some? ==>
      ParseAIResponse(response, codec) == DecodeContent(ContentOf(codec.parse(response).value).value, codec)
    ensures (codec.parse(response).Parsed? && ContentOf(codec.parse(response).value).None?
             && Has(codec.parse(response).value, "error")) ==>
      ParseAIResponse(response, codec) == ErrorSummary(Get(codec.parse(response).value, "error"))
    ensures (codec.parse(response).Parsed? && ContentOf(codec.parse(response).value).None?
             && !Has(codec.parse(response).value, "error")) ==>
      ParseAIResponse(response, codec) ==
        if Contains(response, "\"error\"") then codec.parse(response).value else RawReply(response)
  {
  }

  /**
   * Content that, fences removed, starts with `{` is the parse of that text;
   * anything else, or a failed parse, becomes a text reply holding the
   * content as received.
   */
  lemma DecodeContentCases(content: string, codec: Codec)
    ensures var cleaned := StripFences(content);
      (StartsWith(cleaned, "{") && codec.parse(cleaned).Parsed? ==>
        DecodeContent(content, codec) == codec.parse(cleaned).value)
      && (StartsWith(cleaned, "{") && codec.parse(cleaned).ParseError? ==>
        DecodeContent(content, codec) == TextReply(content, Some(codec.parse(cleaned).message)))
      && (!StartsWith(cleaned, "{") ==> DecodeContent(content, codec) == TextReply(content, None))
  {
  }

  lemma {:induction false} ContainsOfSuffix(s: string, k: nat, p: string)
    requires k <= |s| && Contains(s[k..], p)
    ensures Contains(s, p)
    decreases k
  {
    if k > 0 {
      assert s[1..][k - 1..] == s[k..];
      ContainsOfSuffix(s[1..], k - 1, p);
    }
  }

  lemma {:induction false} ContainsOfPrefix(s: string, n: nat, p: string)
    requires n <= |s| && Contains(s[..n], p)
    ensures Contains(s, p)
    decreases |s|
  {
    if !StartsWith(s[..n], p) {
      assert s[..n][1..] == s[1..][..n - 1];
      ContainsOfPrefix(s[1..], n - 1, p);
    }
  }

  /** Whatever `trim` keeps is a piece of its input. */
  lemma ContainsOfTrim(s: string, p: string)
    ensures Contains(Trim(s), p) ==> Contains(s, p)
  {
    if Contains(Trim(s), p) {
      var t := TrimStart(s);
      ContainsOfPrefix(t, |Trim(s)|, p);
      ContainsOfSuffix(s, |s| - |t|, p);
    }
  }

  lemma FenceHead(s: string)
    requires s != [] && !StartsWith(s, TextFence)
    ensures ReplaceAll(s, TextFence, "") == [s[0]] + ReplaceAll(s[1..], TextFence, "")
  {
  }

  /** A fence is three backticks in a row. */
  lemma FenceChars(s: string)
    ensures StartsWith(s, TextFence) <==> |s| >= 3 && s[0] == '`' && s[1] == '`' && s[2] == '`'
  {
    if |s| >= 3 {
      assert s[..3] == [s[0], s[1], s[2]];
    }
  }

  lemma TwoTicks(s: string)
    ensures StartsWith(s, "``") <==> |s| >= 2 && s[0] == '`' && s[1] == '`'
  {
    if |s| >= 2 {
      assert s[..2] == [s[0], s[1]];
    }
  }

  /** Without a fence at its start, what removal leaves after a leading backtick does not start with two more. */
  lemma FenceRemovalStart(s: string)
    requires s != [] && !StartsWith(s, TextFence) && s[0] == '`'
    ensures !StartsWith(ReplaceAll(s[1..], TextFence, ""), "``")
  {
    var t := s[1..];
    var x := ReplaceAll(t, TextFence, "");
    FenceChars(s);
    TwoTicks(x);
    if t != [] {
      FenceChars(t);
      FenceHead(t);
      assert x[0] == t[0];
      if t[0] == '`' {
        var u := t[1..];
        var y := ReplaceAll(u, TextFence, "");
        assert x == [t[0]] + y;
        if u != [] {
          assert u[0] == s[2];
          FenceChars(u);
          FenceHead(u);
          assert x[1] == y[0] == u[0];
        }
      }
    }
  }

  /** Removing every "```" leaves none behind: no new fence forms where one was cut out. */
  lemma {:induction false} NoFenceRemains(s: string)
    ensures !Contains(ReplaceAll(s, TextFence, ""), TextFence)
    decreases |s|
  {
    if StartsWith(s, TextFence) {
      NoFenceRemains(s[3..]);
      assert ReplaceAll(s, TextFence, "") == "" + ReplaceAll(s[3..], TextFence, "");
      assert "" + ReplaceAll(s[3..], TextFence, "") == ReplaceAll(s[3..], TextFence, "");
    } else if s != [] {
      NoFenceRemains(s[1..]);
      FenceHead(s);
      var x := ReplaceAll(s[1..], TextFence, "");
      var r := [s[0]] + x;
      assert r[1..] == x;
      FenceChars(r);
      if s[0] == '`' {
        FenceRemovalStart(s);
        TwoTicks(x);
        assert |r| >= 3 ==> r[1] == x[0] && r[2] == x[1];
      } else {
        assert r[0] != '`';
      }
    }
  }

  /** The cleaned content holds no code fence, whatever the model sent. */
  lemma StripFencesRemovesFences(content: string)
    ensures !Contains(StripFences(content), TextFence)
  {
    var once := ReplaceAll(content, JsonFence, "");
    NoFenceRemains(once);
    if Contains(StripFences(content), TextFence) {
      ContainsOfTrim(ReplaceAll(once, TextFence, ""), TextFence);
    }
  }

  /** Text without backticks passes through fence removal unchanged. */
  lemma {:induction false} TicklessPrefix(a: string, b: string, pat: string)
    requires '`' !in a && |pat| > 0 && pat[0] == '`'
    ensures ReplaceAll(a + b, pat, "") == a + ReplaceAll(b, pat, "")
    decreases |a|
  {
    if a == [] {
      assert a + b == b;
    } else {
      var s := a + b;
      assert s[0] == a[0];
      assert !StartsWith(s, pat) by {
        assert |pat| > |s| || s[..|pat|][0] == a[0];
      }
      assert s[1..] == a[1..] + b;
      TicklessPrefix(a[1..], b, pat);
      assert [a[0]] + (a[1..] + ReplaceAll(b, pat, "")) == a + ReplaceAll(b, pat, "");
    }
  }

  lemma {:induction false} NoLongerMatch(s: string, p: string)
    requires |p| > |s|
    ensures !Contains(s, p)
    decreases |s|
  {
    if |s| > 0 {
      NoLongerMatch(s[1..], p);
    }
  }

  /**
   * A reply wrapped in a "```json" ... "```" block whose body has no backticks
   * decodes exactly as the trimmed body would: the fences are removed, nothing
   * else of the body is.
   */
  lemma FencedReplyDecoded(body: string, codec: Codec)
    requires '`' !in body
    ensures StripFences(JsonFence + body + TextFence) == Trim(body)
    ensures StartsWith(Trim(body), "{") && codec.parse(Trim(body)).Parsed? ==>
      DecodeContent(JsonFence + body + TextFence, codec) == codec.parse(Trim(body)).value
  {
    var content := JsonFence + body + TextFence;
    var rest := body + TextFence;
    assert content == JsonFence + rest;
    assert content[|JsonFence|..] == rest;
    assert ReplaceAll(content, JsonFence, "") == "" + ReplaceAll(rest, JsonFence, "");
    assert "" + ReplaceAll(rest, JsonFence, "") == ReplaceAll(rest, JsonFence, "");
    TicklessPrefix(body, TextFence, JsonFence);
    NoLongerMatch(TextFence, JsonFence);
    assert ReplaceAll(content, JsonFence, "") == rest;
    TicklessPrefix(body, TextFence, TextFence);
    assert ReplaceAll(TextFence, TextFence, "") == "" by {
      assert TextFence[|TextFence|..] == [];
    }
    assert body + "" == body;
  }

  /** Without backticks the content is only trimmed. */
  lemma UnfencedReply(content: string)
    requires '`' !in content
    ensures StripFences(content) == Trim(content)
  {
    TicklessPrefix(content, [], JsonFence);
    TicklessPrefix(content, [], TextFence);
    assert content + [] == content;
  }

  // ---------------------------------------------------------------------
  // The request and the handler's input

  /** One chat message of the request. */
  function Message(role: string, content: string): Json
  {
    JObj(map["role" := JStr(role), "content" := JStr(content)])
  }

  /** The JSON object `sendInstruction` posts. */
  function BuildRequest(systemPrompt: string, command: string): (req: Json)
    ensures req.JObj? && req.fields.Keys == {"model", "messages", "stream"}
    ensures Get(req, "model") == JStr(ModelName) && Get(req, "stream") == JBool(false)
    ensures Get(req, "messages") == JArr([Message("system", systemPrompt), Message("user", command)])
  {
    JObj(map["model" := JStr(ModelName),
             "messages" := JArr([Message("system", systemPrompt), Message("user", command)]),
             "stream" := JBool(false)])
  }

  /** The user's words as a server reads them from a request: the last message, when it is the user's. */
  function UserCommand(req: Json): Option<string>
  {
    if Has(req, "messages") && Get(req, "messages").JArr? && |Get(req, "messages").items| > 0 then
      var last := Get(req, "messages").items[|Get(req, "messages").items| - 1];
      if Has(last, "role") && Get(last, "role") == JStr("user") && Has(last, "content")
      then Some(AsText(Get(last, "content")))
      else None
    else None
  }

  /** The system prompt comes first, and the request carries the command unchanged. */
  lemma RequestCarriesCommand(systemPrompt: string, command: string)
    ensures UserCommand(BuildRequest(systemPrompt, command)) == Some(command)
    ensures Get(Get(BuildRequest(systemPrompt, command), "messages").items[0], "role") == JStr("system")
    ensures Get(Get(BuildRequest(systemPrompt, command), "messages").items[0], "content") == JStr(systemPrompt)
  {
    var msgs := Get(BuildRequest(systemPrompt, command), "messages").items;
    assert msgs[|msgs| - 1] == Message("user", command);
  }

  /** How an HTTP exchange ended. */
  datatype HttpOutcome =
    | Reply(status: int, body: string)
    | Failed(message: string) // the future completed exceptionally

  /** The object sent to the handler for a status other than 200. */
  function HttpErrorObject(status: int, body: string): Json
  {
    JObj(map["error" := JStr("HTTP " + IntToDecimal(status)), "message" := JStr(body)])
  }

  /** The object sent to the handler when the request itself failed. */
  function RequestFailureObject(message: string): Json
  {
    JObj(map["error" := JStr("请求异常"), "message" := JStr(message)])
  }

  /** The text the response handler receives. */
  function HandlerPayload(outcome: HttpOutcome, codec: Codec): (text: string)
    ensures outcome.Reply? && outcome.status == 200 ==> text == outcome.body
    ensures outcome.Reply? && outcome.status != 200 ==>
      text == codec.render(HttpErrorObject(outcome.status, outcome.body))
    ensures outcome.Failed? ==> text == codec.render(RequestFailureObject(outcome.message))
  {
    match outcome
    case Reply(status, body) =>
      if status == 200 then body else codec.render(HttpErrorObject(status, body))
    case Failed(message) => codec.render(RequestFailureObject(message))
  }

  /**
   * The error object for a failed status loses its detail in the decoder:
   * `error` is a text, not an object, so only "API Error" is left, neither
   * the status nor the body.
   */
  lemma HttpErrorDetailLost(status: int, body: string, codec: Codec)
    requires status != 200
    requires codec.parse(codec.render(HttpErrorObject(status, body))) == Parsed(HttpErrorObject(status, body))
    ensures ParseAIResponse(HandlerPayload(Reply(status, body), codec), codec) == JObj(map["error" := JStr("API Error")])
  {
    var e := HttpErrorObject(status, body);
    assert !Has(e, "choices");
    assert Get(e, "error") == JStr("HTTP " + IntToDecimal(status));
  }

  // ---------------------------------------------------------------------
  // The client object

  /**
   * `QwenClient`: the flag `connect` sets, whether a response handler is set,
   * and the requests sent so far. The HTTP exchange itself is asynchronous
   * I/O; its outcome is handed to Deliver.
   */
  class QwenClient {
    const apiKey: string
    const systemPrompt: string
    const codec: Codec
    var isInitialized: bool
    var hasHandler: bool
    var sent: seq<Json>

    constructor (apiKey: string, systemPrompt: string, codec: Codec)
      ensures this.apiKey == apiKey && this.systemPrompt == systemPrompt && this.codec == codec
      ensures !isInitialized && !hasHandler && sent == []
    {
      this.apiKey := apiKey;
      this.systemPrompt := systemPrompt;
      this.codec := codec;
      isInitialized := false;
      hasHandler := false;
      sent := [];
    }

    /** `connect()`: sets the flag and completes with true. */
    method Connect() returns (ok: bool)
      modifies this
      ensures ok && isInitialized
      ensures hasHandler == old(hasHandler) && sent == old(sent)
    {
      isInitialized := true;
      ok := true;
    }

    method SetResponseHandler()
      modifies this
      ensures hasHandler
      ensures isInitialized == old(isInitialized) && sent == old(sent)
    {
      hasHandler := true;
    }

    method IsConnected() returns (connected: bool)
      ensures connected == isInitialized
    {
      connected := isInitialized;
    }

    /** `close()` only logs; in particular the client stays connected. */
    method Close()
      ensures unchanged(this)
    {
    }

    /** `sendInstruction`: nothing before `connect`, otherwise one request with the command. */
    method SendInstruction(command: string)
      modifies this
      ensures old(isInitialized) ==> sent == old(sent) + [BuildRequest(systemPrompt, command)]
      ensures !old(isInitialized) ==> sent == old(sent)
      ensures isInitialized == old(isInitialized) && hasHandler == old(hasHandler)
    {
      if !isInitialized {
        return;
      }
      sent := sent + [BuildRequest(systemPrompt, command)];
    }

    /** The outcome of a request reaches the handler, if one is set, as HandlerPayload. */
    method Deliver(outcome: HttpOutcome) returns (delivered: Option<string>)
      ensures delivered.Some? <==> hasHandler
      ensures delivered.Some? ==> delivered.value == HandlerPayload(outcome, codec)
    {
      if !hasHandler {
        return None;
      }
      match outcome
      case Reply(status, body) =>
        if status == 200 {
          delivered := Some(body);
        } else {
          delivered := Some(codec.render(HttpErrorObject(status, body)));
        }
      case Failed(message) =>
        delivered := Some(codec.render(RequestFailureObject(message)));
    }
  }
}
