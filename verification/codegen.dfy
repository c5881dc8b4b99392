/** The code generator (projects/ai-codegen/main.go): it builds a prompt,
    sends it to an OpenAI or an Ollama model chosen by the model's name,
    collects the streamed answer, digs the JSON object out of it, checks
    that it names some files and writes those files. The HTTP streams, the
    JSON decoder and the file system are parameters of the model. */
module CodeGen {
  import opened Wrappers
  import opened GoStrings

  // ---------------------------------------------------------------------
  // Prompt and routing
  // ---------------------------------------------------------------------

  /** The two model back ends. */
  datatype Provider = OpenAI | Ollama

  /** `generateCodeWithModelStream`'s routing: a model name with a colon
      (`llama3:8b`) goes to Ollama, any other to OpenAI. */
  function Route(model: string): (p: Provider)
    ensures p == Ollama <==> ':' in model
  {
    ContainsCharMeaning(model, ':');
    if ContainsChar(model, ':') then Ollama else OpenAI
  }

  /** The full prompt: the MCP instructions, a line break, the idea. */
  function Prompt(mcp: string, idea: string): string {
    mcp + "\n" + idea
  }

  /** A chat message of the request body. */
  datatype Message = Message(role: string, content: string)

  /** The system message's content: the prompt up to its first line break.
      Go slices with the result of `strings.Index`, which panics when there
      is no line break. */
  function SystemContent(prompt: string): (r: string)
    requires ContainsChar(prompt, '\n')
    ensures |r| < |prompt| && prompt[|r|] == '\n' && r == prompt[..|r|]
  {
    prompt[..IndexChar(prompt, '\n')]
  }

  /** The messages both back ends send: the system message and then the
      whole prompt as the user's message. */
  function ChatMessages(prompt: string): (r: seq<Message>)
    requires ContainsChar(prompt, '\n')
    ensures |r| == 2
    ensures r[0].role == "system" && r[1] == Message("user", prompt)
    ensures r[0].content <= prompt
  {
    [Message("system", SystemContent(prompt)), Message("user", prompt)]
  }

  /** The text before the first line break of `s`, or all of `s`. */
  function FirstLine(s: string): (r: string)
    ensures r <= s && '\n' !in r
  {
    var i := IndexChar(s, '\n');
    IndexCharFirst(s, '\n');
    if i < 0 then s else s[..i]
  }

  /** A built prompt always has a line break, so the system cut never
      panics, and the system message is the first line of the MCP
      instructions: the idea never reaches it. */
  lemma SystemIsFirstLine(mcp: string, idea: string)
    ensures ContainsChar(Prompt(mcp, idea), '\n')
    ensures SystemContent(Prompt(mcp, idea)) == FirstLine(mcp)
  {
    var p := Prompt(mcp, idea);
    IndexCharFound(p, '\n', |mcp|);
    if IndexChar(mcp, '\n') >= 0 {
      IndexCharPrefix(mcp, "\n" + idea, '\n');
      assert p == mcp + ("\n" + idea);
    } else {
      IndexCharFirst(mcp, '\n');
      IndexCharFirst(p, '\n');
      assert p[|mcp|] == '\n';
    }
  }

  // ---------------------------------------------------------------------
  // Streams
  // ---------------------------------------------------------------------

  /** One result of the OpenAI stream's `Recv`: a chunk whose first choice
      carries `content`, the end of the stream, or an error. */
  datatype StreamEvent = Delta(content: string) | Eof | Failed(error: string)

  /** What reading `events` yields: the chunks' contents in order up to the
      end of the stream, or the first error. A sequence that runs out is
      read as ending the stream. */
  function Collected(events: seq<StreamEvent>): (r: Result<string, string>)
    decreases |events|
  {
    if events == [] then Ok("")
    else match events[0]
      case Eof => Ok("")
      case Failed(e) => Err(e)
      case Delta(c) =>
        match Collected(events[1..])
        case Ok(rest) => Ok(c + rest)
        case Err(e) => Err(e)
  }

  /** The concatenation of `parts`. */
  function Concat(parts: seq<string>): (r: string)
    ensures |parts| == 1 ==> r == parts[0]
    decreases |parts|
  {
    if parts == [] then "" else Concat(parts[..|parts| - 1]) + parts[|parts| - 1]
  }

  /** The contents of a run of chunks. */
  function Contents(events: seq<StreamEvent>): seq<string>
    requires forall i :: 0 <= i < |events| ==> events[i].Delta?
  {
    seq(|events|, i requires 0 <= i < |events| => events[i].content)
  }

  /** `r` with `acc` put in front of its text. */
  function Prepend(acc: string, r: Result<string, string>): Result<string, string> {
    match r
    case Ok(rest) => Ok(acc + rest)
    case Err(e) => Err(e)
  }

  /** `generateOpenAIStream`'s receive loop, appending each chunk's content
      to a `strings.Builder`. */
  method CollectOpenAI(events: seq<StreamEvent>) returns (r: Result<string, string>)
    ensures r == Collected(events)
  {
    var acc := "";
    var i := 0;
    assert events[i..] == events;
    assert Collected(events).Ok? ==> "" + Collected(events).value == Collected(events).value;
    while i < |events|
      invariant 0 <= i <= |events|
      invariant Collected(events) == Prepend(acc, Collected(events[i..]))
    {
      assert events[i..][1..] == events[i + 1..];
      match events[i]
      case Eof =>
        assert acc + "" == acc;
        return Ok(acc);
      case Failed(e) =>
        return Err(e);
      case Delta(c) =>
        match Collected(events[i + 1..]) {
          case Ok(rest) =>
            assert acc + (c + rest) == (acc + c) + rest;
          case Err(_) =>
        }
        acc := acc + c;
        i := i + 1;
    }
    assert events[i..] == [] && acc + "" == acc;
    r := Ok(acc);
  }

  /** A stream of chunks closed by the end of the stream yields exactly the
      chunks' contents, whatever follows the end. */
  lemma {:induction false} CollectedChunks(chunks: seq<StreamEvent>, rest: seq<StreamEvent>)
    requires forall i :: 0 <= i < |chunks| ==> chunks[i].Delta?
    ensures Collected(chunks + [Eof] + rest) == Ok(Concat(Contents(chunks)))
    decreases |chunks|
  {
    if chunks == [] {
      assert (chunks + [Eof] + rest)[0] == Eof;
    } else {
      var s := chunks + [Eof] + rest;
      assert s[1..] == chunks[1..] + [Eof] + rest;
      CollectedChunks(chunks[1..], rest);
      ConcatCons(chunks[0].content, Contents(chunks[1..]));
      assert [chunks[0].content] + Contents(chunks[1..]) == Contents(chunks);
    }
  }

  /** An error before the end of the stream discards everything read: the
      function returns the error and no text. */
  lemma {:induction false} CollectedError(chunks: seq<StreamEvent>, e: string, rest: seq<StreamEvent>)
    requires forall i :: 0 <= i < |chunks| ==> chunks[i].Delta?
    ensures Collected(chunks + [Failed(e)] + rest) == Err(e)
    decreases |chunks|
  {
    if chunks == [] {
      assert (chunks + [Failed(e)] + rest)[0] == Failed(e);
    } else {
      var s := chunks + [Failed(e)] + rest;
      assert s[1..] == chunks[1..] + [Failed(e)] + rest;
      CollectedError(chunks[1..], e, rest);
    }
  }

  lemma {:induction false} ConcatCons(a: string, parts: seq<string>)
    ensures Concat([a] + parts) == a + Concat(parts)
    decreases |parts|
  {
    if parts != [] {
      var init := parts[..|parts| - 1];
      assert ([a] + parts)[..|parts|] == [a] + init;
      ConcatCons(a, init);
    }
  }

  /** What the environment and the Ollama response give `generateOllamaStream`:
      the configured base URL, the response's lines as the scanner splits
      them, and the scanner's error, if any. */
  datatype OllamaReply = OllamaReply(baseUrl: string, lines: seq<string>, scanError: Option<string>)

  const MissingBaseUrl: string := "OLLAMA_API_BASE_URL not set"

  /** `generateOllamaStream`: refuses to start without a base URL, then
      appends every scanned line (without its line break) to the builder and
      reports the scanner's error instead of the text. */
  method CollectOllama(reply: OllamaReply) returns (r: Result<string, string>)
    ensures reply.baseUrl == "" ==> r == Err(MissingBaseUrl)
    ensures reply.baseUrl != "" && reply.scanError.Some? ==> r == Err(reply.scanError.value)
    ensures reply.baseUrl != "" && reply.scanError.None? ==> r == Ok(Concat(reply.lines))
  {
    if reply.baseUrl == "" {
      return Err(MissingBaseUrl);
    }
    var acc := "";
    var i := 0;
    while i < |reply.lines|
      invariant 0 <= i <= |reply.lines|
      invariant acc == Concat(reply.lines[..i])
    {
      assert reply.lines[..i + 1][..i] == reply.lines[..i];
      acc := acc + reply.lines[i];
      i := i + 1;
    }
    assert reply.lines[..i] == reply.lines;
    if reply.scanError.Some? {
      return Err(reply.scanError.value);
    }
    r := Ok(acc);
  }

  // ---------------------------------------------------------------------
  // Extracting the JSON object
  // ---------------------------------------------------------------------

  const JsonFence: string := "```json"
  const Fence: string := "```"
  const NoJson: string := "no JSON found in the AI response"

  /** The fenced block opens at `p` and closes at `q`: a match of the
      pattern ```` (?s)```json(.*?)``` ```` with the group from `p + 7`
      to `q`. */
  predicate FenceMatch(text: string, p: int, q: int) {
    OccursAt(text, JsonFence, p) && p + |JsonFence| <= q && OccursAt(text, Fence, q)
  }

  /** The match the regular expression reports: it starts leftmost and, the
      group being lazy, closes at the first fence after the opening. */
  ghost predicate LeftmostLazy(text: string, p: int, q: int) {
    FenceMatch(text, p, q) &&
    forall p', q' :: FenceMatch(text, p', q') ==> p <= p' && (p' == p ==> q <= q')
  }

  /** There is some `{` before some `}`. */
  ghost predicate HasBracePair(text: string) {
    exists i, j :: 0 <= i < j < |text| && text[i] == '{' && text[j] == '}'
  }

  /** The fallback: from the first `{` to the last `}`, when the last comes
      after the first. */
  function BraceBlock(text: string): (r: Result<string, string>)
  {
    var start := IndexChar(text, '{');
    var end := LastIndexChar(text, '}');
    if start != -1 && end != -1 && end > start then Ok(TrimSpace(text[start..end + 1]))
    else Err(NoJson)
  }

  /** `extractJsonFromResponse`: the trimmed body of the first ```` ```json ````
      block, else the trimmed text from the first `{` to the last `}`, else
      an error. */
  function ExtractJson(text: string): (r: Result<string, string>)
  {
    var p := Index(text, JsonFence);
    if p >= 0 && IndexFrom(text, Fence, p + |JsonFence|) >= 0 then
      Ok(TrimSpace(text[p + |JsonFence|..IndexFrom(text, Fence, p + |JsonFence|)]))
    else BraceBlock(text)
  }

  /** The regular expression's match opens at the first ```` ```json ```` and
      closes at the first fence after it. */
  lemma LeftmostLazyFound(text: string, p: int, q: int)
    requires LeftmostLazy(text, p, q)
    ensures Index(text, JsonFence) == p
    ensures IndexFrom(text, Fence, p + |JsonFence|) == q
  {
    var p1 := Index(text, JsonFence);
    IndexFromFirst(text, JsonFence, 0);
    assert p1 != -1 && p1 <= p;
    assert FenceMatch(text, p1, q);
    var q1 := IndexFrom(text, Fence, p + |JsonFence|);
    IndexFromFirst(text, Fence, p + |JsonFence|);
    assert q1 != -1 && q1 <= q;
    assert FenceMatch(text, p, q1);
  }

  /** When the text holds a fenced block, the reported one is that of the
      leftmost, lazy match, trimmed, even when it is empty. */
  lemma ExtractFenced(text: string, p: int, q: int)
    requires LeftmostLazy(text, p, q)
    ensures ExtractJson(text) == Ok(TrimSpace(text[p + |JsonFence|..q]))
  {
    LeftmostLazyFound(text, p, q);
  }

  /** The fence wins: whenever some fenced block exists, the result is a
      fenced one, and it is a leftmost, lazy match. */
  lemma FenceFirst(text: string, p: int, q: int)
    requires FenceMatch(text, p, q)
    ensures exists p1, q1 :: LeftmostLazy(text, p1, q1)
  {
    var p1 := Index(text, JsonFence);
    IndexFromFirst(text, JsonFence, 0);
    assert p1 != -1 && p1 <= p;
    var q1 := IndexFrom(text, Fence, p1 + |JsonFence|);
    IndexFromFirst(text, Fence, p1 + |JsonFence|);
    assert q1 != -1;
    forall p', q' | FenceMatch(text, p', q')
      ensures p1 <= p' && (p' == p1 ==> q1 <= q')
    {
      assert p' != -1;
    }
    assert LeftmostLazy(text, p1, q1);
  }

  /** With no fenced block anywhere, the brace fallback decides. */
  lemma ExtractUnfenced(text: string)
    requires forall p, q :: !FenceMatch(text, p, q)
    ensures ExtractJson(text) == BraceBlock(text)
  {
    var p := Index(text, JsonFence);
    if p >= 0 {
      var q := IndexFrom(text, Fence, p + |JsonFence|);
      assert q >= 0 ==> FenceMatch(text, p, q);
    }
  }

  /** `TrimSpace` leaves a trimmed text alone. */
  lemma TrimSpaceTrimmed(x: string)
    requires Trimmed(x)
    ensures TrimSpace(x) == x
  {
    TrimSpacePadded([], x, []);
    assert [] + x + [] == x;
  }

  /** The fallback's result is exactly the text from the first `{` to the
      last `}`: it opens with `{`, closes with `}`, and `TrimSpace` leaves
      it alone. */
  lemma BraceBlockShape(text: string)
    requires HasBracePair(text)
    ensures BraceBlock(text).Ok?
    ensures BraceBlock(text).value == text[IndexChar(text, '{')..LastIndexChar(text, '}') + 1]
    ensures BraceBlock(text).value[0] == '{'
    ensures BraceBlock(text).value[|BraceBlock(text).value| - 1] == '}'
  {
    BraceBounds(text);
    var x := text[IndexChar(text, '{')..LastIndexChar(text, '}') + 1];
    assert x[0] == '{' && x[|x| - 1] == '}';
    TrimSpaceTrimmed(x);
  }

  /** With a `{` before a `}`, the first `{` comes before the last `}`. */
  lemma BraceBounds(text: string)
    requires HasBracePair(text)
    ensures 0 <= IndexChar(text, '{') < LastIndexChar(text, '}') < |text|
  {
    var i, j :| 0 <= i < j < |text| && text[i] == '{' && text[j] == '}';
    IndexCharFound(text, '{', i);
    LastIndexCharFound(text, '}', j);
  }

  /** The fallback fails exactly when no `{` comes before a `}`. */
  lemma BraceBlockFails(text: string)
    ensures BraceBlock(text).Err? <==> !HasBracePair(text)
  {
    var start := IndexChar(text, '{');
    var end := LastIndexChar(text, '}');
    if start != -1 && end != -1 && end > start {
      assert text[start] == '{' && text[end] == '}';
    } else if HasBracePair(text) {
      BraceBlockShape(text);
    }
  }

  /** `extractJsonFromResponse` fails exactly when the text has neither a
      fenced block nor a `{` before a `}`. */
  lemma ExtractFails(text: string)
    ensures ExtractJson(text).Err? <==>
              (forall p, q :: !FenceMatch(text, p, q)) && !HasBracePair(text)
  {
    if exists p, q :: FenceMatch(text, p, q) {
      var p, q :| FenceMatch(text, p, q);
      FenceFirst(text, p, q);
      var p1, q1 :| LeftmostLazy(text, p1, q1);
      ExtractFenced(text, p1, q1);
    } else {
      ExtractUnfenced(text);
      BraceBlockFails(text);
    }
  }

  // ---------------------------------------------------------------------
  // The decoded response
  // ---------------------------------------------------------------------

  /** `CodeResponse`: the file list and the contents by path. */
  datatype CodeResponse = CodeResponse(fileStructure: seq<string>, codeFiles: map<string, string>)

  const MissingCodeFiles: string := "missing or invalid 'codeFiles' in parsed response"

  /** `parseJsonResponse`: extracts the JSON, decodes it with `decode`
      (standing for `json.Unmarshal`, string-or-array handling of the file
      list included) and refuses a response without any code file. */
  function ParseJsonResponse(raw: string, decode: string -> Result<CodeResponse, string>)
    : (r: Result<CodeResponse, string>)
    ensures r.Ok? ==> ExtractJson(raw).Ok? && decode(ExtractJson(raw).value) == r
    ensures r.Ok? ==> |r.value.codeFiles| > 0
    ensures ExtractJson(raw).Err? ==> r == Err(ExtractJson(raw).error)
  {
    match ExtractJson(raw)
    case Err(e) => Err(e)
    case Ok(json) =>
      match decode(json)
      case Err(e) => Err(e)
      case Ok(resp) => if |resp.codeFiles| == 0 then Err(MissingCodeFiles) else Ok(resp)
  }

  /** A decoded response that names no code file is an error, and one that
      names some is passed through unchanged. */
  lemma ParseChecksCodeFiles(raw: string, decode: string -> Result<CodeResponse, string>, resp: CodeResponse)
    requires ExtractJson(raw).Ok? && decode(ExtractJson(raw).value) == Ok(resp)
    ensures |resp.codeFiles| == 0 <==> ParseJsonResponse(raw, decode) == Err(MissingCodeFiles)
    ensures |resp.codeFiles| > 0 <==> ParseJsonResponse(raw, decode) == Ok(resp)
  {
  }

  // ---------------------------------------------------------------------
  // Saving the files
  // ---------------------------------------------------------------------

  const NoContent: string := "// No content provided"

  /** One file written: its path under the output directory and its text. */
  datatype FileWrite = FileWrite(path: string, content: string)

  /** The text written for `path`: its entry in `codeFiles`, or a
      placeholder comment. */
  function ContentOf(resp: CodeResponse, path: string): (r: string)
    ensures path in resp.codeFiles ==> r == resp.codeFiles[path]
    ensures path !in resp.codeFiles ==> r == NoContent
  {
    if path in resp.codeFiles then resp.codeFiles[path] else NoContent
  }

  /** The writes `saveFiles` intends: one per entry of the file list, in
      its order. */
  function Plan(resp: CodeResponse): (r: seq<FileWrite>)
    ensures |r| == |resp.fileStructure|
  {
    var fs := resp.fileStructure;
    seq(|fs|, i requires 0 <= i < |fs| => FileWrite(fs[i], ContentOf(resp, fs[i])))
  }

  /** The position of the first write in `plan` that fails, or `|plan|`. */
  function FirstFailure(plan: seq<FileWrite>, writeError: string -> Option<string>): (k: nat)
    ensures k <= |plan|
    decreases |plan|
  {
    if plan == [] then 0
    else if writeError(plan[0].path).Some? then 0
    else 1 + FirstFailure(plan[1..], writeError)
  }

  /** `saveFiles`: creates the output directory (`mkdirError` is what that
      returned), then writes the planned files in order; the first write
      that fails (`writeError` gives each path's outcome) stops it with that
      error. It returns the files it wrote and the error, if any. */
  method SaveFiles(resp: CodeResponse, mkdirError: Option<string>, writeError: string -> Option<string>)
    returns (written: seq<FileWrite>, err: Option<string>)
    ensures mkdirError.Some? ==> written == [] && err == mkdirError
    ensures mkdirError.None? ==> written == Plan(resp)[..FirstFailure(Plan(resp), writeError)]
    ensures mkdirError.None? ==> err.Some? == (FirstFailure(Plan(resp), writeError) < |Plan(resp)|)
    ensures err.Some? && mkdirError.None? ==>
              err == writeError(Plan(resp)[|written|].path)
  {
    if mkdirError.Some? {
      return [], mkdirError;
    }
    ghost var plan := Plan(resp);
    written := [];
    var i := 0;
    while i < |resp.fileStructure|
      invariant 0 <= i <= |resp.fileStructure|
      invariant written == plan[..i]
      invariant forall k :: 0 <= k < i ==> writeError(plan[k].path).None?
    {
      var path := resp.fileStructure[i];
      var content := if path in resp.codeFiles then resp.codeFiles[path] else NoContent;
      assert plan[i] == FileWrite(path, content);
      var e := writeError(path);
      if e.Some? {
        FirstFailureAt(plan, writeError, i);
        return written, e;
      }
      written := written + [FileWrite(path, content)];
      i := i + 1;
    }
    FirstFailureNone(plan, writeError);
    assert plan[..i] == plan;
    err := None;
  }

  /** When the writes before `i` succeed and the one at `i` fails, `i` is the
      first failure. */
  lemma {:induction false} FirstFailureAt(plan: seq<FileWrite>, writeError: string -> Option<string>, i: nat)
    requires i < |plan| && writeError(plan[i].path).Some?
    requires forall k :: 0 <= k < i ==> writeError(plan[k].path).None?
    ensures FirstFailure(plan, writeError) == i
    decreases i
  {
    if i > 0 {
      FirstFailureAt(plan[1..], writeError, i - 1);
    }
  }

  /** When every write succeeds, there is no first failure. */
  lemma {:induction false} FirstFailureNone(plan: seq<FileWrite>, writeError: string -> Option<string>)
    requires forall k :: 0 <= k < |plan| ==> writeError(plan[k].path).None?
    ensures FirstFailure(plan, writeError) == |plan|
    decreases |plan|
  {
    if plan != [] {
      FirstFailureNone(plan[1..], writeError);
    }
  }

  /** What a complete save writes: one file per entry of the file list, in
      order, duplicates included; each with its code or the placeholder;
      nothing for a path that only `codeFiles` names. */
  lemma PlanMeaning(resp: CodeResponse)
    ensures forall i :: 0 <= i < |resp.fileStructure| ==>
              Plan(resp)[i].path == resp.fileStructure[i] &&
              Plan(resp)[i].content == ContentOf(resp, resp.fileStructure[i])
    ensures forall w :: w in Plan(resp) ==> w.path in resp.fileStructure
  {
    var plan := Plan(resp);
    forall w | w in plan
      ensures w.path in resp.fileStructure
    {
      var i :| 0 <= i < |plan| && plan[i] == w;
      assert w.path == resp.fileStructure[i];
    }
  }
}
