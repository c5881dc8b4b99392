# Cache, cache protocol and AI code generator — a Dafny model

This project models four pieces of a Go repository and proves properties
about them in Dafny.

- **The TTL cache** (`projects/thread-safe-cache/main.go`) is a class
  `TtlCache.Cache` over a map from keys to items. Each item is a value plus
  an absolute expiration in nanoseconds.
  - `Set` stamps `now + ttl`. `Get` hides expired items without removing
    them. `Delete` removes a key.
  - The body of the eviction goroutine's loop is `EvictExpired`, a loop that
    deletes every item past its expiration.
  - The lemmas show three things. The sweep never changes what `Get` sees.
    Sweeping is idempotent. Any interleaving of sweeps with client writes
    reads exactly like the same writes without sweeps.
- **The cache server** (`networking/cache_server/server.go`) is split in two.
  - `CacheServer.Parse` and `CacheServer.Step` are pure functions. `Parse`
    trims the line and splits it on single spaces into at most four fields.
    `Step` dispatches on `SET`, `GET` and anything else.
  - `CacheServer.Server` is a class whose `dataStore` field the two methods
    update.
  - A connection is the text the client sends. `handleConnection` is a loop
    over its newline-terminated lines, and that loop is proved equal to a
    fold of `Step`.
- **The cache client** (`networking/cache_client/client.go`) is a class with
  the request counter. Every request carries the next id, wraps at 2^64 and
  goes out as the line `<id> <command>\n`. Cross-module lemmas prove that
  the server parses the client's `SET`, `GET` and `DEL` lines back into
  exactly their fields when the key and value fit the protocol
  (`CacheClient.WireKey`: a non-empty key with no space or line break that
  does not end in white space; `CacheClient.WireValue`: a value with no line
  break that does not end in white space; for `SET` with a non-empty value,
  an empty key or one ending in white space is fine too). Outside those
  conditions the lines are not read back: an empty `GET` or `DEL` key makes
  a malformed line, and a `SET` key's trailing white space is trimmed when
  the value is empty. The lemmas also show that a `Set` followed by a `Get`
  on one connection is answered `OK <value>`.
- **The code generator** (`projects/ai-codegen/main.go`) covers these parts:
  - model routing;
  - the prompt and its system-message cut;
  - the two stream-collecting loops;
  - the JSON extraction, proved equal to the leftmost, lazy match of the
    regular expression ```` (?s)```json(.*?)``` ```` with the brace
    fallback behind it;
  - the `codeFiles` check;
  - the `saveFiles` loop, proved to write one file per entry of the file
    list, in order.

Shared pieces:

- `GoStrings` models the parts of Go's `strings`, `unicode` and `fmt`
  packages that the code relies on: `TrimSpace`, `SplitN`, `Index`,
  `LastIndex` and `%d`.
- `Wrappers` holds `Option` and `Result`.

**The client sends a verb the server does not know.**
- `client.go` (lines 60-62) sends `DEL <key>`.
- The server's switch (`server.go`, lines 47-63) knows only `SET` and `GET`.
- The server's store is a plain `map[string]string` with no expiry.
- A client's `Del` line is therefore answered `<id> ERROR UNKNOWN COMMAND`
  and deletes nothing. `CacheClient.DelIsUnknown` proves this.
- The TTL cache is a separate in-process type that the server does not use.

## Model

| member | source | states |
|---|---|---|
| TtlCache.Swept | projects/thread-safe-cache/main.go:74-79 | a sweep keeps exactly the items not yet past their expiration, each unchanged |
| TtlCache.Cache.constructor | projects/thread-safe-cache/main.go:36-39 | a new cache has no items and keeps the given ttl (which must be positive, as the ticker demands) |
| TtlCache.Cache.Set | projects/thread-safe-cache/main.go:44-51 | the key maps to the value stamped `now + ttl`, whatever was there before; every other key is unchanged |
| TtlCache.Cache.Get | projects/thread-safe-cache/main.go:53-61 | a value is returned iff the key is present and `now <= expiration` (still found at the expiration instant); the map is not modified |
| TtlCache.Cache.Delete | projects/thread-safe-cache/main.go:63-67 | the key is gone, an absent key is a no-op, other keys are unchanged |
| TtlCache.Cache.EvictExpired | projects/thread-safe-cache/main.go:73-80 | the loop that deletes during iteration leaves exactly `Swept(old items, now)` |
| TtlCache.SetThenLookup | projects/thread-safe-cache/main.go:44-61 | a `Set` at `t0` is visible to a `Get` at `t` exactly when `t - t0 <= ttl` |
| TtlCache.DeleteThenLookup | projects/thread-safe-cache/main.go:53-67 | after `Delete(k)` a `Get(k)` finds nothing and other keys read as before |
| TtlCache.ExpiryIsPermanent | projects/thread-safe-cache/main.go:57 | a key that reads as absent or expired reads the same at every later time until written again |
| TtlCache.SweptLookup | projects/thread-safe-cache/main.go:53-80 | a sweep at `s` does not change any `Get` at `now >= s`, the same instant included |
| TtlCache.SweptTwice | projects/thread-safe-cache/main.go:74-79 | two sweeps equal one sweep at the later instant; sweeping twice at one instant equals sweeping once |
| TtlCache.SweepsAreInvisible | projects/thread-safe-cache/main.go:44-80 | with any sweeps interleaved among writes, none after `now`, every `Get` at `now` answers as without the sweeps |
| TtlCache.EvictedWithinTwoTtl | projects/thread-safe-cache/main.go:69-80 | an item left alone is removed from the map by a ticker sweep at most `2 * ttl` after it was written |
| GoStrings.TrimSpace | networking/cache_server/server.go:31 | the trimmed line starts and ends with non-white space and is no longer than the input |
| GoStrings.TrimSpaceInfix | networking/cache_server/server.go:31 | trimming removes only white space, from the two ends |
| GoStrings.SplitN | networking/cache_server/server.go:32 | at most `n` fields, and at least one when `n > 0` |
| GoStrings.SplitNJoin | networking/cache_server/server.go:32 | the fields joined with the separator give back the input: splitting loses nothing |
| GoStrings.SplitNFields | networking/cache_server/server.go:32 | no field holds the separator except an `n`-th one, so only the value keeps inner spaces |
| GoStrings.DecimalRoundTrip | networking/cache_client/client.go:38 | the `%d` text of an id reads back as that id |
| GoStrings.DecimalInjective | networking/cache_client/client.go:38 | different ids are formatted differently |
| CacheServer.ParseMeaning | networking/cache_server/server.go:31-42 | a line is malformed iff its trimmed text has fewer than two spaces; a parsed request's fields joined by single spaces are the trimmed line |
| CacheServer.FieldsUnparse | networking/cache_server/server.go:38-42 | the id, command, key and value (empty with three fields) taken from the split lose nothing of the trimmed line |
| CacheServer.ParseUnparse | networking/cache_server/server.go:31-42 | a request whose id, command and key hold no space and whose joined text has no white space at either end is parsed back exactly, whatever white space surrounds it |
| CacheServer.StepSet | networking/cache_server/server.go:48-52 | `SET` stores the value under the key (overwriting), replies `<id> OK`, and changes no other key |
| CacheServer.StepGet | networking/cache_server/server.go:53-61 | `GET` leaves the store alone and replies `<id> OK <val>` for a present key, `<id> ERROR NOT FOUND` for an absent one |
| CacheServer.StepUnknown | networking/cache_server/server.go:47-63 | any other command word (DEL, lower case, an empty field) replies `<id> ERROR UNKNOWN COMMAND` with the id echoed verbatim, store unchanged |
| CacheServer.StepMalformed | networking/cache_server/server.go:31-36 | a line with fewer than three fields replies exactly `ERROR` without an id and leaves the store unchanged |
| CacheServer.SetThenGet | networking/cache_server/server.go:48-61 | `SET k v` and then `GET k` replies `<id> OK v` |
| CacheServer.Server.constructor | networking/cache_server/server.go:11-12 | the store starts empty |
| CacheServer.Server.ProcessCommand | networking/cache_server/server.go:30-65 | the new store and the reply are those of `Step` on the old store |
| CacheServer.Server.HandleConnection | networking/cache_server/server.go:16-28 | the read loop leaves the store and replies of folding `Step` over the input's lines |
| CacheServer.ReplayAppend | networking/cache_server/server.go:20-27 | processing two runs of lines in one go equals processing the first and then the second from where it left the store |
| CacheServer.ServeAppend | networking/cache_server/server.go:20-27 | a connection's input split anywhere between lines is served as the two parts in turn |
| CacheServer.LinesShape | networking/cache_server/server.go:21 | every line read ends in its only line break |
| CacheServer.ServeCount | networking/cache_server/server.go:20-27 | one reply per complete line, in input order |
| CacheServer.ServeUnterminated | networking/cache_server/server.go:21-25 | text without a line break ends the loop: no reply, store unchanged |
| CacheServer.ServeLine | networking/cache_server/server.go:20-27 | a one-line input is answered by exactly that line's `Step` |
| CacheClient.NextId | networking/cache_client/client.go:37 | the counter goes up by one and wraps to 0 past the largest `uint64` |
| CacheClient.Response | networking/cache_client/client.go:39-49 | a failed write returns its error without reading, otherwise the read's outcome |
| CacheClient.Client.constructor | networking/cache_client/client.go:23-26 | a new client's counter is 1 and nothing is written yet |
| CacheClient.Client.SendCommand | networking/cache_client/client.go:33-50 | the counter is incremented before formatting, even when the write fails; the line `<id> <command>\n` is written |
| CacheClient.Client.Set | networking/cache_client/client.go:52-54 | sends `SET <key> <value>` with the next id |
| CacheClient.Client.Get | networking/cache_client/client.go:56-58 | sends `GET <key>` with the next id |
| CacheClient.Client.Del | networking/cache_client/client.go:60-62 | sends `DEL <key>` with the next id |
| CacheClient.IdsIncrease | networking/cache_client/client.go:37 | until the counter wraps, the k-th request carries `start + k + 1`, so ids strictly increase |
| CacheClient.FirstRequestId | networking/cache_client/client.go:25-38 | a fresh client's first request line is `2 <command>\n` |
| CacheClient.IdWraps | networking/cache_client/client.go:37 | after the largest `uint64` the next id is 0 |
| CacheClient.SetLineParses | networking/cache_client/client.go:33-54 | under `WireSetKey` (a key with no space or line break, also non-empty and not ending in white space when the value is empty) and `WireValue` (a value with no line break and no trailing white space), the server parses a `Set` line as exactly `(id, SET, key, value)` |
| CacheClient.GetLineParses | networking/cache_client/client.go:56-57 | under `WireKey` (a non-empty key with no space or line break, not ending in white space), the server parses a `Get` line as `(id, GET, key)` with an empty value |
| CacheClient.DelLineParses | networking/cache_client/client.go:60-61 | under `WireKey`, the server parses a `Del` line as `(id, DEL, key)` with an empty value |
| CacheClient.DelIsUnknown | networking/cache_server/server.go:47-63 | under `WireKey`, a client's `Del` line is answered `<id> ERROR UNKNOWN COMMAND` and deletes nothing |
| CacheClient.EmptyKeyIsMalformed | networking/cache_client/client.go:56-62 | a `Get` or `Del` of the empty key is a malformed line for the server: it replies a bare `ERROR` and the store is unchanged |
| CacheClient.SetTrailingSpaceLost | networking/cache_client/client.go:52-54 | a `Set` with an empty value and a key ending in white space is stored under the key without that white space |
| CacheClient.RequestIsOneLine | networking/cache_client/client.go:38 | a request line holds exactly one line break, at its end |
| CacheClient.SetThenGetOnConnection | networking/cache_client/client.go:52-58 | under `WireKey` and `WireValue`, a client's `Set` then `Get` of one key on one connection are answered `<id1> OK` and `<id2> OK <value>` |
| CodeGen.Route | projects/ai-codegen/main.go:217-221 | the model goes to Ollama iff its name contains `:` |
| CodeGen.SystemContent | projects/ai-codegen/main.go:234 | the system content is the prompt up to, not including, its first line break |
| CodeGen.ChatMessages | projects/ai-codegen/main.go:233-236 | the request holds the system message, a prefix of the prompt, then the whole prompt as the user message |
| CodeGen.SystemIsFirstLine | projects/ai-codegen/main.go:209-234 | the built prompt always holds a line break, so the cut never panics, and the system message is the first line of the MCP text |
| CodeGen.CollectOpenAI | projects/ai-codegen/main.go:245-258 | the receive loop returns the stream's collected text or its first error |
| CodeGen.CollectedChunks | projects/ai-codegen/main.go:246-258 | chunks closed by EOF yield the concatenation of their contents, whatever follows |
| CodeGen.CollectedError | projects/ai-codegen/main.go:251-253 | an error before EOF returns the error and discards the text read |
| CodeGen.CollectOllama | projects/ai-codegen/main.go:261-300 | no base URL is an error; otherwise the scanned lines concatenated without line breaks, or the scanner's error |
| CodeGen.LeftmostLazyFound | projects/ai-codegen/main.go:304-305 | the regular expression's match opens at the first ```` ```json ```` and closes at the first fence after it |
| CodeGen.ExtractFenced | projects/ai-codegen/main.go:303-307 | with a fenced block, the result is the trimmed text of the leftmost, lazy match, even when empty |
| CodeGen.FenceFirst | projects/ai-codegen/main.go:304-306 | whenever some fenced block exists, a leftmost, lazy match exists, so the fence takes priority over the braces |
| CodeGen.ExtractUnfenced | projects/ai-codegen/main.go:306-313 | with no fenced block, the brace fallback decides |
| CodeGen.BraceBlockShape | projects/ai-codegen/main.go:309-312 | the fallback is the text from the first `{` through the last `}`, so it starts with `{` and ends with `}` |
| CodeGen.BraceBlockFails | projects/ai-codegen/main.go:309-314 | the fallback fails iff no `{` comes before a `}` |
| CodeGen.ExtractFails | projects/ai-codegen/main.go:303-315 | extraction fails iff there is neither a fenced block nor a `{` before a `}` |
| CodeGen.ParseJsonResponse | projects/ai-codegen/main.go:317-331 | a response is accepted only if extraction and decoding succeed and it names at least one code file; extraction errors pass through |
| CodeGen.ParseChecksCodeFiles | projects/ai-codegen/main.go:327-330 | a decoded response with no code file is rejected with the `codeFiles` error; one with some is returned unchanged |
| CodeGen.ContentOf | projects/ai-codegen/main.go:341-344 | a file's text comes from `codeFiles`, or is `// No content provided` |
| CodeGen.Plan | projects/ai-codegen/main.go:340-347 | one planned write per file-list entry |
| CodeGen.SaveFiles | projects/ai-codegen/main.go:333-354 | a failed directory creation writes nothing; otherwise the planned files are written in order up to the first failing write, whose error is returned |
| CodeGen.PlanMeaning | projects/ai-codegen/main.go:340-347 | the i-th write is the i-th file-list entry with its content, duplicates included; paths only `codeFiles` names are never written |

## Left out

- Locking and goroutines: the mutexes, `go c.startEviction()` and `go handleConnection`. Each operation and each sweep is one atomic step.
- TtlCache.Cache.Set: the expiration stamp `time.Now().Add(c.ttl).UnixNano()` is an `int64`, which wraps for instants after the year 2262. The model's `now + ttl` is unbounded, so it does not capture a ttl so large that the stamp wraps negative, where `Get` hides the fresh item and the next sweep deletes it.
- Wall-clock time and the ticker: `time.Now()` is the parameter `now`. The ticker's schedule is `TtlCache.Tick`, and the lemmas allow a sweep between any two operations.
- TCP I/O: `net.Listen`, `Accept`, `net.Dial`, `Close` and the `Println` logging. A connection is the text a client sends, and each client exchange is the `Exchange` value (the write error and the read result).
- `NewCacheClient`'s dial failure: the constructor models the client once the connection is open.
- The client's reply read: it reads through a fresh `bufio.Reader` on every call, which may swallow buffered bytes of later replies. This is inside the `Exchange` parameter and not modelled.
- Character encoding: Go strings are bytes, and the model works on code points. Byte offsets and code-point offsets differ in number, but every needle the code searches for is ASCII, so on valid UTF-8 the substrings cut at the found positions are the same. Invalid UTF-8 is not modelled.
- The model does not include the code generator's interactive parts: the `survey` prompts, the spinner, the colour output, `main` and the MCP prompt texts.
- The HTTP requests are not modelled, and neither are `json.Marshal` or `CreateChatCompletionStream`. A request failure can be written as a `Failed` first stream event.
- The chunk's content: `response.Choices[0]` panics on a chunk without choices. The model assumes every chunk carries its content.
- CodeGen.CollectOpenAI: a finite event sequence that ends without EOF is read as the end of the stream.
- `json.Unmarshal` and `StringArray.UnmarshalJSON` are not modelled. Decoding is the `decode` parameter of `ParseJsonResponse`. A nil and an empty `codeFiles` map are both the empty map.
- File system effects in `saveFiles` are left out:
  - `filepath.Join` path cleaning;
  - the `output/<project>` base directory;
  - the per-file `MkdirAll`, whose error the code ignores;
  - file modes.

  The model records the file-list path and the content of each write. The outcome of each write is a function of its path.
