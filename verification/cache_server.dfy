/** The line-protocol cache server (networking/cache_server/server.go): one
    request per line, `<id> <command> <key> [value]`, answered with one reply
    line against a shared string-to-string store. The server has no expiry
    and knows only SET and GET. */
module CacheServer {
  import opened Wrappers
  import opened GoStrings

  type Store = map<string, string>

  /** The fields `processCommand` takes from a line. */
  datatype Request = Request(id: string, command: string, key: string, value: string)

  /** The store after one line and the reply written back for it. */
  datatype Outcome = Outcome(store: Store, reply: string)

  /** The store after a connection and the replies written on it, in order. */
  datatype Session = Session(store: Store, replies: seq<string>)

  /** The trimmed line a request is read from: its fields joined by single
      spaces, an empty value contributing no field. */
  function Unparse(req: Request): string {
    req.id + " " + req.command + " " + req.key + (if req.value == "" then "" else " " + req.value)
  }

  /** The line is trimmed and split on single spaces into at most four fields;
      fewer than three fields is a malformed line. The id, the command word
      and the key are single fields; the value is the rest of the line. */
  function Parse(line: string): Option<Request> {
    FieldsRequest(SplitN(TrimSpace(line), ' ', 4))
  }

  /** The request held by the fields of a split line, if there are enough. */
  function FieldsRequest(parts: seq<string>): Option<Request> {
    if |parts| < 3 then None
    else Some(Request(parts[0], parts[1], parts[2], if |parts| == 4 then parts[3] else ""))
  }

  /** A line is malformed exactly when its trimmed text has fewer than two
      spaces, and a well-formed line is its request's fields joined by single
      spaces: nothing of the trimmed line is lost. */
  lemma ParseMeaning(line: string)
    ensures Parse(line).None? <==> Count(TrimSpace(line), ' ') < 2
    ensures Parse(line).Some? ==> Unparse(Parse(line).value) == TrimSpace(line)
  {
    var trimmed := TrimSpace(line);
    var parts := SplitN(trimmed, ' ', 4);
    SplitNCount(trimmed, ' ', 4);
    SplitNJoin(trimmed, ' ', 4);
    if |parts| >= 3 {
      FieldsUnparse(trimmed, parts);
    }
  }

  lemma FieldsUnparse(trimmed: string, parts: seq<string>)
    requires Trimmed(trimmed) && 3 <= |parts| <= 4 && Join(parts, ' ') == trimmed
    ensures Unparse(Request(parts[0], parts[1], parts[2], if |parts| == 4 then parts[3] else "")) == trimmed
  {
    if |parts| == 4 {
      assert parts == [parts[0], parts[1], parts[2], parts[3]];
      JoinFour(parts[0], parts[1], parts[2], parts[3], ' ');
      LastFieldKept(parts[0] + " " + parts[1] + " " + parts[2], parts[3], trimmed);
      UnparseFour(parts[0], parts[1], parts[2], parts[3]);
    } else {
      assert parts == [parts[0], parts[1], parts[2]];
      JoinThree(parts[0], parts[1], parts[2], ' ');
      UnparseThree(parts[0], parts[1], parts[2]);
    }
  }

  /** A trimmed line does not end in an empty field after a space. */
  lemma LastFieldKept(x: string, v: string, trimmed: string)
    requires Trimmed(trimmed) && trimmed == x + " " + v
    ensures v != []
  {
    assert (x + " ")[|x|] == ' ';
  }

  lemma UnparseFour(id: string, command: string, key: string, value: string)
    requires value != []
    ensures Unparse(Request(id, command, key, value)) == id + " " + command + " " + key + " " + value
  {
    AppendAssoc(id + " " + command + " " + key, " ", value);
  }

  lemma UnparseThree(id: string, command: string, key: string)
    ensures Unparse(Request(id, command, key, "")) == id + " " + command + " " + key
  {
    assert id + " " + command + " " + key + "" == id + " " + command + " " + key;
  }

  /** `processCommand`: the reply to one line and the store it leaves. */
  function Step(store: Store, line: string): Outcome {
    match Parse(line)
    case None => Outcome(store, "ERROR\n")
    case Some(req) =>
      if req.command == "SET" then
        Outcome(store[req.key := req.value], req.id + " OK\n")
      else if req.command == "GET" then
        if req.key in store then Outcome(store, req.id + " OK " + store[req.key] + "\n")
        else Outcome(store, req.id + " ERROR NOT FOUND\n")
      else
        Outcome(store, req.id + " ERROR UNKNOWN COMMAND\n")
  }

  /** The lines `handleConnection` reads with `ReadString('\n')`: every
      `\n`-terminated line of the input, terminator included. A final
      fragment without `\n` is what `ReadString` returns together with its
      error, so it is not a line. */
  function Lines(input: string): seq<string>
    decreases |input|
  {
    var i := IndexChar(input, '\n');
    if i < 0 then [] else [input[..i + 1]] + Lines(input[i + 1..])
  }

  /** Answers `lines` in order with `step`, each line against the store the
      previous ones left. */
  function Replay(step: (Store, string) -> Outcome, store: Store, lines: seq<string>): Session
    decreases |lines|
  {
    if lines == [] then Session(store, [])
    else
      var o := step(store, lines[0]);
      var rest := Replay(step, o.store, lines[1..]);
      Session(rest.store, [o.reply] + rest.replies)
  }

  /** `handleConnection`: one reply per line read, in order. */
  function Serve(store: Store, input: string): Session {
    Replay(Step, store, Lines(input))
  }

  class Server {
    /** The global `dataStore` map. */
    var dataStore: Store

    constructor ()
      ensures dataStore == map[]
    {
      dataStore := map[];
    }

    /** `processCommand`: answers one line, updating the store for SET. */
    method ProcessCommand(commandStr: string) returns (reply: string)
      modifies this
      ensures Outcome(dataStore, reply) == Step(old(dataStore), commandStr)
    {
      var parts := SplitN(TrimSpace(commandStr), ' ', 4);
      if |parts| < 3 {
        return "ERROR\n";
      }
      var id, command, key := parts[0], parts[1], parts[2];
      var value := "";
      if |parts| == 4 {
        value := parts[3];
      }
      if command == "SET" {
        dataStore := dataStore[key := value];
        reply := id + " OK\n";
      } else if command == "GET" {
        if key !in dataStore {
          return id + " ERROR NOT FOUND\n";
        }
        reply := id + " OK " + dataStore[key] + "\n";
      } else {
        reply := id + " ERROR UNKNOWN COMMAND\n";
      }
    }

    /** `handleConnection`: the read loop over one connection's input. */
    method HandleConnection(input: string) returns (replies: seq<string>)
      modifies this
      ensures Session(dataStore, replies) == Serve(old(dataStore), input)
    {
      var rest := input;
      ghost var done: seq<string> := [];
      ghost var store0 := dataStore;
      replies := [];
      while true
        invariant Lines(input) == done + Lines(rest)
        invariant Replay(Step, store0, done) == Session(dataStore, replies)
        decreases |rest|
      {
        var i := IndexChar(rest, '\n');
        if i < 0 {
          break;
        }
        var line := rest[..i + 1];
        ghost var before := dataStore;
        var reply := ProcessCommand(line);
        LinesNext(input, done, rest);
        ReplayExtend(Step, store0, done, line, before, replies, dataStore, reply);
        done := done + [line];
        replies := replies + [reply];
        rest := rest[i + 1..];
      }
      LinesLast(input, done, rest);
    }
  }

  /** Reading the next line moves it from the unread input to the lines read. */
  lemma LinesNext(input: string, done: seq<string>, rest: string)
    requires Lines(input) == done + Lines(rest)
    requires IndexChar(rest, '\n') >= 0
    ensures var i := IndexChar(rest, '\n');
            Lines(input) == (done + [rest[..i + 1]]) + Lines(rest[i + 1..])
  {
    var i := IndexChar(rest, '\n');
    var line, tail := rest[..i + 1], Lines(rest[i + 1..]);
    assert Lines(rest) == [line] + tail;
    AppendAssoc(done, [line], tail);
  }

  /** Once no `\n` is left, every line has been read. */
  lemma LinesLast(input: string, done: seq<string>, rest: string)
    requires Lines(input) == done + Lines(rest)
    requires IndexChar(rest, '\n') < 0
    ensures Lines(input) == done
  {
    assert done + [] == done;
  }

  // ---------------------------------------------------------------------
  // Properties of the protocol
  // ---------------------------------------------------------------------

  /** Parsing inverts `Unparse`, whatever white space surrounds the line
      (the `\n` that ends it, a `\r` before it). */
  lemma ParseUnparse(req: Request, head: string, tail: string)
    requires ' ' !in req.id && ' ' !in req.command && ' ' !in req.key
    requires Trimmed(Unparse(req))
    requires AllSpace(head) && AllSpace(tail)
    ensures Parse(head + Unparse(req) + tail) == Some(req)
  {
    var u := Unparse(req);
    var line := head + u + tail;
    TrimSpacePadded(head, u, tail);
    UnparseSplits(req);
    var parts := SplitN(u, ' ', 4);
    if req.value == "" {
      assert parts == [req.id, req.command, req.key];
    } else {
      assert parts == [req.id, req.command, req.key, req.value];
    }
    assert Parse(line) == FieldsRequest(parts);
  }

  /** The fields of an unparsed request split back apart. */
  lemma UnparseSplits(req: Request)
    requires ' ' !in req.id && ' ' !in req.command && ' ' !in req.key
    ensures SplitN(Unparse(req), ' ', 4)
         == if req.value == "" then [req.id, req.command, req.key]
            else [req.id, req.command, req.key, req.value]
  {
    var u := Unparse(req);
    var x := req.id + " " + req.command + " " + req.key;
    if req.value == "" {
      assert u == x + "";
      assert x + "" == req.id + [' '] + (req.command + [' '] + req.key);
      SplitThree(req.id, req.command, req.key);
    } else {
      AppendAssoc(x, " ", req.value);
      assert u == req.id + [' '] + (req.command + [' '] + (req.key + [' '] + req.value));
      SplitFour(req.id, req.command, req.key, req.value);
    }
  }

  lemma SplitThree(id: string, command: string, key: string)
    requires ' ' !in id && ' ' !in command && ' ' !in key
    ensures SplitN(id + [' '] + (command + [' '] + key), ' ', 4) == [id, command, key]
  {
    var rest := command + [' '] + key;
    SplitNField(id, rest, ' ', 4);
    SplitNField(command, key, ' ', 3);
    SplitNWhole(key, ' ', 2);
    assert [id] + ([command] + [key]) == [id, command, key];
  }

  lemma SplitFour(id: string, command: string, key: string, value: string)
    requires ' ' !in id && ' ' !in command && ' ' !in key
    ensures SplitN(id + [' '] + (command + [' '] + (key + [' '] + value)), ' ', 4) == [id, command, key, value]
  {
    var rest := key + [' '] + value;
    SplitNField(id, command + [' '] + rest, ' ', 4);
    SplitNField(command, rest, ' ', 3);
    SplitNField(key, value, ' ', 2);
    assert SplitN(value, ' ', 1) == [value];
    assert [id] + ([command] + ([key] + [value])) == [id, command, key, value];
  }

  /** A well-formed SET line stores its value under its key, overwriting any
      earlier one, leaves every other key alone and replies `<id> OK`. */
  lemma StepSet(store: Store, line: string, id: string, key: string, value: string)
    requires Parse(line) == Some(Request(id, "SET", key, value))
    ensures Step(store, line) == Outcome(store[key := value], id + " OK\n")
    ensures forall k :: k != key ==> (k in Step(store, line).store <==> k in store)
    ensures forall k :: k != key && k in store ==> Step(store, line).store[k] == store[k]
  {
  }

  /** A GET line changes nothing and replies with the stored value, or with
      `ERROR NOT FOUND` when the key was never set. */
  lemma StepGet(store: Store, line: string, id: string, key: string, value: string)
    requires Parse(line) == Some(Request(id, "GET", key, value))
    ensures Step(store, line).store == store
    ensures key in store ==> Step(store, line).reply == id + " OK " + store[key] + "\n"
    ensures key !in store ==> Step(store, line).reply == id + " ERROR NOT FOUND\n"
  {
  }

  /** Every other command word, DEL and lower-case words included, is
      unknown and changes nothing. */
  lemma StepUnknown(store: Store, line: string, req: Request)
    requires Parse(line) == Some(req) && req.command != "SET" && req.command != "GET"
    ensures Step(store, line) == Outcome(store, req.id + " ERROR UNKNOWN COMMAND\n")
  {
  }

  /** A line with fewer than two spaces once trimmed gets a bare `ERROR`,
      without an id, and changes nothing. */
  lemma StepMalformed(store: Store, line: string)
    requires Count(TrimSpace(line), ' ') < 2
    ensures Step(store, line) == Outcome(store, "ERROR\n")
  {
    ParseMeaning(line);
  }

  /** After `SET k v` a `GET k` on any connection replies `OK v`. */
  lemma SetThenGet(store: Store, setLine: string, getLine: string, id1: string, id2: string,
                   key: string, value: string, ignored: string)
    requires Parse(setLine) == Some(Request(id1, "SET", key, value))
    requires Parse(getLine) == Some(Request(id2, "GET", key, ignored))
    ensures Step(Step(store, setLine).store, getLine).reply == id2 + " OK " + value + "\n"
  {
  }

  /** Answering one more line extends the session by that line's step. */
  lemma {:induction false} ReplaySnoc(step: (Store, string) -> Outcome, store: Store,
                                      lines: seq<string>, line: string)
    ensures Replay(step, store, lines + [line])
         == Session(step(Replay(step, store, lines).store, line).store,
                    Replay(step, store, lines).replies + [step(Replay(step, store, lines).store, line).reply])
    decreases |lines|
  {
    if lines != [] {
      assert (lines + [line])[1..] == lines[1..] + [line];
      ReplaySnoc(step, step(store, lines[0]).store, lines[1..], line);
    } else {
      assert [line][1..] == [];
    }
  }

  /** The loop step of `handleConnection`: answering the next line extends
      the session by that line's reply and store. */
  lemma ReplayExtend(step: (Store, string) -> Outcome, store: Store, lines: seq<string>, line: string,
                     before: Store, replies: seq<string>, after: Store, reply: string)
    requires Replay(step, store, lines) == Session(before, replies)
    requires step(before, line) == Outcome(after, reply)
    ensures Replay(step, store, lines + [line]) == Session(after, replies + [reply])
  {
    ReplaySnoc(step, store, lines, line);
  }

  /** Replaying two batches of lines is replaying the first and then the
      second from the store the first left. */
  lemma {:induction false} ReplayAppend(step: (Store, string) -> Outcome, store: Store,
                                        a: seq<string>, b: seq<string>)
    ensures Replay(step, store, a + b).store
         == Replay(step, Replay(step, store, a).store, b).store
    ensures Replay(step, store, a + b).replies
         == Replay(step, store, a).replies + Replay(step, Replay(step, store, a).store, b).replies
    decreases |a|
  {
    if a == [] {
      assert a + b == b;
    } else {
      assert (a + b)[1..] == a[1..] + b;
      ReplayAppend(step, step(store, a[0]).store, a[1..], b);
    }
  }

  /** Input that stops at a line boundary, followed by more input, is split
      into the lines of each part. */
  lemma {:induction false} LinesAppend(first: string, second: string)
    requires first == [] || first[|first| - 1] == '\n'
    ensures Lines(first + second) == Lines(first) + Lines(second)
    decreases |first|
  {
    if first == [] {
      assert first + second == second;
    } else {
      var i := IndexChar(first, '\n');
      IndexCharFound(first, '\n', |first| - 1);
      IndexCharFirst(first, '\n');
      var line, tail := first[..i + 1], first[i + 1..];
      assert first == line + tail;
      assert first + second == line + (tail + second);
      LinesAppend(tail, second);
      LinesCons(line, tail);
      LinesCons(line, tail + second);
      AppendAssoc([line], Lines(tail), Lines(second));
    }
  }

  /** A complete line followed by more input is read first. */
  lemma LinesCons(line: string, rest: string)
    requires line != [] && line[|line| - 1] == '\n'
    requires forall j :: 0 <= j < |line| - 1 ==> line[j] != '\n'
    ensures Lines(line + rest) == [line] + Lines(rest)
  {
    var s := line + rest;
    var n := |line| - 1;
    IndexCharFound(s, '\n', n);
    var i := IndexChar(s, '\n');
    assert i == n by {
      assert forall j :: 0 <= j < n ==> s[j] == line[j];
    }
    assert s[..i + 1] == line;
    assert s[i + 1..] == rest;
  }

  /** A connection's input that stops at a line boundary, followed by more
      input, is served as the first part and then the second: replies come
      in input order and each sees the store left by the lines before it. */
  lemma ServeAppend(store: Store, first: string, second: string)
    requires first == [] || first[|first| - 1] == '\n'
    ensures Serve(store, first + second).store == Serve(Serve(store, first).store, second).store
    ensures Serve(store, first + second).replies
         == Serve(store, first).replies + Serve(Serve(store, first).store, second).replies
  {
    LinesAppend(first, second);
    ReplayAppend(Step, store, Lines(first), Lines(second));
  }

  /** One line per `\n`. */
  lemma {:induction false} LinesCount(input: string)
    ensures |Lines(input)| == Count(input, '\n')
    decreases |input|
  {
    var i := IndexChar(input, '\n');
    IndexCharFirst(input, '\n');
    if i < 0 {
      CountAbsent(input, '\n');
    } else {
      assert input == input[..i] + ['\n'] + input[i + 1..];
      CountSplit(input[..i], '\n', input[i + 1..]);
      LinesCount(input[i + 1..]);
    }
  }

  /** Every line ends with its `\n` and holds no other. */
  lemma {:induction false} LinesShape(input: string)
    ensures forall k :: 0 <= k < |Lines(input)| ==> LineShaped(Lines(input)[k])
    decreases |input|
  {
    var i := IndexChar(input, '\n');
    if i >= 0 {
      var line := input[..i + 1];
      var rest := Lines(input[i + 1..]);
      var all := Lines(input);
      assert all == [line] + rest;
      FirstLineShaped(input);
      assert LineShaped(line);
      LinesShape(input[i + 1..]);
      forall k | 0 <= k < |all|
        ensures LineShaped(all[k])
      {
        if k == 0 {
          assert all[k] == line;
        } else {
          assert all[k] == rest[k - 1];
        }
      }
    }
  }

  /** The text up to and including the first `\n` is a line. */
  lemma FirstLineShaped(input: string)
    requires IndexChar(input, '\n') >= 0
    ensures LineShaped(input[..IndexChar(input, '\n') + 1])
  {
    var i := IndexChar(input, '\n');
    var line := input[..i + 1];
    IndexCharFirst(input, '\n');
    assert line[..|line| - 1] == input[..i];
    Absent(input[..i], '\n');
  }

  predicate LineShaped(line: string) {
    line != [] && line[|line| - 1] == '\n' && '\n' !in line[..|line| - 1]
  }

  /** One reply per line. */
  lemma {:induction false} ReplayCount(step: (Store, string) -> Outcome, store: Store, lines: seq<string>)
    ensures |Replay(step, store, lines).replies| == |lines|
    decreases |lines|
  {
    if lines != [] {
      ReplayCount(step, step(store, lines[0]).store, lines[1..]);
    }
  }

  /** One reply per complete line of input. */
  lemma ServeCount(store: Store, input: string)
    ensures |Serve(store, input).replies| == Count(input, '\n')
  {
    LinesCount(input);
    ReplayCount(Step, store, Lines(input));
  }

  /** Input after the last `\n` is never answered. */
  lemma ServeUnterminated(store: Store, fragment: string)
    requires '\n' !in fragment
    ensures Serve(store, fragment) == Session(store, [])
  {
  }

  /** One complete line is answered by one `Step`. */
  lemma ServeLine(store: Store, body: string)
    requires '\n' !in body
    ensures Serve(store, body + "\n")
         == Session(Step(store, body + "\n").store, [Step(store, body + "\n").reply])
  {
    var line := body + "\n";
    var i := IndexChar(line, '\n');
    IndexCharFound(line, '\n', |body|);
    assert i == |body| by {
      assert forall j :: 0 <= j < |body| ==> line[j] == body[j];
    }
    assert line[..i + 1] == line;
    assert line[i + 1..] == [];
    assert Lines(line) == [line];
    var o := Step(store, line);
    var lines: seq<string> := [line];
    assert lines[1..] == [];
    assert Replay(Step, o.store, []) == Session(o.store, []);
  }
}
