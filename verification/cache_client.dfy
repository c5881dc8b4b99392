/** The cache client (networking/cache_client/client.go): every request is
    one line `<id> <command>\n`, the id taken from a per-client counter that
    is incremented before each request. The connection is modelled by what
    the client writes on it and by what each exchange returns. */
module CacheClient {
  import opened Wrappers
  import opened GoStrings
  import CacheServer

  /** The largest `uint64`. */
  const MaxUint64: nat := 0xFFFF_FFFF_FFFF_FFFF

  /** `atomic.AddUint64(&id, 1)`: the counter after one increment, wrapping
      to 0 past the largest `uint64`. */
  function NextId(id: nat): (r: nat)
    requires id <= MaxUint64
    ensures r <= MaxUint64
    ensures id < MaxUint64 ==> r == id + 1
    ensures id == MaxUint64 ==> r == 0
  {
    (id + 1) % (MaxUint64 + 1)
  }

  /** `fmt.Sprintf("%d %s\n", id, command)`. */
  function RequestLine(id: nat, command: string): string {
    Decimal(id) + " " + command + "\n"
  }

  /** `Set`'s command: `SET <key> <value>`. */
  function SetCommand(key: string, value: string): string {
    "SET " + key + " " + value
  }

  /** `Get`'s command: `GET <key>`. */
  function GetCommand(key: string): string {
    "GET " + key
  }

  /** `Del`'s command: `DEL <key>`. */
  function DelCommand(key: string): string {
    "DEL " + key
  }

  /** What the connection does with one request: the error `Write` returned,
      if any, and otherwise what reading the reply line returned. */
  datatype Exchange = Exchange(writeError: Option<string>, readResult: Result<string, string>)

  /** What `sendCommand` returns for an exchange: the write error without
      reading, or the outcome of the read. */
  function Response(link: Exchange): (r: Result<string, string>)
    ensures link.writeError.Some? ==> r == Err(link.writeError.value)
    ensures link.writeError.None? ==> r == link.readResult
  {
    match link.writeError
    case Some(e) => Err(e)
    case None => link.readResult
  }

  class Client {
    /** The request counter (`CacheClient.id`). */
    var id: nat
    /** The request lines handed to `conn.Write`, in order. */
    var written: seq<string>

    predicate Valid()
      reads this
    {
      id <= MaxUint64
    }

    /** `NewCacheClient` once the connection is open. */
    constructor ()
      ensures Valid() && id == 1 && written == []
    {
      id := 1;
      written := [];
    }

    /** `sendCommand`: takes the next id, writes the request line and, when
        the write succeeded, returns what reading the reply gave. A failed
        write still uses up its id. */
    method SendCommand(command: string, link: Exchange) returns (r: Result<string, string>)
      requires Valid()
      modifies this
      ensures Valid()
      ensures id == NextId(old(id))
      ensures written == old(written) + [RequestLine(id, command)]
      ensures r == Response(link)
    {
      id := NextId(id);
      var fullCommand := RequestLine(id, command);
      written := written + [fullCommand];
      if link.writeError.Some? {
        return Err(link.writeError.value);
      }
      r := link.readResult;
    }

    /** `Set`: sends `SET <key> <value>`. */
    method Set(key: string, value: string, link: Exchange) returns (r: Result<string, string>)
      requires Valid()
      modifies this
      ensures Valid() && id == NextId(old(id))
      ensures written == old(written) + [RequestLine(id, SetCommand(key, value))]
      ensures r == Response(link)
    {
      r := SendCommand(SetCommand(key, value), link);
    }

    /** `Get`: sends `GET <key>`. */
    method Get(key: string, link: Exchange) returns (r: Result<string, string>)
      requires Valid()
      modifies this
      ensures Valid() && id == NextId(old(id))
      ensures written == old(written) + [RequestLine(id, GetCommand(key))]
      ensures r == Response(link)
    {
      r := SendCommand(GetCommand(key), link);
    }

    /** `Del`: sends `DEL <key>`. */
    method Del(key: string, link: Exchange) returns (r: Result<string, string>)
      requires Valid()
      modifies this
      ensures Valid() && id == NextId(old(id))
      ensures written == old(written) + [RequestLine(id, DelCommand(key))]
      ensures r == Response(link)
    {
      r := SendCommand(DelCommand(key), link);
    }
  }

  // ---------------------------------------------------------------------
  // Request ids
  // ---------------------------------------------------------------------

  /** The ids carried by `n` consecutive requests of a client whose counter
      stands at `start`. */
  function Ids(start: nat, n: nat): seq<nat>
    requires start <= MaxUint64
    decreases n
  {
    if n == 0 then [] else [NextId(start)] + Ids(NextId(start), n - 1)
  }

  /** Until the counter wraps, the k-th request carries `start + k + 1`: ids
      on one client are strictly increasing. */
  lemma {:induction false} IdsIncrease(start: nat, n: nat)
    requires start + n <= MaxUint64
    ensures |Ids(start, n)| == n
    ensures forall k :: 0 <= k < n ==> Ids(start, n)[k] == start + k + 1
    ensures forall j, k :: 0 <= j < k < n ==> Ids(start, n)[j] < Ids(start, n)[k]
    decreases n
  {
    if n > 0 {
      IdsIncrease(start + 1, n - 1);
      assert forall k :: 1 <= k < n ==> Ids(start, n)[k] == Ids(start + 1, n - 1)[k - 1];
    }
  }

  /** A fresh client's first request carries id 2. */
  lemma FirstRequestId(command: string)
    ensures Ids(1, 1) == [2]
    ensures RequestLine(Ids(1, 1)[0], command) == "2 " + command + "\n"
  {
  }

  /** The counter wraps: after the largest `uint64` comes 0. */
  lemma IdWraps()
    ensures Ids(MaxUint64, 1) == [0]
  {
  }

  // ---------------------------------------------------------------------
  // The client's lines as the server reads them
  // ---------------------------------------------------------------------

  /** A key survives the trip through the server's parser: one field (no
      space), no line break, and not ending in white space. */
  predicate WireKey(key: string) {
    key != [] && ' ' !in key && '\n' !in key && !IsSpace(key[|key| - 1])
  }

  /** A value survives the trip: no line break, and not ending in white space
      (which the server's `TrimSpace` would drop). */
  predicate WireValue(value: string) {
    '\n' !in value && (value == [] || !IsSpace(value[|value| - 1]))
  }

  lemma DecimalNoSpace(id: nat)
    ensures ' ' !in Decimal(id) && '\n' !in Decimal(id)
    ensures !IsSpace(Decimal(id)[0])
  {
    DecimalHasNoSpace(id);
  }

  /** A SET key survives the trip: one field (no space) and no line break;
      with an empty value the key ends the line, so it must also be
      non-empty and not end in white space. */
  predicate WireSetKey(key: string, value: string) {
    ' ' !in key && '\n' !in key && (value == [] ==> key != [] && !IsSpace(key[|key| - 1]))
  }

  /** The server reads a client's SET line as exactly that SET. */
  lemma SetLineParses(id: nat, key: string, value: string)
    requires WireSetKey(key, value) && WireValue(value)
    ensures CacheServer.Parse(RequestLine(id, SetCommand(key, value)))
         == Some(CacheServer.Request(Decimal(id), "SET", key, value))
  {
    if value == "" {
      assert key + "" == key;
      SetTrailingSpaceLost(id, key, "");
    } else {
      var d := Decimal(id);
      var req := CacheServer.Request(d, "SET", key, value);
      DecimalNoSpace(id);
      var u := CacheServer.Unparse(req);
      assert u == d + " SET " + key + " " + value;
      assert RequestLine(id, SetCommand(key, value)) == [] + u + "\n";
      assert u[0] == d[0] && u[|u| - 1] == value[|value| - 1];
      CacheServer.ParseUnparse(req, [], "\n");
    }
  }

  /** A line `<id> <verb> <key>\n` is read as that verb on that key, with an
      empty value. */
  lemma KeyLineParses(id: nat, verb: string, key: string)
    requires verb != [] && ' ' !in verb && WireKey(key)
    ensures CacheServer.Parse(RequestLine(id, verb + " " + key))
         == Some(CacheServer.Request(Decimal(id), verb, key, ""))
  {
    var d := Decimal(id);
    var req := CacheServer.Request(d, verb, key, "");
    DecimalNoSpace(id);
    var u := CacheServer.Unparse(req);
    assert u == d + " " + verb + " " + key + "";
    AppendAssoc(d + " ", verb + " ", key);
    AppendAssoc(d + " ", verb, " ");
    assert u == d + " " + (verb + " " + key);
    assert RequestLine(id, verb + " " + key) == [] + u + "\n";
    assert u[0] == d[0] && u[|u| - 1] == key[|key| - 1];
    CacheServer.ParseUnparse(req, [], "\n");
  }

  /** The server reads a client's GET line as a GET of that key, with an
      empty value. */
  lemma GetLineParses(id: nat, key: string)
    requires WireKey(key)
    ensures CacheServer.Parse(RequestLine(id, GetCommand(key)))
         == Some(CacheServer.Request(Decimal(id), "GET", key, ""))
  {
    assert GetCommand(key) == "GET" + " " + key;
    KeyLineParses(id, "GET", key);
  }

  /** The server reads a client's DEL line as a DEL of that key. */
  lemma DelLineParses(id: nat, key: string)
    requires WireKey(key)
    ensures CacheServer.Parse(RequestLine(id, DelCommand(key)))
         == Some(CacheServer.Request(Decimal(id), "DEL", key, ""))
  {
    assert DelCommand(key) == "DEL" + " " + key;
    KeyLineParses(id, "DEL", key);
  }

  /** The server has no DEL: a client's `Del` is answered with
      `<id> ERROR UNKNOWN COMMAND` and deletes nothing. */
  lemma DelIsUnknown(store: CacheServer.Store, id: nat, key: string)
    requires WireKey(key)
    ensures CacheServer.Step(store, RequestLine(id, DelCommand(key)))
         == CacheServer.Outcome(store, Decimal(id) + " ERROR UNKNOWN COMMAND\n")
  {
    var req := CacheServer.Request(Decimal(id), "DEL", key, "");
    DelLineParses(id, key);
    assert req.command != "SET" && req.command != "GET" by {
      assert req.command[0] == 'D';
    }
    CacheServer.StepUnknown(store, RequestLine(id, DelCommand(key)), req);
  }

  /** Without a key, a `Get` or `Del` line has only two fields once trimmed:
      the server answers a bare `ERROR` and the store is unchanged. */
  lemma EmptyKeyIsMalformed(store: CacheServer.Store, id: nat, verb: string)
    requires verb == "GET" || verb == "DEL"
    ensures CacheServer.Step(store, RequestLine(id, verb + " " + ""))
         == CacheServer.Outcome(store, "ERROR\n")
  {
    var d := Decimal(id);
    DecimalHasNoSpace(id);
    assert RequestLine(id, verb + " " + "") == d + [' '] + verb + " \n";
    TwoFieldsLine(d, verb);
    CacheServer.StepMalformed(store, RequestLine(id, verb + " " + ""));
  }

  /** `<d> <verb> \n` trims to two fields, one space apart. */
  lemma TwoFieldsLine(d: string, verb: string)
    requires d != [] && forall j :: 0 <= j < |d| ==> !IsSpace(d[j])
    requires verb != [] && forall j :: 0 <= j < |verb| ==> !IsSpace(verb[j])
    ensures Count(TrimSpace(d + [' '] + verb + " \n"), ' ') == 1
  {
    var u := d + [' '] + verb;
    assert d + [' '] + verb + " \n" == [] + u + " \n";
    assert Trimmed(u) by {
      assert u[0] == d[0] && u[|u| - 1] == verb[|verb| - 1];
    }
    assert AllSpace(" \n");
    TrimSpacePadded([], u, " \n");
    assert forall j :: 0 <= j < |d| ==> d[j] != ' ';
    CountSplit(d, ' ', verb);
    assert forall j :: 0 <= j < |verb| ==> verb[j] != ' ';
    CountAbsent(verb, ' ');
  }

  /** White space at the end of a SET key with an empty value is lost: the
      server trims it off and stores the value under the shorter key. */
  lemma SetTrailingSpaceLost(id: nat, key: string, pad: string)
    requires WireKey(key) && AllSpace(pad)
    ensures CacheServer.Parse(RequestLine(id, SetCommand(key + pad, "")))
         == Some(CacheServer.Request(Decimal(id), "SET", key, ""))
  {
    var d := Decimal(id);
    var req := CacheServer.Request(d, "SET", key, "");
    DecimalNoSpace(id);
    var u := CacheServer.Unparse(req);
    assert u == d + " SET " + key + "";
    assert RequestLine(id, SetCommand(key + pad, "")) == [] + u + (pad + " \n");
    assert Trimmed(u) by {
      assert u[0] == d[0] && u[|u| - 1] == key[|key| - 1];
    }
    assert AllSpace(pad + " \n") by {
      assert forall j :: 0 <= j < |pad| ==> (pad + " \n")[j] == pad[j];
    }
    CacheServer.ParseUnparse(req, [], pad + " \n");
  }

  /** A client line with a safe command is exactly one line for the server. */
  lemma RequestIsOneLine(id: nat, command: string)
    requires '\n' !in command
    ensures '\n' !in Decimal(id) + " " + command
    ensures RequestLine(id, command) == (Decimal(id) + " " + command) + "\n"
  {
    DecimalNoSpace(id);
  }

  /** A client's `Set` and then `Get` of the same key, sent on one
      connection, are answered `<id1> OK` and `<id2> OK <value>`. */
  lemma SetThenGetOnConnection(store: CacheServer.Store, id1: nat, id2: nat, key: string, value: string)
    requires WireKey(key) && WireValue(value)
    ensures CacheServer.Serve(store, RequestLine(id1, SetCommand(key, value)) + RequestLine(id2, GetCommand(key))).replies
         == [Decimal(id1) + " OK\n", Decimal(id2) + " OK " + value + "\n"]
  {
    var setLine := RequestLine(id1, SetCommand(key, value));
    var getLine := RequestLine(id2, GetCommand(key));
    RequestIsOneLine(id1, SetCommand(key, value));
    RequestIsOneLine(id2, GetCommand(key));
    CacheServer.ServeAppend(store, setLine, getLine);
    CacheServer.ServeLine(store, Decimal(id1) + " " + SetCommand(key, value));
    var mid := CacheServer.Step(store, setLine).store;
    CacheServer.ServeLine(mid, Decimal(id2) + " " + GetCommand(key));
    SetLineParses(id1, key, value);
    GetLineParses(id2, key);
    CacheServer.StepSet(store, setLine, Decimal(id1), key, value);
    CacheServer.StepGet(mid, getLine, Decimal(id2), key, "");
  }
}
