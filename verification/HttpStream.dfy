/** HTTP requests read from a byte stream that arrives in arbitrary pieces: the buffered reader, header and
    body reading, and the keep-alive loop. */
module HttpStream {

  import opened Wrappers
  import opened LittleEndian

  datatype HttpError = ConnectionClosed | BadRequest | HeaderTooLarge | PayloadTooLarge

  datatype Version = Http10 | Http11

  /** What the server uses of a parsed header block. */
  datatype Head = Head(knownMethod: bool, contentLength: nat, version: Version, close: bool, keepAlive: bool)

  /** The header parser's answers; a complete block ends at `offset`. */
  datatype Parsed = Partial | Malformed | Complete(offset: nat, head: Head)

  type Parser = seq<Byte> -> Parsed

  /** What is relied on of the header parser: a complete block is not empty, lies within its input and is
      recognised from its own bytes; neither a complete block nor an error is taken back when more follow. */
  ghost predicate Sound(p: Parser) {
    && InRange(p)
    && (forall d, e :: Settles(p, d, e))
  }

  /** An answer on `d` that `e` cannot take back is the answer on `e`. */
  predicate Settles(p: Parser, d: seq<Byte>, e: seq<Byte>) {
    && (p(d).Malformed? && d <= e ==> p(e) == p(d))
    && (p(d).Complete? && p(d).offset <= |d| && d[..p(d).offset] <= e ==> p(e) == p(d))
  }

  ghost predicate InRange(p: Parser) {
    forall d :: p(d).Complete? ==> 0 < p(d).offset <= |d|
  }

  datatype Request = Request(header: seq<Byte>, head: Head, body: seq<Byte>)

  datatype Config = Config(maxHeaderSize: nat, maxBodySize: nat)

  // ---- what a byte sequence means, however it arrives ---------------------

  datatype Next = Got(request: Request, rest: seq<Byte>) | Stop(error: HttpError)

  function Bounded(x: seq<Byte>, n: nat): seq<Byte> {
    if |x| < n then x else x[..n]
  }

  /** What follows from the header parser's answer on the beginning of `x`. A complete block is never empty
      and never longer than `x`. */
  function Decide(parsed: Parsed, x: seq<Byte>, config: Config): Next
  {
    match parsed
    case Partial => Stop(if |x| < config.maxHeaderSize then ConnectionClosed else HeaderTooLarge)
    case Malformed => Stop(BadRequest)
    case Complete(offset, head) =>
      if !head.knownMethod || !(0 < offset <= |x|) then Stop(BadRequest)
      else if head.contentLength > config.maxBodySize then Stop(PayloadTooLarge)
      else if |x| < offset + head.contentLength then Stop(ConnectionClosed)
      else Got(Request(x[..offset], head, x[offset..offset + head.contentLength]), x[offset + head.contentLength..])
  }

  /** The first request of `x`, or why there is none. */
  function First(p: Parser, x: seq<Byte>, config: Config): Next
  {
    Decide(p(Bounded(x, config.maxHeaderSize)), x, config)
  }

  function KeepsAlive(h: Head): bool {
    match h.version
    case Http11 => !h.close
    case Http10 => h.keepAlive
  }

  /** A connection is kept by an HTTP/1.1 request without "close" and by an HTTP/1.0 request with
      "keep-alive". */
  lemma KeepsAliveMeans(h: Head)
    ensures h.version == Http11 ==> (KeepsAlive(h) <==> !h.close)
    ensures h.version == Http10 ==> (KeepsAlive(h) <==> h.keepAlive)
  {
  }

  /** The first request of `x` is its header block, recognised within the limit, and exactly the announced
      number of bytes behind it; what is left is the rest. And each error has its one cause. */
  lemma FirstMeans(p: Parser, x: seq<Byte>, config: Config)
    requires Sound(p)
    ensures
      var n := if |x| < config.maxHeaderSize then |x| else config.maxHeaderSize;
      var parsed, first := p(x[..n]), First(p, x, config);
      && (first == Stop(HeaderTooLarge) <==> parsed.Partial? && |x| >= config.maxHeaderSize)
      && (first == Stop(BadRequest) <==> parsed.Malformed? || (parsed.Complete? && !parsed.head.knownMethod))
      && (first == Stop(PayloadTooLarge) <==>
          parsed.Complete? && parsed.head.knownMethod && parsed.head.contentLength > config.maxBodySize)
      && (first == Stop(ConnectionClosed) <==>
          || (parsed.Partial? && |x| < config.maxHeaderSize)
          || (parsed.Complete? && parsed.head.knownMethod && parsed.head.contentLength <= config.maxBodySize
              && |x| < parsed.offset + parsed.head.contentLength))
      && (first.Got? ==>
            && parsed.Complete? && first.request.head == parsed.head
            && |first.request.header| == parsed.offset && |first.request.body| == parsed.head.contentLength
            && x == first.request.header + first.request.body + first.rest)
  {
    var n := if |x| < config.maxHeaderSize then |x| else config.maxHeaderSize;
    assert Bounded(x, config.maxHeaderSize) == x[..n];
    var parsed := p(x[..n]);
    if parsed.Complete? && parsed.offset + parsed.head.contentLength <= |x| {
      var k := parsed.offset + parsed.head.contentLength;
      assert x == x[..parsed.offset] + x[parsed.offset..k] + x[k..];
    }
  }

  /** The requests of `x`, up to the first that ends the connection. */
  function Requests(p: Parser, x: seq<Byte>, config: Config): seq<Request>
    decreases |x|
  {
    match First(p, x, config)
    case Stop(_) => []
    case Got(request, rest) => Before(request, Requests(p, rest, config))
  }

  /** A request, and the later ones unless it ends the connection. */
  function Before(request: Request, later: seq<Request>): seq<Request> {
    if KeepsAlive(request.head) then [request] + later else [request]
  }

  // ---- the stream and the buffered reader ---------------------------------

  /** The peer's bytes, and how many are there at each read; a read of nothing is the end or an error. */
  class Stream {
    const input: seq<Byte>
    const arrivals: seq<nat>
    var at: nat
    var turn: nat

    ghost predicate Valid()
      reads this
    {
      at <= |input| && turn <= |arrivals|
    }

    /** Nothing more will be read. */
    ghost predicate Exhausted()
      reads this
    {
      at == |input| || turn == |arrivals| || (turn < |arrivals| && arrivals[turn] == 0)
    }

    constructor (input: seq<Byte>, arrivals: seq<nat>)
      ensures Valid() && this.input == input && this.arrivals == arrivals && at == 0 && turn == 0
    {
      this.input, this.arrivals, at, turn := input, arrivals, 0, 0;
    }

    method Read(max: nat) returns (bytes: seq<Byte>)
      requires Valid()
      modifies this
      ensures Valid() && at == old(at) + |bytes| && bytes == input[old(at)..at] && |bytes| <= max
      ensures turn == old(turn) + One(bytes != [])
      ensures bytes == [] && max > 0 ==> Exhausted()
    {
      bytes := [];
      if turn < |arrivals| {
        var n := arrivals[turn];
        n := if n < max then n else max;
        n := if n < |input| - at then n else |input| - at;
        if n > 0 {
          bytes := input[at..at + n];
          at, turn := at + n, turn + 1;
        }
      }
    }
  }

  datatype FillError = E2BIG | ECONNRESET

  class BufReader {
    const buf: array<Byte>
    var pos: nat
    var len: nat

    ghost predicate Valid()
      reads this
    {
      pos <= len <= buf.Length
    }

    constructor (capacity: nat)
      ensures Valid() && fresh(buf) && buf.Length == capacity && pos == 0 && len == 0
    {
      buf, pos, len := new Byte[capacity](_ => 0), 0, 0;
    }

    function Data(): seq<Byte>
      requires Valid()
      reads this, buf
    {
      buf[pos..len]
    }

    /** Moves the unconsumed bytes to the front. */
    method Compact()
      requires Valid()
      modifies this, buf
      ensures Valid() && pos == 0 && Data() == old(Data())
    {
      var shift := pos;
      forall i | 0 <= i < len - shift {
        buf[i] := buf[shift + i];
      }
      pos, len := 0, len - shift;
    }

    /** Stores what a read delivered behind the buffered bytes. */
    method Append(bytes: seq<Byte>)
      requires Valid() && len + |bytes| <= buf.Length
      modifies this`len, buf
      ensures Valid() && Data() == old(Data()) + bytes
    {
      forall i | 0 <= i < |bytes| {
        buf[len + i] := bytes[i];
      }
      len := len + |bytes|;
    }

    /** `fill`: one read behind the unconsumed bytes. */
    method Fill(stream: Stream) returns (r: Result<nat, FillError>)
      requires Valid() && stream.Valid()
      modifies this, buf, stream
      ensures Valid() && stream.Valid() && pos == 0 && stream.at >= old(stream.at)
      ensures Data() == old(Data()) + stream.input[old(stream.at)..stream.at]
      ensures r == Err(E2BIG) <==> |old(Data())| == buf.Length
      ensures r.Ok? ==> 0 < r.value == stream.at - old(stream.at) && stream.turn == old(stream.turn) + 1
      ensures r.Err? ==> stream.at == old(stream.at) && stream.turn == old(stream.turn)
      ensures r == Err(ECONNRESET) ==> stream.Exhausted()
    {
      if pos > 0 {
        Compact();
      }
      if len >= buf.Length {
        return Err(E2BIG);
      }
      var bytes := stream.Read(buf.Length - len);
      if bytes == [] {
        return Err(ECONNRESET);
      }
      Append(bytes);
      return Ok(|bytes|);
    }

    method Consume(n: nat)
      requires Valid() && n <= |Data()|
      modifies this`pos
      ensures Valid() && Data() == old(Data())[n..]
    {
      pos := pos + n;
    }

    method Reset()
      requires Valid()
      modifies this, buf
      ensures Valid() && pos == 0 && Data() == old(Data())
    {
      if pos < len {
        Compact();
      } else {
        pos, len := 0, 0;
      }
    }
  }

  // ---- requests and how much of the input they need -----------------------

  /** An answer on the first `n` bytes is the answer on all that fit the limit. */
  lemma Settled(p: Parser, x: seq<Byte>, n: nat, limit: nat)
    requires Sound(p) && n <= |x| && n <= limit && !p(x[..n]).Partial?
    ensures p(Bounded(x, limit)) == p(x[..n])
  {
    assert x[..n] <= Bounded(x, limit) && Settles(p, x[..n], Bounded(x, limit));
    if p(x[..n]).Complete? {
      assert x[..n][..p(x[..n]).offset] <= Bounded(x, limit);
    }
  }

  /** A complete header block is found in every part of the input that contains it. */
  lemma SettledByItself(p: Parser, x: seq<Byte>, n: nat, limit: nat)
    requires Sound(p) && n <= |x| && p(Bounded(x, limit)).Complete? && p(Bounded(x, limit)).offset <= n
    ensures p(Bounded(x[..n], limit)) == p(Bounded(x, limit))
  {
    var offset := p(Bounded(x, limit)).offset;
    assert Bounded(x, limit)[..offset] <= Bounded(x[..n], limit);
    assert Settles(p, Bounded(x, limit), Bounded(x[..n], limit));
  }

  lemma DecideOfPart(parsed: Parsed, x: seq<Byte>, k: nat, n: nat, config: Config)
    requires k <= n <= |x| && parsed.Complete? && parsed.offset <= |x|
    requires Decide(parsed, x, config).Got? && Decide(parsed, x, config).rest == x[k..]
    ensures parsed.offset <= n
    ensures Decide(parsed, x[..n], config) == Got(Decide(parsed, x, config).request, x[k..n])
  {
    assert |Decide(parsed, x, config).rest| == |x| - k;
    assert k == parsed.offset + parsed.head.contentLength;
    assert x[..n][..parsed.offset] == x[..parsed.offset];
    assert x[..n][parsed.offset..k] == x[parsed.offset..k];
    assert x[..n][k..] == x[k..n];
  }

  /** A request is the first of every part of the input that contains it. */
  lemma FirstOfPart(p: Parser, x: seq<Byte>, rest: seq<Byte>, k: nat, req: Request, part: seq<Byte>,
                    partRest: seq<Byte>, config: Config)
    requires Sound(p) && k <= |part| <= |x| && rest == x[k..] && part == x[..|part|] && partRest == part[k..]
    requires First(p, x, config) == Got(req, rest)
    ensures First(p, part, config) == Got(req, partRest)
  {
    DecideOfPart(p(Bounded(x, config.maxHeaderSize)), x, k, |part|, config);
    SettledByItself(p, x, |part|, config.maxHeaderSize);
    assert partRest == x[k..|part|];
  }

  /** `req` is what the input holds from position `c` to position `c'`. */
  ghost predicate Takes(p: Parser, input: seq<Byte>, c: nat, c': nat, req: Request, config: Config)
  {
    c <= c' <= |input| && First(p, input[c..], config) == Got(req, input[c'..])
  }

  /** The input is cut, from its beginning and without gaps, into the requests of `log`; each but the last
      keeps the connection alive. */
  ghost predicate Cut(p: Parser, input: seq<Byte>, cuts: seq<nat>, log: seq<Request>, config: Config)
  {
    && |cuts| == |log| + 1 && cuts[0] == 0
    && (forall i :: 0 <= i < |log| ==> Takes(p, input, cuts[i], cuts[i + 1], log[i], config))
    && (forall i :: 0 <= i < |log| - 1 ==> KeepsAlive(log[i].head))
  }

  lemma Slices(s: seq<Byte>, c: nat, c': nat, t: nat)
    requires c <= c' <= t <= |s|
    ensures s[c..][..t - c] == s[c..t] && s[c..][c' - c..] == s[c'..] && s[c..t][c' - c..] == s[c'..t]
  {
  }

  lemma FirstUpTo(p: Parser, input: seq<Byte>, c: nat, c': nat, req: Request, t: nat, config: Config)
    requires Sound(p) && Takes(p, input, c, c', req, config) && c' <= t <= |input|
    ensures First(p, input[c..t], config) == Got(req, input[c'..t])
  {
    Slices(input, c, c', t);
    assert |input[c..t]| == t - c && |input[c..]| == |input| - c;
    FirstOfPart(p, input[c..], input[c'..], c' - c, req, input[c..t], input[c'..t], config);
  }

  function Tail(log: seq<Request>, later: seq<Request>): seq<Request> {
    if log == [] || KeepsAlive(log[|log| - 1].head) then later else []
  }

  lemma {:induction false} Telescope(parts: seq<seq<Request>>, log: seq<Request>, i: nat)
    requires |parts| == |log| + 1 && i <= |log|
    requires forall j :: 0 <= j < |log| ==> parts[j] == Before(log[j], parts[j + 1])
    requires forall j :: 0 <= j < |log| - 1 ==> KeepsAlive(log[j].head)
    ensures i < |log| || log == [] ==> parts[i] == log[i..] + Tail(log, parts[|log|])
    decreases |log| - i
  {
    if i + 1 == |log| {
      assert parts[i] == Before(log[i], parts[i + 1]);
      assert log[i..] == [log[i]];
    } else if i < |log| {
      Telescope(parts, log, i + 1);
      var tail := Tail(log, parts[|log|]);
      assert parts[i] == [log[i]] + parts[i + 1];
      assert [log[i]] + (log[i + 1..] + tail) == log[i..] + tail;
    }
  }

  lemma Unfolded(p: Parser, x: seq<Byte>, req: Request, rest: seq<Byte>, config: Config)
    requires First(p, x, config) == Got(req, rest)
    ensures Requests(p, x, config) == Before(req, Requests(p, rest, config))
  {
  }

  lemma {:induction false} CutsGrow(p: Parser, input: seq<Byte>, cuts: seq<nat>, log: seq<Request>, i: nat,
                                    config: Config)
    requires Cut(p, input, cuts, log, config) && i <= |log|
    ensures cuts[i] <= cuts[|log|]
    decreases |log| - i
  {
    if i < |log| {
      assert Takes(p, input, cuts[i], cuts[i + 1], log[i], config);
      CutsGrow(p, input, cuts, log, i + 1, config);
    }
  }

  /** The input up to any point behind the last cut holds the requests of `log`, and then those of the rest
      unless the last one ends the connection. */
  lemma RequestsOfCut(p: Parser, input: seq<Byte>, cuts: seq<nat>, log: seq<Request>, t: nat, config: Config)
    requires Sound(p) && Cut(p, input, cuts, log, config) && cuts[|log|] <= t <= |input|
    ensures Requests(p, input[..t], config)
         == log + Tail(log, Requests(p, input[cuts[|log|]..t], config))
  {
    forall i | 0 <= i <= |log| ensures cuts[i] <= t {
      CutsGrow(p, input, cuts, log, i, config);
    }
    var parts := seq(|log| + 1, i requires 0 <= i <= |log| => Requests(p, input[cuts[i]..t], config));
    forall j | 0 <= j < |log| ensures parts[j] == Before(log[j], parts[j + 1]) {
      FirstUpTo(p, input, cuts[j], cuts[j + 1], log[j], t, config);
      Unfolded(p, input[cuts[j]..t], log[j], input[cuts[j + 1]..t], config);
    }
    Telescope(parts, log, 0);
  }

  /** The unconsumed bytes are what has arrived since position `c` of the input. */
  ghost predicate Synced(reader: BufReader, stream: Stream, c: nat)
    reads reader, reader.buf, stream
  {
    reader.Valid() && stream.Valid() && c <= stream.at && reader.Data() == stream.input[c..stream.at]
  }

  /** `read_body`: the next `contentLength` bytes of the input, first from the buffer, then from the stream. */
  method ReadBody(reader: BufReader, stream: Stream, ghost c: nat, contentLength: nat, maxBodySize: nat)
    returns (r: Result<seq<Byte>, HttpError>)
    requires Synced(reader, stream, c)
    modifies reader`pos, stream
    ensures reader.Valid() && stream.Valid() && stream.at >= old(stream.at) && stream.turn >= old(stream.turn)
    ensures r == Err(PayloadTooLarge) <==> contentLength > maxBodySize
    ensures r.Ok? ==> Synced(reader, stream, c + contentLength) && r.value == stream.input[c..c + contentLength]
    ensures r.Ok? ==> |reader.Data()| <= |old(reader.Data())|
    ensures r.Err? && contentLength <= maxBodySize ==>
              r.error == ConnectionClosed && stream.at < c + contentLength && stream.Exhausted()
  {
    if contentLength > maxBodySize {
      return Err(PayloadTooLarge);
    }
    var buffered := reader.Data();
    var fromBuf := if |buffered| < contentLength then |buffered| else contentLength;
    var body := buffered[..fromBuf];
    reader.Consume(fromBuf);
    var remaining := contentLength - fromBuf;
    while remaining > 0
      invariant 0 <= remaining <= contentLength && |body| == contentLength - remaining
      invariant stream.Valid() && stream.at >= old(stream.at) && stream.turn >= old(stream.turn)
      invariant Synced(reader, stream, c + |body|) && body == stream.input[c..c + |body|]
      invariant remaining > 0 ==> c + |body| == stream.at
      invariant |reader.Data()| <= |old(reader.Data())|
      decreases remaining
      modifies stream
    {
      var bytes := stream.Read(remaining);
      if bytes == [] {
        return Err(ConnectionClosed);
      }
      Longer(stream.input, c, c + |body|, stream.at);
      body := body + bytes;
      remaining := remaining - |bytes|;
    }
    return Ok(body);
  }

  lemma DecideAtOnce(p: Parser, x: seq<Byte>, n: nat, config: Config)
    requires Sound(p) && n <= |x| && n <= config.maxHeaderSize
    requires !p(x[..n]).Partial? || n == config.maxHeaderSize
    ensures First(p, x, config) == Decide(p(x[..n]), x, config)
  {
    if p(x[..n]).Partial? {
      assert Bounded(x, config.maxHeaderSize) == x[..n];
    } else {
      Settled(p, x, n, config.maxHeaderSize);
    }
  }

  /** One `fill`, on a reader that is in step with the stream. */
  method FillFrom(reader: BufReader, stream: Stream, ghost c: nat) returns (r: Result<nat, FillError>)
    requires Synced(reader, stream, c)
    modifies reader, reader.buf, stream
    ensures Synced(reader, stream, c)
    ensures r == Err(E2BIG) <==> |old(reader.Data())| == reader.buf.Length
    ensures r.Ok? ==> stream.turn == old(stream.turn) + 1 && stream.at > old(stream.at)
    ensures r.Err? ==>
              stream.turn == old(stream.turn) && stream.at == old(stream.at) && reader.Data() == old(reader.Data())
    ensures r == Err(ECONNRESET) ==> stream.Exhausted()
  {
    r := reader.Fill(stream);
    Longer(stream.input, c, old(stream.at), stream.at);
  }

  /** The loop of `parse_request`: reads until the header parser has an answer or the limit is reached.
      The buffer is found full before a read exactly when it has no room at all; every failed read counts
      as the end of the connection. */
  method ReadHeader(p: Parser, reader: BufReader, stream: Stream, config: Config, ghost c: nat)
    returns (r: Result<Parsed, HttpError>, ghost full: bool)
    requires Synced(reader, stream, c) && reader.buf.Length == config.maxHeaderSize
    requires reader.buf.Length == 0 || |reader.Data()| < reader.buf.Length
    modifies reader, reader.buf, stream
    ensures Synced(reader, stream, c) && full == (config.maxHeaderSize == 0)
    ensures stream.turn >= old(stream.turn) && stream.at >= old(stream.at)
    ensures r.Ok? ==> stream.turn > old(stream.turn) && r.value == p(reader.Data()) && !r.value.Partial?
    ensures r.Err? ==> r.error == HeaderTooLarge || r.error == ConnectionClosed
    ensures r == Err(ConnectionClosed) ==> full || stream.Exhausted()
    ensures r == Err(HeaderTooLarge) ==> p(reader.Data()).Partial? && |reader.Data()| == config.maxHeaderSize
    ensures r == Err(ConnectionClosed) && stream.turn > old(stream.turn) ==>
              p(reader.Data()).Partial? && |reader.Data()| < config.maxHeaderSize
  {
    full := false;
    while true
      invariant Synced(reader, stream, c) && !full && (reader.buf.Length == 0 || |reader.Data()| < reader.buf.Length)
      invariant stream.turn >= old(stream.turn) && stream.at >= old(stream.at)
      invariant stream.turn > old(stream.turn) ==> p(reader.Data()).Partial? && |reader.Data()| < config.maxHeaderSize
      decreases |stream.arrivals| - stream.turn
    {
      var filled := FillFrom(reader, stream, c);
      if filled.Err? {
        full := filled.error.E2BIG?;
        return Err(ConnectionClosed), full;
      }
      var parsed := p(reader.Data());
      if !parsed.Partial? {
        return Ok(parsed), false;
      }
      if |reader.Data()| >= config.maxHeaderSize {
        return Err(HeaderTooLarge), false;
      }
    }
  }

  lemma Longer(s: seq<Byte>, c: nat, a: nat, b: nat)
    requires c <= a <= b <= |s|
    ensures s[c..a] + s[a..b] == s[c..b]
  {
  }

  /** The parser's answer on what has arrived settles the first request of everything that may follow. */
  lemma HeaderDecides(p: Parser, input: seq<Byte>, c: nat, at: nat, t: nat, config: Config)
    requires Sound(p) && c <= at <= t <= |input| && at - c <= config.maxHeaderSize
    requires !p(input[c..at]).Partial? || at - c == config.maxHeaderSize
    ensures First(p, input[c..t], config) == Decide(p(input[c..at]), input[c..t], config)
  {
    assert input[c..t][..at - c] == input[c..at];
    DecideAtOnce(p, input[c..t], at - c, config);
  }

  lemma DecideGot(offset: nat, head: Head, input: seq<Byte>, c: nat, config: Config)
    requires offset > 0 && head.knownMethod && head.contentLength <= config.maxBodySize
    requires c + offset + head.contentLength <= |input|
    ensures Decide(Complete(offset, head), input[c..], config)
         == Got(Request(input[c..c + offset], head, input[c + offset..c + offset + head.contentLength]),
                input[c + offset + head.contentLength..])
  {
    var x := input[c..];
    assert x[..offset] == input[c..c + offset];
    assert x[offset..offset + head.contentLength] == input[c + offset..c + offset + head.contentLength];
    assert x[offset + head.contentLength..] == input[c + offset + head.contentLength..];
  }

  /** The rest of `parse_request` once the header block is complete. */
  method TakeRequest(reader: BufReader, stream: Stream, config: Config, ghost c: nat, offset: nat, head: Head)
    returns (r: Result<Request, HttpError>, ghost c': nat)
    requires Synced(reader, stream, c) && 0 < offset <= |reader.Data()|
    modifies reader`pos, stream
    ensures stream.Valid() && stream.at >= old(stream.at) && stream.turn >= old(stream.turn)
    ensures r.Ok? ==> c <= c' <= |stream.input| && Synced(reader, stream, c') && |reader.Data()| < |old(reader.Data())|
    ensures r.Ok? ==> Decide(Complete(offset, head), stream.input[c..], config) == Got(r.value, stream.input[c'..])
    ensures r.Err? && r.error != ConnectionClosed ==>
              Decide(Complete(offset, head), stream.input[c..], config) == Stop(r.error)
    ensures r == Err(ConnectionClosed) ==>
              stream.Exhausted() && Decide(Complete(offset, head), stream.input[c..stream.at], config) == Stop(r.error)
  {
    c' := c;
    ghost var input := stream.input;
    if !head.knownMethod {
      return Err(BadRequest), c;
    }
    if head.contentLength > config.maxBodySize {
      return Err(PayloadTooLarge), c;
    }
    var header := reader.Data()[..offset];
    reader.Consume(offset);
    var body := ReadBody(reader, stream, c + offset, head.contentLength, config.maxBodySize);
    if body.Err? {
      return Err(body.error), c;
    }
    c' := c + offset + head.contentLength;
    DecideGot(offset, head, input, c, config);
    assert header == input[c..c + offset];
    return Ok(Request(header, head, body.value)), c';
  }

  /** `parse_request`, in terms of the parser's answer on the bytes from `c` to `at`, which is settled unless
      the connection closes before. */
  method ParseBytes(p: Parser, reader: BufReader, stream: Stream, config: Config, ghost c: nat)
    returns (r: Result<Request, HttpError>, ghost at: nat, ghost c': nat)
    requires InRange(p) && Synced(reader, stream, c) && reader.buf.Length == config.maxHeaderSize
    requires reader.buf.Length == 0 || |reader.Data()| < reader.buf.Length
    modifies reader, reader.buf, stream
    ensures stream.Valid() && c <= at <= stream.at && at - c <= config.maxHeaderSize && stream.turn >= old(stream.turn)
    ensures r.Ok? ==> !p(stream.input[c..at]).Partial? && stream.turn > old(stream.turn)
                      && c <= c' <= |stream.input| && Synced(reader, stream, c') && |reader.Data()| < reader.buf.Length
                      && Decide(p(stream.input[c..at]), stream.input[c..], config) == Got(r.value, stream.input[c'..])
    ensures r.Err? && r.error != ConnectionClosed ==>
              (!p(stream.input[c..at]).Partial? || at - c == config.maxHeaderSize)
              && Decide(p(stream.input[c..at]), stream.input[c..], config) == Stop(r.error)
    ensures r == Err(ConnectionClosed) ==> config.maxHeaderSize == 0 || stream.Exhausted()
    ensures r == Err(ConnectionClosed) && stream.turn > old(stream.turn) ==>
              (!p(stream.input[c..at]).Partial? || at == stream.at)
              && Decide(p(stream.input[c..at]), stream.input[c..stream.at], config) == Stop(ConnectionClosed)
  {
    c' := c;
    var parsed, full := ReadHeader(p, reader, stream, config, c);
    at := stream.at;
    if parsed.Err? {
      return Err(parsed.error), at, c;
    }
    if parsed.value.Malformed? {
      return Err(BadRequest), at, c;
    }
    r, c' := TakeRequest(reader, stream, config, c, parsed.value.offset, parsed.value.head);
  }

  /** What follows from the settled answer is what `First` says of the input. */
  lemma OutcomeIsFirst(p: Parser, input: seq<Byte>, c: nat, at: nat, now: nat, r: Result<Request, HttpError>, c': nat,
                       config: Config, late: bool)
    requires Sound(p) && c <= at <= now <= |input| && at - c <= config.maxHeaderSize
    requires r.Ok? ==> !p(input[c..at]).Partial? && c <= c' <= |input|
                       && Decide(p(input[c..at]), input[c..], config) == Got(r.value, input[c'..])
    requires r.Err? && r.error != ConnectionClosed ==>
               (!p(input[c..at]).Partial? || at - c == config.maxHeaderSize)
               && Decide(p(input[c..at]), input[c..], config) == Stop(r.error)
    requires r == Err(ConnectionClosed) && late ==>
               (!p(input[c..at]).Partial? || at == now)
               && Decide(p(input[c..at]), input[c..now], config) == Stop(ConnectionClosed)
    ensures r.Ok? ==> Takes(p, input, c, c', r.value, config)
    ensures r.Err? && r.error != ConnectionClosed ==> First(p, input[c..], config) == Stop(r.error)
    ensures r == Err(ConnectionClosed) && late ==> First(p, input[c..now], config) == Stop(ConnectionClosed)
  {
    if r.Ok? || r.error != ConnectionClosed {
      HeaderDecides(p, input, c, at, |input|, config);
      assert input[c..|input|] == input[c..];
    } else if late {
      if p(input[c..at]).Partial? {
        assert Bounded(input[c..at], config.maxHeaderSize) == input[c..at];
      } else {
        HeaderDecides(p, input, c, at, now, config);
      }
    }
  }

  /** `parse_request`: the request at position `c` of the input, or the error it deserves. The connection
      counts as closed only if the request has not arrived in full, or if nothing has arrived at all since
      the previous request. */
  method ParseRequest(p: Parser, reader: BufReader, stream: Stream, config: Config, ghost c: nat)
    returns (r: Result<Request, HttpError>, ghost c': nat)
    requires Sound(p) && Synced(reader, stream, c) && reader.buf.Length == config.maxHeaderSize
    requires reader.buf.Length == 0 || |reader.Data()| < reader.buf.Length
    modifies reader, reader.buf, stream
    ensures stream.Valid() && c <= stream.at && stream.turn >= old(stream.turn)
    ensures r.Ok? ==> Takes(p, stream.input, c, c', r.value, config) && Synced(reader, stream, c')
                      && stream.turn > old(stream.turn) && |reader.Data()| < reader.buf.Length
    ensures r.Err? && r.error != ConnectionClosed ==> First(p, stream.input[c..], config) == Stop(r.error)
    ensures r == Err(ConnectionClosed) ==> config.maxHeaderSize == 0 || stream.Exhausted()
    ensures r == Err(ConnectionClosed) && stream.turn > old(stream.turn) ==>
              First(p, stream.input[c..stream.at], config) == Stop(ConnectionClosed)
  {
    ghost var at;
    r, at, c' := ParseBytes(p, reader, stream, config, c);
    OutcomeIsFirst(p, stream.input, c, at, stream.at, r, c', config, stream.turn > old(stream.turn));
  }

  /** How a connection ends, if it has. */
  datatype End = Open | Closed | Refused(error: HttpError) | NotKept | Unwritable

  lemma CutMore(p: Parser, input: seq<Byte>, cuts: seq<nat>, log: seq<Request>, c': nat, req: Request, config: Config)
    requires Cut(p, input, cuts, log, config) && (log == [] || KeepsAlive(log[|log| - 1].head))
    requires Takes(p, input, cuts[|log|], c', req, config)
    ensures Cut(p, input, cuts + [c'], log + [req], config)
  {
    var cuts', log' := cuts + [c'], log + [req];
    forall i | 0 <= i < |log'| ensures Takes(p, input, cuts'[i], cuts'[i + 1], log'[i], config) {
      if i < |log| {
        assert Takes(p, input, cuts[i], cuts[i + 1], log[i], config);
      }
    }
  }

  /** What is true of a connection on which the requests of `log` have been handled: they cut the input
      from its beginning without gaps, each after at least one read of its own. `late` says that something
      has been read since the last of them. */
  ghost predicate Account(p: Parser, stream: Stream, config: Config, log: seq<Request>, cuts: seq<nat>, end: End,
                          late: bool)
    reads stream
  {
    && stream.Valid() && Cut(p, stream.input, cuts, log, config)
    && cuts[|log|] <= stream.at && |log| <= stream.turn
    && (log == [] ==> (end.Open? ==> stream.turn == 0) && (end.Closed? ==> (late <==> stream.turn > 0)))
    && (end.NotKept? ==> log != [] && !KeepsAlive(log[|log| - 1].head))
    && (end.Open? || end.Closed? || end.Refused? ==> log == [] || KeepsAlive(log[|log| - 1].head))
    && (end.Refused? ==> First(p, stream.input[cuts[|log|]..], config) == Stop(end.error))
    && (end.Closed? ==> config.maxHeaderSize == 0 || stream.Exhausted())
    && (end.Closed? && late ==> First(p, stream.input[cuts[|log|]..stream.at], config) == Stop(ConnectionClosed))
  }

  /** One round of the keep-alive loop. */
  method ServeOne(p: Parser, reader: BufReader, stream: Stream, config: Config, writable: bool, log: seq<Request>,
                  ghost cuts: seq<nat>)
    returns (log': seq<Request>, end: End, ghost cuts': seq<nat>, ghost late: bool)
    requires Sound(p) && Account(p, stream, config, log, cuts, Open, false) && Synced(reader, stream, cuts[|log|])
    requires reader.buf.Length == config.maxHeaderSize
             && (reader.buf.Length == 0 || |reader.Data()| < reader.buf.Length)
    modifies reader, reader.buf, stream
    ensures Account(p, stream, config, log', cuts', end, late)
    ensures end.Open? || end.NotKept? ==> writable
    ensures end.Unwritable? ==> !writable
    ensures end.Closed? ==> log' == log && (late <==> stream.turn > old(stream.turn))
    ensures end.Open? ==> Synced(reader, stream, cuts'[|log'|]) && stream.turn > old(stream.turn)
    ensures end.Open? ==> reader.buf.Length == 0 || |reader.Data()| < reader.buf.Length
    ensures log' == log || (|log'| == |log| + 1 && log == log'[..|log|])
  {
    log', cuts', late, end := log, cuts, false, Open;
    var request, c' := ParseRequest(p, reader, stream, config, cuts[|log|]);
    if request.Err? {
      late := stream.turn > old(stream.turn);
      end := if request.error.ConnectionClosed? then Closed else Refused(request.error);
    } else {
      CutMore(p, stream.input, cuts, log, c', request.value, config);
      log', cuts' := log + [request.value], cuts + [c'];
      if !writable {
        end := Unwritable;
      } else if !KeepsAlive(request.value.head) {
        end := NotKept;
      } else {
        reader.Reset();
      }
    }
  }

  /** `handle_connection`, where the response number `failAt` cannot be written. */
  method HandleConnection(p: Parser, stream: Stream, config: Config, failAt: nat)
    returns (log: seq<Request>, end: End, ghost cuts: seq<nat>, ghost late: bool)
    requires Sound(p) && stream.Valid() && stream.at == 0 && stream.turn == 0
    modifies stream
    ensures Account(p, stream, config, log, cuts, end, late) && !end.Open?
    ensures end.NotKept? ==>
              var last := log[|log| - 1].head;
              (last.version == Http11 && last.close) || (last.version == Http10 && !last.keepAlive)
  {
    var reader := new BufReader(config.maxHeaderSize);
    log, cuts, late, end := [], [0], false, Open;
    while end.Open?
      invariant fresh(reader) && fresh(reader.buf) && reader.buf.Length == config.maxHeaderSize
      invariant Account(p, stream, config, log, cuts, end, late)
      invariant end.Open? ==> Synced(reader, stream, cuts[|log|])
      invariant end.Open? ==> reader.buf.Length == 0 || |reader.Data()| < reader.buf.Length
      decreases end.Open?, |stream.arrivals| - stream.turn
    {
      log, end, cuts, late := ServeOne(p, reader, stream, config, |log| != failAt, log, cuts);
    }
  }

  /** However the bytes arrive, the requests handled are those of the whole input, from the first on; all of
      them when the connection is refused or not kept. When it closes, exactly the requests of the bytes
      that have arrived but not been handled are lost, and there are none if anything has been read since
      the last request. */
  lemma HandledRequests(p: Parser, stream: Stream, config: Config, log: seq<Request>, cuts: seq<nat>, end: End,
                        late: bool)
    requires Sound(p) && Account(p, stream, config, log, cuts, end, late)
    ensures log <= Requests(p, stream.input, config)
    ensures end.Refused? || end.NotKept? ==> log == Requests(p, stream.input, config)
    ensures end.Closed? ==>
              log + Requests(p, stream.input[cuts[|log|]..stream.at], config)
              == Requests(p, stream.input[..stream.at], config)
    ensures end.Closed? && late ==> log == Requests(p, stream.input[..stream.at], config)
  {
    var input := stream.input;
    RequestsOfCut(p, input, cuts, log, |input|, config);
    RequestsOfCut(p, input, cuts, log, stream.at, config);
    assert input[..|input|] == input && input[cuts[|log|]..|input|] == input[cuts[|log|]..];
  }

  /** Whatever the parser, the input and its pieces: at most one request is handled for each piece that
      arrives. So of a pipeline that arrives in one piece all requests but the first are lost. */
  method AtMostOnePerPiece(p: Parser, input: seq<Byte>, arrivals: seq<nat>, config: Config, failAt: nat)
    returns (log: seq<Request>)
    requires Sound(p)
    ensures log <= Requests(p, input, config) && |log| <= |arrivals|
  {
    var stream := new Stream(input, arrivals);
    var end;
    ghost var cuts, late;
    log, end, cuts, late := HandleConnection(p, stream, config, failAt);
    HandledRequests(p, stream, config, log, cuts, end, late);
  }

  /** A header parser whose blocks are single bytes. */
  function OneByte(d: seq<Byte>): Parsed {
    if d == [] then Partial else Complete(1, Head(true, 0, Http11, false, false))
  }

  lemma OneByteIsSound()
    ensures Sound(OneByte)
  {
  }

  /** There are pipelines: `n` bytes hold `n` requests for it. */
  lemma {:induction false} PipelineOf(n: nat, config: Config)
    requires config.maxHeaderSize > 0
    ensures |Requests(OneByte, seq(n, i => 0), config)| == n
  {
    var x: seq<Byte> := seq(n, i => 0);
    if n > 0 {
      var rest: seq<Byte> := seq(n - 1, i => 0);
      assert x[1..] == rest && x[1..1] == [];
      PipelineOf(n - 1, config);
      var head := Head(true, 0, Http11, false, false);
      assert OneByte(Bounded(x, config.maxHeaderSize)) == Complete(1, head);
      assert First(OneByte, x, config) == Got(Request(x[..1], head, []), rest);
    }
  }

  /** A pipeline of any length in one piece: all requests but at most one are lost, although they have
      arrived. */
  method PipelinedRequestsAreLost(n: nat, config: Config) returns (log: seq<Request>)
    requires config.maxHeaderSize > 0
    ensures |log| <= 1 && |Requests(OneByte, seq(n, i => 0), config)| == n
  {
    OneByteIsSound();
    PipelineOf(n, config);
    log := AtMostOnePerPiece(OneByte, seq(n, i => 0), [n], config, n);
  }
}
