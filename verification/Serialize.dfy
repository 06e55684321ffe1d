/** Requests serialised for userspace: a fixed header, the path, the header entries and the body. */
module Serialize {

  import opened Wrappers
  import opened Words
  import opened LittleEndian
  import opened KVec
  import HttpStream

  datatype Method = Get | Head | Post | Put | Delete | Options | Patch

  datatype Header = Header(name: seq<Byte>, value: seq<Byte>)

  datatype Request = Request(verb: Method, version: HttpStream.Version, path: seq<Byte>, headers: seq<Header>,
                             body: seq<Byte>)

  const HDR_SIZE: nat := 24
  const ENTRY_SIZE: nat := 4

  function MethodToByte(m: Method): Byte {
    match m
    case Get => 0
    case Head => 1
    case Post => 2
    case Put => 3
    case Delete => 4
    case Options => 5
    case Patch => 6
  }

  function VersionToByte(v: HttpStream.Version): Byte {
    match v
    case Http10 => 10
    case Http11 => 11
  }

  // ---- the layout ---------------------------------------------------------

  /** The header struct; the integers are those before they are cut to their fields. */
  datatype RequestHdr = RequestHdr(reqId: nat, verb: Byte, version: Byte, headerCount: nat, pathLen: nat, bodyLen: nat,
                                   totalLen: nat)

  function HdrBytes(h: RequestHdr): (bytes: seq<Byte>)
    ensures |bytes| == HDR_SIZE
  {
    Encode(h.reqId, 8) + [h.verb] + [h.version] + Encode(h.headerCount, 2)
    + Encode(h.pathLen, 4) + Encode(h.bodyLen, 4) + Encode(h.totalLen, 4)
  }

  function EntryBytes(h: Header): seq<Byte> {
    Encode(|h.name|, 2) + Encode(|h.value|, 2) + h.name + h.value
  }

  function HeaderBytes(headers: seq<Header>): seq<Byte> {
    if headers == [] then [] else EntryBytes(headers[0]) + HeaderBytes(headers[1..])
  }

  function Total(r: Request): nat {
    HDR_SIZE + |r.path| + |HeaderBytes(r.headers)| + |r.body|
  }

  function HdrOf(reqId: nat, r: Request): RequestHdr {
    RequestHdr(reqId, MethodToByte(r.verb), VersionToByte(r.version), |r.headers|, |r.path|, |r.body|, Total(r))
  }

  function Layout(reqId: nat, r: Request): (bytes: seq<Byte>)
    ensures |bytes| == Total(r)
  {
    HdrBytes(HdrOf(reqId, r)) + (r.path + (HeaderBytes(r.headers) + r.body))
  }

  // ---- the decoder --------------------------------------------------------

  function MethodOf(b: Byte): Option<Method> {
    match b
    case 0 => Some(Get)
    case 1 => Some(Head)
    case 2 => Some(Post)
    case 3 => Some(Put)
    case 4 => Some(Delete)
    case 5 => Some(Options)
    case 6 => Some(Patch)
    case _ => None
  }

  function VersionOf(b: Byte): Option<HttpStream.Version> {
    match b
    case 10 => Some(HttpStream.Http10)
    case 11 => Some(HttpStream.Http11)
    case _ => None
  }

  function ReadHdr(bytes: seq<Byte>): RequestHdr
    requires |bytes| == HDR_SIZE
  {
    RequestHdr(Decode(bytes[0..8]), bytes[8], bytes[9], Decode(bytes[10..12]),
               Decode(bytes[12..16]), Decode(bytes[16..20]), Decode(bytes[20..24]))
  }

  datatype Entries = Bad | Good(headers: seq<Header>, rest: seq<Byte>)

  /** `count` header entries at the beginning of `bytes`, and what follows them. */
  function ReadEntries(bytes: seq<Byte>, count: nat): Entries
    decreases count
  {
    if count == 0 then Good([], bytes) else
    if |bytes| < ENTRY_SIZE then Bad else
    var nameLen, valueLen := Decode(bytes[0..2]), Decode(bytes[2..4]);
    if |bytes| < ENTRY_SIZE + nameLen + valueLen then Bad else
    var name := bytes[ENTRY_SIZE..ENTRY_SIZE + nameLen];
    var value := bytes[ENTRY_SIZE + nameLen..ENTRY_SIZE + nameLen + valueLen];
    match ReadEntries(bytes[ENTRY_SIZE + nameLen + valueLen..], count - 1)
    case Bad => Bad
    case Good(headers, rest) => Good([Header(name, value)] + headers, rest)
  }

  datatype Message = Message(reqId: nat, request: Request)

  /** What the header announces, in the bytes that follow it. */
  function ReadRest(h: RequestHdr, rest: seq<Byte>): Option<Message> {
    if h.totalLen != HDR_SIZE + |rest| || |rest| < h.pathLen then None else
    if MethodOf(h.verb).None? || VersionOf(h.version).None? then None else
    match ReadEntries(rest[h.pathLen..], h.headerCount)
    case Bad => None
    case Good(headers, body) =>
      if |body| != h.bodyLen then None
      else
        var verb, version := MethodOf(h.verb).value, VersionOf(h.version).value;
        Some(Message(h.reqId, Request(verb, version, rest[..h.pathLen], headers, body)))
  }

  /** The request in a buffer of exactly its size. */
  function ReadRequest(bytes: seq<Byte>): Option<Message> {
    if |bytes| < HDR_SIZE then None else ReadRest(ReadHdr(bytes[..HDR_SIZE]), bytes[HDR_SIZE..])
  }

  // ---- the round trip -----------------------------------------------------

  predicate EntryFits(h: Header) {
    |h.name| < U16_SIZE && |h.value| < U16_SIZE
  }

  /** Every count and length of the request fits its field. */
  predicate Fits(r: Request) {
    && |r.headers| < U16_SIZE && |r.path| < U32_SIZE && |r.body| < U32_SIZE && Total(r) < U32_SIZE
    && forall i :: 0 <= i < |r.headers| ==> EntryFits(r.headers[i])
  }

  lemma Widths()
    ensures Pow256(2) == U16_SIZE && Pow256(4) == U32_SIZE && Pow256(8) == U64_SIZE
  {
    assert Pow256(4) == 256 * 256 * Pow256(2);
    assert Pow256(8) == 256 * 256 * 256 * 256 * Pow256(4);
  }

  lemma ReadBack(x: nat, n: nat)
    requires x < Pow256(n)
    ensures Decode(Encode(x, n)) == x
  {
    DecodeEncode(x, n);
  }

  lemma HdrSlices(h: RequestHdr)
    ensures var b := HdrBytes(h);
            b[0..8] == Encode(h.reqId, 8) && b[8] == h.verb && b[9] == h.version
            && b[10..12] == Encode(h.headerCount, 2)
            && b[12..16] == Encode(h.pathLen, 4) && b[16..20] == Encode(h.bodyLen, 4)
            && b[20..24] == Encode(h.totalLen, 4)
  {
  }

  lemma HdrBack(h: RequestHdr)
    requires h.reqId < U64_SIZE && h.headerCount < U16_SIZE && h.pathLen < U32_SIZE && h.bodyLen < U32_SIZE
             && h.totalLen < U32_SIZE
    ensures ReadHdr(HdrBytes(h)) == h
  {
    Widths();
    HdrSlices(h);
    ReadBack(h.reqId, 8);
    ReadBack(h.headerCount, 2);
    ReadBack(h.pathLen, 4);
    ReadBack(h.bodyLen, 4);
    ReadBack(h.totalLen, 4);
  }

  lemma EntrySlices(h: Header, tail: seq<Byte>)
    ensures var b, n, v := EntryBytes(h) + tail, |h.name|, |h.value|;
            |b| == ENTRY_SIZE + n + v + |tail| && b[0..2] == Encode(n, 2) && b[2..4] == Encode(v, 2)
            && b[ENTRY_SIZE..ENTRY_SIZE + n] == h.name && b[ENTRY_SIZE + n..ENTRY_SIZE + n + v] == h.value
            && b[ENTRY_SIZE + n + v..] == tail
  {
  }

  lemma {:induction false} EntriesBack(headers: seq<Header>, tail: seq<Byte>)
    requires forall i :: 0 <= i < |headers| ==> EntryFits(headers[i])
    ensures ReadEntries(HeaderBytes(headers) + tail, |headers|) == Good(headers, tail)
  {
    if headers == [] {
      assert HeaderBytes(headers) + tail == tail;
    } else {
      var h, more := headers[0], HeaderBytes(headers[1..]) + tail;
      assert HeaderBytes(headers) + tail == EntryBytes(h) + more;
      EntrySlices(h, more);
      Widths();
      ReadBack(|h.name|, 2);
      ReadBack(|h.value|, 2);
      EntriesBack(headers[1..], tail);
    }
  }

  lemma Parts(a: seq<Byte>, b: seq<Byte>)
    ensures (a + b)[..|a|] == a && (a + b)[|a|..] == b
  {
  }

  lemma RestBack(reqId: nat, r: Request)
    requires Fits(r)
    ensures ReadRest(HdrOf(reqId, r), r.path + (HeaderBytes(r.headers) + r.body)) == Some(Message(reqId, r))
  {
    CodesBack(r.verb, r.version);
    Parts(r.path, HeaderBytes(r.headers) + r.body);
    EntriesBack(r.headers, r.body);
  }

  lemma CodesBack(m: Method, v: HttpStream.Version)
    ensures MethodOf(MethodToByte(m)) == Some(m) && VersionOf(VersionToByte(v)) == Some(v)
  {
  }

  lemma FitsComesBack(reqId: nat, r: Request)
    requires reqId < U64_SIZE && Fits(r)
    ensures ReadRequest(Layout(reqId, r)) == Some(Message(reqId, r))
  {
    HdrBack(HdrOf(reqId, r));
    Parts(HdrBytes(HdrOf(reqId, r)), r.path + (HeaderBytes(r.headers) + r.body));
    RestBack(reqId, r);
  }

  /** What is read from entries fits their fields and accounts for every byte. */
  lemma {:induction false} EntriesFit(bytes: seq<Byte>, count: nat)
    requires ReadEntries(bytes, count).Good?
    ensures var e := ReadEntries(bytes, count);
            |e.headers| == count && |bytes| == |HeaderBytes(e.headers)| + |e.rest|
            && forall i :: 0 <= i < count ==> EntryFits(e.headers[i])
    decreases count
  {
    if count > 0 {
      var n, v := Decode(bytes[0..2]), Decode(bytes[2..4]);
      Widths();
      DecodeBelow(bytes[0..2]);
      DecodeBelow(bytes[2..4]);
      EntriesFit(bytes[ENTRY_SIZE + n + v..], count - 1);
      var e := ReadEntries(bytes, count);
      var more := ReadEntries(bytes[ENTRY_SIZE + n + v..], count - 1);
      assert e.headers[1..] == more.headers;
    }
  }

  lemma HdrFits(bytes: seq<Byte>)
    requires |bytes| == HDR_SIZE
    ensures var h := ReadHdr(bytes);
            h.headerCount < U16_SIZE && h.pathLen < U32_SIZE && h.bodyLen < U32_SIZE && h.totalLen < U32_SIZE
  {
    Widths();
    DecodeBelow(bytes[10..12]);
    DecodeBelow(bytes[12..16]);
    DecodeBelow(bytes[16..20]);
    DecodeBelow(bytes[20..24]);
  }

  lemma RestFits(h: RequestHdr, rest: seq<Byte>)
    requires h.headerCount < U16_SIZE && h.pathLen < U32_SIZE && h.bodyLen < U32_SIZE && h.totalLen < U32_SIZE
    requires ReadRest(h, rest).Some?
    ensures Fits(ReadRest(h, rest).value.request)
  {
    EntriesFit(rest[h.pathLen..], h.headerCount);
  }

  lemma ReadFits(bytes: seq<Byte>)
    requires ReadRequest(bytes).Some?
    ensures Fits(ReadRequest(bytes).value.request)
  {
    HdrFits(bytes[..HDR_SIZE]);
    RestFits(ReadHdr(bytes[..HDR_SIZE]), bytes[HDR_SIZE..]);
  }

  /** A request is recovered from its serialised form if and only if its counts and lengths fit. */
  lemma RoundTripIff(reqId: nat, r: Request)
    requires reqId < U64_SIZE
    ensures ReadRequest(Layout(reqId, r)) == Some(Message(reqId, r)) <==> Fits(r)
  {
    if Fits(r) {
      FitsComesBack(reqId, r);
    } else if ReadRequest(Layout(reqId, r)).Some? {
      ReadFits(Layout(reqId, r));
    }
  }

  /** The bytes that userspace reads, by their positions. */
  lemma LayoutMeans(reqId: nat, r: Request)
    ensures
      var b, n := Layout(reqId, r), |r.path|;
      && b[0..8] == Encode(reqId, 8) && b[10..12] == Encode(|r.headers|, 2) && b[12..16] == Encode(n, 4)
      && b[16..20] == Encode(|r.body|, 4) && b[20..24] == Encode(|b|, 4)
      && b[24..24 + n] == r.path && b[24 + n..|b| - |r.body|] == HeaderBytes(r.headers)
      && b[|b| - |r.body|..] == r.body
    ensures Layout(reqId, r)[8] == match r.verb
                                   case Get => 0
                                   case Head => 1
                                   case Post => 2
                                   case Put => 3
                                   case Delete => 4
                                   case Options => 5
                                   case Patch => 6
    ensures Layout(reqId, r)[9] == if r.version == HttpStream.Http10 then 10 else 11
  {
    var h, b := HdrOf(reqId, r), Layout(reqId, r);
    var hdr, tail := HdrBytes(h), r.path + (HeaderBytes(r.headers) + r.body);
    HdrSlices(h);
    Parts(hdr, tail);
    assert forall i, j :: 0 <= i <= j <= 24 ==> b[i..j] == hdr[i..j];
    assert b[8] == hdr[8] && b[9] == hdr[9];
    TailSlices(hdr, r.path, HeaderBytes(r.headers), r.body);
  }

  lemma TailSlices(hdr: seq<Byte>, path: seq<Byte>, entries: seq<Byte>, body: seq<Byte>)
    ensures
      var b, k, n := hdr + (path + (entries + body)), |hdr|, |path|;
      b[k..k + n] == path && b[k + n..|b| - |body|] == entries && b[|b| - |body|..] == body
  {
  }

  /** The header entries, in order: each its two lengths, its name and its value. */
  lemma EntriesMean(headers: seq<Header>)
    ensures headers == [] ==> HeaderBytes(headers) == []
    ensures headers != [] ==>
              var h := headers[0];
              HeaderBytes(headers)
              == Encode(|h.name|, 2) + Encode(|h.value|, 2) + h.name + h.value + HeaderBytes(headers[1..])
  {
  }

  /** What RECV_REQUEST copies out: as much as the user's buffer takes. */
  function Handed(bytes: seq<Byte>, bufLen: nat): seq<Byte> {
    if |bytes| < bufLen then bytes else bytes[..bufLen]
  }

  /** A request cut short is never taken for the whole one. */
  lemma CutIsNotRead(reqId: nat, r: Request, bufLen: nat)
    requires reqId < U64_SIZE && Fits(r) && bufLen < Total(r)
    ensures ReadRequest(Layout(reqId, r)[..bufLen]).None?
  {
    if bufLen >= HDR_SIZE {
      var h := HdrOf(reqId, r);
      Parts(HdrBytes(h), r.path + (HeaderBytes(r.headers) + r.body));
      assert Layout(reqId, r)[..bufLen][..HDR_SIZE] == HdrBytes(h);
      HdrBack(h);
    }
  }

  /** What userspace receives gives back the request if and only if its counts and lengths fit their fields
      and its buffer takes all of it, although RECV_REQUEST reports success in any case. */
  lemma ReceivedIff(reqId: nat, r: Request, bufLen: nat)
    requires reqId < U64_SIZE
    ensures ReadRequest(Handed(Layout(reqId, r), bufLen)) == Some(Message(reqId, r)) <==> Fits(r) && bufLen >= Total(r)
  {
    if bufLen >= Total(r) {
      assert Handed(Layout(reqId, r), bufLen) == Layout(reqId, r);
      RoundTripIff(reqId, r);
    } else if Fits(r) {
      CutIsNotRead(reqId, r, bufLen);
    } else if ReadRequest(Layout(reqId, r)[..bufLen]).Some? {
      ReadFits(Layout(reqId, r)[..bufLen]);
    }
  }

  // ---- serialize_request --------------------------------------------------

  /** Pushes with the results ignored, under an allocator that grants nothing. */
  method PushAll(buf: Vec<Byte>, bytes: seq<Byte>)
    requires buf.Valid() && buf.len + |bytes| <= buf.slots.Length
    modifies buf, buf.slots
    ensures buf.Valid() && buf.slots == old(buf.slots) && buf.contents == old(buf.contents) + bytes
    ensures buf.dropped == old(buf.dropped)
  {
    for i := 0 to |bytes|
      invariant buf.Valid() && buf.slots == old(buf.slots) && buf.contents == old(buf.contents) + bytes[..i]
      invariant buf.dropped == old(buf.dropped)
    {
      var _ := buf.Push(bytes[i], false);
    }
  }

  method HeadersSize(headers: seq<Header>) returns (size: nat)
    ensures size == |HeaderBytes(headers)|
  {
    size := 0;
    for i := 0 to |headers|
      invariant size + |HeaderBytes(headers[i..])| == |HeaderBytes(headers)|
    {
      assert headers[i..][1..] == headers[i + 1..];
      size := size + ENTRY_SIZE + |headers[i].name| + |headers[i].value|;
    }
  }

  method PushEntry(buf: Vec<Byte>, h: Header)
    requires buf.Valid() && buf.len + |EntryBytes(h)| <= buf.slots.Length
    modifies buf, buf.slots
    ensures buf.Valid() && buf.slots == old(buf.slots) && buf.contents == old(buf.contents) + EntryBytes(h)
    ensures buf.dropped == old(buf.dropped)
  {
    PushAll(buf, Encode(|h.name|, 2) + Encode(|h.value|, 2));
    PushAll(buf, h.name);
    PushAll(buf, h.value);
    assert buf.contents == old(buf.contents) + EntryBytes(h);
  }

  method PushHeaders(buf: Vec<Byte>, headers: seq<Header>)
    requires buf.Valid() && buf.len + |HeaderBytes(headers)| <= buf.slots.Length
    modifies buf, buf.slots
    ensures buf.Valid() && buf.slots == old(buf.slots) && buf.contents == old(buf.contents) + HeaderBytes(headers)
    ensures buf.dropped == old(buf.dropped)
  {
    for i := 0 to |headers|
      invariant buf.Valid() && buf.slots == old(buf.slots) && buf.dropped == old(buf.dropped)
      invariant buf.contents + HeaderBytes(headers[i..]) == old(buf.contents) + HeaderBytes(headers)
    {
      var h := headers[i];
      ghost var was, rest := buf.contents, HeaderBytes(headers[i + 1..]);
      assert headers[i..][1..] == headers[i + 1..];
      assert |was| + |EntryBytes(h)| + |rest| == |old(buf.contents)| + |HeaderBytes(headers)|;
      PushEntry(buf, h);
      assert buf.contents + rest == was + (EntryBytes(h) + rest);
    }
    assert buf.contents + [] == buf.contents;
  }

  method PushRequest(buf: Vec<Byte>, reqId: nat, r: Request)
    requires buf.Valid() && buf.contents == [] && buf.slots.Length == Total(r)
    modifies buf, buf.slots
    ensures buf.Valid() && buf.slots == old(buf.slots) && buf.contents == Layout(reqId, r)
            && buf.dropped == old(buf.dropped)
  {
    PushAll(buf, HdrBytes(HdrOf(reqId, r)));
    PushAll(buf, r.path);
    PushHeaders(buf, r.headers);
    PushAll(buf, r.body);
    Nested(HdrBytes(HdrOf(reqId, r)), r.path, HeaderBytes(r.headers), r.body);
  }

  lemma Nested(a: seq<Byte>, b: seq<Byte>, c: seq<Byte>, d: seq<Byte>)
    ensures [] + a + b + c + d == a + (b + (c + d))
  {
  }

  /** `serialize_request`: the buffer is allocated once with exactly the size the request takes; no push has
      to grow it, so none of the ignored results is an error and no byte is dropped. */
  method SerializeRequest(reqId: nat, r: Request, maxCap: nat, granted: bool) returns (out: Option<Vec<Byte>>)
    requires maxCap < U64_SIZE
    ensures out.Some? <==> Total(r) <= maxCap && granted
    ensures out.Some? ==> out.value.Valid() && fresh(out.value) && out.value.dropped == []
                          && out.value.contents == Layout(reqId, r) && out.value.slots.Length == Total(r)
  {
    var headersSize := HeadersSize(r.headers);
    var total := HDR_SIZE + |r.path| + headersSize + |r.body|;
    var buf := new Vec<Byte>(maxCap);
    var reserved := buf.Reserve(total, granted);
    if reserved.Err? {
      return None;
    }
    PushRequest(buf, reqId, r);
    return Some(buf);
  }
}
