/** The bytes of a request for headers: what the asker writes and what the other side makes of any payload. */
module HeaderRequests {
  import opened Arith
  import opened Primitives
  import opened ChainState
  import opened Wire
  import opened HeaderSync

  /** An identifier takes as many bytes as the digest has. */
  const ID_BYTES: nat := 64

  /** The length of a payload in the older format, which is nothing but a height. */
  const HEIGHT_BYTES: nat := 8

  datatype RequestFault = OversizedCount | TruncatedLocator | UnreadableCount

  datatype Request = FromHeight(start: nat) | FromLocator(ids: seq<nat>) | Faulty(fault: RequestFault)

  // ---------------------------------------------------------------------------
  // Specification
  // ---------------------------------------------------------------------------

  function WriteId(id: nat): seq<Byte> {
    BigEndian(id, ID_BYTES)
  }

  function ReadId(data: seq<Byte>): Parsed<nat> {
    if |data| < ID_BYTES then Short else Read(FromBig(data[..ID_BYTES]), data[ID_BYTES..])
  }

  function WriteRequest(locator: seq<nat>): seq<Byte> {
    Varint(|locator|) + WriteAll(WriteId, locator)
  }

  /** What a payload asks for. Bytes after the listed identifiers are ignored. */
  function Understood(payload: seq<Byte>): Request {
    if |payload| == HEIGHT_BYTES then FromHeight(FromLittle(payload))
    else if payload == [] then FromLocator([])
    else
      match ReadVarint(payload)
      case Short => Faulty(UnreadableCount)
      case Read(count, rest) =>
        if MAX_LOCATOR_ENTRIES < count then Faulty(OversizedCount)
        else
          match ReadAll(ReadId, rest, count)
          case Short => Faulty(TruncatedLocator)
          case Read(ids, _) => FromLocator(ids)
  }

  /** The height from which headers are served. */
  function ServedFrom(s: State, request: Request): nat
    requires !request.Faulty?
  {
    match request
    case FromHeight(start) => start
    case FromLocator(ids) => StartHeight(s, ids)
  }

  // ---------------------------------------------------------------------------
  // Reading identifiers
  // ---------------------------------------------------------------------------

  /** Reading identifiers fails exactly when there are not enough bytes for all of them. */
  lemma {:induction false} ReadIdsExact(data: seq<Byte>, n: nat)
    ensures match ReadAll(ReadId, data, n)
            case Short => |data| < n * ID_BYTES
            case Read(ids, rest) => |ids| == n && n * ID_BYTES <= |data| && rest == data[n * ID_BYTES..]
  {
    hide FromBig;
    if n != 0 {
      ReadIdsExact(data, n - 1);
    }
  }

  /** Main result: a payload is found truncated exactly when its count is legal and its bytes do not hold as many
      identifiers, and no payload of the older length is. */
  lemma TruncatedExact(payload: seq<Byte>)
    ensures Understood(payload) == Faulty(TruncatedLocator)
            <==> |payload| != HEIGHT_BYTES && ReadVarint(payload).Read? && ReadVarint(payload).value <= MAX_LOCATOR_ENTRIES
                 && |ReadVarint(payload).rest| < ReadVarint(payload).value * ID_BYTES
  {
    hide FromLittle, FromBig, ReadId;
    if ReadVarint(payload).Read? {
      ReadIdsExact(ReadVarint(payload).rest, ReadVarint(payload).value);
    }
  }

  // ---------------------------------------------------------------------------
  // Requests come back
  // ---------------------------------------------------------------------------

  lemma IdThen(id: nat)
    requires id < Pow256(ID_BYTES)
    ensures Undoes(WriteId, ReadId, id)
  {
    hide Pow256, BigEndian, FromBig;
    BigBack(id, ID_BYTES);
    forall tail: seq<Byte>
      ensures ReadId(WriteId(id) + tail) == Read(id, tail)
    {
      var data := WriteId(id) + tail;
      assert data[..ID_BYTES] == WriteId(id) && data[ID_BYTES..] == tail;
    }
  }

  lemma {:induction false} IdsLength(ids: seq<nat>)
    ensures |WriteAll(WriteId, ids)| == |ids| * ID_BYTES
    decreases |ids|
  {
    hide BigEndian;
    if ids != [] {
      IdsLength(ids[..|ids| - 1]);
    }
  }

  /** What an asker writes never has the older length. */
  lemma RequestLength(locator: seq<nat>)
    ensures |WriteRequest(locator)| != HEIGHT_BYTES && WriteRequest(locator) != []
  {
    hide LittleEndian, WriteAll;
    IdsLength(locator);
  }

  /** Main result: the other side understands exactly the locator that was written if it is not too long, and
      otherwise finds it too long. */
  lemma RequestComesBack(locator: seq<nat>)
    requires |locator| < MAX_LENGTH && forall i :: 0 <= i < |locator| ==> locator[i] < Pow256(ID_BYTES)
    ensures Understood(WriteRequest(locator))
            == if |locator| <= MAX_LOCATOR_ENTRIES then FromLocator(locator) else Faulty(OversizedCount)
  {
    hide Pow256, Varint, ReadVarint, WriteAll, ReadAll, FromLittle, BigEndian, FromBig;
    RequestLength(locator);
    VarintThen(|locator|, WriteAll(WriteId, locator));
    forall i | 0 <= i < |locator|
      ensures Undoes(WriteId, ReadId, locator[i])
    {
      IdThen(locator[i]);
    }
    ReadWritten(WriteId, ReadId, locator, |locator|, []);
    assert locator[..|locator|] == locator && WriteAll(WriteId, locator) + [] == WriteAll(WriteId, locator);
  }

  // ---------------------------------------------------------------------------
  // The exchange
  // ---------------------------------------------------------------------------

  /** Writes the count and the identifiers one after the other. */
  method BuildRequest(locator: seq<nat>) returns (payload: seq<Byte>)
    ensures payload == WriteRequest(locator)
  {
    hide Varint, WriteId;
    payload := Varint(|locator|);
    assert payload + WriteAll(WriteId, locator[..0]) == payload by { NoIds(locator); }
    for i := 0 to |locator|
      invariant payload == Varint(|locator|) + WriteAll(WriteId, locator[..i])
    {
      assert locator[..i + 1][..i] == locator[..i];
      payload := payload + WriteId(locator[i]);
    }
    assert locator[..|locator|] == locator;
  }

  lemma NoIds(locator: seq<nat>)
    ensures WriteAll(WriteId, locator[..0]) == []
  {
  }

  /** Reads the listed identifiers until one is incomplete. */
  method ReadLocator(data: seq<Byte>, count: nat) returns (ok: bool, ids: seq<nat>)
    ensures ok <==> ReadAll(ReadId, data, count).Read?
    ensures ok ==> ids == ReadAll(ReadId, data, count).value
  {
    hide FromBig;
    var rest := data;
    ids := [];
    for i := 0 to count
      invariant ReadAll(ReadId, data, i) == Read(ids, rest)
    {
      ReadIdsExact(data, i);
      ReadIdsExact(data, count);
      if |rest| < ID_BYTES {
        return false, ids;
      }
      ids := ids + [FromBig(rest[..ID_BYTES])];
      rest := rest[ID_BYTES..];
    }
    ok := true;
  }

  /** Understands the payload, or says what is wrong with it, and serves what is on file. */
  method AnswerRequest(node: Node, payload: seq<Byte>) returns (fault: Option<RequestFault>, headers: seq<Header>)
    requires node.Valid()
    ensures var request := Understood(payload);
            if request.Faulty? then fault == Some(request.fault) && headers == []
            else fault.None?
                 && headers == FiledHeaders(node.store.byHeight, ServedFrom(node.View(), request), node.bestHeight, MAX_HEADERS_PER_MESSAGE)
  {
    hide Node.Valid, StartHeight, FiledHeaders, ReadVarint, FromLittle, ReadAll;
    if |payload| == HEIGHT_BYTES {
      headers := ReadHeaders(node, FromLittle(payload), MAX_HEADERS_PER_MESSAGE);
      return None, headers;
    }
    var locator := [];
    if payload != [] {
      match ReadVarint(payload) {
        case Short => return Some(UnreadableCount), [];
        case Read(count, rest) =>
          if MAX_LOCATOR_ENTRIES < count {
            return Some(OversizedCount), [];
          }
          var ok;
          ok, locator := ReadLocator(rest, count);
          if !ok {
            return Some(TruncatedLocator), [];
          }
      }
    }
    headers := HeadersAfterLocator(node, locator, MAX_HEADERS_PER_MESSAGE);
    fault := None;
  }

  /** Main result: what one node asks for in bytes the other one answers as if it had been handed the locator. */
  method Exchange(asker: Node, other: Node) returns (locator: seq<nat>, payload: seq<Byte>, fault: Option<RequestFault>, headers: seq<Header>)
    requires asker.Valid() && other.Valid()
    ensures IsLocator(asker.View(), LOCATOR_ENTRIES, locator) && payload == WriteRequest(locator)
    ensures (forall i :: 0 <= i < |locator| ==> locator[i] < Pow256(ID_BYTES)) ==>
              && fault.None?
              && headers == FiledHeaders(other.store.byHeight, StartHeight(other.View(), locator), other.bestHeight, MAX_HEADERS_PER_MESSAGE)
  {
    hide *;
    locator := BlockLocator(asker, LOCATOR_ENTRIES);
    LocatorLength(asker.View(), locator);
    payload := BuildRequest(locator);
    fault, headers := AnswerRequest(other, payload);
    if forall i :: 0 <= i < |locator| ==> locator[i] < Pow256(ID_BYTES) {
      RequestServed(other.View(), locator);
    }
  }

  lemma RequestServed(s: State, locator: seq<nat>)
    requires |locator| <= MAX_LOCATOR_ENTRIES && forall i :: 0 <= i < |locator| ==> locator[i] < Pow256(ID_BYTES)
    ensures var request := Understood(WriteRequest(locator));
            !request.Faulty? && ServedFrom(s, request) == StartHeight(s, locator)
  {
    hide StartHeight, Understood, WriteRequest, Pow256;
    RequestComesBack(locator);
  }
}
