/** The SNMP probe: a GetRequest for sysDescr written by hand, and a scan of the answer. */
module Snmp {
  import opened Wrappers
  import opened WireFormat

  /** 1.3.6.1.2.1.1.1.0, as the contents of an OBJECT IDENTIFIER. */
  const OID: Bytes := [0x2b, 0x06, 0x01, 0x02, 0x01, 0x01, 0x01, 0x00]

  const SYSDESCR_OID: Bytes := [0x06, 0x08] + OID

  /** `Buffer.from([n])` keeps the low eight bits. */
  function Low(n: nat): byte {
    n % 0x100
  }

  /** Tag, length in one byte, contents. */
  function Tlv(tag: byte, contents: Bytes): Bytes {
    [tag, Low(|contents|)] + contents
  }

  // ---------- buildSnmpV2cGetRequest ----------

  function RequestIdBytes(id: nat): Bytes {
    [Low(id / 0x100_0000), Low(id / 0x1_0000), Low(id / 0x100), Low(id)]
  }

  function BuildGetRequest(community: Bytes, requestId: nat): Bytes {
    var reqIdBuf := [0x02, 0x04] + RequestIdBytes(requestId);
    var errorStatus := [0x02, 0x01, 0x00];
    var errorIndex := [0x02, 0x01, 0x00];
    var nullValue := [0x05, 0x00];
    var varbind := [0x30, Low(|SYSDESCR_OID| + |nullValue|)] + SYSDESCR_OID + nullValue;
    var varbindList := [0x30, Low(|varbind|)] + varbind;
    var pduBody := reqIdBuf + errorStatus + errorIndex + varbindList;
    var pdu := [0xa0, Low(|pduBody|)] + pduBody;
    var version := [0x02, 0x01, 0x01];
    var communityTlv := [0x04, Low(|community|)] + community;
    var innerLen := |version| + |communityTlv| + |pdu|;
    [0x30, Low(innerLen)] + version + communityTlv + pdu
  }

  // ---------- A reader that knows nothing of the writer ----------

  /** A TLV with the expected tag and a short-form length (ITU-T X.690, 8.1.3.4), and what follows it. */
  datatype Element = Element(contents: Bytes, rest: Bytes)

  function ReadTlv(tag: byte, s: Bytes): Option<Element> {
    if |s| < 2 || s[0] != tag || s[1] >= 0x80 || 2 + s[1] as int > |s| then None
    else Some(Element(s[2..2 + s[1]], s[2 + s[1]..]))
  }

  /** Two's complement, big-endian. */
  function ReadInteger(s: Bytes): int {
    if s == [] then 0
    else if |s| == 1 then (if s[0] < 0x80 then s[0] else s[0] - 0x100)
    else ReadInteger(s[..|s| - 1]) * 0x100 + s[|s| - 1]
  }

  datatype Pdu = Pdu(requestId: int, errorStatus: int, errorIndex: int, oid: Bytes)

  datatype Message = Message(version: int, community: Bytes, pdu: Pdu)

  /** The varbind list: one pair of a name and NULL. */
  function ReadNames(s: Bytes): Option<Bytes> {
    var list := ReadTlv(0x30, s);
    if list.None? || list.value.rest != [] then None else
      var varbind := ReadTlv(0x30, list.value.contents);
      if varbind.None? || varbind.value.rest != [] then None else
        var name := ReadTlv(0x06, varbind.value.contents);
        if name.None? then None else
          var value := ReadTlv(0x05, name.value.rest);
          if value.None? || value.value.rest != [] || value.value.contents != [] then None
          else Some(name.value.contents)
  }

  /** A GetRequest-PDU (RFC 3416, section 3). */
  function ReadPdu(s: Bytes): Option<Pdu> {
    var id := ReadTlv(0x02, s);
    if id.None? then None else
      var status := ReadTlv(0x02, id.value.rest);
      if status.None? then None else
        var index := ReadTlv(0x02, status.value.rest);
        if index.None? then None else
          var names := ReadNames(index.value.rest);
          if names.None? then None
          else Some(Pdu(ReadInteger(id.value.contents), ReadInteger(status.value.contents),
                        ReadInteger(index.value.contents), names.value))
  }

  function ReadMessage(s: Bytes): Option<Message> {
    var whole := ReadTlv(0x30, s);
    if whole.None? || whole.value.rest != [] then None else
      var version := ReadTlv(0x02, whole.value.contents);
      if version.None? then None else
        var community := ReadTlv(0x04, version.value.rest);
        if community.None? then None else
          var body := ReadTlv(0xa0, community.value.rest);
          if body.None? || body.value.rest != [] then None else
            var pdu := ReadPdu(body.value.contents);
            if pdu.None? then None
            else Some(Message(ReadInteger(version.value.contents), community.value.contents, pdu.value))
  }

  // ---------- The request is well-formed ----------

  lemma TlvReads(tag: byte, contents: Bytes, rest: Bytes)
    requires |contents| < 0x80
    ensures ReadTlv(tag, Tlv(tag, contents) + rest) == Some(Element(contents, rest))
    ensures |Tlv(tag, contents)| == 2 + |contents|
  {
    var s := Tlv(tag, contents) + rest;
    assert s[2..2 + |contents|] == contents && s[2 + |contents|..] == rest;
  }

  lemma TlvReadsAlone(tag: byte, contents: Bytes)
    requires |contents| < 0x80
    ensures ReadTlv(tag, Tlv(tag, contents)) == Some(Element(contents, []))
  {
    TlvReads(tag, contents, []);
    assert Tlv(tag, contents) + [] == Tlv(tag, contents);
  }

  function Varbind(): Bytes { Tlv(0x06, OID) + Tlv(0x05, []) }

  function Names(): Bytes { Tlv(0x30, Tlv(0x30, Varbind())) }

  function PduBody(requestId: nat): Bytes {
    Tlv(0x02, RequestIdBytes(requestId)) + (Tlv(0x02, [0x00]) + (Tlv(0x02, [0x00]) + Names()))
  }

  function Inner(community: Bytes, requestId: nat): Bytes {
    Tlv(0x02, [0x01]) + (Tlv(0x04, community) + Tlv(0xa0, PduBody(requestId)))
  }

  lemma VarbindIsNested()
    ensures [0x30, Low(|SYSDESCR_OID| + 2)] + SYSDESCR_OID + [0x05, 0x00] == Tlv(0x30, Varbind())
    ensures |Varbind()| == 12
  {
    assert Varbind() == SYSDESCR_OID + [0x05, 0x00];
  }

  lemma PduIsNested(requestId: nat)
    ensures [0x02, 0x04] + RequestIdBytes(requestId) + [0x02, 0x01, 0x00] + [0x02, 0x01, 0x00] + Names()
         == PduBody(requestId)
    ensures |PduBody(requestId)| == 28
  {
    VarbindIsNested();
    hide Varbind, Names, RequestIdBytes;
    var id, zero, names := RequestIdBytes(requestId), [0x02, 0x01, 0x00], Names();
    assert |id| == 4 && |names| == 16 by { FourBytes(requestId); NamesRead(); }
    assert Tlv(0x02, [0x00]) == zero && Tlv(0x02, id) == [0x02, 0x04] + id;
    assert [0x02, 0x04] + id + zero + zero + names == [0x02, 0x04] + id + (zero + (zero + names));
  }

  lemma RequestIsNested(community: Bytes, requestId: nat)
    ensures BuildGetRequest(community, requestId) == Tlv(0x30, Inner(community, requestId))
    ensures |PduBody(requestId)| == 28 && |Inner(community, requestId)| == 35 + |community|
  {
    VarbindIsNested();
    PduIsNested(requestId);
    hide Varbind, RequestIdBytes, PduBody;
    var varbind := [0x30, Low(|SYSDESCR_OID| + 2)] + SYSDESCR_OID + [0x05, 0x00];
    assert [0x30, Low(|varbind|)] + varbind == Names();
    var body := PduBody(requestId);
    var outer := [0x30, Low(35 + |community|)];
    assert Tlv(0x02, [0x01]) == [0x02, 0x01, 0x01] && Tlv(0xa0, body) == [0xa0, Low(|body|)] + body;
    assert outer + [0x02, 0x01, 0x01] + Tlv(0x04, community) + Tlv(0xa0, body)
        == outer + ([0x02, 0x01, 0x01] + (Tlv(0x04, community) + Tlv(0xa0, body)));
  }

  lemma NamesRead()
    ensures ReadNames(Names()) == Some(OID) && |Names()| == 16
  {
    hide ReadTlv, Tlv;
    TlvReads(0x06, OID, Tlv(0x05, []));
    TlvReads(0x05, [], []);
    TlvReadsAlone(0x05, []);
    TlvReadsAlone(0x30, Varbind());
    TlvReads(0x30, Varbind(), []);
    TlvReadsAlone(0x30, Tlv(0x30, Varbind()));
    TlvReads(0x30, Tlv(0x30, Varbind()), []);
  }

  lemma RequestIdReads(id: nat)
    requires id < TWO_31
    ensures ReadInteger(RequestIdBytes(id)) == id
  {
    DigitsFour(id);
    ReadFour(Low(id / 0x100_0000), Low(id / 0x1_0000), Low(id / 0x100), Low(id));
  }

  lemma ReadFour(a: byte, b: byte, c: byte, d: byte)
    requires a < 0x80
    ensures ReadInteger([a, b, c, d]) == a as int * 0x100_0000 + b as int * 0x1_0000 + c as int * 0x100 + d as int
  {
    assert [a, b, c, d][..3] == [a, b, c] && [a, b, c][..2] == [a, b] && [a, b][..1] == [a];
    assert ReadInteger([a]) == a;
    assert ReadInteger([a, b]) == a as int * 0x100 + b as int;
    assert ReadInteger([a, b, c]) == a as int * 0x1_0000 + b as int * 0x100 + c as int;
  }

  lemma PduReads(requestId: nat)
    requires requestId < TWO_31
    ensures ReadPdu(PduBody(requestId)) == Some(Pdu(requestId, 0, 0, OID))
  {
    hide ReadTlv, Tlv, ReadNames, Names, RequestIdBytes;
    NamesRead();
    RequestIdReads(requestId);
    assert |RequestIdBytes(requestId)| == 4 by { FourBytes(requestId); }
    TlvReads(0x02, [0x00], Names());
    TlvReads(0x02, [0x00], Tlv(0x02, [0x00]) + Names());
    TlvReads(0x02, RequestIdBytes(requestId), Tlv(0x02, [0x00]) + (Tlv(0x02, [0x00]) + Names()));
  }

  lemma FourBytes(id: nat)
    ensures |RequestIdBytes(id)| == 4
  {
  }

  lemma InnerReads(community: Bytes, requestId: nat)
    requires |community| <= 92 && requestId < TWO_31
    ensures ReadMessage(Tlv(0x30, Inner(community, requestId)))
         == Some(Message(1, community, Pdu(requestId, 0, 0, OID)))
  {
    hide ReadTlv, Tlv, ReadPdu, PduBody;
    RequestIsNested(community, requestId);
    PduReads(requestId);
    TlvReadsAlone(0x30, Inner(community, requestId));
    TlvReads(0x02, [0x01], Tlv(0x04, community) + Tlv(0xa0, PduBody(requestId)));
    TlvReads(0x04, community, Tlv(0xa0, PduBody(requestId)));
    TlvReadsAlone(0xa0, PduBody(requestId));
  }

  /**
   The request decodes to exactly the intended GetRequest if and only if the community has at most
   92 bytes: the outer length then still fits the one byte written for it.
   */
  lemma RequestReadable(community: Bytes, requestId: nat)
    requires requestId < TWO_31
    ensures var intended := Message(1, community, Pdu(requestId, 0, 0, OID));
            ReadMessage(BuildGetRequest(community, requestId)) == Some(intended) <==> |community| <= 92
  {
    RequestIsNested(community, requestId);
    if |community| <= 92 {
      InnerReads(community, requestId);
    } else {
      var s := Tlv(0x30, Inner(community, requestId));
      assert s[1] == Low(35 + |community|);
    }
  }

  /** Everything behind the community, but for the request id. */
  const PDU_HEAD: Bytes := [0xa0, 0x1c, 0x02, 0x04]
  const PDU_TAIL: Bytes :=
    [0x02, 0x01, 0x00, 0x02, 0x01, 0x00, 0x30, 0x0e, 0x30, 0x0c,
     0x06, 0x08, 0x2b, 0x06, 0x01, 0x02, 0x01, 0x01, 0x01, 0x00, 0x05, 0x00]

  /** The part of the request that never changes. */
  lemma TailBytes()
    ensures var zero, varbind := [0x02, 0x01, 0x00], [0x30, Low(|SYSDESCR_OID| + 2)] + SYSDESCR_OID + [0x05, 0x00];
            |varbind| == 14 && zero + zero + ([0x30, Low(14)] + varbind) == PDU_TAIL
  {
    assert [0x30, Low(|SYSDESCR_OID| + 2)] + SYSDESCR_OID + [0x05, 0x00]
        == [0x30, 0x0c, 0x06, 0x08, 0x2b, 0x06, 0x01, 0x02, 0x01, 0x01, 0x01, 0x00, 0x05, 0x00];
  }

  /** The request, byte by byte. */
  lemma RequestBytes(community: Bytes, requestId: nat)
    ensures BuildGetRequest(community, requestId)
         == [0x30, Low(35 + |community|), 0x02, 0x01, 0x01, 0x04, Low(|community|)] + community
            + PDU_HEAD + RequestIdBytes(requestId) + PDU_TAIL
  {
    var n := |community|;
    var id := RequestIdBytes(requestId);
    var zero, varbind := [0x02, 0x01, 0x00], [0x30, Low(|SYSDESCR_OID| + 2)] + SYSDESCR_OID + [0x05, 0x00];
    TailBytes();
    FourBytes(requestId);
    hide RequestIdBytes, SYSDESCR_OID, PDU_TAIL;
    var body := [0x02, 0x04] + id + zero + zero + ([0x30, Low(14)] + varbind);
    assert body == [0x02, 0x04] + id + PDU_TAIL && |body| == 28 by {
      assert [0x02, 0x04] + id + zero + zero + ([0x30, Low(14)] + varbind)
          == [0x02, 0x04] + id + (zero + zero + ([0x30, Low(14)] + varbind));
    }
    assert BuildGetRequest(community, requestId)
        == [0x30, Low(35 + n)] + [0x02, 0x01, 0x01] + ([0x04, Low(n)] + community) + ([0xa0, 0x1c] + body);
    assert [0xa0, 0x1c] + body == PDU_HEAD + id + PDU_TAIL;
    var head := [0x30, Low(35 + n), 0x02, 0x01, 0x01, 0x04, Low(n)];
    assert [0x30, Low(35 + n)] + [0x02, 0x01, 0x01] + ([0x04, Low(n)] + community) == head + community;
    assert head + community + (PDU_HEAD + id + PDU_TAIL) == head + community + PDU_HEAD + id + PDU_TAIL;
  }

  // ---------- parseSnmpResponse ----------

  /** Whether the OID bytes stand at `q`. */
  predicate OidAt(data: Bytes, q: nat) {
    q + 8 <= |data| && data[q..q + 8] == OID
  }

  /** `data.indexOf`: the first position from `q` on. */
  function IndexOfOid(data: Bytes, q: nat): (p: Option<nat>)
    ensures p.Some? ==> q <= p.value && OidAt(data, p.value) && forall k: nat :: q <= k < p.value ==> !OidAt(data, k)
    ensures p.None? ==> forall k: nat :: k >= q ==> !OidAt(data, k)
    decreases |data| - q
  {
    if q + 8 > |data| then None else if OidAt(data, q) then Some(q) else IndexOfOid(data, q + 1)
  }

  /** A non-empty OCTET STRING that fits, judging by tag and length byte alone. */
  predicate StringAt(data: Bytes, i: nat) {
    i + 2 < |data| && data[i] == 0x04 && data[i + 1] > 0 && i + 2 + data[i + 1] as int <= |data|
  }

  /** Where the first such string from `i` on starts. */
  function StringFrom(data: Bytes, i: nat): (p: Option<nat>)
    ensures p.Some? ==>
      i <= p.value && StringAt(data, p.value) && forall k: nat :: i <= k < p.value ==> !StringAt(data, k)
    ensures p.None? ==> forall k: nat :: k >= i ==> !StringAt(data, k)
    decreases |data| - i
  {
    if i + 2 >= |data| then None else if StringAt(data, i) then Some(i) else StringFrom(data, i + 1)
  }

  /** Its contents. */
  function FirstString(data: Bytes, i: nat): Option<Bytes> {
    var p := StringFrom(data, i);
    if p.None? then None else Some(data[p.value + 2..p.value + 2 + data[p.value + 1]])
  }

  /** The eight bytes of 1.3.6.1.2.1.1.1.0 stand at `k`. */
  ghost predicate SysDescrAt(data: Bytes, k: int) {
    && 0 <= k && k + 8 <= |data|
    && data[k] == 0x2b && data[k + 1] == 0x06 && data[k + 2] == 0x01 && data[k + 3] == 0x02
    && data[k + 4] == 0x01 && data[k + 5] == 0x01 && data[k + 6] == 0x01 && data[k + 7] == 0x00
  }

  /** The OID's first occurrence is at `q`; behind it the first tag 4 with a length not zero that fits is at `i`. */
  ghost predicate Hit(data: Bytes, q: int, i: int) {
    && SysDescrAt(data, q) && (forall k :: 0 <= k < q ==> !SysDescrAt(data, k))
    && q + 8 <= i && i + 2 < |data|
    && data[i] == 0x04 && 0 < data[i + 1] && i + 2 + data[i + 1] as int <= |data|
    && forall k :: q + 8 <= k < i ==>
         !(data[k] == 0x04 && 0 < data[k + 1] && k + 2 + data[k + 1] as int <= |data|)
  }

  lemma SysDescrIsOid(data: Bytes, k: nat)
    ensures SysDescrAt(data, k) <==> OidAt(data, k)
  {
    if k + 8 <= |data| {
      var window := data[k..k + 8];
      assert forall j :: 0 <= j < 8 ==> window[j] == data[k + j];
      assert OidAt(data, k) ==> window[0] == 0x2b && window[1] == 0x06 && window[2] == 0x01 && window[3] == 0x02;
      assert OidAt(data, k) ==> window[4] == 0x01 && window[5] == 0x01 && window[6] == 0x01 && window[7] == 0x00;
    }
  }

  /** `text` is what stands at the hit, and missing when there is none. */
  ghost predicate Scanned(data: Bytes, text: Option<Bytes>) {
    match text
    case Some(t) => exists q, i :: Hit(data, q, i) && t == data[i + 2..i + 2 + data[i + 1]]
    case None => forall q, i :: !Hit(data, q, i)
  }

  lemma ParseMeans(data: Bytes)
    ensures Scanned(data, ParseSpec(data))
  {
    hide Hit, SysDescrAt, StringAt;
    if ParseSpec(data).Some? {
      FoundIsHit(data);
    } else {
      forall q, i ensures !Hit(data, q, i) {
        if Hit(data, q, i) {
          NoHitMissed(data, q, i);
        }
      }
    }
  }

  lemma FoundIsHit(data: Bytes)
    requires ParseSpec(data).Some?
    ensures var q := IndexOfOid(data, 0).value;
            Hit(data, q, StringFrom(data, q + 8).value)
  {
    forall k: nat ensures SysDescrAt(data, k) <==> OidAt(data, k) { SysDescrIsOid(data, k); }
    hide OidAt, SysDescrAt;
    var q: nat := IndexOfOid(data, 0).value;
    var i: nat := StringFrom(data, q + 8).value;
    forall k | q + 8 <= k < i
      ensures !(data[k] == 0x04 && 0 < data[k + 1] && k + 2 + data[k + 1] as int <= |data|)
    {
      assert !StringAt(data, k);
    }
  }

  lemma NoHitMissed(data: Bytes, q: int, i: int)
    requires Hit(data, q, i)
    ensures ParseSpec(data).Some?
  {
    forall k: nat ensures SysDescrAt(data, k) <==> OidAt(data, k) { SysDescrIsOid(data, k); }
    hide OidAt, SysDescrAt;
    assert StringAt(data, i);
  }

  function ParseSpec(data: Bytes): Option<Bytes> {
    var oidPos := IndexOfOid(data, 0);
    if oidPos.None? then None else FirstString(data, oidPos.value + 8)
  }

  method ParseResponse(data: Bytes) returns (text: Option<Bytes>)
    ensures text == ParseSpec(data)
    ensures Scanned(data, text)
  {
    ParseMeans(data);
    hide Scanned, OidAt;
    var oidPos := IndexOfOid(data, 0);
    if oidPos.None? { return None; }
    var i := oidPos.value + 8;
    while i < |data| - 2
      invariant oidPos.value + 8 <= i
      invariant StringFrom(data, oidPos.value + 8) == StringFrom(data, i)
    {
      if data[i] == 0x04 {
        var len: int := data[i + 1];
        if len > 0 && i + 2 + len <= |data| {
          return Some(data[i + 2..i + 2 + len]);
        }
      }
      i := i + 1;
    }
    return None;
  }

  /** A response to the probe, with one varbind and every length in short form. */
  datatype Response = Response(community: Bytes, id: Bytes, status: byte, index: byte, value: Bytes) {
    predicate Valid() {
      && 1 <= |id| <= 4
      && 1 <= |value|
      && |Inner()| < 0x80
    }

    function Inner(): Bytes {
      Tlv(0x02, [0x01]) + (Tlv(0x04, community) + Tlv(0xa2, Body()))
    }

    function Body(): Bytes {
      Tlv(0x02, id) + (Tlv(0x02, [status]) + (Tlv(0x02, [index])
        + Tlv(0x30, Tlv(0x30, Tlv(0x06, OID) + Tlv(0x04, value)))))
    }

    function Encode(): Bytes {
      Tlv(0x30, Inner())
    }

    /** The bytes in front of the OID's own contents, laid out. */
    function Front(): Bytes {
      [0x30, Low(|Inner()|), 0x02, 0x01, 0x01, 0x04, Low(|community|)] + community + Middle()
    }

    function Middle(): Bytes {
      [0xa2, Low(|Body()|), 0x02, Low(|id|)] + id + Trailer()
    }

    function Trailer(): Bytes {
      [0x02, 0x01, status, 0x02, 0x01, index, 0x30, Low(|value| + 14), 0x30, Low(|value| + 12), 0x06, 0x08]
    }
  }

  lemma ListLayout(r: Response)
    ensures var list := Tlv(0x30, Tlv(0x30, Tlv(0x06, OID) + Tlv(0x04, r.value)));
            && list == [0x30, Low(|r.value| + 14), 0x30, Low(|r.value| + 12), 0x06, 0x08] + (OID + Tlv(0x04, r.value))
            && |list| == 16 + |r.value|
  {
    var text := Tlv(0x04, r.value);
    var pair := Tlv(0x06, OID) + text;
    assert |pair| == 12 + |r.value| && pair == [0x06, 0x08] + (OID + text);
    assert Tlv(0x30, pair) == [0x30, Low(|r.value| + 12)] + pair;
  }

  lemma BodyLayout(r: Response)
    ensures r.Body() == [0x02, Low(|r.id|)] + r.id + r.Trailer() + (OID + Tlv(0x04, r.value))
    ensures |r.Body()| == 24 + |r.id| + |r.value|
  {
    ListLayout(r);
    hide OID;
    var rest := OID + Tlv(0x04, r.value);
    var list := Tlv(0x30, Tlv(0x30, Tlv(0x06, OID) + Tlv(0x04, r.value)));
    var marks := [0x30, Low(|r.value| + 14), 0x30, Low(|r.value| + 12), 0x06, 0x08];
    var states := [0x02, 0x01, r.status, 0x02, 0x01, r.index];
    var id := [0x02, Low(|r.id|)] + r.id;
    assert states + marks == r.Trailer();
    assert r.Body() == id + (states + list);
    assert id + (states + (marks + rest)) == id + (states + marks) + rest;
  }

  lemma ResponseLayout(r: Response)
    ensures r.Encode() == r.Front() + (OID + Tlv(0x04, r.value))
    ensures |r.Inner()| == 31 + |r.community| + |r.id| + |r.value|
  {
    BodyLayout(r);
    var body, rest := r.Body(), OID + Tlv(0x04, r.value);
    var head, community := [0x30, Low(|r.Inner()|), 0x02, 0x01, 0x01, 0x04, Low(|r.community|)], r.community;
    assert r.Encode() == head + community + ([0xa2, Low(|body|)] + body);
    assert [0xa2, Low(|body|)] + body == r.Middle() + rest;
    assert head + community + (r.Middle() + rest) == head + community + r.Middle() + rest;
  }

  /** The community's length byte and the community: the only place an OID can be mistaken for the name. */
  function Exposed(r: Response): Bytes {
    [Low(|r.community|)] + r.community
  }

  ghost predicate ContainsOid(s: Bytes) {
    exists q: nat :: OidAt(s, q)
  }

  lemma FrontBytes(r: Response)
    ensures |r.Front()| == 23 + |r.community| + |r.id| && |r.Middle()| == 16 + |r.id|
    ensures r.Front()[6..7 + |r.community|] == Exposed(r)
    ensures forall j :: 0 <= j < |r.Middle()| ==> r.Front()[7 + |r.community| + j] == r.Middle()[j]
    ensures forall t :: 0 <= t < 12 ==> r.Front()[11 + |r.community| + |r.id| + t] == r.Trailer()[t]
  {
    assert forall t :: 0 <= t < 12 ==> r.Middle()[4 + |r.id| + t] == r.Trailer()[t];
  }

  /** A window that is not all exposed differs from the OID somewhere: at offset `k`. */
  lemma Mismatch(r: Response, q: nat) returns (k: nat)
    requires r.Valid() && q < |r.Front()| && !(6 <= q && q + 8 <= 7 + |r.community|)
    ensures k < 8 && q + k < |r.Front()| && r.Front()[q + k] != OID[k]
  {
    FrontBytes(r);
    var c, m := |r.community|, |r.id|;
    if q < 6 {
      k := if q == 1 then 1 else 0;
    } else if q < 7 + c {
      k := 7 + c - q;
      assert r.Front()[7 + c + 0] == r.Middle()[0];
    } else {
      k := MismatchBehind(r, q - 7 - c);
      assert r.Front()[7 + c + (q - 7 - c + k)] == r.Middle()[q - 7 - c + k];
    }
  }

  lemma MiddleBytes(r: Response)
    requires |r.id| < 0x80
    ensures var middle := r.Middle();
            && |middle| == 16 + |r.id|
            && middle[0] == 0xa2 && middle[2] == 0x02 && middle[3] == |r.id|
            && forall t :: 0 <= t < 12 ==> middle[4 + |r.id| + t] == r.Trailer()[t]
  {
  }

  lemma MismatchInTrailer(r: Response, t: nat) returns (k: nat)
    requires t < 12
    ensures k < 8 && t + k < 12 && r.Trailer()[t + k] != OID[k]
  {
    k := if t == 2 || t == 5 || t == 7 then 1 else if t == 9 then 2 else 0;
  }

  /** Behind the community: among the PDU's head, its request id and what follows. */
  lemma MismatchBehind(r: Response, j: nat) returns (k: nat)
    requires 1 <= |r.id| <= 4 && j < |r.Middle()|
    ensures k < 8 && j + k < |r.Middle()| && r.Middle()[j + k] != OID[k]
  {
    MiddleBytes(r);
    hide Response.Middle;
    var m := |r.id|;
    if j < 4 {
      k := if j == 1 then 1 else 0;
    } else if j < 4 + m {
      var left := 3 + m - j;  // bytes of the request id behind this one
      k := if left == 2 then 6 else left + 1;
      assert r.Middle()[4 + m + (if left == 2 then 3 else 0)] == r.Trailer()[if left == 2 then 3 else 0];
    } else {
      k := MismatchInTrailer(r, j - 4 - m);
      assert r.Middle()[4 + m + (j - 4 - m + k)] == r.Trailer()[j - 4 - m + k];
    }
  }

  lemma NoEarlierOid(r: Response, data: Bytes, q: nat)
    requires r.Valid() && !ContainsOid(Exposed(r)) && r.Front() <= data && q < |r.Front()|
    ensures !OidAt(data, q)
  {
    if 6 <= q && q + 8 <= 7 + |r.community| {
      FrontBytes(r);
      assert data[q..q + 8] == r.Front()[6..7 + |r.community|][q - 6..q + 2];
      assert !OidAt(Exposed(r), q - 6);
    } else {
      var k := Mismatch(r, q);
      assert q + 8 <= |data| ==> data[q..q + 8][k] == r.Front()[q + k];
    }
  }

  lemma FoundAt(data: Bytes, q: nat, p: nat)
    requires q <= p && OidAt(data, p) && forall k: nat :: q <= k < p ==> !OidAt(data, k)
    ensures IndexOfOid(data, q) == Some(p)
  {
  }

  /**
   The scan returns the value of every such response, unless the OID also shows up in the
   community together with its length byte.
   */
  lemma ResponseParsed(r: Response)
    requires r.Valid() && !ContainsOid(Exposed(r))
    ensures ParseSpec(r.Encode()) == Some(r.value)
  {
    hide OidAt, IndexOfOid, ContainsOid, Response.Encode, Response.Front, StringAt;
    TextBehindOid(r);
    var data, p := r.Encode(), |r.Front()|;
    forall k: nat | k < p ensures !OidAt(data, k) { NoEarlierOid(r, data, k); }
    FoundAt(data, 0, p);
    FirstStringAt(data, p + 8);
  }

  lemma FirstStringAt(data: Bytes, i: nat)
    requires StringAt(data, i)
    ensures FirstString(data, i) == Some(data[i + 2..i + 2 + data[i + 1]])
  {
  }

  /** Where the scan stops: at the string it returns. */
  function ScanStop(data: Bytes): Option<nat> {
    var found := IndexOfOid(data, 0);
    if found.None? then None else StringFrom(data, found.value + 8)
  }

  /** Nothing from just behind the community's OID up to the value looks like a string. */
  ghost predicate NothingBetween(r: Response)
    requires ContainsOid(Exposed(r))
  {
    var first := IndexOfOid(Exposed(r), 0).value;
    forall i: nat :: first + 14 <= i < |r.Front()| + 8 ==> !StringAt(r.Encode(), i)
  }

  /**
   For every response: the scan stops at the value if and only if the community with its length byte
   does not contain the OID, or does and nothing between its first occurrence there and the value
   looks like a string.
   */
  lemma ScanReachesValue(r: Response)
    requires r.Valid()
    ensures ScanStop(r.Encode()) == Some(|r.Front()| + 8) <==> (ContainsOid(Exposed(r)) ==> NothingBetween(r))
    ensures ScanStop(r.Encode()) == Some(|r.Front()| + 8) ==> ParseSpec(r.Encode()) == Some(r.value)
  {
    hide OidAt, IndexOfOid, Response.Encode, Response.Front, StringAt, Exposed;
    TextBehindOid(r);
    var data, p := r.Encode(), |r.Front()|;
    if ContainsOid(Exposed(r)) {
      FoundInExposed(r, data);
    } else {
      forall k: nat | k < p ensures !OidAt(data, k) { NoEarlierOid(r, data, k); }
      FoundAt(data, 0, p);
    }
  }

  /** The first occurrence in the community, six bytes further on, is the first in the response. */
  lemma FoundInExposed(r: Response, data: Bytes)
    requires r.Valid() && ContainsOid(Exposed(r)) && r.Front() <= data
    ensures IndexOfOid(Exposed(r), 0).Some?
    ensures var first := IndexOfOid(Exposed(r), 0).value;
            IndexOfOid(data, 0) == Some(first + 6) && first + 6 < |r.Front()|
  {
    hide OidAt, IndexOfOid, Response.Front, Response.Valid;
    FrontBytes(r);
    ExposedLength(r);
    var exposed := Exposed(r);
    var first := IndexOfOid(exposed, 0).value;
    OidInside(exposed, first);
    InExposed(r, data, first);
    forall k: nat | k < first + 6 ensures !OidAt(data, k) {
      if k < 6 {
        NotInHead(r, data, k);
      } else {
        InExposed(r, data, k - 6);
      }
    }
    FoundAt(data, 0, first + 6);
  }

  lemma ExposedLength(r: Response)
    ensures |Exposed(r)| == 1 + |r.community|
  {
  }

  lemma OidInside(s: Bytes, q: nat)
    requires OidAt(s, q)
    ensures q + 8 <= |s|
  {
  }

  lemma NotInHead(r: Response, data: Bytes, k: nat)
    requires r.Valid() && r.Front() <= data && k < 6
    ensures !OidAt(data, k)
  {
    FrontBytes(r);
    var j := Mismatch(r, k);
    assert k + 8 <= |data| ==> data[k..k + 8][j] == r.Front()[k + j];
  }

  /** Inside the community the response reads as the community does. */
  lemma InExposed(r: Response, data: Bytes, q: nat)
    requires r.Front() <= data && q + 8 <= 1 + |r.community|
    ensures OidAt(data, q + 6) <==> OidAt(Exposed(r), q)
  {
    FrontBytes(r);
    hide Response.Front;
    var front, to := r.Front(), 7 + |r.community|;
    SliceOfSlice(front, 6, to, q, 8);
    SliceOfSlice(data, 0, |front|, q + 6, 8);
    assert data[0..|front|] == front;
  }

  lemma SliceOfSlice(s: Bytes, from: nat, to: nat, k: nat, n: nat)
    requires from <= to <= |s| && k + n <= to - from
    ensures s[from..to][k..k + n] == s[from + k..from + k + n]
  {
    var part, window := s[from..to], s[from + k..from + k + n];
    assert part == s[from..from + k] + window + s[from + k + n..to];
  }

  lemma TextBehindOid(r: Response)
    requires r.Valid()
    ensures var data, p := r.Encode(), |r.Front()|;
            && r.Front() <= data && OidAt(data, p)
            && StringAt(data, p + 8) && data[p + 10..p + 10 + data[p + 9]] == r.value
  {
    ResponseLayout(r);
    hide Response.Front, Response.Encode, OID;
    var data, p, text := r.Encode(), |r.Front()|, Tlv(0x04, r.value);
    assert |OID| == 8 by { OidLength(); }
    assert data[p..] == OID + text;
    assert data[p..p + 8] == OID;
    assert data[p + 8..] == text;
    assert data[p + 8] == data[p + 8..][0] && data[p + 9] == data[p + 8..][1];
    assert text[2..] == r.value;
    assert data[p + 10..] == data[p + 8..][2..];
  }

  lemma OidLength()
    ensures |OID| == 8
  {
  }

  /**
   The length byte matters: a community of 43 bytes has length byte 0x2b, the OID's first. One that
   goes on with the rest of the OID and a one-byte string has that string returned, whatever the value.
   */
  lemma LengthByteMistaken(r: Response, x: byte)
    requires r.Valid() && |r.community| == 0x2b && OID[1..] + [0x04, 0x01, x] <= r.community
    ensures ParseSpec(r.Encode()) == Some([x])
  {
    ResponseLayout(r);
    FrontBytes(r);
    var data := r.Encode();
    assert Exposed(r)[..8] == OID;
    assert data[6..14] == Exposed(r)[..8];
    forall k: nat | k < 6 ensures !OidAt(data, k) {
      var j := Mismatch(r, k);
      assert data[k..k + 8][j] == r.Front()[k + j];
    }
    FoundAt(data, 0, 6);
    assert forall i :: 0 <= i < 3 ==> data[14 + i] == r.community[7 + i] == [0x04, 0x01, x][i];
    assert data[14] == 0x04 && data[15] == 0x01 && data[16] == x;
    assert StringAt(data, 14) && data[16..17] == [x];
  }

  /** A community of 43 bytes without the OID: the OID's tail, a string of one byte, and zeros. */
  function Decoy(x: byte): (c: Bytes)
    ensures |c| == 0x2b
  {
    OID[1..] + [0x04, 0x01, x] + seq(33, _ => 0)
  }

  lemma DecoyLacksOid(x: byte)
    ensures !ContainsOid(Decoy(x))
  {
    var c := Decoy(x);
    assert forall q :: 0 <= q < |c| && c[q] == 0x2b ==> q == 9;
    forall q: nat ensures !OidAt(c, q) {
      OidStart(c, q);
    }
  }

  lemma OidStart(s: Bytes, q: nat)
    ensures OidAt(s, q) ==> q + 8 <= |s| && s[q] == 0x2b && s[q + 1] == 0x06
  {
    assert OidAt(s, q) ==> s[q..q + 8][0] == 0x2b && s[q..q + 8][1] == 0x06;
  }

  /** It does happen, to a response whose value is another text and whose community has no OID in it. */
  lemma DecoyReturned(x: byte)
    ensures var r := Response(Decoy(x), [1], 0, 0, [0x41, 0x42]);
            && r.Valid() && !ContainsOid(r.community)
            && ParseSpec(r.Encode()) == Some([x]) && [x] != r.value
  {
    var r := Response(Decoy(x), [1], 0, 0, [0x41, 0x42]);
    hide ParseSpec, ContainsOid, Response.Encode, Response.Inner;
    ResponseLayout(r);
    DecoyLacksOid(x);
    assert OID[1..] + [0x04, 0x01, x] <= r.community;
    LengthByteMistaken(r, x);
    assert |[x]| != |r.value|;
  }
}
