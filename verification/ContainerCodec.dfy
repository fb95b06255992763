/**
  The container format that ETH_PDU_Send_TAS of src/FlexCAN_SKKU.c writes: a version byte, a
  count byte, and for each PDU its identifier in two bytes, its length in one, and its data.
 */
module ContainerCodec {
  import opened Shared

  const CONTAINER_VERSION: Byte := 1
  const HEADER_SIZE: nat := 2
  const PDU_HEADER_SIZE: nat := 3
  const CONTAINER_MAX_SIZE: nat := 1536
  const PAYLOAD_MAX: nat := CONTAINER_MAX_SIZE - 18

  type PduId = i: int | 0 <= i < 0x1_0000
  type PduData = d: seq<Byte> | |d| < 256

  datatype Pdu = Pdu(id: PduId, data: PduData)

  function Entry(p: Pdu): (r: seq<Byte>)
    ensures |r| == PDU_HEADER_SIZE + |p.data|
  {
    [p.id / 256, p.id % 256, |p.data|] + p.data
  }

  function Entries(pdus: seq<Pdu>): seq<Byte> {
    if pdus == [] then [] else Entry(pdus[0]) + Entries(pdus[1..])
  }

  /** The count byte is a uint8 that is incremented for each PDU. */
  function Encode(pdus: seq<Pdu>): seq<Byte> {
    [CONTAINER_VERSION, |pdus| % 256] + Entries(pdus)
  }

  lemma {:induction false} EntriesAppend(pdus: seq<Pdu>, p: Pdu)
    ensures Entries(pdus + [p]) == Entries(pdus) + Entry(p)
  {
    if pdus != [] {
      EntriesAppend(pdus[1..], p);
      assert (pdus + [p])[1..] == pdus[1..] + [p];
    } else {
      assert Entries([p][1..]) == [];
    }
  }

  // ----- the reader -----

  datatype Parsed = Bad | Good(pdus: seq<Pdu>, rest: seq<Byte>)

  function ReadEntry(bytes: seq<Byte>): Option<Pdu> {
    if |bytes| < PDU_HEADER_SIZE || |bytes| < PDU_HEADER_SIZE + bytes[2] as int then None
    else Some(Pdu(bytes[0] as int * 256 + bytes[1] as int, bytes[3..3 + bytes[2] as int]))
  }

  function ReadEntries(bytes: seq<Byte>, n: nat): Parsed {
    if n == 0 then Good([], bytes)
    else
      match ReadEntry(bytes)
      case None => Bad
      case Some(p) =>
        match ReadEntries(bytes[PDU_HEADER_SIZE + |p.data|..], n - 1)
        case Bad => Bad
        case Good(pdus, rest) => Good([p] + pdus, rest)
  }

  /** Reads that many entries, and expects nothing after them. */
  function DecodeEntries(bytes: seq<Byte>, count: nat): Option<seq<Pdu>> {
    match ReadEntries(bytes, count)
    case Bad => None
    case Good(pdus, rest) => if rest == [] then Some(pdus) else None
  }

  /** Reads the version, and as many entries as the count byte says. */
  function Decode(bytes: seq<Byte>): Option<seq<Pdu>> {
    if |bytes| < HEADER_SIZE || bytes[0] != CONTAINER_VERSION then None
    else DecodeEntries(bytes[HEADER_SIZE..], bytes[1])
  }

  lemma EntryRoundTrip(p: Pdu, tail: seq<Byte>)
    ensures ReadEntry(Entry(p) + tail) == Some(p)
    ensures (Entry(p) + tail)[PDU_HEADER_SIZE + |p.data|..] == tail
  {
    var bytes := Entry(p) + tail;
    assert bytes[0] as int * 256 + bytes[1] as int == p.id;
    assert bytes[3..3 + |p.data|] == p.data;
  }

  /** Reading past one entry. */
  lemma ReadOneMore(p: Pdu, tail: seq<Byte>, pdus: seq<Pdu>, rest: seq<Byte>)
    requires ReadEntries(tail, |pdus|) == Good(pdus, rest)
    ensures ReadEntries(Entry(p) + tail, |pdus| + 1) == Good([p] + pdus, rest)
  {
    EntryRoundTrip(p, tail);
  }

  lemma FirstEntry(pdus: seq<Pdu>, tail: seq<Byte>)
    requires pdus != []
    ensures Entries(pdus) + tail == Entry(pdus[0]) + (Entries(pdus[1..]) + tail)
  {
  }

  lemma {:induction false} EntriesRoundTrip(pdus: seq<Pdu>, tail: seq<Byte>)
    ensures ReadEntries(Entries(pdus) + tail, |pdus|) == Good(pdus, tail)
  {
    if pdus == [] {
      assert Entries(pdus) + tail == tail;
    } else {
      var first, more := pdus[0], pdus[1..];
      var rest := Entries(more) + tail;
      assert ReadEntries(Entry(first) + rest, |more| + 1) == Good([first] + more, tail) by {
        EntriesRoundTrip(more, tail);
        ReadOneMore(first, rest, more, tail);
      }
      FirstEntry(pdus, tail);
      assert [first] + more == pdus;
    }
  }

  lemma {:induction false} ReadsThatMany(bytes: seq<Byte>, n: nat)
    ensures ReadEntries(bytes, n).Good? ==> |ReadEntries(bytes, n).pdus| == n
  {
    if n > 0 && ReadEntry(bytes).Some? {
      ReadsThatMany(bytes[PDU_HEADER_SIZE + |ReadEntry(bytes).value.data|..], n - 1);
    }
  }

  /** A container decodes to the PDUs put into it exactly when the count byte has not wrapped. */
  lemma RoundTripExactlyWhen(pdus: seq<Pdu>)
    ensures Decode(Encode(pdus)) == Some(pdus) <==> |pdus| < 256
  {
    if |pdus| < 256 {
      FewDecode(pdus);
    } else {
      ManyDoNotDecode(pdus);
    }
  }

  lemma FewDecode(pdus: seq<Pdu>)
    requires |pdus| < 256
    ensures Decode(Encode(pdus)) == Some(pdus)
  {
    assert |pdus| % 256 == |pdus|;
    DecodeReads(pdus, |pdus|);
    ReadsAll(pdus);
  }

  lemma ManyDoNotDecode(pdus: seq<Pdu>)
    requires |pdus| >= 256
    ensures Decode(Encode(pdus)) != Some(pdus)
  {
    DecodeReads(pdus, |pdus| % 256);
    ReadsThatMany(Entries(pdus), |pdus| % 256);
  }

  /** The count byte says how many entries are read. */
  lemma DecodeReads(pdus: seq<Pdu>, count: nat)
    requires count == |pdus| % 256
    ensures Decode(Encode(pdus)) == DecodeEntries(Entries(pdus), count)
  {
    assert Encode(pdus)[HEADER_SIZE..] == Entries(pdus);
  }

  lemma ReadsAll(pdus: seq<Pdu>)
    ensures ReadEntries(Entries(pdus), |pdus|) == Good(pdus, [])
  {
    EntriesRoundTrip(pdus, []);
    assert Entries(pdus) + [] == Entries(pdus);
  }

  // ----- how many PDUs fit -----

  lemma {:induction false} EntriesLength(pdus: seq<Pdu>, m: nat)
    requires forall i :: 0 <= i < |pdus| ==> |pdus[i].data| >= m
    ensures |Entries(pdus)| >= |pdus| * (PDU_HEADER_SIZE + m)
  {
    if pdus != [] {
      EntriesLength(pdus[1..], m);
      assert |pdus| * (PDU_HEADER_SIZE + m) == (|pdus| - 1) * (PDU_HEADER_SIZE + m) + (PDU_HEADER_SIZE + m);
    }
  }

  /** With at least three bytes each, at most 252 PDUs fit into a container. */
  lemma CountDoesNotWrap(pdus: seq<Pdu>)
    requires |Encode(pdus)| <= PAYLOAD_MAX
    requires forall i :: 0 <= i < |pdus| ==> |pdus[i].data| >= 3
    ensures |pdus| <= 252
    ensures Decode(Encode(pdus)) == Some(pdus)
  {
    EntriesLength(pdus, 3);
    RoundTripExactlyWhen(pdus);
  }

  /** Every container of PDUs with at least `m` bytes each decodes to them. */
  ghost predicate AlwaysDecodes(m: nat) {
    forall pdus: seq<Pdu> ::
      |Encode(pdus)| <= PAYLOAD_MAX && (forall i :: 0 <= i < |pdus| ==> |pdus[i].data| >= m)
      ==> Decode(Encode(pdus)) == Some(pdus)
  }

  function Zeros(m: nat): seq<Byte> {
    seq(m, i => 0)
  }

  function Copies(n: nat, p: Pdu): (r: seq<Pdu>)
    ensures |r| == n && forall i :: 0 <= i < n ==> r[i] == p
  {
    seq(n, i => p)
  }

  lemma {:induction false} CopiesLength(n: nat, p: Pdu)
    ensures |Entries(Copies(n, p))| == n * (PDU_HEADER_SIZE + |p.data|)
  {
    if n > 0 {
      assert Copies(n, p)[1..] == Copies(n - 1, p);
      CopiesLength(n - 1, p);
      assert n * (PDU_HEADER_SIZE + |p.data|) == (n - 1) * (PDU_HEADER_SIZE + |p.data|) + (PDU_HEADER_SIZE + |p.data|);
    }
  }

  /** 256 short PDUs fit into a container, whose count byte then reads 0. */
  lemma ShortPdusWrap(m: nat) returns (pdus: seq<Pdu>)
    requires m <= 2
    ensures |Encode(pdus)| <= PAYLOAD_MAX && |pdus| == 256
    ensures forall i :: 0 <= i < |pdus| ==> |pdus[i].data| == m
    ensures Encode(pdus)[1] == 0 && Decode(Encode(pdus)) != Some(pdus)
  {
    var p := Pdu(0, Zeros(m));
    pdus := Copies(256, p);
    CopiesLength(256, p);
    RoundTripExactlyWhen(pdus);
  }

  /** Three bytes is the least length for which the count byte is enough. */
  lemma AlwaysDecodesExactlyWhen(m: nat)
    ensures AlwaysDecodes(m) <==> m >= 3
  {
    if m >= 3 {
      forall pdus: seq<Pdu> |
        |Encode(pdus)| <= PAYLOAD_MAX && (forall i :: 0 <= i < |pdus| ==> |pdus[i].data| >= m)
        ensures Decode(Encode(pdus)) == Some(pdus)
      {
        CountDoesNotWrap(pdus);
      }
    } else {
      var pdus := ShortPdusWrap(m);
    }
  }
}
