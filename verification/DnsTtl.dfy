/**
 DNS responses and their lifetimes: how long a response may be kept, and the rewriting of
 record TTLs in place.
 */
module DnsTtl {
  import opened Wrappers

  const UINT32_LIMIT := 0x1_0000_0000

  type Ttl = n: nat | n < UINT32_LIMIT

  const RCODE_SUCCESS := 0
  const RCODE_NAME_ERROR := 3
  const TYPE_HTTPS := 65

  datatype SvcParam = IPv4Hint(data: string) | IPv6Hint(data: string) | OtherParam(data: string)

  datatype RData =
    | SOA(minttl: Ttl, rest: string)
    | OPT(udpSize: nat, options: string)
    | HTTPS(params: seq<SvcParam>)
    | OtherData(rrtype: nat, data: string)

  datatype Record = Record(name: string, ttl: Ttl, data: RData)

  /** A response as a value; a copy of a response is one of these. */
  datatype Message = Message(id: nat, rcode: nat, answer: seq<Record>, ns: seq<Record>, extra: seq<Record>)

  /** A response whose records are rewritten in place. */
  class Response {
    var id: nat
    var rcode: nat
    const answer: array<Record>
    const ns: array<Record>
    const extra: array<Record>

    ghost predicate Valid() {
      answer != ns && answer != extra && ns != extra
    }

    function Value(): Message
      reads this, answer, ns, extra
    {
      Message(id, rcode, answer[..], ns[..], extra[..])
    }

    /** A deep copy of a stored message. */
    constructor (m: Message)
      ensures Valid() && Value() == m
      ensures fresh(answer) && fresh(ns) && fresh(extra)
    {
      id, rcode := m.id, m.rcode;
      answer := new Record[|m.answer|](i requires 0 <= i < |m.answer| => m.answer[i]);
      ns := new Record[|m.ns|](i requires 0 <= i < |m.ns| => m.ns[i]);
      extra := new Record[|m.extra|](i requires 0 <= i < |m.extra| => m.extra[i]);
    }
  }

  // ----- The lifetime of a response -----

  function All(m: Message): seq<Record> {
    m.answer + m.ns + m.extra
  }

  /** The first SOA record, if there is one. */
  function FirstSOA(records: seq<Record>): (r: Option<Record>)
    ensures r.None? <==> forall x :: x in records ==> !x.data.SOA?
    ensures r.Some? ==> r.value in records && r.value.data.SOA?
  {
    if records == [] then None
    else if records[0].data.SOA? then Some(records[0])
    else FirstSOA(records[1..])
  }

  /** Section 5 of RFC 2308: a negative answer lives as long as the smaller of the SOA's TTL and MINIMUM. */
  function NegativeTTL(soa: Record): Ttl
    requires soa.data.SOA?
  {
    if soa.ttl < soa.data.minttl then soa.ttl else soa.data.minttl
  }

  /** `t` is the least positive TTL among the records that have one, or 0 if none is positive. */
  ghost predicate LeastPositive(records: seq<Record>, t: nat) {
    && (forall x :: x in records && !x.data.OPT? && x.ttl > 0 ==> 0 < t <= x.ttl)
    && (t > 0 ==> exists x :: x in records && !x.data.OPT? && x.ttl == t)
  }

  ghost predicate IsLifetime(m: Message, t: nat) {
    var soa := FirstSOA(m.ns);
    if m.answer == [] && soa.Some? then t == NegativeTTL(soa.value)
    else LeastPositive(All(m), t)
  }

  /** A response has only one lifetime. */
  lemma LifetimeIsUnique(m: Message, t: nat, u: nat)
    requires IsLifetime(m, t) && IsLifetime(m, u)
    ensures t == u
  {
  }

  /** extractNegativeTTL. */
  method ExtractNegativeTTL(response: Response) returns (ttl: Ttl, found: bool)
    ensures var soa := FirstSOA(response.ns[..]);
      found == soa.Some? && (found ==> ttl == NegativeTTL(soa.value))
  {
    var ns := response.ns;
    for i := 0 to ns.Length
      invariant FirstSOA(ns[..]) == FirstSOA(ns[i..])
    {
      assert ns[i..][0] == ns[i] && ns[i..][1..] == ns[i + 1..];
      if ns[i].data.SOA? {
        return if ns[i].ttl < ns[i].data.minttl then ns[i].ttl else ns[i].data.minttl, true;
      }
    }
    return 0, false;
  }

  /** One record list of computeTimeToLive: the running minimum over the records seen. */
  method LeastOf(records: array<Record>, ghost seen: seq<Record>, running: Ttl) returns (ttl: Ttl)
    requires LeastPositive(seen, running)
    ensures LeastPositive(seen + records[..], ttl)
  {
    ttl := running;
    assert seen + records[..0] == seen;
    for i := 0 to records.Length
      invariant LeastPositive(seen + records[..i], ttl)
    {
      assert seen + records[..i + 1] == seen + records[..i] + [records[i]];
      if records[i].data.OPT? { continue; }
      if ttl == 0 || (records[i].ttl > 0 && records[i].ttl < ttl) {
        ttl := records[i].ttl;
      }
    }
    assert records[..records.Length] == records[..];
  }

  /** computeTimeToLive. */
  method ComputeTimeToLive(response: Response) returns (ttl: Ttl)
    ensures IsLifetime(response.Value(), ttl)
  {
    if response.answer.Length == 0 {
      var soaTTL, hasSOA := ExtractNegativeTTL(response);
      if hasSOA { return soaTTL; }
    }
    ttl := LeastOf(response.answer, [], 0);
    assert [] + response.answer[..] == response.answer[..];
    ttl := LeastOf(response.ns, response.answer[..], ttl);
    ttl := LeastOf(response.extra, response.answer[..] + response.ns[..], ttl);
  }

  // ----- Rewriting TTLs -----

  function StampRecord(r: Record, ttl: Ttl): Record {
    if r.data.OPT? then r else r.(ttl := ttl)
  }

  function StampAll(records: seq<Record>, ttl: Ttl): (r: seq<Record>)
    ensures |r| == |records| && forall i :: 0 <= i < |r| ==> r[i] == StampRecord(records[i], ttl)
  {
    seq(|records|, i requires 0 <= i < |records| => StampRecord(records[i], ttl))
  }

  /** Every record carries `ttl`, except OPT records, whose TTL field means something else. */
  function Stamp(m: Message, ttl: Ttl): Message {
    m.(answer := StampAll(m.answer, ttl), ns := StampAll(m.ns, ttl), extra := StampAll(m.extra, ttl))
  }

  method StampInPlace(records: array<Record>, ttl: Ttl)
    modifies records
    ensures records[..] == StampAll(old(records[..]), ttl)
  {
    for i := 0 to records.Length
      invariant forall j :: 0 <= j < i ==> records[j] == StampRecord(old(records[j]), ttl)
      invariant forall j :: i <= j < records.Length ==> records[j] == old(records[j])
    {
      if records[i].data.OPT? { continue; }
      records[i] := records[i].(ttl := ttl);
    }
  }

  /** normalizeTTL. */
  method NormalizeTTL(response: Response, ttl: Ttl)
    requires response.Valid()
    modifies response.answer, response.ns, response.extra
    ensures response.Value() == Stamp(old(response.Value()), ttl)
  {
    StampInPlace(response.answer, ttl);
    StampInPlace(response.ns, ttl);
    StampInPlace(response.extra, ttl);
  }

  /** Stamping again forgets the first stamp: only the data of a record survives. */
  lemma StampTwice(m: Message, t: Ttl, u: Ttl)
    ensures Stamp(Stamp(m, t), u) == Stamp(m, u)
  {
    assert StampAll(StampAll(m.answer, t), u) == StampAll(m.answer, u);
    assert StampAll(StampAll(m.ns, t), u) == StampAll(m.ns, u);
    assert StampAll(StampAll(m.extra, t), u) == StampAll(m.extra, u);
  }
}
