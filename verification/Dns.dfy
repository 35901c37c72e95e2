/** The parts of a DNS message that the cache, the upstream race and the response
    rewriters look at.  Names are compared as whole values here; label structure and
    letter case matter only to the rule index, which has its own `Name`. */
module Dns {

  datatype Option<+T> = None | Some(value: T)

  datatype RecordType = A | AAAA | CNAME | SOA | OtherType(number: nat)

  predicate IsIpAddr(t: RecordType) {
    t.A? || t.AAAA?
  }

  datatype RData = SoaData(minimum: nat) | Opaque(octets: seq<int>)

  datatype Record = Record(name: string, rtype: RecordType, ttl: nat, data: RData)

  datatype Query = Query(name: string, qtype: RecordType)

  datatype Code = NoError | NXDomain | OtherCode(number: nat)

  datatype Response = Response(
    query: Query,
    code: Code,
    truncated: bool,
    answers: seq<Record>,
    authorities: seq<Record>,
    additionals: seq<Record>)

  predicate HasType(records: seq<Record>, t: RecordType) {
    exists i :: 0 <= i < |records| && records[i].rtype == t
  }

  /** An SOA anywhere in the message. */
  predicate HasSoa(r: Response) {
    HasType(r.authorities, SOA) || HasType(r.answers, SOA) || HasType(r.additionals, SOA)
  }

  // ---------------------------------------------------------------- lifetimes

  /** The shortest lifetime in a non-empty section. */
  function MinTtl(records: seq<Record>): (ttl: nat)
    requires records != []
    ensures forall i :: 0 <= i < |records| ==> ttl <= records[i].ttl
    ensures exists i :: 0 <= i < |records| && ttl == records[i].ttl
  {
    if |records| == 1 then records[0].ttl
    else
      var rest := MinTtl(records[1..]);
      assert exists i :: 0 <= i < |records| && rest == records[i].ttl by {
        var i :| 0 <= i < |records[1..]| && rest == records[1..][i].ttl;
        assert rest == records[i + 1].ttl;
      }
      if records[0].ttl <= rest then records[0].ttl else rest
  }

  /** Every record of a section gets the same lifetime; nothing else changes. */
  function WithTtl(records: seq<Record>, ttl: nat): (out: seq<Record>)
    ensures |out| == |records|
    ensures forall i :: 0 <= i < |out| ==> out[i] == records[i].(ttl := ttl)
  {
    seq(|records|, i requires 0 <= i < |records| => records[i].(ttl := ttl))
  }

  function SetNewTtl(r: Response, ttl: nat): Response {
    r.(answers := WithTtl(r.answers, ttl), authorities := WithTtl(r.authorities, ttl), additionals := WithTtl(r.additionals, ttl))
  }

  /** The first SOA of a section. */
  function FirstSoa(records: seq<Record>): (soa: Option<Record>)
    ensures soa.Some? <==> HasType(records, SOA)
    ensures soa.Some? ==> soa.value in records && soa.value.rtype == SOA
    ensures soa.Some? ==> exists i :: 0 <= i < |records| && soa.value == records[i] && NoneOfType(records[..i], SOA)
  {
    if records == [] then None
    else if records[0].rtype == SOA then
      assert NoneOfType(records[..0], SOA);
      Some(records[0])
    else
      assert HasType(records, SOA) ==> HasType(records[1..], SOA) by {
        if HasType(records, SOA) {
          var i :| 0 <= i < |records| && records[i].rtype == SOA;
          assert records[1..][i - 1].rtype == SOA;
        }
      }
      var rest := FirstSoa(records[1..]);
      assert rest.Some? ==> exists i :: 0 <= i < |records| && rest.value == records[i] && NoneOfType(records[..i], SOA) by {
        if rest.Some? {
          var i :| 0 <= i < |records[1..]| && rest.value == records[1..][i] && NoneOfType(records[1..][..i], SOA);
          assert records[..i + 1] == [records[0]] + records[1..][..i];
          assert rest.value == records[i + 1];
        }
      }
      rest
  }

  predicate NoneOfType(records: seq<Record>, t: RecordType) {
    forall x :: x in records ==> x.rtype != t
  }
}
