/** Rewriting of replies on their way to the client and into the cache: the two independent
    CNAME removers (src/dns_mw_cache.rs, src/dns_mw_force_no_cname.rs) and the in-place edits
    of the dual-stack selection (src/dns_mw_dualstack.rs). */
module Rewriting {
  import opened Dns

  // ---------------------------------------------------------------- what the edits mean

  function OfType(t: RecordType): Record -> bool {
    (r: Record) => r.rtype == t
  }

  function NotOfType(t: RecordType): Record -> bool {
    (r: Record) => r.rtype != t
  }

  function Retained(records: seq<Record>, keep: Record -> bool): seq<Record> {
    if records == [] then []
    else Retained(records[..|records| - 1], keep) + (if keep(records[|records| - 1]) then [records[|records| - 1]] else [])
  }

  lemma {:induction false} RetainedMembers(records: seq<Record>, keep: Record -> bool)
    ensures forall r :: r in Retained(records, keep) <==> r in records && keep(r)
  {
    if records != [] {
      RetainedMembers(records[..|records| - 1], keep);
      assert records == records[..|records| - 1] + [records[|records| - 1]];
    }
  }

  /** Every record under one name with one lifetime. */
  function Directed(records: seq<Record>, name: string, ttl: nat): (out: seq<Record>)
    ensures |out| == |records|
    ensures forall i :: 0 <= i < |out| ==> out[i] == records[i].(name := name, ttl := ttl)
  {
    seq(|records|, i requires 0 <= i < |records| => records[i].(name := name, ttl := ttl))
  }

  /** The answer without its alias chain. */
  function Direct(r: Response, q: Query): Response
    requires HasType(r.answers, q.qtype)
  {
    r.(answers := Directed(Retained(r.answers, OfType(q.qtype)), q.name, MinTtl(r.answers)))
  }

  /** `flatten_cname` of the cache middleware. */
  function Flatten(r: Response, q: Query): Response {
    if IsIpAddr(q.qtype) && HasType(r.answers, q.qtype) then Direct(r, q) else r
  }

  /** `strip_cname` of the force-no-CNAME middleware. */
  function Strip(r: Response, q: Query): Response {
    if !HasType(r.answers, CNAME) then r
    else if IsIpAddr(q.qtype) then if HasType(r.answers, q.qtype) then Direct(r, q) else r
    else
      var kept := Retained(r.answers, NotOfType(CNAME));
      if kept == [] then r else r.(answers := kept)
  }

  // ---------------------------------------------------------------- the reply as an object

  class Reply {
    var query: Query
    var code: Code
    var truncated: bool
    var answers: seq<Record>
    var authorities: seq<Record>
    var additionals: seq<Record>

    function View(): Response
      reads this
    {
      Response(query, code, truncated, answers, authorities, additionals)
    }

    constructor (r: Response)
      ensures View() == r
    {
      query, code, truncated := r.query, r.code, r.truncated;
      answers, authorities, additionals := r.answers, r.authorities, r.additionals;
    }

    method RetainAnswers(keep: Record -> bool)
      modifies this`answers
      ensures View() == old(View()).(answers := Retained(old(answers), keep))
    {
      var kept: seq<Record> := [];
      for i := 0 to |answers|
        invariant kept == Retained(answers[..i], keep)
      {
        assert answers[..i + 1][..i] == answers[..i];
        if keep(answers[i]) {
          kept := kept + [answers[i]];
        }
      }
      assert answers[..|answers|] == answers;
      answers := kept;
    }

    /** Rename the records that need it and give all of them one lifetime. */
    method DirectAnswers(name: string, ttl: nat)
      modifies this`answers
      ensures View() == old(View()).(answers := Directed(old(answers), name, ttl))
    {
      for i := 0 to |answers|
        invariant |answers| == |old(answers)|
        invariant forall j :: 0 <= j < i ==> answers[j] == old(answers)[j].(name := name, ttl := ttl)
        invariant forall j :: i <= j < |answers| ==> answers[j] == old(answers)[j]
      {
        if answers[i].name != name {
          answers := answers[i := answers[i].(name := name)];
        }
        answers := answers[i := answers[i].(ttl := ttl)];
      }
    }

    method FlattenCname(q: Query)
      modifies this`answers
      ensures View() == Flatten(old(View()), q)
    {
      if !IsIpAddr(q.qtype) || !HasType(answers, q.qtype) {
        return;
      }
      var shortest := MinTtl(answers);
      RetainAnswers(OfType(q.qtype));
      DirectAnswers(q.name, shortest);
    }

    method StripCname(q: Query)
      modifies this`answers
      ensures View() == Strip(old(View()), q)
    {
      if !HasType(answers, CNAME) {
        return;
      }
      if IsIpAddr(q.qtype) {
        if !HasType(answers, q.qtype) {
          return;
        }
        var shortest := MinTtl(answers);
        RetainAnswers(OfType(q.qtype));
        DirectAnswers(q.name, shortest);
        return;
      }
      var remaining := 0;
      for i := 0 to |answers|
        invariant remaining == |Retained(answers[..i], NotOfType(CNAME))|
      {
        assert answers[..i + 1][..i] == answers[..i];
        if answers[i].rtype != CNAME {
          remaining := remaining + 1;
        }
      }
      assert answers[..|answers|] == answers;
      if remaining == 0 {
        return;
      }
      RetainAnswers(NotOfType(CNAME));
    }

    method SetTtl(ttl: nat)
      modifies this`answers, this`authorities, this`additionals
      ensures View() == SetNewTtl(old(View()), ttl)
    {
      answers := Retimed(answers, ttl);
      authorities := Retimed(authorities, ttl);
      additionals := Retimed(additionals, ttl);
    }

    static method Retimed(records: seq<Record>, ttl: nat) returns (out: seq<Record>)
      ensures out == WithTtl(records, ttl)
    {
      out := records;
      for i := 0 to |out|
        invariant |out| == |records|
        invariant forall j :: 0 <= j < i ==> out[j] == records[j].(ttl := ttl)
        invariant forall j :: i <= j < |out| ==> out[j] == records[j]
      {
        out := out[i := out[i].(ttl := ttl)];
      }
    }
  }

  // ---------------------------------------------------------------- both removers

  lemma HasTypeMember(records: seq<Record>, t: RecordType)
    ensures HasType(records, t) <==> exists r :: r in records && r.rtype == t
  {
    if r :| r in records && r.rtype == t {
      var i :| 0 <= i < |records| && records[i] == r;
      assert records[i].rtype == t;
    }
    if i :| 0 <= i < |records| && records[i].rtype == t {
      assert records[i] in records;
    }
  }

  lemma {:induction false} RetainAll(records: seq<Record>, keep: Record -> bool)
    requires forall i :: 0 <= i < |records| ==> keep(records[i])
    ensures Retained(records, keep) == records
  {
    if records != [] {
      RetainAll(records[..|records| - 1], keep);
      assert records == records[..|records| - 1] + [records[|records| - 1]];
    }
  }

  lemma AllEqualMin(records: seq<Record>, ttl: nat)
    requires records != [] && forall i :: 0 <= i < |records| ==> records[i].ttl == ttl
    ensures MinTtl(records) == ttl
  {
  }

  /** What a rewritten answer section looks like. */
  lemma DirectShape(r: Response, q: Query)
    requires HasType(r.answers, q.qtype)
    ensures var d := Direct(r, q);
            && d.answers != []
            && (forall i :: 0 <= i < |d.answers| ==>
                  d.answers[i].rtype == q.qtype && d.answers[i].name == q.name && d.answers[i].ttl == MinTtl(r.answers))
  {
    HasTypeMember(r.answers, q.qtype);
    RetainedMembers(r.answers, OfType(q.qtype));
    var kept := Retained(r.answers, OfType(q.qtype));
    forall i | 0 <= i < |kept| ensures kept[i].rtype == q.qtype {
      assert kept[i] in kept;
    }
  }

  /** A section that is already in the rewritten form. */
  ghost predicate AlreadyDirect(records: seq<Record>, q: Query) {
    && (forall i :: 0 <= i < |records| ==> records[i].rtype == q.qtype && records[i].name == q.name)
    && (forall i, j :: 0 <= i < j < |records| ==> records[i].ttl == records[j].ttl)
  }

  lemma DirectFixes(r: Response, q: Query)
    requires HasType(r.answers, q.qtype) && AlreadyDirect(r.answers, q)
    ensures Direct(r, q) == r
  {
    RetainAll(r.answers, OfType(q.qtype));
    AllEqualMin(r.answers, r.answers[0].ttl);
    forall i | 0 <= i < |r.answers| ensures Direct(r, q).answers[i] == r.answers[i] {
      assert r.answers[i].ttl == r.answers[0].ttl;
    }
    assert Direct(r, q).answers == r.answers;
  }

  /** Rewriting changes nothing exactly when the section is in the rewritten form already. */
  lemma DirectFixesExactly(r: Response, q: Query)
    requires HasType(r.answers, q.qtype)
    ensures Direct(r, q) == r <==> AlreadyDirect(r.answers, q)
  {
    DirectShape(r, q);
    if AlreadyDirect(r.answers, q) {
      DirectFixes(r, q);
    }
  }

  lemma DirectIdempotent(r: Response, q: Query)
    requires HasType(r.answers, q.qtype)
    ensures HasType(Direct(r, q).answers, q.qtype) && Direct(Direct(r, q), q) == Direct(r, q)
  {
    DirectShape(r, q);
    assert Direct(r, q).answers[0].rtype == q.qtype;
    DirectFixesExactly(Direct(r, q), q);
  }

  /** On a reply that holds a CNAME the two removers agree; in general they agree on an
      address query exactly when there is a CNAME, no address at all, or nothing to rewrite. */
  lemma RemoversAgreeExactly(r: Response, q: Query)
    requires IsIpAddr(q.qtype)
    ensures Strip(r, q) == Flatten(r, q) <==>
            HasType(r.answers, CNAME) || !HasType(r.answers, q.qtype) || AlreadyDirect(r.answers, q)
  {
    if HasType(r.answers, q.qtype) {
      DirectFixesExactly(r, q);
    }
  }

  /** Both removers are idempotent, and after flattening there is nothing left to strip. */
  lemma RemoversIdempotent(r: Response, q: Query)
    ensures Flatten(Flatten(r, q), q) == Flatten(r, q)
    ensures Strip(Strip(r, q), q) == Strip(r, q)
    ensures IsIpAddr(q.qtype) ==> Strip(Flatten(r, q), q) == Flatten(r, q) && Flatten(Strip(r, q), q) == Flatten(r, q)
  {
    if HasType(r.answers, q.qtype) && IsIpAddr(q.qtype) {
      DirectIdempotent(r, q);
      DirectShape(r, q);
    } else {
      StrippedKeepsNone(r);
    }
  }

  lemma StrippedKeepsNone(r: Response)
    ensures !HasType(Retained(r.answers, NotOfType(CNAME)), CNAME)
  {
    RetainedMembers(r.answers, NotOfType(CNAME));
    HasTypeMember(Retained(r.answers, NotOfType(CNAME)), CNAME);
  }

  /** The addresses of a section, in order. */
  function Payloads(records: seq<Record>, t: RecordType): seq<RData> {
    if records == [] then []
    else Payloads(records[..|records| - 1], t) + (if records[|records| - 1].rtype == t then [records[|records| - 1].data] else [])
  }

  lemma PayloadsSnoc(records: seq<Record>, last: Record, t: RecordType)
    ensures Payloads(records + [last], t) == Payloads(records, t) + (if last.rtype == t then [last.data] else [])
  {
    assert (records + [last])[..|records|] == records;
  }

  lemma {:induction false} RetainedPayloads(records: seq<Record>, t: RecordType, keep: Record -> bool)
    requires forall r: Record :: r.rtype == t ==> keep(r)
    ensures Payloads(Retained(records, keep), t) == Payloads(records, t)
  {
    if records != [] {
      var init, last := records[..|records| - 1], records[|records| - 1];
      RetainedPayloads(init, t, keep);
      if keep(last) {
        var kept := Retained(init, keep);
        PayloadsSnoc(kept, last, t);
      } else {
        assert Retained(records, keep) == Retained(init, keep);
        assert Payloads(records, t) == Payloads(init, t);
      }
    }
  }

  lemma {:induction false} DirectedPayloads(records: seq<Record>, name: string, ttl: nat, t: RecordType)
    ensures Payloads(Directed(records, name, ttl), t) == Payloads(records, t)
  {
    if records != [] {
      var init := records[..|records| - 1];
      DirectedPayloads(init, name, ttl, t);
      assert Directed(records, name, ttl)[..|records| - 1] == Directed(init, name, ttl);
    }
  }

  /** Neither remover loses, adds or reorders an answer of the type that was asked for. */
  lemma PayloadsKept(r: Response, q: Query)
    requires q.qtype != CNAME
    ensures Payloads(Flatten(r, q).answers, q.qtype) == Payloads(r.answers, q.qtype)
    ensures Payloads(Strip(r, q).answers, q.qtype) == Payloads(r.answers, q.qtype)
  {
    RetainedPayloads(r.answers, q.qtype, OfType(q.qtype));
    RetainedPayloads(r.answers, q.qtype, NotOfType(CNAME));
    if HasType(r.answers, q.qtype) {
      DirectedPayloads(Retained(r.answers, OfType(q.qtype)), q.name, MinTtl(r.answers), q.qtype);
    }
  }

  /** Both touch the answer section alone, and on other than address queries stripping leaves
      the records of every type but CNAME as they were, in order. */
  lemma OnlyAnswersChange(r: Response, q: Query, t: RecordType)
    ensures Flatten(r, q) == r.(answers := Flatten(r, q).answers)
    ensures Strip(r, q) == r.(answers := Strip(r, q).answers)
    ensures !IsIpAddr(q.qtype) ==> Flatten(r, q) == r
    ensures !IsIpAddr(q.qtype) && t != CNAME ==> Payloads(Strip(r, q).answers, t) == Payloads(r.answers, t)
  {
    if t != CNAME {
      RetainedPayloads(r.answers, t, NotOfType(CNAME));
    }
  }

  /** For an address query no answer outlives any record of the original answer section; for
      every query each surviving answer lives no longer than the record it came from. */
  lemma NoAnswerTtlRises(r: Response, q: Query, out: Record, was: Record)
    requires out in Flatten(r, q).answers || out in Strip(r, q).answers
    requires was in r.answers
    ensures exists source :: source in r.answers && source.rtype == out.rtype && source.data == out.data && out.ttl <= source.ttl
    ensures IsIpAddr(q.qtype) && HasType(r.answers, q.qtype) && out in Flatten(r, q).answers ==> out.ttl <= was.ttl
  {
    RetainedMembers(r.answers, NotOfType(CNAME));
    RetainedMembers(r.answers, OfType(q.qtype));
    if out in r.answers {
      assert out.ttl <= out.ttl;
    } else {
      assert out in Direct(r, q).answers;
      var kept := Retained(r.answers, OfType(q.qtype));
      var i :| 0 <= i < |kept| && Direct(r, q).answers[i] == out;
      assert kept[i] in kept;
      var k :| 0 <= k < |r.answers| && r.answers[k] == kept[i];
    }
    var j :| 0 <= j < |r.answers| && r.answers[j] == was;
    if HasType(r.answers, q.qtype) {
      DirectShape(r, q);
    }
  }

  /** Stripping never empties an answer section, and leaves a CNAME exactly when removing
      every CNAME would have left nothing that answers the question. */
  lemma StripLeavesCnameExactly(r: Response, q: Query)
    ensures r.answers != [] ==> Strip(r, q).answers != []
    ensures HasType(Strip(r, q).answers, CNAME) <==>
            HasType(r.answers, CNAME)
            && (if IsIpAddr(q.qtype) then !HasType(r.answers, q.qtype)
                else forall i :: 0 <= i < |r.answers| ==> r.answers[i].rtype == CNAME)
  {
    StrippedKeepsNone(r);
    RetainedMembers(r.answers, NotOfType(CNAME));
    if HasType(r.answers, q.qtype) {
      DirectShape(r, q);
    }
    var kept := Retained(r.answers, NotOfType(CNAME));
    if kept == [] {
      forall i | 0 <= i < |r.answers| ensures r.answers[i].rtype == CNAME {
        assert r.answers[i] !in kept;
      }
    } else {
      assert kept[0] in kept;
      var i :| 0 <= i < |r.answers| && r.answers[i] == kept[0];
    }
  }
}
