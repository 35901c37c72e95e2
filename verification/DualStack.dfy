/** The dual-stack selection (src/dns_mw_dualstack.rs) and the way of a lifetime from the two
    upstream replies through alignment, flattening and the cache to the client. */
module DualStack {
  import opened Dns
  import opened Cache
  import opened Rewriting

  datatype Outcome = Ok(reply: Response) | Err(error: nat)

  // ---------------------------------------------------------------- the aligned lifetime

  function SectionMin(records: seq<Record>): Option<nat> {
    if records == [] then None else Some(MinTtl(records))
  }

  function Lesser(a: Option<nat>, b: Option<nat>): Option<nat> {
    if a.None? then b else if b.None? then a else Some(Min(a.value, b.value))
  }

  /** The shortest lifetime in a whole message. */
  function MessageMin(r: Response): Option<nat> {
    Lesser(SectionMin(r.answers), Lesser(SectionMin(r.authorities), SectionMin(r.additionals)))
  }

  function AlignedTtl(aaaa: Response, a: Response, fallback: nat): nat {
    var shortest := Lesser(MessageMin(aaaa), MessageMin(a));
    if shortest.Some? then shortest.value else fallback
  }

  function AllRecords(r: Response): seq<Record> {
    r.answers + (r.authorities + r.additionals)
  }

  predicate HasRecords(r: Response) {
    r.answers != [] || r.authorities != [] || r.additionals != []
  }

  /** `m` is the least lifetime among the records, present when there are any. */
  ghost predicate IsShortest(m: Option<nat>, records: seq<Record>) {
    && (m.None? <==> records == [])
    && (forall x :: x in records ==> m.Some? && m.value <= x.ttl)
    && (m.Some? ==> exists x :: x in records && x.ttl == m.value)
  }

  lemma SectionMinIsShortest(records: seq<Record>)
    ensures IsShortest(SectionMin(records), records)
  {
    forall x | x in records ensures SectionMin(records).Some? && SectionMin(records).value <= x.ttl {
      var i :| 0 <= i < |records| && records[i] == x;
    }
    if records != [] {
      var j :| 0 <= j < |records| && MinTtl(records) == records[j].ttl;
      assert records[j] in records;
    }
  }

  lemma LesserIsShortest(a: Option<nat>, x: seq<Record>, b: Option<nat>, y: seq<Record>)
    requires IsShortest(a, x) && IsShortest(b, y)
    ensures IsShortest(Lesser(a, b), x + y)
  {
    if a.Some? && a == Lesser(a, b) {
      var r :| r in x && r.ttl == a.value;
      assert r in x + y;
    }
    if b.Some? && b == Lesser(a, b) {
      var r :| r in y && r.ttl == b.value;
      assert r in x + y;
    }
  }

  lemma MessageMinIsShortest(r: Response)
    ensures IsShortest(MessageMin(r), AllRecords(r))
  {
    SectionMinIsShortest(r.answers);
    SectionMinIsShortest(r.authorities);
    SectionMinIsShortest(r.additionals);
    LesserIsShortest(SectionMin(r.authorities), r.authorities, SectionMin(r.additionals), r.additionals);
    LesserIsShortest(SectionMin(r.answers), r.answers, Lesser(SectionMin(r.authorities), SectionMin(r.additionals)),
                     r.authorities + r.additionals);
  }

  /** The aligned lifetime is the shortest lifetime of any record of either family. */
  lemma AlignedIsShortest(aaaa: Response, a: Response, fallback: nat)
    ensures !HasRecords(aaaa) && !HasRecords(a) ==> AlignedTtl(aaaa, a, fallback) == fallback
    ensures HasRecords(aaaa) || HasRecords(a) ==>
              IsShortest(Some(AlignedTtl(aaaa, a, fallback)), AllRecords(aaaa) + AllRecords(a))
  {
    MessageMinIsShortest(aaaa);
    MessageMinIsShortest(a);
    LesserIsShortest(MessageMin(aaaa), AllRecords(aaaa), MessageMin(a), AllRecords(a));
  }

  // ---------------------------------------------------------------- washing a reply

  function ForgedSoa(name: string, ttl: nat): Record {
    Record(name, SOA, ttl, SoaData(ttl))
  }

  /** A losing family gives up its answers; a reply with nothing to cache it by gets an SOA. */
  function Washed(r: Response, blocked: bool, ttl: nat): Response {
    var timed := SetNewTtl(if blocked then r.(answers := []) else r, ttl);
    if !HasSoa(timed) && (blocked || !HasRecords(timed))
    then timed.(answers := [], authorities := timed.authorities + [ForgedSoa(r.query.name, ttl)])
    else timed
  }

  method ProcessResponse(resp: Reply, blocked: bool, ttl: nat)
    modifies resp
    ensures resp.View() == Washed(old(resp.View()), blocked, ttl)
  {
    if blocked {
      resp.answers := [];
    }
    resp.SetTtl(ttl);
    var hasSoa := HasSoa(resp.View());
    var isEmpty := resp.answers == [] && resp.authorities == [] && resp.additionals == [];
    if !hasSoa && (blocked || isEmpty) {
      resp.answers := [];
      resp.authorities := resp.authorities + [ForgedSoa(resp.query.name, ttl)];
    }
  }

  // ---------------------------------------------------------------- the selection

  function EmptyReply(q: Query): (r: Response)
    ensures r.query == q && !HasRecords(r) && r.code == NoError && !r.truncated
  {
    Response(q, NoError, false, [], [], [])
  }

  function Sibling(q: Query): (s: Query)
    ensures s.name == q.name
    ensures (q.qtype == A ==> s.qtype == AAAA) && (q.qtype == AAAA ==> s.qtype == A)
  {
    q.(qtype := if q.qtype.A? then AAAA else if q.qtype.AAAA? then A else q.qtype)
  }

  predicate HasAddress(r: Response) {
    exists i :: 0 <= i < |r.answers| && IsIpAddr(r.answers[i].rtype)
  }

  lemma HasAddressExactly(r: Response)
    ensures HasAddress(r) <==> exists x :: x in r.answers && (x.rtype == A || x.rtype == AAAA)
  {
    if x :| x in r.answers && (x.rtype == A || x.rtype == AAAA) {
      var i :| 0 <= i < |r.answers| && r.answers[i] == x;
      assert IsIpAddr(r.answers[i].rtype);
    }
  }

  /** `race` is the verdict of the speed test, present and `true` when the AAAA side wins. */
  datatype Selection = Selection(enabled: bool, speedCheckOff: bool, race: Option<bool>, allowAaaaWin: bool, fallbackTtl: nat)

  /** Which family loses its answers: at most one of them, and never the A side unless an
      AAAA victory is allowed to count. */
  function Blocked(s: Selection, family: RecordType): bool {
    s.enabled && !s.speedCheckOff && s.race.Some? &&
    (if family == AAAA then !s.race.value else s.race.value && s.allowAaaaWin)
  }

  /** Does the pair of lookups lead to a reply? */
  predicate Tolerates(mine: Outcome, other: Outcome) {
    mine.Ok? || (other.Ok? && HasAddress(other.reply))
  }

  /** Both lookups run; one failure is tolerated when the other side helps.  `extra` is what
      the cache is handed for the sibling query; `suppressed` marks both replies as having
      lost their AAAA side on purpose. */
  method Handle(q: Query, this_: Outcome, that: Outcome, s: Selection)
    returns (r: Outcome, extra: Option<(Query, Response)>, suppressed: bool)
    requires IsIpAddr(q.qtype)
    ensures r.Ok? <==> this_.Ok? || (that.Ok? && exists x :: x in that.reply.answers && (x.rtype == A || x.rtype == AAAA))
    ensures r.Err? ==> r == this_ && extra.None?
    ensures r.Ok? ==>
              var mine := if this_.Ok? then this_.reply else EmptyReply(q);
              var other := if that.Ok? then that.reply else EmptyReply(Sibling(q));
              var ttl := if q.qtype == AAAA then AlignedTtl(mine, other, s.fallbackTtl) else AlignedTtl(other, mine, s.fallbackTtl);
              && r.reply == Washed(mine, Blocked(s, q.qtype), ttl)
              && extra == Some((other.query, Washed(other, Blocked(s, Sibling(q).qtype), ttl)))
    ensures suppressed <==> r.Ok? && Blocked(s, AAAA)
    ensures !(Blocked(s, q.qtype) && Blocked(s, Sibling(q).qtype))
  {
    if that.Ok? {
      HasAddressExactly(that.reply);
    }
    if this_.Err? && !(that.Ok? && HasAddress(that.reply)) {
      return this_, None, false;
    }
    var mine := if this_.Ok? then this_.reply else EmptyReply(q);
    var other := if that.Ok? then that.reply else EmptyReply(Sibling(q));
    var kept, sibling, lost := Select(q, mine, other, s);
    r, extra, suppressed := Ok(kept), Some((sibling.query, sibling)), lost;
  }

  /** Does the reply or its sibling still hold an address after the selection? */
  predicate PassesOnAddress(q: Query, mine: Outcome, other: Outcome, s: Selection, ttl: nat) {
    || HasAddress(Washed(if mine.Ok? then mine.reply else EmptyReply(q), Blocked(s, q.qtype), ttl))
    || HasAddress(Washed(if other.Ok? then other.reply else EmptyReply(Sibling(q)), Blocked(s, Sibling(q).qtype), ttl))
  }

  /** "One failed side is tolerated when the survivor got a real address": after the selection
      an address is left exactly when the survivor's side did not lose and the survivor is the
      sibling, or has an address itself, which nothing checks of the own reply. */
  lemma SurvivorHasAddressExactly(q: Query, mine: Outcome, other: Outcome, s: Selection, ttl: nat)
    requires Tolerates(mine, other) && mine.Ok? != other.Ok?
    ensures PassesOnAddress(q, mine, other, s, ttl)
            <==> if mine.Ok? then HasAddress(mine.reply) && !Blocked(s, q.qtype) else !Blocked(s, Sibling(q).qtype)
  {
    WashedAddressExactly(if mine.Ok? then mine.reply else EmptyReply(q), Blocked(s, q.qtype), ttl);
    WashedAddressExactly(if other.Ok? then other.reply else EmptyReply(Sibling(q)), Blocked(s, Sibling(q).qtype), ttl);
  }

  lemma WashedAddressExactly(r: Response, blocked: bool, ttl: nat)
    ensures HasAddress(Washed(r, blocked, ttl)) <==> !blocked && HasAddress(r)
  {
    if !blocked && HasAddress(r) {
      var i :| 0 <= i < |r.answers| && IsIpAddr(r.answers[i].rtype);
      assert IsIpAddr(Washed(r, blocked, ttl).answers[i].rtype);
    }
  }

  /** An own reply without any record is passed on, with no address left, when the sibling
      lookup fails; the same reply of the sibling is not. */
  lemma EmptySurvivorTolerated(q: Query, error: nat, s: Selection, ttl: nat)
    ensures Tolerates(Ok(EmptyReply(q)), Err(error)) && !PassesOnAddress(q, Ok(EmptyReply(q)), Err(error), s, ttl)
    ensures !Tolerates(Err(error), Ok(EmptyReply(q)))
  {
    SurvivorHasAddressExactly(q, Ok(EmptyReply(q)), Err(error), s, ttl);
  }

  /** The duel of the families. */
  method Select(q: Query, mine: Response, other: Response, s: Selection) returns (kept: Response, sibling: Response, suppressed: bool)
    requires IsIpAddr(q.qtype)
    ensures var ttl := if q.qtype == AAAA then AlignedTtl(mine, other, s.fallbackTtl) else AlignedTtl(other, mine, s.fallbackTtl);
            kept == Washed(mine, Blocked(s, q.qtype), ttl) && sibling == Washed(other, Blocked(s, Sibling(q).qtype), ttl)
    ensures suppressed <==> Blocked(s, AAAA)
  {
    var aaaa, a := other, mine;
    if q.qtype == AAAA {
      aaaa, a := mine, other;
    }
    var aaaaBlocked, aBlocked := false, false;
    var ttl := AlignedTtl(aaaa, a, s.fallbackTtl);
    if s.enabled && !s.speedCheckOff {
      if s.race == Some(false) {
        aaaaBlocked := true;
      } else if s.race == Some(true) {
        if s.allowAaaaWin {
          aBlocked := true;
        }
      }
    }
    if q.qtype == AAAA {
      kept := Wash(mine, aaaaBlocked, ttl);
      sibling := Wash(other, aBlocked, ttl);
    } else {
      kept := Wash(mine, aBlocked, ttl);
      sibling := Wash(other, aaaaBlocked, ttl);
    }
    suppressed := aaaaBlocked;
  }

  /** The family that loses the speed test gives up its answers and says so with an SOA; AAAA
      loses whenever A wins, A only when a victory of AAAA is allowed to count.  Without a
      loser both families keep all answers, in order. */
  lemma LoserGivesUpAnswers(s: Selection, family: RecordType, r: Response, ttl: nat)
    requires IsIpAddr(family)
    ensures var lost := s.enabled && !s.speedCheckOff && s.race == Some(family == A) && (family == A ==> s.allowAaaaWin);
            var w := Washed(r, Blocked(s, family), ttl);
            && w.answers == (if lost then [] else WithTtl(r.answers, ttl))
            && (lost ==> HasType(w.authorities, SOA) || HasType(r.additionals, SOA))
            && w.query == r.query && w.code == r.code && w.truncated == r.truncated
            && w.additionals == WithTtl(r.additionals, ttl)
            && WithTtl(r.authorities, ttl) <= w.authorities && |w.authorities| <= |r.authorities| + 1
  {
    var lost := s.enabled && !s.speedCheckOff && s.race == Some(family == A) && (family == A ==> s.allowAaaaWin);
    assert Blocked(s, family) == lost;
    WashedSoa(r, lost, ttl);
  }

  lemma WashedSoa(r: Response, blocked: bool, ttl: nat)
    ensures blocked ==> HasType(Washed(r, blocked, ttl).authorities, SOA) || HasType(r.additionals, SOA)
  {
    var timed := SetNewTtl(if blocked then r.(answers := []) else r, ttl);
    if blocked && !HasSoa(timed) {
      var w := Washed(r, blocked, ttl);
      assert w.authorities[|timed.authorities|].rtype == SOA;
    } else if blocked && HasType(timed.additionals, SOA) {
      var i :| 0 <= i < |timed.additionals| && timed.additionals[i].rtype == SOA;
      assert r.additionals[i].rtype == SOA;
    }
  }

  /** What a loser and an empty reply are cached for, when they bring no SOA of their own: the
      aligned lifetime, at most a day. */
  lemma ForgedLifetime(r: Response, blocked: bool, ttl: nat)
    requires !HasType(r.authorities, SOA) && !HasType(r.additionals, SOA)
    requires blocked || !HasRecords(r)
    ensures Washed(r, blocked, ttl).answers == []
    ensures StoredTtl(Washed(r, blocked, ttl)) == Min(ttl, MAX_TTL)
  {
    WashedForges(r, blocked, ttl);
    WithTtlTypes(r.authorities, ttl);
    hide FirstSoa, Washed, HasType, WithTtl, HasRecords;
    OnlySoaBehind(WithTtl(r.authorities, ttl), ForgedSoa(r.query.name, ttl));
  }

  lemma WashedForges(r: Response, blocked: bool, ttl: nat)
    requires !HasType(r.authorities, SOA) && !HasType(r.additionals, SOA)
    requires blocked || !HasRecords(r)
    ensures Washed(r, blocked, ttl).answers == []
    ensures Washed(r, blocked, ttl).authorities == WithTtl(r.authorities, ttl) + [ForgedSoa(r.query.name, ttl)]
  {
    WithTtlTypes(r.authorities, ttl);
    WithTtlTypes(r.additionals, ttl);
  }

  lemma WithTtlTypes(records: seq<Record>, ttl: nat)
    requires !HasType(records, SOA)
    ensures !HasType(WithTtl(records, ttl), SOA)
  {
    forall i | 0 <= i < |records| ensures WithTtl(records, ttl)[i].rtype != SOA {
      assert records[i].rtype != SOA;
    }
  }

  lemma OnlySoaBehind(records: seq<Record>, soa: Record)
    requires !HasType(records, SOA) && soa.rtype == SOA
    ensures FirstSoa(records + [soa]) == Some(soa)
  {
    var all := records + [soa];
    assert all[|records|].rtype == SOA;
    hide FirstSoa;
    var first := FirstSoa(all);
    assert first.Some? && first.value.rtype == SOA;
    var i :| 0 <= i < |all| && first.value == all[i] && NoneOfType(all[..i], SOA);
  }

  method Wash(r: Response, blocked: bool, ttl: nat) returns (out: Response)
    ensures out == Washed(r, blocked, ttl)
  {
    var reply := new Reply(r);
    ProcessResponse(reply, blocked, ttl);
    out := reply.View();
  }

  // ---------------------------------------------------------------- the way through the cache

  /** Every record of a message has this lifetime. */
  ghost predicate Uniform(r: Response, ttl: nat) {
    && (forall i :: 0 <= i < |r.answers| ==> r.answers[i].ttl == ttl)
    && (forall i :: 0 <= i < |r.authorities| ==> r.authorities[i].ttl == ttl)
    && (forall i :: 0 <= i < |r.additionals| ==> r.additionals[i].ttl == ttl)
  }

  lemma WashedUniform(r: Response, blocked: bool, ttl: nat)
    ensures Uniform(Washed(r, blocked, ttl), ttl)
  {
  }

  lemma FlattenUniform(r: Response, q: Query, ttl: nat)
    requires Uniform(r, ttl)
    ensures Uniform(Flatten(r, q), ttl)
    ensures Flatten(r, q).authorities == r.authorities
    ensures Flatten(r, q).answers == [] <==> r.answers == []
  {
    if HasType(r.answers, q.qtype) {
      DirectShape(r, q);
      AllEqualMin(r.answers, ttl);
    }
  }

  /** A uniform reply is kept no longer than its own lifetime exactly when it has answers or
      an SOA to go by, or lives for five seconds anyway. */
  lemma StoredWithinExactly(r: Response, ttl: nat)
    requires Uniform(r, ttl)
    ensures StoredTtl(r) <= ttl <==> r.answers != [] || HasType(r.authorities, SOA) || ttl >= 5
  {
    if r.answers != [] {
      AllEqualMin(r.answers, ttl);
    } else if FirstSoa(r.authorities).Some? {
      var i :| 0 <= i < |r.authorities| && r.authorities[i] == FirstSoa(r.authorities).value;
    }
  }

  /** The client's whole seconds never exceed the lifetime that was stored. */
  lemma SecondsLeftBound(e: Entry, now: int, ttl: nat, later: int)
    requires e.validUntil == now + ttl * SECOND && ttl <= MAX_TTL
    requires now <= later && IsCurrent(e, later)
    ensures SecondsLeft(e, later) <= ttl
  {
    var d := e.validUntil - later;
    assert d <= ttl * SECOND;
    assert d / SECOND <= ttl;
    if d / SECOND == ttl {
      assert d == ttl * SECOND;
    }
  }

  /** What the middleware hands the cache for a reply of the pair. */
  function Prepared(mine: Response, blocked: bool, ttl: nat, q: Query): Response {
    Flatten(Washed(mine, blocked, ttl), q)
  }

  /** What a client gets on a valid hit. */
  function Served(e: Entry, later: int): Response
    requires IsCurrent(e, later)
  {
    SetNewTtl(e.data, SecondsLeft(e, later))
  }

  /** An entry as a write leaves it, over an older entry or anew, and not extended since. */
  ghost predicate WrittenEntry(e: Entry, r: Response, now: int) {
    e.data == Stored(r) && e.validUntil == Deadline(r, now)
  }

  /** The replies whose cached form is bounded by the pair: those with answers that are kept,
      those with an authority SOA, and those that get a forged one. */
  predicate HasLifetime(mine: Response, blocked: bool) {
    || (!blocked && mine.answers != [])
    || HasType(mine.authorities, SOA)
    || (if blocked then !HasSoa(mine.(answers := [])) else !HasRecords(mine))
  }

  lemma WashedHasLifetimeExactly(mine: Response, blocked: bool, ttl: nat)
    ensures HasLifetime(mine, blocked) <==>
            Washed(mine, blocked, ttl).answers != [] || HasType(Washed(mine, blocked, ttl).authorities, SOA)
  {
    var bare := if blocked then mine.(answers := []) else mine;
    var timed := SetNewTtl(bare, ttl);
    RetimedHasType(bare.answers, ttl, SOA);
    RetimedHasType(bare.authorities, ttl, SOA);
    RetimedHasType(bare.additionals, ttl, SOA);
    var w := Washed(mine, blocked, ttl);
    if !HasSoa(timed) && (blocked || !HasRecords(timed)) {
      assert w.authorities[|w.authorities| - 1].rtype == SOA;
    }
  }

  lemma RetimedHasType(records: seq<Record>, ttl: nat, t: RecordType)
    ensures HasType(WithTtl(records, ttl), t) <==> HasType(records, t)
  {
    if HasType(records, t) {
      var i :| 0 <= i < |records| && records[i].rtype == t;
      assert WithTtl(records, ttl)[i].rtype == t;
    }
  }

  /** A prepared reply is stored no longer than its aligned lifetime exactly when it has a
      lifetime to go by, or lives for five seconds anyway. */
  lemma PreparedWithinExactly(mine: Response, blocked: bool, ttl: nat, q: Query)
    ensures StoredTtl(Prepared(mine, blocked, ttl, q)) <= ttl <==> HasLifetime(mine, blocked) || ttl >= 5
  {
    WashedUniform(mine, blocked, ttl);
    FlattenUniform(Washed(mine, blocked, ttl), q, ttl);
    WashedHasLifetimeExactly(mine, blocked, ttl);
    StoredWithinExactly(Prepared(mine, blocked, ttl, q), ttl);
  }

  /** No valid hit on the entry serves a lifetime above that of any record in either reply. */
  ghost predicate NeverExceeds(e: Entry, now: int, aaaa: Response, a: Response) {
    forall later: int, x, y ::
      now <= later && IsCurrent(e, later) && x in AllRecords(aaaa) + AllRecords(a) && y in AllRecords(Served(e, later)) ==>
        y.ttl <= x.ttl
  }

  /** From upstream to client: after alignment, flattening, insertion and any later valid hit
      on an entry that was not extended, nothing is served with a lifetime above that of any
      record in either original reply exactly when the reply has a lifetime to go by, or the
      shortest lifetime of the pair is five seconds or more. */
  lemma ServedTtlNeverExceedsExactly(aaaa: Response, a: Response, fallback: nat, mine: Response, blocked: bool, q: Query,
                                     e: Entry, now: int)
    requires mine == aaaa || mine == a
    requires HasRecords(aaaa) || HasRecords(a)
    requires WrittenEntry(e, Prepared(mine, blocked, AlignedTtl(aaaa, a, fallback), q), now)
    ensures NeverExceeds(e, now, aaaa, a) <==> HasLifetime(mine, blocked) || AlignedTtl(aaaa, a, fallback) >= 5
  {
    var ttl := AlignedTtl(aaaa, a, fallback);
    PreparedWithinExactly(mine, blocked, ttl, q);
    if HasLifetime(mine, blocked) || ttl >= 5 {
      forall later: int, x, y | now <= later && IsCurrent(e, later)
                                && x in AllRecords(aaaa) + AllRecords(a) && y in AllRecords(Served(e, later))
        ensures y.ttl <= x.ttl
      {
        ServedWithin(aaaa, a, fallback, Prepared(mine, blocked, ttl, q), e, now, later, x, y);
      }
    } else {
      FiveSecondsExceed(aaaa, a, fallback, mine, blocked, q, e, now);
    }
  }

  lemma ServedWithin(aaaa: Response, a: Response, fallback: nat, r: Response, e: Entry, now: int, later: int, x: Record, y: Record)
    requires StoredTtl(r) <= AlignedTtl(aaaa, a, fallback) && WrittenEntry(e, r, now)
    requires now <= later && IsCurrent(e, later)
    requires x in AllRecords(aaaa) + AllRecords(a) && y in AllRecords(Served(e, later))
    ensures y.ttl <= x.ttl
  {
    SecondsLeftBound(e, now, StoredTtl(r), later);
    AlignedIsShortest(aaaa, a, fallback);
    UniformMembers(Served(e, later), SecondsLeft(e, later));
  }

  /** Without a lifetime to go by the reply is kept, and served at once, for five seconds. */
  lemma FiveSecondsExceed(aaaa: Response, a: Response, fallback: nat, mine: Response, blocked: bool, q: Query, e: Entry, now: int)
    requires mine == aaaa || mine == a
    requires HasRecords(aaaa) || HasRecords(a)
    requires WrittenEntry(e, Prepared(mine, blocked, AlignedTtl(aaaa, a, fallback), q), now)
    requires !HasLifetime(mine, blocked) && AlignedTtl(aaaa, a, fallback) < 5
    ensures !NeverExceeds(e, now, aaaa, a)
  {
    var ttl := AlignedTtl(aaaa, a, fallback);
    PreparedShape(mine, blocked, ttl, q);
    var y := ServedAtOnce(e, Prepared(mine, blocked, ttl, q), now);
    AlignedIsShortest(aaaa, a, fallback);
    var x :| x in AllRecords(aaaa) + AllRecords(a) && x.ttl == ttl;
    assert y.ttl > x.ttl;
  }

  lemma ServedAtOnce(e: Entry, r: Response, now: int) returns (y: Record)
    requires WrittenEntry(e, r, now) && AllRecords(r) != []
    ensures IsCurrent(e, now) && y in AllRecords(Served(e, now)) && y.ttl == StoredTtl(r)
  {
    assert e.validUntil - now == StoredTtl(r) * SECOND;
    assert SecondsLeft(e, now) == StoredTtl(r);
    UniformMembers(Served(e, now), StoredTtl(r));
    y := AllRecords(Served(e, now))[0];
  }

  lemma PreparedShape(mine: Response, blocked: bool, ttl: nat, q: Query)
    requires !HasLifetime(mine, blocked)
    ensures StoredTtl(Prepared(mine, blocked, ttl, q)) == 5
    ensures AllRecords(Prepared(mine, blocked, ttl, q)) != []
  {
    var w := Washed(mine, blocked, ttl);
    WashedUniform(mine, blocked, ttl);
    WashedHasLifetimeExactly(mine, blocked, ttl);
    FlattenUniform(w, q, ttl);
    if blocked {
      assert HasType(mine.additionals, SOA);
    }
    assert w.authorities + w.additionals != [];
  }

  lemma UniformMembers(r: Response, ttl: nat)
    requires Uniform(r, ttl)
    ensures forall y :: y in AllRecords(r) ==> y.ttl == ttl
  {
  }

  /** A negative reply is moreover served no longer than its SOA's minimum, as section 5 of
      RFC 2308 asks. */
  lemma NegativeBoundedBySoaMinimum(mine: Response, blocked: bool, ttl: nat, q: Query, e: Entry, now: int, later: int)
    requires WrittenEntry(e, Prepared(mine, blocked, ttl, q), now)
    requires now <= later && IsCurrent(e, later)
    requires Prepared(mine, blocked, ttl, q).answers == []
    requires FirstSoa(mine.authorities).Some? && FirstSoa(mine.authorities).value.data.SoaData?
    ensures SecondsLeft(e, later) <= FirstSoa(mine.authorities).value.data.minimum
  {
    var r := Prepared(mine, blocked, ttl, q);
    WashedUniform(mine, blocked, ttl);
    FlattenUniform(Washed(mine, blocked, ttl), q, ttl);
    FirstSoaKept(mine.authorities, ttl, r.authorities);
    SecondsLeftBound(e, now, StoredTtl(r), later);
  }

  /** The first SOA of a retimed section, with anything behind it. */
  lemma {:induction false} FirstSoaKept(records: seq<Record>, ttl: nat, all: seq<Record>)
    requires FirstSoa(records).Some? && |records| <= |all|
    requires forall i :: 0 <= i < |records| ==> all[i] == records[i].(ttl := ttl)
    ensures FirstSoa(all) == Some(FirstSoa(records).value.(ttl := ttl))
  {
    assert all[0] == records[0].(ttl := ttl);
    if records[0].rtype != SOA {
      FirstSoaKept(records[1..], ttl, all[1..]);
    }
  }

  /** A record that lives at least as long as the reply is kept: a day, or as long as the
      shortest answer; without answers as long as the first SOA or its minimum; without an
      SOA five seconds. */
  ghost predicate OutlivesReply(r: Response, x: Record) {
    || x.ttl >= MAX_TTL
    || (if r.answers != [] then exists i :: 0 <= i < |r.answers| && r.answers[i].ttl <= x.ttl
        else
          match FirstSoa(r.authorities)
          case Some(soa) => soa.ttl <= x.ttl || (soa.data.SoaData? && soa.data.minimum <= x.ttl)
          case None => 5 <= x.ttl)
  }

  lemma StoredReadsAnswers(r: Response, x: Record)
    ensures StoredTtl(r) <= x.ttl <==> OutlivesReply(r, x)
  {
    if r.answers != [] && StoredTtl(r) <= x.ttl < MAX_TTL {
      var i :| 0 <= i < |r.answers| && MinTtl(r.answers) == r.answers[i].ttl;
      assert r.answers[i].ttl <= x.ttl;
    }
  }

  /** Stored under the reply's lifetime, this record lives longer than before. */
  ghost predicate Raised(before: seq<Record>, after: seq<Record>) {
    |before| == |after| && exists i :: 0 <= i < |before| && after[i].ttl > before[i].ttl
  }

  /** "Insertion never raises a lifetime" is not true of a reply outside the pair: answers are
      never raised, and the other sections exactly when one of their records lives shorter
      than the shortest answer, or than the SOA allows, or than five seconds. */
  lemma InsertRaisesNothingExactly(r: Response)
    ensures !Raised(r.answers, Stored(r).answers)
    ensures !Raised(r.authorities, Stored(r).authorities) && !Raised(r.additionals, Stored(r).additionals)
            <==> forall x :: x in r.authorities + r.additionals ==> OutlivesReply(r, x)
  {
    RaisedExactly(r, r.authorities);
    RaisedExactly(r, r.additionals);
  }

  lemma RaisedExactly(r: Response, section: seq<Record>)
    ensures !Raised(section, WithTtl(section, StoredTtl(r))) <==> forall x :: x in section ==> OutlivesReply(r, x)
  {
    forall x: Record ensures StoredTtl(r) <= x.ttl <==> OutlivesReply(r, x) {
      StoredReadsAnswers(r, x);
    }
    var after := WithTtl(section, StoredTtl(r));
    if forall x :: x in section ==> OutlivesReply(r, x) {
      forall i | 0 <= i < |section| ensures after[i].ttl <= section[i].ttl {
        assert section[i] in section;
      }
    } else {
      var x :| x in section && !OutlivesReply(r, x);
      var i :| 0 <= i < |section| && section[i] == x;
      assert after[i].ttl > section[i].ttl;
    }
  }

  /** A reply whose authority record lives ten seconds and is cached for five minutes. */
  lemma InsertCanRaise()
    ensures exists r: Response :: r.authorities != [] && Stored(r).authorities[0].ttl > r.authorities[0].ttl
  {
    var q := Query("a.", A);
    var r := Response(q, NoError, false, [Record("a.", A, 300, Opaque([]))], [Record("a.", OtherType(2), 10, Opaque([]))], []);
    assert StoredTtl(r) == 300;
    assert Stored(r).authorities[0].ttl > r.authorities[0].ttl;
  }
}
