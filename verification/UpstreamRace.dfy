/** The race between upstream servers (src/dns_client.rs): one loop that takes replies in
    whatever order they complete, a ranked choice when nobody was conclusive, and a second
    round for fallback servers.

    A round is given by the sequence of outcomes in completion order.  Quantifying over all
    sequences with the same multiset of outcomes is quantifying over all completion orders. */
module UpstreamRace {
  import opened Dns

  datatype Error = NoConnections | Timeout | Upstream(reason: nat)

  datatype Outcome = Answer(resp: Response) | Failed(error: Error)

  /** How far a reply can be trusted; smaller is better. */
  function ResponseRank(r: Response): (rank: nat)
    ensures rank <= 5
  {
    match r.code
    case NoError => if |r.answers| != 0 then 0 else if HasSoa(r) then 1 else 2
    case NXDomain => if HasSoa(r) then 3 else 4
    case OtherCode(_) => 5
  }

  predicate IsConclusive(r: Response) {
    !r.truncated && (ResponseRank(r) == 0 || ResponseRank(r) == 3)
  }

  predicate Conclusive(o: Outcome) {
    o.Answer? && IsConclusive(o.resp)
  }

  predicate NeedsFallback(o: Outcome) {
    !Conclusive(o)
  }

  /** A reply that arrived whole. */
  predicate Whole(o: Outcome) {
    o.Answer? && !o.resp.truncated
  }

  predicate Truncated(o: Outcome) {
    o.Answer? && o.resp.truncated
  }

  /** The rank of an outcome; an error ranks behind every reply. */
  function Rank(o: Outcome): nat {
    if o.Answer? then ResponseRank(o.resp) else 6
  }

  // ---------------------------------------------------------------- what the ranks mean

  /** The six kinds of replies, from the most to the least trusted. */
  datatype Kind = Answers | SignedEmpty | BareEmpty | SignedDenial | BareDenial | OtherReply

  ghost predicate SoaSomewhere(r: Response) {
    exists x :: x in r.answers + r.authorities + r.additionals && x.rtype == SOA
  }

  /** The kinds, by the fields of the reply. */
  ghost predicate IsKind(r: Response, kind: Kind) {
    match kind
    case Answers => r.code.NoError? && r.answers != []
    case SignedEmpty => r.code.NoError? && r.answers == [] && SoaSomewhere(r)
    case BareEmpty => r.code.NoError? && r.answers == [] && !SoaSomewhere(r)
    case SignedDenial => r.code.NXDomain? && SoaSomewhere(r)
    case BareDenial => r.code.NXDomain? && !SoaSomewhere(r)
    case OtherReply => r.code.OtherCode?
  }

  predicate Precedes(a: Kind, b: Kind) {
    match a
    case Answers => !b.Answers?
    case SignedEmpty => !b.Answers? && !b.SignedEmpty?
    case BareEmpty => b.SignedDenial? || b.BareDenial? || b.OtherReply?
    case SignedDenial => b.BareDenial? || b.OtherReply?
    case BareDenial => b.OtherReply?
    case OtherReply => false
  }

  lemma SoaFound(records: seq<Record>)
    ensures HasType(records, SOA) <==> exists x :: x in records && x.rtype == SOA
  {
    if x :| x in records && x.rtype == SOA {
      var i :| 0 <= i < |records| && records[i] == x;
    }
  }

  lemma HasSoaExactly(r: Response)
    ensures HasSoa(r) <==> SoaSomewhere(r)
  {
    SoaFound(r.answers);
    SoaFound(r.authorities);
    SoaFound(r.additionals);
  }

  /** Ranks order replies as their kinds are ordered, and replies of one kind are equal. */
  lemma RanksFollowKinds(a: Response, b: Response, ka: Kind, kb: Kind)
    requires IsKind(a, ka) && IsKind(b, kb)
    ensures ResponseRank(a) < ResponseRank(b) <==> Precedes(ka, kb)
    ensures ResponseRank(a) == ResponseRank(b) <==> ka == kb
  {
    HasSoaExactly(a);
    HasSoaExactly(b);
  }

  /** A reply ends the race at once exactly when it is whole and either brings answers or
      denies the name with an SOA record somewhere. */
  lemma ConclusiveExactly(r: Response)
    ensures IsConclusive(r) <==>
            !r.truncated && ((r.code.NoError? && r.answers != []) || (r.code.NXDomain? && SoaSomewhere(r)))
  {
    HasSoaExactly(r);
  }

  // ---------------------------------------------------------------- choosing a reply

  /** `i` is the first reply of minimal rank among `candidates`. */
  ghost predicate IsBest(candidates: seq<Outcome>, i: int) {
    && 0 <= i < |candidates|
    && candidates[i].Answer?
    && (forall j :: 0 <= j < |candidates| ==> Rank(candidates[i]) <= Rank(candidates[j]))
    && (forall j :: 0 <= j < i ==> Rank(candidates[i]) < Rank(candidates[j]))
  }

  /** `r` is what the final choice between `candidates` and the set-aside reply must be. */
  ghost predicate Chosen(candidates: seq<Outcome>, truncated: Option<Response>, r: Outcome) {
    if exists i :: 0 <= i < |candidates| && candidates[i].Answer?
    then exists i :: IsBest(candidates, i) && r == candidates[i]
    else if truncated.Some? then r == Answer(truncated.value)
    else |candidates| > 0 && r == candidates[0]
  }

  method PickBest(held: seq<Outcome>, last: Outcome, truncated: Option<Response>) returns (r: Outcome)
    ensures Chosen(held + [last], truncated, r)
  {
    var candidates := held + [last];
    var best := -1;
    for i := 0 to |candidates|
      invariant best == -1 ==> forall j :: 0 <= j < i ==> candidates[j].Failed?
      invariant best != -1 ==> 0 <= best < i && IsBest(candidates[..i], best)
    {
      assert candidates[..i + 1] == candidates[..i] + [candidates[i]];
      if candidates[i].Answer? && (best == -1 || Rank(candidates[i]) < Rank(candidates[best])) {
        best := i;
      }
    }
    assert candidates[..|candidates|] == candidates;
    if best != -1 {
      return candidates[best];
    }
    if truncated.Some? {
      return Answer(truncated.value);
    }
    return candidates[0];
  }

  /** Everything that is neither set aside as truncated nor an immediate winner. */
  function Held(s: seq<Outcome>): (h: seq<Outcome>) {
    if s == [] then []
    else Held(s[..|s| - 1]) + (if Truncated(s[|s| - 1]) then [] else [s[|s| - 1]])
  }

  /** The first truncated reply in completion order. */
  function FirstTruncated(s: seq<Outcome>): (t: Option<Response>) {
    if s == [] then None
    else
      var earlier := FirstTruncated(s[..|s| - 1]);
      if earlier.Some? then earlier
      else if Truncated(s[|s| - 1]) then Some(s[|s| - 1].resp) else None
  }

  ghost predicate SomeConclusive(s: seq<Outcome>) {
    exists i :: 0 <= i < |s| && Conclusive(s[i])
  }

  ghost predicate NoneBefore(s: seq<Outcome>, i: int)
    requires i <= |s|
  {
    forall j :: 0 <= j < i ==> !Conclusive(s[j])
  }

  /** What one round may return when replies complete in the order `s`. */
  ghost predicate Settles(s: seq<Outcome>, r: Outcome) {
    if s == [] then r == Failed(NoConnections)
    else if SomeConclusive(s) then
      exists i :: 0 <= i < |s| && Conclusive(s[i]) && r == s[i] && NoneBefore(s, i)
    else
      Chosen(Held(s[..|s| - 1]) + [s[|s| - 1]], FirstTruncated(s[..|s| - 1]), r)
  }

  /** The racing loop.  `completions` is the order in which the tasks happen to finish. */
  method RaceServers(completions: seq<Outcome>) returns (r: Outcome)
    ensures Settles(completions, r)
  {
    if |completions| == 0 {
      return Failed(NoConnections);
    }
    var truncated: Option<Response> := None;
    var held: seq<Outcome> := [];
    var done := 0;
    while true
      invariant 0 <= done < |completions|
      invariant NoneBefore(completions, done)
      invariant held == Held(completions[..done])
      invariant truncated == FirstTruncated(completions[..done])
      decreases |completions| - done
    {
      var res := completions[done];
      if Conclusive(res) {
        return res;
      }
      SetAsideStep(completions, done);
      if done + 1 == |completions| {
        r := PickBest(held, res, truncated);
        LastCompletion(completions, r);
        return;
      }
      if Truncated(res) {
        if truncated.None? {
          truncated := Some(res.resp);
        }
      } else {
        held := held + [res];
      }
      done := done + 1;
    }
  }

  /** One more reply that is not conclusive. */
  lemma SetAsideStep(s: seq<Outcome>, i: nat)
    requires i < |s|
    ensures Held(s[..i + 1]) == if Truncated(s[i]) then Held(s[..i]) else Held(s[..i]) + [s[i]]
    ensures FirstTruncated(s[..i + 1]) ==
            if FirstTruncated(s[..i]).Some? then FirstTruncated(s[..i]) else if Truncated(s[i]) then Some(s[i].resp) else None
  {
    assert s[..i + 1][..i] == s[..i];
  }

  lemma LastCompletion(s: seq<Outcome>, r: Outcome)
    requires s != [] && NoneBefore(s, |s| - 1) && !Conclusive(s[|s| - 1])
    requires Chosen(Held(s[..|s| - 1]) + [s[|s| - 1]], FirstTruncated(s[..|s| - 1]), r)
    ensures Settles(s, r)
  {
  }

  // ---------------------------------------------------------------- facts about one order

  lemma {:induction false} HeldMembers(s: seq<Outcome>)
    ensures forall o :: o in Held(s) <==> o in s && !Truncated(o)
  {
    if s != [] {
      HeldMembers(s[..|s| - 1]);
      assert s == s[..|s| - 1] + [s[|s| - 1]];
    }
  }

  lemma {:induction false} FirstTruncatedMember(s: seq<Outcome>)
    ensures FirstTruncated(s).None? <==> forall o :: o in s ==> !Truncated(o)
    ensures FirstTruncated(s).Some? ==>
              Answer(FirstTruncated(s).value) in s && Truncated(Answer(FirstTruncated(s).value))
  {
    if s != [] {
      FirstTruncatedMember(s[..|s| - 1]);
      assert s == s[..|s| - 1] + [s[|s| - 1]];
    }
  }

  /** Who takes part in the final choice: the last reply and everything not set aside. */
  predicate Competes(s: seq<Outcome>, o: Outcome)
    requires s != []
  {
    o == s[|s| - 1] || (o in s && !Truncated(o))
  }

  lemma CandidateMembers(s: seq<Outcome>)
    requires s != []
    ensures forall o :: o in Held(s[..|s| - 1]) + [s[|s| - 1]] <==> Competes(s, o)
    ensures forall o :: o in s && Truncated(o) ==> o == s[|s| - 1] || o in s[..|s| - 1]
  {
    assert s == s[..|s| - 1] + [s[|s| - 1]];
    HeldMembers(s[..|s| - 1]);
  }

  lemma BestAmong(candidates: seq<Outcome>, i: int)
    requires IsBest(candidates, i)
    ensures candidates[i] in candidates
    ensures forall o :: o in candidates ==> Rank(candidates[i]) <= Rank(o)
  {
  }

  /** The final choice, read through its members instead of its loop. */
  lemma FinalChoice(s: seq<Outcome>, r: Outcome)
    requires s != [] && !SomeConclusive(s) && Settles(s, r)
    ensures (exists o :: Competes(s, o) && o.Answer?) ==>
              r.Answer? && Competes(s, r) && forall o :: Competes(s, o) ==> Rank(r) <= Rank(o)
    ensures (forall o :: Competes(s, o) ==> o.Failed?) ==>
              r in s && (r.Failed? <==> forall o :: o in s ==> o.Failed?)
  {
    var init, last := s[..|s| - 1], s[|s| - 1];
    var candidates := Held(init) + [last];
    CandidateMembers(s);
    FirstTruncatedMember(init);
    if exists i :: 0 <= i < |candidates| && candidates[i].Answer? {
      var i :| IsBest(candidates, i) && r == candidates[i];
      BestAmong(candidates, i);
    } else {
      assert candidates[0] in candidates;
      assert s == init + [last];
    }
  }

  /** A round without a conclusive reply: nothing whole outranks the result, and a truncated
      reply is chosen over a whole one only when it came last. */
  lemma InconclusiveRound(s: seq<Outcome>, r: Outcome)
    requires s != [] && !SomeConclusive(s) && Settles(s, r)
    ensures r in s
    ensures r.Failed? <==> forall o :: o in s ==> o.Failed?
    ensures forall o :: o in s && Whole(o) ==> Rank(r) <= Rank(o)
    ensures (exists o :: o in s && Whole(o)) && Truncated(r) ==> r == s[|s| - 1]
    ensures Truncated(s[|s| - 1]) ==> Rank(r) <= Rank(s[|s| - 1])
    ensures (forall o :: o in s ==> !Whole(o)) && Truncated(s[|s| - 1]) ==> r == s[|s| - 1]
  {
    FinalChoice(s, r);
    assert forall o :: o in s && Whole(o) ==> Competes(s, o);
    assert Competes(s, s[|s| - 1]);
  }

  /** When nothing came back whole and the last server erred: the truncated reply that came
      first, and without one the error that came first. */
  lemma LastResorts(s: seq<Outcome>, r: Outcome)
    requires s != [] && Settles(s, r) && (forall o :: o in s ==> !Whole(o)) && s[|s| - 1].Failed?
    ensures (exists o :: o in s && Truncated(o)) ==>
              exists i :: 0 <= i < |s| && Truncated(s[i]) && r == s[i] && forall j :: 0 <= j < i ==> !Truncated(s[j])
    ensures (forall o :: o in s ==> !Truncated(o)) ==> r == s[0]
  {
    var init := s[..|s| - 1];
    OnlyErrorsHeld(s, r);
    hide Held, FirstTruncated, Settles, Chosen;
    assert s == init + [s[|s| - 1]];
    FirstTruncatedAt(init);
    FirstTruncatedMember(init);
    if FirstTruncated(init).Some? {
      var i :| 0 <= i < |init| && Truncated(init[i]) && FirstTruncated(init).value == init[i].resp
               && forall j :: 0 <= j < i ==> !Truncated(init[j]);
      assert s[i] == init[i] && forall j :: 0 <= j < i ==> s[j] == init[j];
    } else {
      assert forall o :: o in init ==> o in s;
      HeldAll(init);
    }
  }

  lemma OnlyErrorsHeld(s: seq<Outcome>, r: Outcome)
    requires s != [] && Settles(s, r) && (forall o :: o in s ==> !Whole(o)) && s[|s| - 1].Failed?
    ensures var init := s[..|s| - 1];
            r == if FirstTruncated(init).Some? then Answer(FirstTruncated(init).value) else (Held(init) + [s[|s| - 1]])[0]
  {
    hide Held, FirstTruncated;
    var candidates := Held(s[..|s| - 1]) + [s[|s| - 1]];
    CandidateMembers(s);
    assert forall i :: 0 <= i < |s| ==> s[i] in s;
    forall i | 0 <= i < |candidates| ensures candidates[i].Failed? {
      assert Competes(s, candidates[i]);
    }
  }

  lemma {:induction false} HeldAll(s: seq<Outcome>)
    requires forall o :: o in s ==> !Truncated(o)
    ensures Held(s) == s
  {
    if s != [] {
      assert s == s[..|s| - 1] + [s[|s| - 1]];
      HeldAll(s[..|s| - 1]);
    }
  }

  lemma {:induction false} FirstTruncatedAt(s: seq<Outcome>)
    ensures FirstTruncated(s).Some? ==>
              exists i :: 0 <= i < |s| && Truncated(s[i]) && FirstTruncated(s).value == s[i].resp
                          && forall j :: 0 <= j < i ==> !Truncated(s[j])
  {
    if s != [] {
      var init := s[..|s| - 1];
      FirstTruncatedAt(init);
      FirstTruncatedMember(init);
      if FirstTruncated(init).Some? {
        var i :| 0 <= i < |init| && Truncated(init[i]) && FirstTruncated(init).value == init[i].resp
                 && forall j :: 0 <= j < i ==> !Truncated(init[j]);
        assert Truncated(s[i]) && forall j :: 0 <= j < i ==> s[j] == init[j];
      } else {
        assert forall j :: 0 <= j < |init| ==> init[j] in init;
      }
    }
  }

  // ---------------------------------------------------------------- every completion order

  lemma SameMembers(servers: seq<Outcome>, order: seq<Outcome>)
    requires multiset(servers) == multiset(order)
    ensures |servers| == |order|
    ensures forall o :: o in servers <==> o in order
  {
    assert |multiset(servers)| == |multiset(order)|;
    forall o ensures o in servers <==> o in order {
      assert o in servers <==> o in multiset(servers);
      assert o in order <==> o in multiset(order);
    }
  }

  lemma ConclusiveMember(s: seq<Outcome>)
    ensures SomeConclusive(s) <==> exists o :: o in s && Conclusive(o)
  {
    if o :| o in s && Conclusive(o) {
      var i :| 0 <= i < |s| && s[i] == o;
      assert Conclusive(s[i]);
    }
  }

  /** Whatever the completion order: a conclusive reply is returned exactly when some server
      gives one, an error exactly when every server erred, and otherwise nothing that arrived
      whole outranks the result. */
  lemma RaceOutcome(servers: seq<Outcome>, order: seq<Outcome>, r: Outcome)
    requires servers != []
    requires multiset(order) == multiset(servers)
    requires Settles(order, r)
    ensures r in servers
    ensures Conclusive(r) <==> exists o :: o in servers && Conclusive(o)
    ensures r.Failed? <==> forall o :: o in servers ==> o.Failed?
    ensures !Conclusive(r) ==> forall o :: o in servers && Whole(o) ==> Rank(r) <= Rank(o)
    ensures !Conclusive(r) && Truncated(r) && (exists o :: o in servers && Whole(o)) ==>
              r == order[|order| - 1]
  {
    SameMembers(servers, order);
    ConclusiveMember(order);
    if SomeConclusive(order) {
      var i :| 0 <= i < |order| && Conclusive(order[i]) && r == order[i];
      assert order[i] in order;
    } else {
      InconclusiveRound(order, r);
    }
  }

  ghost predicate WholeOfKind(o: Outcome, kind: Kind) {
    Whole(o) && IsKind(o.resp, kind)
  }

  /** A forged denial cannot win against a real answer, however fast it comes: when some
      server gives whole answers, every completion order returns answers or a denial that
      carries an SOA, and it returns them whole. */
  lemma BareDenialNeverBeatsAnswers(servers: seq<Outcome>, order: seq<Outcome>, r: Outcome)
    requires multiset(order) == multiset(servers) && Settles(order, r)
    requires exists o :: o in servers && WholeOfKind(o, Answers)
    ensures WholeOfKind(r, Answers) || WholeOfKind(r, SignedDenial)
  {
    var o :| o in servers && WholeOfKind(o, Answers);
    ConclusiveExactly(o.resp);
    RaceOutcome(servers, order, r);
    ConclusiveExactly(r.resp);
  }

  /** Without a conclusive reply, every kind of whole reply in the group bounds what comes
      back: a bare denial is returned only when nobody gave an empty reply whole. */
  lemma BestKindReturned(servers: seq<Outcome>, order: seq<Outcome>, r: Outcome, o: Outcome, ko: Kind, kr: Kind)
    requires multiset(order) == multiset(servers) && Settles(order, r)
    requires o in servers && WholeOfKind(o, ko)
    ensures r.Answer?
    ensures !Conclusive(r) && IsKind(r.resp, kr) ==> !Precedes(ko, kr)
  {
    RaceOutcome(servers, order, r);
    if r.Answer? && IsKind(r.resp, kr) {
      RanksFollowKinds(o.resp, r.resp, ko, kr);
    }
  }

  /** The first conclusive reply wins, whatever was waiting and whatever is still to come. */
  lemma FirstConclusiveWins(order: seq<Outcome>, r: Outcome, i: nat)
    requires Settles(order, r) && i < |order| && Conclusive(order[i]) && forall j :: 0 <= j < i ==> !Conclusive(order[j])
    ensures r == order[i]
  {
    assert SomeConclusive(order);
    var n :| 0 <= n < |order| && Conclusive(order[n]) && r == order[n] && NoneBefore(order, n);
  }

  // ---------------------------------------------------------------- when order matters

  /** The trust placed in the result does not depend on who answers first. */
  ghost predicate OrderIrrelevant(servers: seq<Outcome>) {
    forall o1, o2, r1, r2 |
      multiset(o1) == multiset(servers) && multiset(o2) == multiset(servers)
      && Settles(o1, r1) && Settles(o2, r2)
      :: Rank(r1) == Rank(r2)
  }

  ghost predicate SameRank(servers: seq<Outcome>, p: Outcome -> bool) {
    forall a, b :: a in servers && b in servers && p(a) && p(b) ==> Rank(a) == Rank(b)
  }

  /** Some whole reply is at least as trustworthy as every truncated one. */
  ghost predicate WholeBeatsTruncated(servers: seq<Outcome>) {
    exists c :: c in servers && Whole(c) && forall t :: t in servers && Truncated(t) ==> Rank(c) <= Rank(t)
  }

  /** The condition on the replies alone under which completion order cannot matter. */
  ghost predicate OrderSafe(servers: seq<Outcome>) {
    if exists o :: o in servers && Conclusive(o) then SameRank(servers, Conclusive)
    else if exists o :: o in servers && Whole(o) then WholeBeatsTruncated(servers)
    else SameRank(servers, Truncated)
  }

  function MoveLast(s: seq<Outcome>, i: nat): (t: seq<Outcome>)
    requires i < |s|
    ensures |t| == |s| && t[|t| - 1] == s[i]
    ensures multiset(t) == multiset(s)
  {
    assert s == s[..i] + [s[i]] + s[i + 1..];
    s[..i] + s[i + 1..] + [s[i]]
  }

  function MoveFirst(s: seq<Outcome>, i: nat): (t: seq<Outcome>)
    requires i < |s|
    ensures |t| == |s| && t[0] == s[i]
    ensures multiset(t) == multiset(s)
  {
    assert s == s[..i] + [s[i]] + s[i + 1..];
    [s[i]] + s[..i] + s[i + 1..]
  }

  lemma {:induction false} BestExists(candidates: seq<Outcome>) returns (i: int)
    requires exists j :: 0 <= j < |candidates| && candidates[j].Answer?
    ensures IsBest(candidates, i)
  {
    var init, last := candidates[..|candidates| - 1], candidates[|candidates| - 1];
    if exists j :: 0 <= j < |init| && init[j].Answer? {
      i := BestExists(init);
      if Rank(last) < Rank(init[i]) {
        i := |candidates| - 1;
      }
    } else {
      i := |candidates| - 1;
    }
  }

  lemma {:induction false} FirstConclusive(s: seq<Outcome>) returns (i: int)
    requires SomeConclusive(s)
    ensures 0 <= i < |s| && Conclusive(s[i]) && NoneBefore(s, i)
  {
    if SomeConclusive(s[..|s| - 1]) {
      i := FirstConclusive(s[..|s| - 1]);
    } else {
      i := |s| - 1;
    }
  }

  /** Every completion order settles. */
  lemma RoundSettles(s: seq<Outcome>) returns (r: Outcome)
    ensures Settles(s, r)
  {
    if s == [] {
      r := Failed(NoConnections);
    } else if SomeConclusive(s) {
      var i := FirstConclusive(s);
      r := s[i];
    } else {
      var candidates := Held(s[..|s| - 1]) + [s[|s| - 1]];
      var t := FirstTruncated(s[..|s| - 1]);
      if exists i :: 0 <= i < |candidates| && candidates[i].Answer? {
        var i := BestExists(candidates);
        r := candidates[i];
      } else {
        r := if t.Some? then Answer(t.value) else candidates[0];
      }
    }
  }

  /** With a conclusive reply first, the race returns it. */
  lemma ConclusiveFirstWins(s: seq<Outcome>, r: Outcome)
    requires s != [] && Conclusive(s[0]) && Settles(s, r)
    ensures r == s[0]
  {
    var i :| 0 <= i < |s| && Conclusive(s[i]) && r == s[i] && NoneBefore(s, i);
    assert i == 0;
  }

  lemma OrderSafeIsNecessary(servers: seq<Outcome>)
    requires OrderIrrelevant(servers)
    ensures OrderSafe(servers)
  {
    ConclusiveMember(servers);
    if exists o :: o in servers && Conclusive(o) {
      forall a, b | a in servers && b in servers && Conclusive(a) && Conclusive(b)
        ensures Rank(a) == Rank(b)
      {
        var i :| 0 <= i < |servers| && servers[i] == a;
        var j :| 0 <= j < |servers| && servers[j] == b;
        var ra := RoundSettles(MoveFirst(servers, i));
        var rb := RoundSettles(MoveFirst(servers, j));
        ConclusiveFirstWins(MoveFirst(servers, i), ra);
        ConclusiveFirstWins(MoveFirst(servers, j), rb);
      }
    } else if exists o :: o in servers && Whole(o) {
      var w :| w in servers && Whole(w);
      var i :| 0 <= i < |servers| && servers[i] == w;
      var first := MoveLast(servers, i);
      SameMembers(servers, first);
      var r := RoundSettles(first);
      RaceOutcome(servers, first, r);
      assert Whole(r);
      forall t | t in servers && Truncated(t) ensures Rank(r) <= Rank(t) {
        var j :| 0 <= j < |servers| && servers[j] == t;
        var second := MoveLast(servers, j);
        SameMembers(servers, second);
        ConclusiveMember(second);
        var r2 := RoundSettles(second);
        InconclusiveRound(second, r2);
      }
    } else {
      forall a, b | a in servers && b in servers && Truncated(a) && Truncated(b)
        ensures Rank(a) == Rank(b)
      {
        var i :| 0 <= i < |servers| && servers[i] == a;
        var j :| 0 <= j < |servers| && servers[j] == b;
        TruncatedLast(servers, i);
        TruncatedLast(servers, j);
      }
    }
  }

  lemma TruncatedLast(servers: seq<Outcome>, i: nat)
    requires i < |servers| && Truncated(servers[i])
    requires forall o :: o in servers ==> !Whole(o)
    ensures Settles(MoveLast(servers, i), servers[i])
  {
    var s := MoveLast(servers, i);
    SameMembers(servers, s);
    ConclusiveMember(s);
    var r := RoundSettles(s);
    InconclusiveRound(s, r);
  }

  lemma OrderSafeIsSufficient(servers: seq<Outcome>, o1: seq<Outcome>, r1: Outcome, o2: seq<Outcome>, r2: Outcome)
    requires OrderSafe(servers)
    requires multiset(o1) == multiset(servers) && multiset(o2) == multiset(servers)
    requires Settles(o1, r1) && Settles(o2, r2)
    ensures Rank(r1) == Rank(r2)
  {
    SameMembers(servers, o1);
    SameMembers(servers, o2);
    if servers != [] {
      RaceOutcome(servers, o1, r1);
      RaceOutcome(servers, o2, r2);
      ConclusiveMember(servers);
      ConclusiveMember(o1);
      ConclusiveMember(o2);
      if !(exists o :: o in servers && Conclusive(o)) {
        InconclusiveRound(o1, r1);
        InconclusiveRound(o2, r2);
      }
    }
  }

  /** Completion order is irrelevant to the quality of the result exactly when the replies
      themselves are order-safe: a truncated reply that happens to arrive last competes as an
      ordinary candidate, so it must not outrank every whole reply. */
  lemma OrderIrrelevantExactly(servers: seq<Outcome>)
    ensures OrderIrrelevant(servers) <==> OrderSafe(servers)
  {
    if OrderIrrelevant(servers) {
      OrderSafeIsNecessary(servers);
    }
    if OrderSafe(servers) {
      forall o1, o2, r1, r2 |
        multiset(o1) == multiset(servers) && multiset(o2) == multiset(servers)
        && Settles(o1, r1) && Settles(o2, r2)
        ensures Rank(r1) == Rank(r2)
      {
        OrderSafeIsSufficient(servers, o1, r1, o2, r2);
      }
    }
  }

  /** Whatever the order, a reply that arrived whole is returned. */
  ghost predicate WholeAlwaysReturned(servers: seq<Outcome>) {
    forall order, r | multiset(order) == multiset(servers) && Settles(order, r) :: Whole(r)
  }

  /** "A truncated reply is only the last resort" holds, with a whole reply present and none
      conclusive, exactly when some whole reply ranks at least as well as every truncated one. */
  lemma TruncatedLastResortExactly(servers: seq<Outcome>)
    requires exists o :: o in servers && Whole(o)
    requires forall o :: o in servers ==> !Conclusive(o)
    ensures WholeAlwaysReturned(servers) <==> WholeBeatsTruncated(servers)
  {
    if WholeBeatsTruncated(servers) {
      forall order, r | multiset(order) == multiset(servers) && Settles(order, r) ensures Whole(r) {
        WholeReturned(servers, order, r);
      }
    }
    if WholeAlwaysReturned(servers) {
      BestWholeExists(servers);
    }
  }

  /** The round with a whole reply that no truncated one outranks. */
  lemma WholeReturned(servers: seq<Outcome>, order: seq<Outcome>, r: Outcome)
    requires WholeBeatsTruncated(servers) && forall o :: o in servers ==> !Conclusive(o)
    requires multiset(order) == multiset(servers) && Settles(order, r)
    ensures Whole(r)
  {
    SameMembers(servers, order);
    ConclusiveMember(order);
    RaceOutcome(servers, order, r);
    var c :| c in servers && Whole(c) && forall t :: t in servers && Truncated(t) ==> Rank(c) <= Rank(t);
    if Truncated(r) {
      TruncatedOutranks(order, r);
    }
  }

  /** A truncated reply wins a round with a whole reply only by outranking all that are whole. */
  lemma TruncatedOutranks(s: seq<Outcome>, r: Outcome)
    requires s != [] && !SomeConclusive(s) && Settles(s, r) && Truncated(r)
    requires exists o :: o in s && Whole(o)
    ensures forall o :: o in s && Whole(o) ==> Rank(r) < Rank(o)
  {
    var init, last := s[..|s| - 1], s[|s| - 1];
    InconclusiveRound(s, r);
    HeldMembers(init);
    CandidateMembers(s);
    var w :| w in s && Whole(w);
    assert w in Held(init) + [last];
    var i :| IsBest(Held(init) + [last], i) && r == (Held(init) + [last])[i];
    LastBest(Held(init), last, i);
    assert forall o :: o in s && Whole(o) ==> o in Held(init);
  }

  /** The best candidate, when it is none of those held, ranks strictly before all of them. */
  lemma LastBest(held: seq<Outcome>, last: Outcome, i: int)
    requires IsBest(held + [last], i) && (held + [last])[i] !in held
    ensures forall o :: o in held ==> Rank((held + [last])[i]) < Rank(o)
  {
    var candidates := held + [last];
    forall o | o in held ensures Rank(candidates[i]) < Rank(o) {
      var j :| 0 <= j < |held| && held[j] == o;
      assert candidates[j] == o;
    }
  }

  /** With the best-ranked truncated reply last, only a whole reply at least as good is returned. */
  lemma BestWholeExists(servers: seq<Outcome>)
    requires WholeAlwaysReturned(servers)
    requires exists o :: o in servers && Whole(o)
    requires forall o :: o in servers ==> !Conclusive(o)
    ensures WholeBeatsTruncated(servers)
  {
    ConclusiveMember(servers);
    var w :| w in servers && Whole(w);
    var i :| 0 <= i < |servers| && servers[i] == w;
    var first := MoveLast(servers, i);
    SameMembers(servers, first);
    var r := RoundSettles(first);
    RaceOutcome(servers, first, r);
    forall t | t in servers && Truncated(t) ensures Rank(r) <= Rank(t) {
      var j :| 0 <= j < |servers| && servers[j] == t;
      var second := MoveLast(servers, j);
      SameMembers(servers, second);
      ConclusiveMember(second);
      var r2 := RoundSettles(second);
      InconclusiveRound(second, r2);
      RaceOutcome(servers, second, r2);
      assert Whole(r2);
      assert r2 in servers;
    }
  }

  /** "A truncated reply is only the last resort" is not true of the loop: two servers, one
      whole NODATA and one truncated answer, and the late truncated answer wins. */
  lemma TruncatedCanBeatWhole()
    ensures exists whole: Outcome, cut: Outcome ::
              Whole(whole) && Truncated(cut) && Settles([whole, cut], cut)
  {
    var q := Query("a.", A);
    var rec := Record("a.", A, 60, Opaque([]));
    var whole := Answer(Response(q, NoError, false, [], [], []));
    var cut := Answer(Response(q, NoError, true, [rec], [], []));
    var s := [whole, cut];
    assert s[..1] == [whole];
    assert [whole][..0] == [];
    assert Held([whole]) == [whole];
    assert !SomeConclusive(s);
    assert IsBest([whole] + [cut], 1);
  }

  // ---------------------------------------------------------------- two rounds

  datatype Server = Server(fallback: bool, reply: Outcome)

  /** The outcomes of the servers whose fallback flag is `flag`, in configuration order. */
  function Replies(servers: seq<Server>, flag: bool): (s: seq<Outcome>)
    ensures forall o :: o in s <==> exists i :: 0 <= i < |servers| && servers[i].fallback == flag && servers[i].reply == o
  {
    if servers == [] then []
    else
      var rest := Replies(servers[1..], flag);
      assert forall o :: (exists i :: 0 <= i < |servers| && servers[i].fallback == flag && servers[i].reply == o) <==>
                         ((servers[0].fallback == flag && servers[0].reply == o) || o in rest) by {
        forall i | 1 <= i < |servers| ensures servers[i] == servers[1..][i - 1] { }
        forall i | 0 <= i < |servers[1..]| ensures servers[1..][i] == servers[i + 1] { }
      }
      if servers[0].fallback == flag then [servers[0].reply] + rest else rest
  }

  /** Who races in the first round: everybody when all servers are fallbacks. */
  function FirstRound(servers: seq<Server>): seq<Outcome> {
    if Replies(servers, false) == [] then Replies(servers, true) else Replies(servers, false)
  }

  function SecondRound(servers: seq<Server>): seq<Outcome> {
    if Replies(servers, false) == [] then [] else Replies(servers, true)
  }

  /** Some server of the group gives this reply. */
  ghost predicate Gives(servers: seq<Server>, o: Outcome) {
    exists i :: 0 <= i < |servers| && servers[i].reply == o
  }

  /** The group lookup.  `order1` and `order2` are the completion orders of the two rounds;
      `asked` tells whether the second round took place.  An error comes back only when
      everybody in the first round erred and no fallback server was conclusive; the second
      round's choice replaces the first one's only when it alone is conclusive. */
  method Lookup(servers: seq<Server>, order1: seq<Outcome>, order2: seq<Outcome>)
    returns (r: Outcome, asked: bool)
    requires multiset(order1) == multiset(FirstRound(servers))
    requires multiset(order2) == multiset(SecondRound(servers))
    ensures Conclusive(r) <==> exists o :: Gives(servers, o) && Conclusive(o)
    ensures asked <==> SecondRound(servers) != [] && forall o :: o in FirstRound(servers) ==> !Conclusive(o)
    ensures servers != [] ==> Gives(servers, r)
    ensures r.Failed? <==> (forall o :: o in FirstRound(servers) ==> o.Failed?)
                           && (forall o :: o in SecondRound(servers) ==> !Conclusive(o))
    ensures if SomeConclusive(order1) || !SomeConclusive(order2) then Settles(order1, r) else Settles(order2, r)
  {
    var first := RaceServers(order1);
    RoundMembers(servers);
    RoundOutcome(FirstRound(servers), order1, first);
    RoundConclusive(FirstRound(servers), order1);
    RoundConclusive(SecondRound(servers), order2);
    if |SecondRound(servers)| == 0 || !NeedsFallback(first) {
      return first, false;
    }
    var second := RaceServers(order2);
    RoundOutcome(SecondRound(servers), order2, second);
    if NeedsFallback(second) {
      return first, true;
    }
    return second, true;
  }

  lemma RoundConclusive(servers: seq<Outcome>, order: seq<Outcome>)
    requires multiset(order) == multiset(servers)
    ensures SomeConclusive(order) <==> exists o :: o in servers && Conclusive(o)
  {
    SameMembers(servers, order);
    ConclusiveMember(order);
  }

  /** What the choice between the rounds needs to know of one of them. */
  lemma RoundOutcome(servers: seq<Outcome>, order: seq<Outcome>, r: Outcome)
    requires multiset(order) == multiset(servers) && Settles(order, r)
    ensures servers != [] ==> r in servers
    ensures Conclusive(r) <==> exists o :: o in servers && Conclusive(o)
    ensures r.Failed? <==> forall o :: o in servers ==> o.Failed?
  {
    SameMembers(servers, order);
    if servers != [] {
      RaceOutcome(servers, order, r);
    }
  }

  /** The replies of all servers of the group. */
  function AllReplies(servers: seq<Server>): seq<Outcome> {
    if servers == [] then [] else [servers[0].reply] + AllReplies(servers[1..])
  }

  /** The two rounds split the group: every server is asked exactly once between them. */
  lemma RoundMembers(servers: seq<Server>)
    ensures FirstRound(servers) == [] ==> servers == []
    ensures forall o :: Gives(servers, o) <==> o in FirstRound(servers) || o in SecondRound(servers)
    ensures multiset(FirstRound(servers)) + multiset(SecondRound(servers)) == multiset(AllReplies(servers))
  {
    RepliesSplit(servers);
    forall o | Gives(servers, o) ensures o in FirstRound(servers) || o in SecondRound(servers) {
      var i :| 0 <= i < |servers| && servers[i].reply == o;
      assert o in Replies(servers, servers[i].fallback);
    }
  }

  /** By the flags of the servers: as long as there is a normal server the fallback servers
      take no part in the first round; when there is none they are asked at once. */
  lemma RoundsFollowFlags(servers: seq<Server>)
    ensures (exists i :: 0 <= i < |servers| && !servers[i].fallback) ==>
              && (forall o :: o in FirstRound(servers) <==> exists i :: 0 <= i < |servers| && !servers[i].fallback && servers[i].reply == o)
              && (forall o :: o in SecondRound(servers) <==> exists i :: 0 <= i < |servers| && servers[i].fallback && servers[i].reply == o)
    ensures (forall i :: 0 <= i < |servers| ==> servers[i].fallback) ==>
              && SecondRound(servers) == []
              && (forall o :: o in FirstRound(servers) <==> Gives(servers, o))
  {
    if i :| 0 <= i < |servers| && !servers[i].fallback {
      assert servers[i].reply in Replies(servers, false);
    } else {
      NoNormalReply(servers);
    }
  }

  lemma {:induction false} NoNormalReply(servers: seq<Server>)
    requires forall i :: 0 <= i < |servers| ==> servers[i].fallback
    ensures Replies(servers, false) == []
  {
    if servers != [] {
      NoNormalReply(servers[1..]);
    }
  }

  lemma {:induction false} RepliesSplit(servers: seq<Server>)
    ensures multiset(Replies(servers, false)) + multiset(Replies(servers, true)) == multiset(AllReplies(servers))
    ensures Replies(servers, false) == [] && Replies(servers, true) == [] ==> servers == []
  {
    if servers != [] {
      RepliesSplit(servers[1..]);
    }
  }
}
