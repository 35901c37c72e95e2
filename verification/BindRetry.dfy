/** Opening, closing and retrying listeners (src/app.rs).  A reload and a heartbeat are each
    one step.  Whether a port can be opened at that moment, and whether the exposure check
    refuses a listener, are parameters of a step.  Instants are whole seconds. */
module BindRetry {
  import opened Listeners

  // ---------------------------------------------------------------- one failing listener

  function Pow2(n: nat): (p: nat)
    ensures p >= 1
  {
    if n == 0 then 1 else 2 * Pow2(n - 1)
  }

  /** Seconds to wait after the given number of failures: 1, 2, 4, 8, 16, 32, then 60. */
  function Backoff(attempts: nat): (secs: nat)
    ensures 1 <= secs <= 60
  {
    var shift := if attempts == 0 then 0 else if attempts - 1 < 6 then attempts - 1 else 6;
    if Pow2(shift) < 60 then Pow2(shift) else 60
  }

  /** Each wait is twice the one before, cut at a minute. */
  lemma BackoffDoubles(n: nat)
    requires n >= 1
    ensures Backoff(1) == 1
    ensures Backoff(n + 1) == if 2 * Backoff(n) < 60 then 2 * Backoff(n) else 60
  {
    assert Pow2(6) == 2 * Pow2(5) && Pow2(5) == 2 * Pow2(4) && Pow2(4) == 2 * Pow2(3) && Pow2(3) == 2 * Pow2(2);
  }

  datatype Retry = Retry(attempts: nat, nextAt: int, firstFailedAt: int, lastFailedAt: int) {
    predicate IsDue(now: int) {
      now >= nextAt
    }

    function FailedAgain(now: int): Retry {
      Retry(attempts + 1, now + Backoff(attempts + 1), firstFailedAt, now)
    }
  }

  function FirstFailure(now: int): Retry {
    Retry(1, now + Backoff(1), now, now)
  }

  type Opens = Bind -> bool

  // ---------------------------------------------------------------- the machine as a value

  datatype Machine = Machine(binds: seq<Bind>, refuses: Bind -> bool, listening: set<Bind>, retry: map<Bind, Retry>)

  function Failed(retry: map<Bind, Retry>, b: Bind, now: int): Retry {
    if b in retry then retry[b].FailedAgain(now) else FirstFailure(now)
  }

  /** One attempt to open a listener. */
  function TryOne(m: Machine, b: Bind, now: int, opens: Opens): Machine {
    if opens(b) then m.(listening := m.listening + {b}, retry := m.retry - {b})
    else m.(retry := m.retry[b := Failed(m.retry, b, now)])
  }

  /** What a heartbeat does about one listener that is due. */
  function BeatOne(m: Machine, b: Bind, now: int, opens: Opens): Machine {
    if b in m.binds then TryOne(m, b, now, opens) else m.(retry := m.retry - {b})
  }

  function TryAll(m: Machine, bs: seq<Bind>, now: int, opens: Opens): Machine {
    if bs == [] then m else TryOne(TryAll(m, bs[..|bs| - 1], now, opens), bs[|bs| - 1], now, opens)
  }

  function BeatAll(m: Machine, bs: seq<Bind>, now: int, opens: Opens): Machine {
    if bs == [] then m else BeatOne(BeatAll(m, bs[..|bs| - 1], now, opens), bs[|bs| - 1], now, opens)
  }

  /** The outcome of all attempts together: what opens listens, what fails is queued. */
  function Tried(m: Machine, tried: set<Bind>, now: int, opens: Opens): Machine {
    m.(listening := m.listening + (set b | b in tried && opens(b)),
    retry := map b | b in m.retry.Keys + tried && !(b in tried && opens(b)) ::
      if b in tried then Failed(m.retry, b, now) else m.retry[b])
  }

  /** A reload closes what is no longer configured and tries what is configured, not yet
      listening and not refused. */
  function Reloaded(m: Machine, binds: seq<Bind>, refuses: Bind -> bool, now: int, opens: Opens): Machine {
    Tried(Closed(m, binds, refuses), (set b | b in binds && b !in m.listening && !refuses(b)), now, opens)
  }

  function Closed(m: Machine, binds: seq<Bind>, refuses: Bind -> bool): Machine {
    Machine(binds, refuses, (set b | b in m.listening && b in binds), m.retry)
  }

  function Due(m: Machine, now: int): set<Bind> {
    set b | b in m.retry && m.retry[b].IsDue(now)
  }

  /** What a heartbeat does about all listeners that are due: those no longer configured are
      given up, the others tried. */
  function Beat(m: Machine, due: set<Bind>, now: int, opens: Opens): Machine {
    Tried(m.(retry := m.retry - (set b | b in due && b !in m.binds)), (set b | b in due && b in m.binds), now, opens)
  }

  datatype Step =
    | Reload(binds: seq<Bind>, refuses: Bind -> bool, now: int, opens: Opens)
    | Heartbeat(now: int, opens: Opens)

  function Next(m: Machine, step: Step): Machine {
    match step
    case Reload(binds, refuses, now, opens) => Reloaded(m, binds, refuses, now, opens)
    case Heartbeat(now, opens) => Beat(m, Due(m, now), now, opens)
  }

  function Idle(): Machine {
    Machine([], _ => false, {}, map[])
  }

  function Run(m: Machine, steps: seq<Step>): Machine {
    if steps == [] then m else Next(Run(m, steps[..|steps| - 1]), steps[|steps| - 1])
  }

  // ---------------------------------------------------------------- one by one is all at once

  ghost predicate NoRepeats(bs: seq<Bind>) {
    forall i, j :: 0 <= i < j < |bs| ==> bs[i] != bs[j]
  }

  function SetOf(bs: seq<Bind>): set<Bind> {
    set b | b in bs
  }

  lemma TriedMore(m: Machine, tried: set<Bind>, b: Bind, now: int, opens: Opens)
    requires b !in tried
    ensures Tried(m, tried + {b}, now, opens) == TryOne(Tried(m, tried, now, opens), b, now, opens)
  {
    var x, y := Tried(m, tried + {b}, now, opens), TryOne(Tried(m, tried, now, opens), b, now, opens);
    assert x.listening == y.listening;
    assert x.retry == y.retry;
  }

  lemma TriedNone(m: Machine, now: int, opens: Opens)
    ensures Tried(m, {}, now, opens) == m
  {
    assert Tried(m, {}, now, opens).retry == m.retry;
  }

  lemma SetOfSnoc(bs: seq<Bind>)
    requires bs != [] && NoRepeats(bs)
    ensures SetOf(bs) == SetOf(bs[..|bs| - 1]) + {bs[|bs| - 1]} && bs[|bs| - 1] !in SetOf(bs[..|bs| - 1])
  {
    assert bs == bs[..|bs| - 1] + [bs[|bs| - 1]];
  }

  lemma {:induction false} TryAllIsTried(m: Machine, bs: seq<Bind>, now: int, opens: Opens)
    requires NoRepeats(bs)
    ensures TryAll(m, bs, now, opens) == Tried(m, SetOf(bs), now, opens)
  {
    if bs == [] {
      assert SetOf(bs) == {};
      TriedNone(m, now, opens);
    } else {
      TryAllIsTried(m, bs[..|bs| - 1], now, opens);
      SetOfSnoc(bs);
      TriedMore(m, SetOf(bs[..|bs| - 1]), bs[|bs| - 1], now, opens);
    }
  }

  lemma BeatGivesUp(m: Machine, due: set<Bind>, b: Bind, now: int, opens: Opens)
    requires b !in due && b !in m.binds
    ensures Beat(m, due + {b}, now, opens) == BeatOne(Beat(m, due, now, opens), b, now, opens)
  {
    var x, y := Beat(m, due + {b}, now, opens), BeatOne(Beat(m, due, now, opens), b, now, opens);
    assert x.listening == y.listening;
    assert x.retry == y.retry;
  }

  lemma BeatTries(m: Machine, due: set<Bind>, b: Bind, now: int, opens: Opens)
    requires b !in due && b in m.binds
    ensures Beat(m, due + {b}, now, opens) == BeatOne(Beat(m, due, now, opens), b, now, opens)
  {
    var gone, tried := (set d | d in due && d !in m.binds), (set d | d in due && d in m.binds);
    assert (set d | d in due + {b} && d !in m.binds) == gone;
    assert (set d | d in due + {b} && d in m.binds) == tried + {b};
    TriedMore(m.(retry := m.retry - gone), tried, b, now, opens);
  }

  lemma BeatMore(m: Machine, due: set<Bind>, b: Bind, now: int, opens: Opens)
    requires b !in due
    ensures Beat(m, due + {b}, now, opens) == BeatOne(Beat(m, due, now, opens), b, now, opens)
  {
    if b in m.binds {
      BeatTries(m, due, b, now, opens);
    } else {
      BeatGivesUp(m, due, b, now, opens);
    }
  }

  lemma BeatNone(m: Machine, now: int, opens: Opens)
    ensures Beat(m, {}, now, opens) == m
  {
    assert Beat(m, {}, now, opens).retry == m.retry;
    assert Beat(m, {}, now, opens).listening == m.listening;
  }

  /** The order in which a heartbeat happens to take the due listeners makes no difference. */
  lemma {:induction false} BeatAllIsBeat(m: Machine, bs: seq<Bind>, now: int, opens: Opens)
    requires NoRepeats(bs)
    ensures BeatAll(m, bs, now, opens) == Beat(m, SetOf(bs), now, opens)
  {
    if bs == [] {
      assert SetOf(bs) == {};
      BeatNone(m, now, opens);
    } else {
      BeatAllIsBeat(m, bs[..|bs| - 1], now, opens);
      SetOfSnoc(bs);
      BeatMore(m, SetOf(bs[..|bs| - 1]), bs[|bs| - 1], now, opens);
    }
  }

  // ---------------------------------------------------------------- the object

  /** The running application.  Every open listener has a server handle of its own. */
  class App {
    var binds: seq<Bind>
    var refuses: Bind -> bool
    var listeners: map<Bind, nat>
    var retry: map<Bind, Retry>
    var running: map<nat, Bind>   // servers that were started and not shut down
    var nextHandle: nat

    function View(): Machine
      reads this
    {
      Machine(binds, refuses, listeners.Keys, retry)
    }

    /** The servers that run are exactly those registered, one each: none leaks. */
    ghost predicate Valid()
      reads this
    {
      && (forall b :: b in listeners ==> listeners[b] in running && running[listeners[b]] == b)
      && (forall h :: h in running ==> h < nextHandle && running[h] in listeners && listeners[running[h]] == h)
    }

    constructor ()
      ensures Valid() && View() == Idle()
    {
      binds, listeners, retry, running, nextHandle := [], map[], map[], map[], 0;
      refuses := Idle().refuses;
    }

    /** Shut one server down. */
    method Close(b: Bind)
      requires Valid() && b in listeners
      modifies this`listeners, this`running
      ensures Valid() && listeners == old(listeners) - {b}
    {
      running := running - {listeners[b]};
      listeners := listeners - {b};
    }

    /** Try to open one listener; no live server is ever replaced. */
    method Try(b: Bind, now: int, opens: Opens)
      requires Valid() && b !in listeners
      modifies this`listeners, this`running, this`nextHandle, this`retry
      ensures Valid() && View() == TryOne(old(View()), b, now, opens)
    {
      if opens(b) {
        retry := retry - {b};
        running := running[nextHandle := b];
        listeners := listeners[b := nextHandle];
        nextHandle := nextHandle + 1;
      } else if b !in retry {
        retry := retry[b := FirstFailure(now)];
      } else {
        retry := retry[b := retry[b].FailedAgain(now)];
      }
    }

    method UpdateListeners(newBinds: seq<Bind>, newRefuses: Bind -> bool, now: int, opens: Opens)
      requires Valid() && DistinctSockets(newBinds)
      modifies this
      ensures Valid() && View() == Reloaded(old(View()), newBinds, newRefuses, now, opens)
    {
      binds, refuses := newBinds, newRefuses;
      var pending := ToOpen(newBinds, newRefuses);
      CloseOthers(newBinds);
      TryAllIsTried(View(), pending, now, opens);
      TryEach(pending, now, opens);
      assert SetOf(pending) == set b | b in newBinds && b !in old(listeners) && !newRefuses(b);
    }

    method TryEach(pending: seq<Bind>, now: int, opens: Opens)
      requires Valid() && NoRepeats(pending) && forall b :: b in pending ==> b !in listeners
      modifies this`listeners, this`running, this`nextHandle, this`retry
      ensures Valid() && View() == TryAll(old(View()), pending, now, opens)
    {
      for i := 0 to |pending|
        invariant Valid()
        invariant forall j :: i <= j < |pending| ==> pending[j] !in listeners
        invariant View() == TryAll(old(View()), pending[..i], now, opens)
      {
        assert pending[..i + 1][..i] == pending[..i];
        Try(pending[i], now, opens);
      }
      assert pending[..|pending|] == pending;
    }

    /** What a reload finds configured, not listening and not refused, in order. */
    method ToOpen(newBinds: seq<Bind>, newRefuses: Bind -> bool) returns (pending: seq<Bind>)
      requires DistinctSockets(newBinds)
      ensures forall b :: b in pending <==> b in newBinds && b !in listeners && !newRefuses(b)
      ensures NoRepeats(pending)
    {
      pending := [];
      for i := 0 to |newBinds|
        invariant forall b :: b in pending <==> b in newBinds[..i] && b !in listeners && !newRefuses(b)
        invariant NoRepeats(pending)
      {
        assert newBinds[..i + 1] == newBinds[..i] + [newBinds[i]];
        assert newBinds[i] !in newBinds[..i];
        if newBinds[i] !in listeners {
          if !newRefuses(newBinds[i]) {
            pending := pending + [newBinds[i]];
          }
        }
      }
      assert newBinds[..|newBinds|] == newBinds;
    }

    method CloseOthers(newBinds: seq<Bind>)
      requires Valid()
      modifies this`listeners, this`running
      ensures Valid() && listeners.Keys == set b | b in old(listeners) && b in newBinds
    {
      var shutdowns := set b | b in listeners && b !in newBinds;
      while shutdowns != {}
        invariant Valid()
        invariant forall b :: b in shutdowns <==> b in listeners && b !in newBinds
        invariant forall b :: b in newBinds ==> (b in listeners <==> b in old(listeners))
        invariant forall b :: b in listeners ==> b in old(listeners)
        decreases |shutdowns|
      {
        var b :| b in shutdowns;
        Close(b);
        shutdowns := shutdowns - {b};
      }
    }

    method RetryOne(b: Bind, now: int, opens: Opens)
      requires Valid() && b !in listeners
      modifies this`listeners, this`running, this`nextHandle, this`retry
      ensures Valid() && View() == BeatOne(old(View()), b, now, opens)
    {
      if b !in binds {
        retry := retry - {b};
      } else {
        Try(b, now, opens);
      }
    }

    /** The queued listeners whose time has come, in no particular order. */
    method DueList(now: int) returns (due: seq<Bind>)
      ensures NoRepeats(due) && SetOf(due) == Due(View(), now)
    {
      var left := set b | b in retry && retry[b].IsDue(now);
      due := [];
      while left != {}
        invariant NoRepeats(due)
        invariant forall b :: b in due ==> b !in left
        invariant forall b :: b in due || b in left <==> b in Due(View(), now)
        decreases |left|
      {
        var b :| b in left;
        due, left := due + [b], left - {b};
      }
    }

    method RetryPendingBindsAt(now: int, opens: Opens)
      requires Valid() && listeners.Keys !! retry.Keys
      modifies this`listeners, this`running, this`nextHandle, this`retry
      ensures Valid() && View() == Beat(old(View()), Due(old(View()), now), now, opens)
    {
      var due := DueList(now);
      ghost var start := View();
      DueNotListening(start, due, now);
      for i := 0 to |due|
        invariant Valid()
        invariant forall j :: i <= j < |due| ==> due[j] !in listeners
        invariant View() == BeatAll(start, due[..i], now, opens)
      {
        assert due[..i + 1][..i] == due[..i];
        RetryOne(due[i], now, opens);
      }
      assert due[..|due|] == due;
      BeatAllIsBeat(start, due, now, opens);
    }
  }

  lemma DueNotListening(m: Machine, due: seq<Bind>, now: int)
    requires m.listening !! m.retry.Keys && SetOf(due) == Due(m, now)
    ensures forall j :: 0 <= j < |due| ==> due[j] !in m.listening
  {
    forall j | 0 <= j < |due| ensures due[j] !in m.listening {
      assert due[j] in SetOf(due);
    }
  }

  // ---------------------------------------------------------------- every run

  ghost predicate Inv(m: Machine) {
    && (forall b :: b in m.binds ==> b in m.listening || b in m.retry || m.refuses(b))
    && m.listening !! m.retry.Keys
    && (forall b :: b in m.listening ==> b in m.binds)
    && (forall b :: b in m.retry ==> m.retry[b].nextAt == m.retry[b].lastFailedAt + Backoff(m.retry[b].attempts))
  }

  lemma NextInv(m: Machine, step: Step)
    requires Inv(m)
    ensures Inv(Next(m, step))
  {
  }

  lemma {:induction false} RunInv(steps: seq<Step>)
    ensures Inv(Run(Idle(), steps))
  {
    if steps != [] {
      RunInv(steps[..|steps| - 1]);
      NextInv(Run(Idle(), steps[..|steps| - 1]), steps[|steps| - 1]);
    }
  }

  /** In every reachable state each configured listener is listening, queued for a retry or
      refused by the exposure check; none is both listening and queued, nothing listens that
      is not configured, and a retry is never further off than a minute after the failure. */
  lemma {:induction false} EveryListenerAccountedFor(steps: seq<Step>, b: Bind)
    ensures var m := Run(Idle(), steps);
            && (b in m.binds ==> b in m.listening || b in m.retry || m.refuses(b))
            && !(b in m.listening && b in m.retry)
            && (b in m.listening ==> b in m.binds)
            && (b in m.retry ==> m.retry[b].lastFailedAt < m.retry[b].nextAt <= m.retry[b].lastFailedAt + 60)
  {
    RunInv(steps);
  }

  /** A port that was occupied recovers by itself: with the listener still configured, the
      first heartbeat a minute or more after the last failure opens it once that is possible,
      and one that is no longer configured is forgotten. */
  lemma RecoversWithinAMinute(steps: seq<Step>, b: Bind, now: int, opens: Opens)
    requires b in Run(Idle(), steps).retry && now >= Run(Idle(), steps).retry[b].lastFailedAt + 60
    ensures var m := Run(Idle(), steps);
            var m' := Run(Idle(), steps + [Heartbeat(now, opens)]);
            && (b in m.binds && opens(b) ==> b in m'.listening && b !in m'.retry)
            && (b !in m.binds ==> b !in m'.listening && b !in m'.retry)
  {
    RunInv(steps);
    assert (steps + [Heartbeat(now, opens)])[..|steps|] == steps;
  }

  /** What a reload does to one listener, configured before or not. */
  lemma ReloadExactly(m: Machine, binds: seq<Bind>, refuses: Bind -> bool, now: int, opens: Opens, b: Bind)
    ensures var m' := Next(m, Reload(binds, refuses, now, opens));
            var tried := b in binds && b !in m.listening && !refuses(b);
            && (b in m'.listening <==> b in binds && (b in m.listening || (!refuses(b) && opens(b))))
            && (b in m'.retry <==> if tried then !opens(b) else b in m.retry)
            && (b in m'.retry ==>
                  m'.retry[b] == (if !tried then m.retry[b]
                                  else if b !in m.retry then Retry(1, now + 1, now, now)
                                  else var n := m.retry[b].attempts + 1;
                                       Retry(n, now + Backoff(n), m.retry[b].firstFailedAt, now)))
            && m'.binds == binds
  {
  }

  /** What a heartbeat does to one listener: nothing before its time; then it is forgotten if
      no longer configured, opened if that is possible, and otherwise waits longer. */
  lemma HeartbeatExactly(m: Machine, now: int, opens: Opens, b: Bind)
    ensures var m' := Next(m, Heartbeat(now, opens));
            var due := b in m.retry && now >= m.retry[b].nextAt;
            && (b in m'.listening <==> b in m.listening || (due && b in m.binds && opens(b)))
            && (b in m'.retry <==> b in m.retry && !(due && (b !in m.binds || opens(b))))
            && (b in m'.retry ==>
                  m'.retry[b] == (if !due then m.retry[b]
                                  else var n := m.retry[b].attempts + 1;
                                       Retry(n, now + Backoff(n), m.retry[b].firstFailedAt, now)))
            && m'.binds == m.binds
  {
  }

  // ---------------------------------------------------------------- pacing

  /** The waits before the `n`-th failure, added up. */
  function Waited(n: nat): nat {
    if n <= 1 then 0 else Waited(n - 1) + Backoff(n - 1)
  }

  lemma {:induction false} WaitedClosedForm(n: nat)
    requires n >= 7
    ensures Waited(n) == 63 + 60 * (n - 7)
  {
    assert Pow2(6) == 2 * Pow2(5) && Pow2(5) == 2 * Pow2(4) && Pow2(4) == 2 * Pow2(3);
    if n == 7 {
      assert Waited(7) == Waited(4) + Backoff(4) + Backoff(5) + Backoff(6);
      assert Waited(4) == Backoff(1) + Backoff(2) + Backoff(3);
    } else {
      WaitedClosedForm(n - 1);
    }
  }

  /** The failures so far came no faster than the backoff allows. */
  predicate Paced(r: Retry) {
    r.lastFailedAt >= r.firstFailedAt + Waited(r.attempts)
  }

  /** A due retry keeps the pace. */
  lemma DueKeepsPace(r: Retry, now: int)
    requires Paced(r) && r.attempts >= 1 && r.nextAt == r.lastFailedAt + Backoff(r.attempts) && r.IsDue(now)
    ensures Paced(r.FailedAgain(now))
  {
  }

  ghost predicate PacedFor(m: Machine, b: Bind, first: int) {
    b in m.retry ==>
      m.retry[b].firstFailedAt == first && m.retry[b].attempts >= 1 && Paced(m.retry[b])
      && m.retry[b].nextAt == m.retry[b].lastFailedAt + Backoff(m.retry[b].attempts)
  }

  lemma {:induction false} HeartbeatsPaced(m: Machine, b: Bind, first: int, beats: seq<Step>)
    requires PacedFor(m, b, first)
    requires forall i :: 0 <= i < |beats| ==> beats[i].Heartbeat?
    ensures PacedFor(Run(m, beats), b, first)
    ensures b !in m.retry ==> b !in Run(m, beats).retry
  {
    if beats != [] {
      var init, last := beats[..|beats| - 1], beats[|beats| - 1];
      HeartbeatsPaced(m, b, first, init);
      var v := Run(m, init);
      if b in v.retry && v.retry[b].IsDue(last.now) {
        DueKeepsPace(v.retry[b], last.now);
      }
    }
  }

  /** After a first failure, however often the heartbeat comes and whenever: as long as no
      reload interferes, the n-th failure comes no earlier than the first plus the sum of the
      backoffs, which from the seventh on is 63 + 60 (n - 7) seconds. */
  lemma RetriesArePaced(m: Machine, binds: seq<Bind>, refuses: Bind -> bool, now: int, opens: Opens, b: Bind, beats: seq<Step>)
    requires b in binds && b !in m.listening && b !in m.retry && !refuses(b) && !opens(b)
    requires forall i :: 0 <= i < |beats| ==> beats[i].Heartbeat?
    ensures var m' := Run(Reloaded(m, binds, refuses, now, opens), beats);
            b in m'.retry ==>
              var r := m'.retry[b];
              && r.firstFailedAt == now
              && r.lastFailedAt >= now + Waited(r.attempts)
              && (r.attempts >= 7 ==> r.lastFailedAt >= now + 63 + 60 * (r.attempts - 7))
  {
    var start := Reloaded(m, binds, refuses, now, opens);
    assert start.retry[b] == FirstFailure(now);
    HeartbeatsPaced(start, b, now, beats);
    var m' := Run(start, beats);
    if b in m'.retry && m'.retry[b].attempts >= 7 {
      WaitedClosedForm(m'.retry[b].attempts);
    }
  }

  /** A reload that fails to open a queued listener before its time has come. */
  predicate EarlyReload(m: Machine, step: Step, b: Bind) {
    step.Reload? && b in m.retry && b in step.binds && !step.refuses(b) && !step.opens(b) && !m.retry[b].IsDue(step.now)
  }

  /** If a listener that was queued has failed again, it was after its backoff. */
  predicate GapKept(m: Machine, m': Machine, b: Bind) {
    b in m.retry && b in m'.retry && m'.retry[b].attempts > m.retry[b].attempts ==>
      m'.retry[b].lastFailedAt >= m.retry[b].lastFailedAt + Backoff(m.retry[b].attempts)
  }

  lemma StepGap(m: Machine, step: Step, b: Bind)
    requires Inv(m)
    ensures GapKept(m, Next(m, step), b) <==> !EarlyReload(m, step, b)
  {
  }

  lemma RunStep(steps: seq<Step>, n: nat)
    requires n < |steps|
    ensures Run(Idle(), steps[..n + 1]) == Next(Run(Idle(), steps[..n]), steps[n])
  {
    assert steps[..n + 1][..n] == steps[..n];
  }

  predicate EarlyAt(steps: seq<Step>, n: nat, b: Bind)
    requires n < |steps|
  {
    EarlyReload(Run(Idle(), steps[..n]), steps[n], b)
  }

  predicate GapKeptAt(steps: seq<Step>, n: nat, b: Bind)
    requires n < |steps|
  {
    GapKept(Run(Idle(), steps[..n]), Run(Idle(), steps[..n + 1]), b)
  }

  ghost predicate NoEarlyReload(steps: seq<Step>, b: Bind) {
    forall n: nat :: n < |steps| ==> !EarlyAt(steps, n, b)
  }

  lemma GapAt(steps: seq<Step>, n: nat, b: Bind)
    requires n < |steps|
    ensures GapKeptAt(steps, n, b) <==> !EarlyAt(steps, n, b)
  {
    RunInv(steps[..n]);
    RunStep(steps, n);
    StepGap(Run(Idle(), steps[..n]), steps[n], b);
  }

  /** In any run of reloads and heartbeats, every further failure of a queued listener comes
      after its backoff exactly when no reload fails to open it before its time. */
  lemma GapsKeptExactly(steps: seq<Step>, b: Bind)
    ensures (forall n: nat :: n < |steps| ==> GapKeptAt(steps, n, b)) <==> NoEarlyReload(steps, b)
  {
    forall n: nat | n < |steps| ensures GapKeptAt(steps, n, b) <==> !EarlyAt(steps, n, b) {
      GapAt(steps, n, b);
    }
  }

  /** The pace from whatever first failure the entry remembers. */
  ghost predicate PacedEntry(m: Machine, b: Bind) {
    b in m.retry ==> m.retry[b].attempts >= 1 && Paced(m.retry[b])
  }

  lemma StepPaced(m: Machine, step: Step, b: Bind)
    requires Inv(m) && PacedEntry(m, b) && !EarlyReload(m, step, b)
    ensures PacedEntry(Next(m, step), b)
  {
    if b in m.retry && m.retry[b].IsDue(step.now) {
      DueKeepsPace(m.retry[b], step.now);
    }
  }

  lemma {:induction false} NoEarlyReloadPaced(steps: seq<Step>, b: Bind)
    requires NoEarlyReload(steps, b)
    ensures PacedEntry(Run(Idle(), steps), b)
  {
    if steps != [] {
      var init := steps[..|steps| - 1];
      forall n: nat | n < |init| ensures !EarlyAt(init, n, b) {
        assert init[..n] == steps[..n];
        assert !EarlyAt(steps, n, b);
      }
      NoEarlyReloadPaced(init, b);
      RunInv(init);
      assert !EarlyAt(steps, |init|, b);
      StepPaced(Run(Idle(), init), steps[|steps| - 1], b);
    }
  }

  /** In every run in which no reload fails to open the listener early, with any number of
      reloads otherwise, the n-th failure in a row comes no earlier than the first plus the
      backoffs, from the seventh on 63 + 60 (n - 7) seconds. */
  lemma FailuresPacedAcrossReloads(steps: seq<Step>, b: Bind)
    requires NoEarlyReload(steps, b)
    ensures var m := Run(Idle(), steps);
            b in m.retry ==>
              var r := m.retry[b];
              && r.lastFailedAt >= r.firstFailedAt + Waited(r.attempts)
              && (r.attempts >= 7 ==> r.lastFailedAt >= r.firstFailedAt + 63 + 60 * (r.attempts - 7))
  {
    NoEarlyReloadPaced(steps, b);
    var m := Run(Idle(), steps);
    if b in m.retry && m.retry[b].attempts >= 7 {
      WaitedClosedForm(m.retry[b].attempts);
    }
  }

  /** An early reload does break the pace: the same configuration loaded twice at one instant
      makes two failures at that instant, where the backoff asks for a second in between. */
  lemma EarlyReloadBreaksPace(b: Bind, now: int, refuses: Bind -> bool, opens: Opens)
    requires !refuses(b) && !opens(b)
    ensures var m := Run(Idle(), [Reload([b], refuses, now, opens)] + [Reload([b], refuses, now, opens)]);
            b in m.retry && m.retry[b].attempts == 2 && m.retry[b].lastFailedAt == m.retry[b].firstFailedAt && !Paced(m.retry[b])
  {
    var step := Reload([b], refuses, now, opens);
    var steps := [step] + [step];
    assert steps[..0] == [];
    RunStep(steps, 0);
    var m1 := Run(Idle(), steps[..1]);
    assert m1.retry[b] == FirstFailure(now) && b !in m1.listening;
    RunStep(steps, 1);
    assert steps[..2] == steps;
  }
}
