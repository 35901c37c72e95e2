/** Folding of identical queries in the cache middleware (src/dns_mw_cache.rs): the first
    task to ask for a key leads and runs the query downstream, later ones subscribe to its
    broadcast channel.  Each section under the in-flight lock is one atomic step; a task may
    be dropped (cancelled or unwound by a panic) wherever it waits, and then its guard runs.

    Channels keep, as history, the key they were opened for and the task that opened them. */
module SingleFlight {
  import opened Dns

  /** What a task returns: a reply, an error of its own, or `NoConnections`. */
  datatype Outcome<R> = Ok(reply: R) | Err(error: nat) | NoConnections

  datatype Channel<K, R> = Channel(key: K, leader: nat, open: bool, sent: Option<Outcome<R>>)

  datatype Task<K, R> =
    | Leading(key: K, channel: nat)
    | Following(key: K, channel: nat)
    | Finished(key: K, channel: nat, outcome: Outcome<R>)
    | Dropped(key: K, channel: nat)

  datatype State<K, R> = State(
    inflight: map<K, nat>,
    channels: seq<Channel<K, R>>,
    tasks: map<nat, Task<K, R>>)

  datatype Step<K, R> =
    | Arrive(task: nat, key: K)
    | Finish(task: nat, outcome: Outcome<R>)
    | Receive(task: nat)
    | Drop(task: nat)

  function Initial<K, R>(): State<K, R> {
    State(map[], [], map[])
  }

  /** Subscribe when the key is in flight, lead otherwise: one critical section. */
  function DoArrive<K(==), R>(s: State<K, R>, t: nat, k: K): State<K, R> {
    if t in s.tasks then s
    else if k in s.inflight then s.(tasks := s.tasks[t := Following(k, s.inflight[k])])
    else
      var c := |s.channels|;
      State(s.inflight[k := c], s.channels + [Channel(k, t, true, None)], s.tasks[t := Leading(k, c)])
  }

  /** Remove whatever is registered under the key and send to it; the sender then goes away. */
  function Publish<K(==), R>(s: State<K, R>, k: K, o: Outcome<R>): State<K, R> {
    if k in s.inflight && s.inflight[k] < |s.channels| then
      var c := s.inflight[k];
      s.(inflight := s.inflight - {k}, channels := s.channels[c := s.channels[c].(open := false, sent := Some(o))])
    else s.(inflight := s.inflight - {k})
  }

  /** The leader comes back from downstream, publishes its result and disarms its guard. */
  function DoFinish<K(==), R>(s: State<K, R>, t: nat, o: Outcome<R>): State<K, R> {
    if t in s.tasks && s.tasks[t].Leading? then
      var task := s.tasks[t];
      var s1 := Publish(s, task.key, o);
      s1.(tasks := s1.tasks[t := Finished(task.key, task.channel, o)])
    else s
  }

  /** A follower wakes up: with the value, or with an error when the sender went away silently. */
  function DoReceive<K, R>(s: State<K, R>, t: nat): State<K, R> {
    if t in s.tasks && s.tasks[t].Following? && s.tasks[t].channel < |s.channels| then
      var task := s.tasks[t];
      var ch := s.channels[task.channel];
      if ch.sent.Some? then s.(tasks := s.tasks[t := Finished(task.key, task.channel, ch.sent.value)])
      else if !ch.open then s.(tasks := s.tasks[t := Finished(task.key, task.channel, NoConnections)])
      else s
    else s
  }

  /** The task is dropped.  A leader's guard is still armed and publishes `NoConnections`. */
  function DoDrop<K(==), R>(s: State<K, R>, t: nat): State<K, R> {
    if t !in s.tasks then s
    else
      match s.tasks[t]
      case Leading(k, c) =>
        var s1 := Publish(s, k, NoConnections);
        s1.(tasks := s1.tasks[t := Dropped(k, c)])
      case Following(k, c) => s.(tasks := s.tasks[t := Dropped(k, c)])
      case _ => s
  }

  function Next<K(==), R>(s: State<K, R>, step: Step<K, R>): State<K, R> {
    match step
    case Arrive(t, k) => DoArrive(s, t, k)
    case Finish(t, o) => DoFinish(s, t, o)
    case Receive(t) => DoReceive(s, t)
    case Drop(t) => DoDrop(s, t)
  }

  function Run<K(==), R>(steps: seq<Step<K, R>>): State<K, R> {
    if steps == [] then Initial()
    else Next(Run(steps[..|steps| - 1]), steps[|steps| - 1])
  }

  // ---------------------------------------------------------------- the invariant

  ghost predicate Leads<K, R>(s: State<K, R>, t: nat, k: K, c: nat) {
    t in s.tasks && s.tasks[t] == Leading(k, c)
  }

  /** An open channel belongs to its active leader; a closed one holds the leader's outcome. */
  ghost predicate ChannelOk<K, R>(s: State<K, R>, c: nat)
    requires c < |s.channels|
  {
    var ch := s.channels[c];
    && ch.leader in s.tasks
    && (if ch.open then
          && s.tasks[ch.leader] == Leading(ch.key, c)
          && ch.sent.None?
          && ch.key in s.inflight && s.inflight[ch.key] == c
        else
          && ch.sent.Some?
          && (s.tasks[ch.leader] == Finished(ch.key, c, ch.sent.value)
              || (s.tasks[ch.leader] == Dropped(ch.key, c) && ch.sent == Some(NoConnections))))
  }

  ghost predicate TaskOk<K, R>(s: State<K, R>, t: nat)
    requires t in s.tasks
  {
    var task := s.tasks[t];
    && task.channel < |s.channels|
    && s.channels[task.channel].key == task.key
    && (task.Leading? ==> s.channels[task.channel].leader == t && s.channels[task.channel].open)
    && (task.Following? ==> s.channels[task.channel].leader != t)
    && (task.Finished? ==> s.channels[task.channel].sent == Some(task.outcome))
  }

  ghost predicate Inv<K(!new), R>(s: State<K, R>) {
    && (forall c: nat :: c < |s.channels| ==> ChannelOk(s, c))
    && (forall t :: t in s.tasks ==> TaskOk(s, t))
    && (forall k :: k in s.inflight ==> s.inflight[k] < |s.channels|
                                        && s.channels[s.inflight[k]].open && s.channels[s.inflight[k]].key == k)
  }

  lemma NextChannel<K(!new), R>(s: State<K, R>, step: Step<K, R>, c: nat)
    requires Inv(s) && c < |Next(s, step).channels|
    ensures ChannelOk(Next(s, step), c)
  {
    assert c < |s.channels| ==> ChannelOk(s, c);
    if step.task in s.tasks {
      assert TaskOk(s, step.task);
      assert ChannelOk(s, s.tasks[step.task].channel);
    }
  }

  lemma NextTask<K(!new), R>(s: State<K, R>, step: Step<K, R>, t: nat)
    requires Inv(s) && t in Next(s, step).tasks
    ensures TaskOk(Next(s, step), t)
  {
    assert t in s.tasks ==> TaskOk(s, t) && ChannelOk(s, s.tasks[t].channel);
    if step.task in s.tasks {
      assert TaskOk(s, step.task);
      assert ChannelOk(s, s.tasks[step.task].channel);
    }
    if step.Arrive? && step.key in s.inflight {
      assert ChannelOk(s, s.inflight[step.key]);
    }
  }

  lemma NextInv<K(!new), R>(s: State<K, R>, step: Step<K, R>)
    requires Inv(s)
    ensures Inv(Next(s, step))
  {
    var s' := Next(s, step);
    if step.task in s.tasks {
      assert TaskOk(s, step.task);
      assert ChannelOk(s, s.tasks[step.task].channel);
    }
    forall c: nat | c < |s'.channels| ensures ChannelOk(s', c) {
      NextChannel(s, step, c);
    }
    forall t | t in s'.tasks ensures TaskOk(s', t) {
      NextTask(s, step, t);
    }
  }

  lemma {:induction false} RunInv<K(!new), R>(steps: seq<Step<K, R>>)
    ensures Inv(Run(steps))
  {
    if steps != [] {
      RunInv(steps[..|steps| - 1]);
      NextInv(Run(steps[..|steps| - 1]), steps[|steps| - 1]);
    }
  }

  // ---------------------------------------------------------------- what every run guarantees

  /** In every reachable state a key is in flight exactly while one task leads it, that
      leader is unique, and no registered channel has been used. */
  lemma OneLeaderPerKey<K(!new), R>(steps: seq<Step<K, R>>)
    ensures var s := Run(steps);
            && (forall k :: k in s.inflight <==> exists t, c :: Leads(s, t, k, c))
            && (forall t1, t2, k, c1, c2 :: Leads(s, t1, k, c1) && Leads(s, t2, k, c2) ==> t1 == t2 && c1 == c2)
            && (forall t, k, c :: Leads(s, t, k, c) ==> k in s.inflight && s.inflight[k] == c)
  {
    RunInv(steps);
    var s := Run(steps);
    forall k | k in s.inflight ensures exists t, c :: Leads(s, t, k, c) {
      assert ChannelOk(s, s.inflight[k]);
      assert Leads(s, s.channels[s.inflight[k]].leader, k, s.inflight[k]);
    }
    forall t: nat, k, c: nat | Leads(s, t, k, c)
      ensures k in s.inflight && s.inflight[k] == c && s.channels[c].leader == t
    {
      assert TaskOk(s, t);
      assert ChannelOk(s, c);
    }
  }

  /** Every follower gets its leader's outcome and no other: the leader's own result, or
      `NoConnections` when the leader was dropped.  A follower still waiting has either a
      leader at work or a value ready, never a dead channel. */
  lemma FollowersShareTheLeader<K(!new), R>(steps: seq<Step<K, R>>, t: nat)
    requires t in Run(steps).tasks
    ensures var s := Run(steps);
            var c := s.tasks[t].channel;
            c < |s.channels| && s.channels[c].leader in s.tasks &&
            var leader := s.tasks[s.channels[c].leader];
            && leader.channel == c && leader.key == s.tasks[t].key
            && (s.tasks[t].Finished? ==>
                  || (leader.Finished? && leader.outcome == s.tasks[t].outcome)
                  || (leader.Dropped? && s.tasks[t].outcome == NoConnections))
            && (s.tasks[t].Following? ==> (if leader.Leading? then s.channels[c].open else s.channels[c].sent.Some?))
  {
    RunInv(steps);
    var s := Run(steps);
    assert TaskOk(s, t);
    assert ChannelOk(s, s.tasks[t].channel);
  }

  /** Waking up is enough: once the leader is gone, the follower's next step ends it with
      exactly what the leader left behind. */
  lemma NoFollowerStranded<K(!new), R>(steps: seq<Step<K, R>>, t: nat)
    requires t in Run(steps).tasks && Run(steps).tasks[t].Following?
    requires !exists l :: Leads(Run(steps), l, Run(steps).tasks[t].key, Run(steps).tasks[t].channel)
    ensures var s := Run(steps);
            var c := s.tasks[t].channel;
            var s' := Run(steps + [Receive(t)]);
            && c < |s.channels| && s.channels[c].sent.Some?
            && s'.tasks == s.tasks[t := Finished(s.tasks[t].key, c, s.channels[c].sent.value)]
  {
    RunInv(steps);
    var s := Run(steps);
    assert TaskOk(s, t);
    assert ChannelOk(s, s.tasks[t].channel);
    if s.channels[s.tasks[t].channel].open {
      assert Leads(s, s.channels[s.tasks[t].channel].leader, s.tasks[t].key, s.tasks[t].channel);
    }
    assert (steps + [Receive(t)])[..|steps|] == steps;
  }

  /** `s'` keeps what `s` has settled: values once sent, tasks once ended, channels' leaders. */
  ghost predicate Extends<K, R>(s: State<K, R>, s': State<K, R>) {
    && |s.channels| <= |s'.channels|
    && (forall c :: 0 <= c < |s.channels| ==>
          && s'.channels[c].leader == s.channels[c].leader && s'.channels[c].key == s.channels[c].key
          && (s.channels[c].sent.Some? ==> s'.channels[c].sent == s.channels[c].sent))
    && (forall t :: t in s.tasks ==>
          && t in s'.tasks && s'.tasks[t].channel == s.tasks[t].channel
          && (s.tasks[t].Finished? || s.tasks[t].Dropped? ==> s'.tasks[t] == s.tasks[t]))
  }

  lemma NextExtends<K(!new), R>(s: State<K, R>, step: Step<K, R>)
    requires Inv(s)
    ensures Extends(s, Next(s, step))
  {
    if step.task in s.tasks {
      assert TaskOk(s, step.task);
      assert ChannelOk(s, s.tasks[step.task].channel);
    }
  }

  lemma ExtendsTransitive<K, R>(s: State<K, R>, s1: State<K, R>, s2: State<K, R>)
    requires Extends(s, s1) && Extends(s1, s2)
    ensures Extends(s, s2)
  {
  }

  lemma RunSnoc<K(!new), R>(steps: seq<Step<K, R>>, step: Step<K, R>)
    ensures Run(steps + [step]) == Next(Run(steps), step)
  {
    assert (steps + [step])[..|steps|] == steps;
  }

  lemma RunExtends<K(!new), R>(steps: seq<Step<K, R>>, step: Step<K, R>)
    ensures Extends(Run(steps), Run(steps + [step]))
  {
    RunInv(steps);
    RunSnoc(steps, step);
    NextExtends(Run(steps), step);
  }

  /** Outcomes are final, whatever happens next. */
  lemma {:induction false} OutcomesAreFinal<K(!new), R>(steps: seq<Step<K, R>>, more: seq<Step<K, R>>)
    ensures Extends(Run(steps), Run(steps + more))
  {
    if more == [] {
      assert steps + more == steps;
    } else {
      var init, last := more[..|more| - 1], more[|more| - 1];
      OutcomesAreFinal(steps, init);
      RunExtends(steps + init, last);
      assert steps + more == steps + init + [last];
      ExtendsTransitive(Run(steps), Run(steps + init), Run(steps + more));
    }
  }

  // ---------------------------------------------------------------- where outcomes come from

  /** At step `i` task `l`, leading channel `c`, came back with `o`, or was dropped, which
      counts as `NoConnections`. */
  ghost predicate EndedAt<K(!new), R(!new)>(steps: seq<Step<K, R>>, i: nat, l: nat, c: nat, o: Outcome<R>)
    requires i < |steps|
  {
    && (exists k :: Leads(Run(steps[..i]), l, k, c))
    && (steps[i] == Finish(l, o) || (steps[i] == Drop(l) && o == NoConnections))
  }

  /** What channel `c` carries is what its leader's query gave. */
  ghost predicate Carries<K(!new), R(!new)>(steps: seq<Step<K, R>>, c: nat, l: nat, o: Outcome<R>) {
    exists i: nat :: i < |steps| && EndedAt(steps, i, l, c, o)
  }

  lemma CarriesMore<K(!new), R(!new)>(steps: seq<Step<K, R>>, step: Step<K, R>, c: nat, l: nat, o: Outcome<R>)
    requires Carries(steps, c, l, o)
    ensures Carries(steps + [step], c, l, o)
  {
    hide Run;
    var i: nat :| i < |steps| && EndedAt(steps, i, l, c, o);
    assert (steps + [step])[..i] == steps[..i];
    assert EndedAt(steps + [step], i, l, c, o);
  }

  /** A step that fills a channel is its leader's finish, with that very value, or its drop. */
  lemma SentByLeader<K(!new), R(!new)>(s: State<K, R>, step: Step<K, R>, c: nat)
    requires Inv(s) && c < |Next(s, step).channels| && Next(s, step).channels[c].sent.Some?
    ensures c < |s.channels| && Next(s, step).channels[c].leader == s.channels[c].leader
    ensures s.channels[c].sent == Next(s, step).channels[c].sent
            || (Leads(s, step.task, s.channels[c].key, c) && s.channels[c].leader == step.task
                && (step == Finish(step.task, Next(s, step).channels[c].sent.value)
                    || (step.Drop? && Next(s, step).channels[c].sent.value == NoConnections)))
  {
    assert c < |s.channels| ==> ChannelOk(s, c);
    if step.task in s.tasks {
      assert TaskOk(s, step.task);
      assert ChannelOk(s, s.tasks[step.task].channel);
    }
  }

  lemma {:induction false} SentCarries<K(!new), R(!new)>(steps: seq<Step<K, R>>, c: nat)
    requires c < |Run(steps).channels| && Run(steps).channels[c].sent.Some?
    ensures Carries(steps, c, Run(steps).channels[c].leader, Run(steps).channels[c].sent.value)
  {
    hide Next;
    if steps != [] {
      var init, last := steps[..|steps| - 1], steps[|steps| - 1];
      assert steps == init + [last];
      RunInv(init);
      SentByLeader(Run(init), last, c);
      var l, o := Run(steps).channels[c].leader, Run(steps).channels[c].sent.value;
      if Run(init).channels[c].sent.Some? && Run(init).channels[c].sent == Run(steps).channels[c].sent {
        SentCarries(init, c);
        CarriesMore(init, last, c, l, o);
      } else {
        assert EndedAt(steps, |init|, l, c, o);
      }
    }
  }

  /** Nobody makes an outcome up: whoever ended on a channel, leader or follower, ended with
      what the leader's own query returned in a step of the run that the leader took while it
      led, or with `NoConnections` after a step that dropped that leader. */
  lemma OutcomesComeFromQueries<K(!new), R(!new)>(steps: seq<Step<K, R>>, t: nat)
    requires t in Run(steps).tasks && Run(steps).tasks[t].Finished?
    ensures var task := Run(steps).tasks[t];
            && task.channel < |Run(steps).channels|
            && Carries(steps, task.channel, Run(steps).channels[task.channel].leader, task.outcome)
  {
    RunInv(steps);
    assert TaskOk(Run(steps), t);
    SentCarries(steps, Run(steps).tasks[t].channel);
  }

  /** A query that comes back while its task leads is what the task ends with, what its
      channel carries, and what everybody on that channel ends with, for good. */
  lemma QueriesReachEveryone<K(!new), R(!new)>(before: seq<Step<K, R>>, t: nat, k: K, c: nat, o: Outcome<R>, after: seq<Step<K, R>>)
    requires Leads(Run(before), t, k, c)
    ensures var s := Run(before + [Finish(t, o)] + after);
            && c < |s.channels| && s.channels[c].sent == Some(o)
            && t in s.tasks && s.tasks[t] == Finished(k, c, o)
            && (forall f :: f in s.tasks && s.tasks[f].Finished? && s.tasks[f].channel == c ==> s.tasks[f].outcome == o)
  {
    RunInv(before);
    assert TaskOk(Run(before), t);
    assert ChannelOk(Run(before), c);
    RunSnoc(before, Finish(t, o));
    OutcomesAreFinal(before + [Finish(t, o)], after);
    RunInv(before + [Finish(t, o)] + after);
    var s := Run(before + [Finish(t, o)] + after);
    forall f | f in s.tasks && s.tasks[f].Finished? && s.tasks[f].channel == c ensures s.tasks[f].outcome == o {
      assert TaskOk(s, f);
    }
  }

  /** A leader that is dropped leaves `NoConnections` for its followers and frees the key. */
  lemma DroppedLeaderTellsEveryone<K(!new), R(!new)>(before: seq<Step<K, R>>, t: nat, k: K, c: nat, after: seq<Step<K, R>>)
    requires Leads(Run(before), t, k, c)
    ensures var s := Run(before + [Drop(t)] + after);
            && c < |s.channels| && s.channels[c].sent == Some(NoConnections)
            && t in s.tasks && s.tasks[t] == Dropped(k, c)
            && (forall f :: f in s.tasks && s.tasks[f].Finished? && s.tasks[f].channel == c ==> s.tasks[f].outcome == NoConnections)
    ensures k !in Run(before + [Drop(t)]).inflight
  {
    RunInv(before);
    assert TaskOk(Run(before), t);
    assert ChannelOk(Run(before), c);
    RunSnoc(before, Drop(t));
    OutcomesAreFinal(before + [Drop(t)], after);
    RunInv(before + [Drop(t)] + after);
    var s := Run(before + [Drop(t)] + after);
    forall f | f in s.tasks && s.tasks[f].Finished? && s.tasks[f].channel == c ensures s.tasks[f].outcome == NoConnections {
      assert TaskOk(s, f);
    }
  }

  /** Whoever arrives takes part: it follows the task that leads the key, or leads it itself
      when nobody does.  Nobody else's task is touched. */
  lemma ArrivalJoins<K(!new), R(!new)>(steps: seq<Step<K, R>>, t: nat, k: K)
    requires t !in Run(steps).tasks
    ensures var s, s' := Run(steps), Run(steps + [Arrive(t, k)]);
            && (forall l, c :: Leads(s, l, k, c) ==> s' == s.(tasks := s.tasks[t := Following(k, c)]))
            && ((forall l, c :: !Leads(s, l, k, c)) ==>
                  Leads(s', t, k, |s.channels|) && s'.tasks == s.tasks[t := Leading(k, |s.channels|)])
  {
    OneLeaderPerKey(steps);
    RunSnoc(steps, Arrive(t, k));
  }

  /** A step is the business of one task; a follower that is dropped concerns nobody else. */
  lemma OneTaskPerStep<K(!new), R(!new)>(steps: seq<Step<K, R>>, step: Step<K, R>)
    ensures var s, s' := Run(steps), Run(steps + [step]);
            && (forall t :: t in s'.tasks && t != step.task ==> t in s.tasks && s'.tasks[t] == s.tasks[t])
            && (step.Drop? && step.task in s.tasks && s.tasks[step.task].Following? ==>
                  s' == s.(tasks := s.tasks[step.task := Dropped(s.tasks[step.task].key, s.tasks[step.task].channel)]))
  {
    RunSnoc(steps, step);
  }
}
