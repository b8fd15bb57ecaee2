/** What one call of the agent pool does, in every run: which agent it hands out, and which it closes. */
module PoolCalls {
  import opened Wrappers
  import opened Characters
  import opened AgentPool

  /** The key: the service, a line feed, and what the agent is made for. */
  lemma {:induction false} KeyIs(service: Text, rest: Text)
    ensures PoolKey(service, rest) == service + [10] + rest
  {
  }

  /** A call for a key that is live hands out the agent that is there; none is made and none is closed. */
  ghost predicate Reuses(p: Pool, q: Pool, agent: nat, key: Text) {
    && Find(p.agents, key) == Some(agent) && Find(q.agents, key) == Some(agent)
    && q.created == p.created && q.closed == p.closed
    && LiveKeys(q.agents) == LiveKeys(p.agents)
  }

  /**
   The agent a call for a new key closes: the one the service had under
   another key, or, when it had none and 256 are live, the one used longest
   ago; otherwise none.
   */
  function Leaving(p: Pool, service: Text): seq<nat> {
    if service in p.keys then
      (match Find(p.agents, p.keys[service])
       case Some(agent) => [agent]
       case None => [])
    else if |p.agents| == 256 then [p.agents[0].agent]
    else []
  }

  /** A call for a key that is not live makes one agent, the next in number, and closes that one. */
  ghost predicate Makes(p: Pool, q: Pool, agent: nat, service: Text, key: Text) {
    && Find(p.agents, key).None? && Find(q.agents, key) == Some(agent)
    && agent == p.created && q.created == p.created + 1
    && q.closed == p.closed + Leaving(p, service)
  }

  /** Between calls a live key is the key of the service that owns it. */
  lemma {:induction false} LiveIsBound(age: Text -> int, p: Pool, service: Text, key: Text)
    requires Inv(age, p) && Owns(service, key)
    ensures Find(p.agents, key).Some? <==> service in p.keys && p.keys[service] == key
    ensures service in p.keys ==> Find(p.agents, p.keys[service]).Some?
  {
    FindLive(p.agents, key);
    if key in p.keys.Values {
      var s :| s in p.keys && p.keys[s] == key;
      OneOwner(s, service, key);
    }
    if service in p.keys {
      FindLive(p.agents, p.keys[service]);
    }
  }

  lemma {:induction false} HitReuses(older: Text -> int, age: Text -> int, p: Pool, service: Text, key: Text)
    requires Inv(older, p) && Later(older, age, key) && Owns(service, key) && Find(p.agents, key).Some?
    ensures var (q, agent) := Fetched(p, service, key); Reuses(p, q, agent, key)
  {
    LiveIsBound(older, p, service, key);
    TouchFacts(older, age, Bound(p, service, key), key, Find(p.agents, key).value);
  }

  lemma {:induction false} MissMakes(older: Text -> int, age: Text -> int, p: Pool, service: Text, key: Text)
    requires Inv(older, p) && Later(older, age, key) && Owns(service, key) && Find(p.agents, key).None?
    ensures var (q, agent) := Fetched(p, service, key); Makes(p, q, agent, service, key)
  {
    FetchKeeps(older, age, p, service, key);
    NotInRest(older, p, service, key);
    BoundCloses(older, p, service, key);
    ClosesPast(Bound(p, service, key), key);
  }

  /** What is closed before the new agent is made, which leaves room for it. */
  lemma {:induction false} BoundCloses(age: Text -> int, p: Pool, service: Text, key: Text)
    requires Inv(age, p) && Owns(service, key) && Find(p.agents, key).None?
    ensures var b := Bound(p, service, key);
      && b.created == p.created
      && if service in p.keys then |b.agents| < 256 && b.closed == p.closed + Leaving(p, service)
         else b.agents == p.agents && b.closed == p.closed && |b.agents| <= 256
  {
    LiveIsBound(age, p, service, key);
    if service in p.keys {
      WithoutAgents(p.agents, p.keys[service]);
    }
  }

  /** The key is not live after another one has been dropped either. */
  lemma {:induction false} NotInRest(age: Text -> int, p: Pool, service: Text, key: Text)
    requires Inv(age, p) && Find(p.agents, key).None?
    ensures Find(Bound(p, service, key).agents, key).None?
  {
    DropFacts(age, p, service, key);
    FindLive(p.agents, key);
    FindLive(Bound(p, service, key).agents, key);
  }

  /** Adding one agent to at most 256 closes the oldest if there were 256. */
  lemma {:induction false} ClosesPast(b: Pool, key: Text)
    requires |b.agents| <= 256
    ensures var e := Evict(Added(b, key));
      && e.created == b.created + 1
      && e.closed == b.closed + if |b.agents| == 256 then [b.agents[0].agent] else []
  {
    var c := Added(b, key);
    if |b.agents| == 256 {
      assert Evict(c) == EvictOldest(c);
    }
  }

  /** So it is for every call of every run. */
  lemma {:induction false} EveryCallExactly(calls: seq<Call>, service: Text, key: Text)
    requires Owning(calls) && Owns(service, key)
    ensures var p := Run(calls);
      var (q, agent) := Fetched(p, service, key);
      && q == Run(calls + [Call(service, key)])
      && service in q.keys && q.keys[service] == key
      && if Find(p.agents, key).Some? then Reuses(p, q, agent, key) else Makes(p, q, agent, service, key)
  {
    var p := Run(calls);
    var all := calls + [Call(service, key)];
    RunInv(calls);
    assert all[..|calls|] == calls;
    if Find(p.agents, key).Some? {
      HitReuses(Age(calls), Age(all), p, service, key);
    } else {
      MissMakes(Age(calls), Age(all), p, service, key);
    }
    RunInv(all);
    LiveIsBound(Age(all), Fetched(p, service, key).0, service, key);
  }

  /** Two calls in a row for one service and key get one agent. */
  lemma {:induction false} SameAgentAgain(calls: seq<Call>, service: Text, key: Text)
    requires Owning(calls) && Owns(service, key)
    ensures var (q, agent) := Fetched(Run(calls), service, key); Fetched(q, service, key).1 == agent
  {
    var more := calls + [Call(service, key)];
    EveryCallExactly(calls, service, key);
    EveryCallExactly(more, service, key);
  }
}
