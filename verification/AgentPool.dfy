/**
 The pool of pinned TLS agents: an insertion-ordered map from pool key to
 agent and a map from service to its current pool key, kept in step, with
 eviction of the least recently used agent.
 */
module AgentPool {
  import opened Wrappers
  import opened Characters

  const MAX_POOLS: nat := 256
  const NEWLINE: CodeUnit := 10

  /** A live agent; agents are numbered as they are created. */
  datatype Entry = Entry(key: Text, agent: nat)

  datatype Pool = Pool(agents: seq<Entry>, keys: map<Text, Text>, created: nat, closed: seq<nat>)

  const EMPTY: Pool := Pool([], map[], 0, [])

  // ---------------------------------------------------------------------
  // Pool keys
  // ---------------------------------------------------------------------

  /** The key of a service reached at an address with certain pins, which `rest` spells out. */
  function PoolKey(service: Text, rest: Text): Text {
    service + [NEWLINE] + rest
  }

  /** validateServiceId: no control characters, hence no line feed. */
  predicate ServiceName(service: Text) {
    forall i :: 0 <= i < |service| ==> service[i] > 0x1F && service[i] != 0x7F
  }

  ghost predicate Owns(service: Text, key: Text) {
    ServiceName(service) && |service| < |key| && key[..|service|] == service && key[|service|] == NEWLINE
  }

  lemma {:induction false} KeyIsOwned(service: Text, rest: Text)
    requires ServiceName(service)
    ensures Owns(service, PoolKey(service, rest))
  {
  }

  /** A key names its service. */
  lemma {:induction false} OneOwner(s: Text, t: Text, key: Text)
    requires Owns(s, key) && Owns(t, key)
    ensures s == t
  {
  }

  /** Names with a line feed could share a key. */
  lemma {:induction false} LineFeedsWouldCollide(a: Text, b: Text, c: Text)
    ensures PoolKey(a, b + [NEWLINE] + c) == PoolKey(a + [NEWLINE] + b, c)
    ensures a != a + [NEWLINE] + b
  {
  }

  // ---------------------------------------------------------------------
  // The ordered map
  // ---------------------------------------------------------------------

  function Find(es: seq<Entry>, key: Text): Option<nat> {
    if es == [] then None else if es[0].key == key then Some(es[0].agent) else Find(es[1..], key)
  }

  /** Map.delete. */
  function Without(es: seq<Entry>, key: Text): seq<Entry> {
    if es == [] then [] else if es[0].key == key then es[1..] else [es[0]] + Without(es[1..], key)
  }

  function LiveKeys(es: seq<Entry>): (s: set<Text>)
    ensures forall i :: 0 <= i < |es| ==> es[i].key in s
  {
    if es == [] then {} else {es[0].key} + LiveKeys(es[1..])
  }

  function Agents(es: seq<Entry>): multiset<nat> {
    if es == [] then multiset{} else multiset{es[0].agent} + Agents(es[1..])
  }

  /** Least recently used first; in particular keys are distinct. */
  ghost predicate ByAge(age: Text -> int, es: seq<Entry>) {
    es == [] || (ByAge(age, es[1..]) && forall k :: k in LiveKeys(es[1..]) ==> age(es[0].key) < age(k))
  }

  lemma {:induction false} WithoutKeys(age: Text -> int, es: seq<Entry>, key: Text)
    requires ByAge(age, es)
    ensures LiveKeys(Without(es, key)) == LiveKeys(es) - {key}
    ensures ByAge(age, Without(es, key))
    decreases |es|
  {
    if es != [] {
      WithoutKeys(age, es[1..], key);
      var rest := Without(es[1..], key);
      if es[0].key != key {
        assert ([es[0]] + rest)[1..] == rest;
      }
    }
  }

  function One(agent: Option<nat>): multiset<nat> {
    if agent.Some? then multiset{agent.value} else multiset{}
  }

  lemma {:induction false} WithoutAgents(es: seq<Entry>, key: Text)
    ensures Agents(es) == Agents(Without(es, key)) + One(Find(es, key))
    ensures |Without(es, key)| == |es| - |One(Find(es, key))|
    decreases |es|
  {
    if es != [] && es[0].key != key {
      var rest := Without(es[1..], key);
      WithoutAgents(es[1..], key);
      assert ([es[0]] + rest)[1..] == rest;
    }
  }

  lemma {:induction false} FindLive(es: seq<Entry>, key: Text)
    ensures Find(es, key).Some? <==> key in LiveKeys(es)
    decreases |es|
  {
    if es != [] {
      FindLive(es[1..], key);
    }
  }

  lemma {:induction false} SnocFacts(age: Text -> int, es: seq<Entry>, e: Entry)
    requires ByAge(age, es) && forall k :: k in LiveKeys(es) ==> age(k) < age(e.key)
    ensures LiveKeys(es + [e]) == LiveKeys(es) + {e.key}
    ensures ByAge(age, es + [e])
    ensures Find(es + [e], e.key) == Some(e.agent)
    decreases |es|
  {
    if es == [] {
      assert [e][1..] == [];
    } else {
      assert (es + [e])[1..] == es[1..] + [e];
      SnocFacts(age, es[1..], e);
    }
  }

  lemma {:induction false} SameAge(age: Text -> int, older: Text -> int, es: seq<Entry>)
    requires ByAge(older, es) && forall k :: k in LiveKeys(es) ==> age(k) == older(k)
    ensures ByAge(age, es)
    decreases |es|
  {
    if es != [] {
      SameAge(age, older, es[1..]);
    }
  }

  // ---------------------------------------------------------------------
  // One call
  // ---------------------------------------------------------------------

  /** Closes the agent a service used under another key. */
  function DropStale(p: Pool, service: Text, key: Text): Pool {
    if service in p.keys && p.keys[service] != key then
      var stale := Find(p.agents, p.keys[service]);
      p.(agents := Without(p.agents, p.keys[service]),
         closed := if stale.Some? then p.closed + [stale.value] else p.closed)
    else p
  }

  function Forget(keys: map<Text, Text>, key: Text): map<Text, Text> {
    map s | s in keys && keys[s] != key :: keys[s]
  }

  function EvictOldest(p: Pool): Pool
    requires p.agents != []
  {
    p.(agents := p.agents[1..], keys := Forget(p.keys, p.agents[0].key), closed := p.closed + [p.agents[0].agent])
  }

  function Evict(p: Pool): Pool
    decreases |p.agents|
  {
    if |p.agents| > MAX_POOLS then Evict(EvictOldest(p)) else p
  }

  /** The pool with an agent moved to the young end. */
  function Touched(p: Pool, key: Text, agent: nat): Pool {
    p.(agents := Without(p.agents, key) + [Entry(key, agent)])
  }

  /** The pool with a new agent, before any eviction. */
  function Added(p: Pool, key: Text): Pool {
    p.(agents := p.agents + [Entry(key, p.created)], created := p.created + 1)
  }

  /** Refreshes the agent of the key, or makes one. */
  function Obtain(p: Pool, key: Text): (Pool, nat) {
    match Find(p.agents, key)
    case Some(agent) => (Touched(p, key, agent), agent)
    case None => (Evict(Added(p, key)), p.created)
  }

  function Bound(p: Pool, service: Text, key: Text): Pool {
    var dropped := DropStale(p, service, key);
    dropped.(keys := dropped.keys[service := key])
  }

  /** pinnedFetch as far as the maps are concerned, and the agent it hands out. */
  function Fetched(p: Pool, service: Text, key: Text): (Pool, nat) {
    Obtain(Bound(p, service, key), key)
  }

  // ---------------------------------------------------------------------
  // The invariant
  // ---------------------------------------------------------------------

  ghost predicate Owned(keys: map<Text, Text>) {
    forall s :: s in keys ==> Owns(s, keys[s])
  }

  ghost predicate Injective(keys: map<Text, Text>) {
    forall s, t :: s in keys && t in keys && keys[s] == keys[t] ==> s == t
  }

  /** Each of the first `n` numbers once, and no other. */
  ghost predicate OnceEach(all: multiset<nat>, n: nat) {
    forall a: nat :: all[a] == if a < n then 1 else 0
  }

  function LiveAndClosed(p: Pool): multiset<nat> {
    Agents(p.agents) + multiset(p.closed)
  }

  /** Every agent ever created is live or closed, and exactly once one of the two. */
  ghost predicate Accounted(p: Pool) {
    OnceEach(LiveAndClosed(p), p.created)
  }

  /** Holds between calls, and inside one up to the key being served. */
  ghost predicate Sound(age: Text -> int, p: Pool) {
    Owned(p.keys) && Accounted(p) && ByAge(age, p.agents)
  }

  ghost predicate Inv(age: Text -> int, p: Pool) {
    && Sound(age, p)
    && LiveKeys(p.agents) == p.keys.Values
    && Injective(p.keys)
    && |p.agents| <= MAX_POOLS
  }

  lemma {:induction false} OwnedIsInjective(keys: map<Text, Text>)
    requires Owned(keys)
    ensures Injective(keys)
  {
  }

  lemma {:induction false} BoundKeys(keys: map<Text, Text>, service: Text, key: Text)
    requires Owned(keys) && Owns(service, key)
    ensures Owned(keys[service := key])
    ensures keys[service := key].Values == (keys.Values - (if service in keys then {keys[service]} else {})) + {key}
  {
    var bound := keys[service := key];
    OwnedIsInjective(keys);
    forall k
      ensures k in bound.Values <==> (k in keys.Values && !(service in keys && k == keys[service])) || k == key
    {
      if k in bound.Values {
        var s :| s in bound && bound[s] == k;
        assert s != service ==> s in keys && keys[s] == k;
      }
      if k in keys.Values && !(service in keys && k == keys[service]) {
        var s :| s in keys && keys[s] == k;
        assert bound[s] == k;
      }
      assert bound[service] == key;
    }
  }

  /** An agent moved from the live to the closed ones. */
  lemma {:induction false} StaleCloses(p: Pool, key: Text)
    ensures var stale := Find(p.agents, key);
      Agents(Without(p.agents, key)) + multiset(if stale.Some? then p.closed + [stale.value] else p.closed)
        == LiveAndClosed(p)
    ensures |Without(p.agents, key)| <= |p.agents|
  {
    WithoutAgents(p.agents, key);
    if Find(p.agents, key).Some? {
      assert multiset(p.closed + [Find(p.agents, key).value]) ==
        multiset(p.closed) + multiset{Find(p.agents, key).value};
    }
  }

  lemma {:induction false} DropFacts(age: Text -> int, p: Pool, service: Text, key: Text)
    requires ByAge(age, p.agents)
    ensures var d := DropStale(p, service, key);
      && LiveAndClosed(d) == LiveAndClosed(p) && d.created == p.created
      && ByAge(age, d.agents) && d.keys == p.keys && |d.agents| <= |p.agents|
      && LiveKeys(d.agents) ==
        LiveKeys(p.agents) - (if service in p.keys && p.keys[service] != key then {p.keys[service]} else {})
  {
    if service in p.keys && p.keys[service] != key {
      WithoutKeys(age, p.agents, p.keys[service]);
      StaleCloses(p, p.keys[service]);
    }
  }

  /** After dropping and binding everything matches, but for the key served. */
  lemma {:induction false} BoundFacts(age: Text -> int, p: Pool, service: Text, key: Text)
    requires Inv(age, p) && Owns(service, key)
    ensures var b := Bound(p, service, key);
      Sound(age, b) && LiveKeys(b.agents) + {key} == b.keys.Values && |b.agents| <= MAX_POOLS && b.created == p.created
  {
    DropFacts(age, p, service, key);
    BoundKeys(p.keys, service, key);
  }

  /** Ages after a call: the key served is now the youngest. */
  ghost predicate Later(older: Text -> int, age: Text -> int, key: Text) {
    forall k :: k != key ==> age(k) == older(k) < age(key)
  }

  lemma {:induction false} SnocAgents(es: seq<Entry>, e: Entry)
    ensures Agents(es + [e]) == Agents(es) + multiset{e.agent}
    decreases |es|
  {
    if es == [] {
      assert [e][1..] == [];
    } else {
      assert (es + [e])[1..] == es[1..] + [e];
      SnocAgents(es[1..], e);
    }
  }

  lemma {:induction false} TouchAgents(es: seq<Entry>, key: Text, agent: nat)
    requires Find(es, key) == Some(agent)
    ensures Agents(Without(es, key) + [Entry(key, agent)]) == Agents(es)
    ensures |Without(es, key)| == |es| - 1
  {
    WithoutAgents(es, key);
    SnocAgents(Without(es, key), Entry(key, agent));
  }

  lemma {:induction false} TouchFacts(older: Text -> int, age: Text -> int, p: Pool, key: Text, agent: nat)
    requires ByAge(older, p.agents) && Later(older, age, key) && Find(p.agents, key) == Some(agent)
    ensures var q := Touched(p, key, agent);
      && LiveAndClosed(q) == LiveAndClosed(p)
      && ByAge(age, q.agents) && |q.agents| == |p.agents|
      && LiveKeys(q.agents) == LiveKeys(p.agents) && key in LiveKeys(p.agents)
      && Find(q.agents, key) == Some(agent)
  {
    var rest := Without(p.agents, key);
    TouchAgents(p.agents, key, agent);
    WithoutKeys(older, p.agents, key);
    FindLive(p.agents, key);
    SameAge(age, older, rest);
    SnocFacts(age, rest, Entry(key, agent));
  }

  lemma {:induction false} OneMore(all: multiset<nat>, n: nat)
    requires OnceEach(all, n)
    ensures OnceEach(all + multiset{n}, n + 1)
  {
  }

  lemma {:induction false} CreateFacts(older: Text -> int, age: Text -> int, p: Pool, key: Text)
    requires ByAge(older, p.agents) && Later(older, age, key) && Find(p.agents, key).None?
    ensures var c := Added(p, key);
      && LiveAndClosed(c) == LiveAndClosed(p) + multiset{p.created}
      && ByAge(age, c.agents)
      && LiveKeys(c.agents) == LiveKeys(p.agents) + {key} && key !in LiveKeys(p.agents)
      && Find(c.agents, key) == Some(p.created)
  {
    FindLive(p.agents, key);
    SameAge(age, older, p.agents);
    SnocFacts(age, p.agents, Entry(key, p.created));
    SnocAgents(p.agents, Entry(key, p.created));
  }

  lemma {:induction false} ForgetKeys(keys: map<Text, Text>, key: Text)
    requires Owned(keys)
    ensures Owned(Forget(keys, key)) && Forget(keys, key).Values == keys.Values - {key}
  {
    var f := Forget(keys, key);
    forall k
      ensures k in f.Values <==> k in keys.Values && k != key
    {
      if k in keys.Values && k != key {
        var s :| s in keys && keys[s] == k;
        assert f[s] == k;
      }
    }
  }

  /** Eviction closes the least recently used agent and forgets its service. */
  lemma {:induction false} EvictFacts(age: Text -> int, p: Pool)
    requires ByAge(age, p.agents) && Owned(p.keys) && |p.agents| > 1
    ensures var e := EvictOldest(p);
      && LiveAndClosed(e) == LiveAndClosed(p) && e.created == p.created
      && ByAge(age, e.agents) && Owned(e.keys)
      && LiveKeys(e.agents) == LiveKeys(p.agents) - {p.agents[0].key}
      && e.keys.Values == p.keys.Values - {p.agents[0].key}
      && forall k :: k in LiveKeys(e.agents) ==> age(p.agents[0].key) < age(k)
  {
    var first := p.agents[0];
    ForgetKeys(p.keys, first.key);
    assert multiset(p.closed + [first.agent]) == multiset(p.closed) + multiset{first.agent};
    assert first.key !in LiveKeys(p.agents[1..]);
  }

  lemma {:induction false} FindInRest(es: seq<Entry>, key: Text, agent: nat)
    requires |es| > 1 && Find(es, key) == Some(agent) && es[0].key != key
    ensures Find(es[1..], key) == Some(agent)
  {
  }

  lemma {:induction false} Youngest(age: Text -> int, es: seq<Entry>, key: Text)
    requires |es| > 1 && ByAge(age, es) && forall k :: k in LiveKeys(es) && k != key ==> age(k) < age(key)
    ensures es[0].key != key
  {
    assert es[1..][0].key in LiveKeys(es[1..]);
  }

  /** A pool just past its limit loses its oldest agent, never the one just made. */
  lemma {:induction false} AddedKeeps(older: Text -> int, age: Text -> int, p: Pool, key: Text)
    requires Sound(older, p) && Later(older, age, key) && Find(p.agents, key).None?
    requires LiveKeys(p.agents) + {key} == p.keys.Values && |p.agents| <= MAX_POOLS
    ensures Inv(age, Evict(Added(p, key))) && Find(Evict(Added(p, key)).agents, key) == Some(p.created)
  {
    var c := Added(p, key);
    CreateFacts(older, age, p, key);
    OneMore(LiveAndClosed(p), p.created);
    OwnedIsInjective(c.keys);
    if |c.agents| > MAX_POOLS {
      Youngest(age, c.agents, key);
      EvictFacts(age, c);
      FindInRest(c.agents, key, p.created);
      OwnedIsInjective(EvictOldest(c).keys);
      assert Evict(c) == EvictOldest(c);
    }
  }

  /** One call keeps the invariant, and the agent it returns is live under the key. */
  lemma {:induction false} FetchKeeps(older: Text -> int, age: Text -> int, p: Pool, service: Text, key: Text)
    requires Inv(older, p) && Later(older, age, key) && Owns(service, key)
    ensures Inv(age, Fetched(p, service, key).0)
    ensures Find(Fetched(p, service, key).0.agents, key) == Some(Fetched(p, service, key).1)
  {
    var b := Bound(p, service, key);
    BoundFacts(older, p, service, key);
    if Find(b.agents, key).Some? {
      TouchFacts(older, age, b, key, Find(b.agents, key).value);
      OwnedIsInjective(b.keys);
    } else {
      AddedKeeps(older, age, b, key);
    }
  }

  // ---------------------------------------------------------------------
  // Whole runs
  // ---------------------------------------------------------------------

  datatype Call = Call(service: Text, key: Text)

  function Run(calls: seq<Call>): Pool {
    if calls == [] then EMPTY
    else
      var last := calls[|calls| - 1];
      Fetched(Run(calls[..|calls| - 1]), last.service, last.key).0
  }

  /** When a key was last asked for; -1 when never. */
  function LastUse(calls: seq<Call>, key: Text): (t: int)
    ensures -1 <= t < |calls|
  {
    if calls == [] then -1
    else if calls[|calls| - 1].key == key then |calls| - 1
    else LastUse(calls[..|calls| - 1], key)
  }

  function Age(calls: seq<Call>): Text -> int {
    k => LastUse(calls, k)
  }

  ghost predicate Owning(calls: seq<Call>) {
    forall i :: 0 <= i < |calls| ==> Owns(calls[i].service, calls[i].key)
  }

  /**
   After any calls: the live keys are exactly the keys services have, each
   service has its own, there are at most 256, agents stand in order of last
   use, and each agent made is live or was closed once.
   */
  lemma {:induction false} RunInv(calls: seq<Call>)
    requires Owning(calls)
    ensures Inv(Age(calls), Run(calls))
    decreases |calls|
  {
    if calls == [] {
      assert LiveKeys([]) == {} && EMPTY.keys.Values == {};
    } else {
      var last := |calls| - 1;
      RunInv(calls[..last]);
      FetchKeeps(Age(calls[..last]), Age(calls), Run(calls[..last]), calls[last].service, calls[last].key);
    }
  }

  /** Every call returns a live agent of its own key, and a call that evicts closes the key used longest ago. */
  lemma {:induction false} EveryCall(calls: seq<Call>, service: Text, key: Text)
    requires Owning(calls) && Owns(service, key)
    ensures var p := Run(calls);
      var (q, agent) := Fetched(p, service, key);
      && Find(q.agents, key) == Some(agent)
      && q == Run(calls + [Call(service, key)])
      && forall gone, k ::
          && gone in LiveKeys(p.agents) && gone !in LiveKeys(q.agents)
          && k in LiveKeys(q.agents) && k in LiveKeys(p.agents)
          && !(service in p.keys && p.keys[service] == gone)
          ==> LastUse(calls, gone) < LastUse(calls, k) || k == key
  {
    var p := Run(calls);
    var all := calls + [Call(service, key)];
    RunInv(calls);
    assert all[..|calls|] == calls;
    FetchKeeps(Age(calls), Age(all), p, service, key);
    EvictedIsOldest(Age(calls), Age(all), p, service, key);
  }

  lemma {:induction false} EvictedIsOldest(older: Text -> int, age: Text -> int, p: Pool, service: Text, key: Text)
    requires Inv(older, p) && Later(older, age, key) && Owns(service, key)
    ensures var q := Fetched(p, service, key).0;
      forall gone, k ::
        && gone in LiveKeys(p.agents) && gone !in LiveKeys(q.agents)
        && k in LiveKeys(q.agents) && k in LiveKeys(p.agents)
        && !(service in p.keys && p.keys[service] == gone)
        ==> older(gone) < older(k) || k == key
  {
    var b := Bound(p, service, key);
    BoundFacts(older, p, service, key);
    DropFacts(older, p, service, key);
    if Find(b.agents, key).Some? {
      TouchFacts(older, age, b, key, Find(b.agents, key).value);
    } else {
      OldestGoes(older, age, b, key);
    }
  }

  lemma {:induction false} OldestGoes(older: Text -> int, age: Text -> int, p: Pool, key: Text)
    requires Sound(older, p) && Later(older, age, key) && Find(p.agents, key).None? && |p.agents| <= MAX_POOLS
    ensures var q := Evict(Added(p, key));
      forall gone, k :: gone in LiveKeys(p.agents) && gone !in LiveKeys(q.agents) && k in LiveKeys(q.agents) && k != key
                        ==> older(gone) < older(k)
  {
    var c := Added(p, key);
    CreateFacts(older, age, p, key);
    if |c.agents| > MAX_POOLS {
      Youngest(age, c.agents, key);
      EvictFacts(age, c);
      assert Evict(c) == EvictOldest(c);
    }
  }

  // ---------------------------------------------------------------------
  // The module state
  // ---------------------------------------------------------------------

  class PinnedAgents {
    var agents: seq<Entry>
    var serviceAgentKeys: map<Text, Text>
    var created: nat
    var closed: seq<nat>

    ghost function State(): Pool
      reads this
    {
      Pool(agents, serviceAgentKeys, created, closed)
    }

    constructor ()
      ensures State() == EMPTY
    {
      agents, serviceAgentKeys, created, closed := [], map[], 0, [];
    }

    method Close(agent: nat)
      modifies this`closed
      ensures closed == old(closed) + [agent]
    {
      closed := closed + [agent];
    }

    /** The loop over the services that deletes those with the evicted key. */
    method ForgetServices(key: Text)
      modifies this`serviceAgentKeys
      ensures serviceAgentKeys == Forget(old(serviceAgentKeys), key)
    {
      ghost var before := serviceAgentKeys;
      var todo := serviceAgentKeys.Keys;
      while todo != {}
        invariant todo <= serviceAgentKeys.Keys <= before.Keys
        invariant forall s :: s in serviceAgentKeys ==> serviceAgentKeys[s] == before[s]
        invariant forall s :: s in before && s !in serviceAgentKeys ==> before[s] == key
        invariant forall s :: s in serviceAgentKeys && s !in todo ==> before[s] != key
        decreases |todo|
      {
        var s :| s in todo;
        if serviceAgentKeys[s] == key {
          serviceAgentKeys := serviceAgentKeys - {s};
        }
        todo := todo - {s};
      }
      assert serviceAgentKeys == Forget(before, key);
    }

    /** The eviction loop after a new agent has been added. */
    method EvictOld()
      modifies this
      ensures State() == Evict(old(State()))
    {
      while |agents| > MAX_POOLS
        invariant Evict(State()) == Evict(old(State()))
        decreases |agents|
      {
        var oldest := agents[0];
        agents := agents[1..];
        ForgetServices(oldest.key);
        Close(oldest.agent);
      }
    }

    /** pinnedFetch: returns the agent that the requests of a service go through. */
    method PinnedFetch(service: Text, rest: Text) returns (agent: nat)
      modifies this
      ensures (State(), agent) == Fetched(old(State()), service, PoolKey(service, rest))
    {
      var key := PoolKey(service, rest);
      if service in serviceAgentKeys && serviceAgentKeys[service] != key {
        var stale := Find(agents, serviceAgentKeys[service]);
        agents := Without(agents, serviceAgentKeys[service]);
        if stale.Some? {
          Close(stale.value);
        }
      }
      serviceAgentKeys := serviceAgentKeys[service := key];
      assert State() == Bound(old(State()), service, key);
      var found := Find(agents, key);
      if found.Some? {
        agent := found.value;
        agents := Without(agents, key);
        agents := agents + [Entry(key, agent)];
      } else {
        agent := created;
        created := created + 1;
        agents := agents + [Entry(key, agent)];
        EvictOld();
      }
    }
  }
}
