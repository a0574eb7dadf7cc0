/** The UDP proxy filter: its configuration, the per-flow active
    sessions, the session table with its heterogeneous hash and equality,
    and the per-datagram entry point. */
module UdpProxy {
  import opened Options
  import opened Network
  import opened Upstream
  import FlowTable

  /** UdpProxyFilterConfig. Its own fields are constant; the cluster manager it
      refers to is not, so what the configured cluster resolves to may change
      from one datagram to the next. */
  class UdpProxyFilterConfig {
    const clusterManager: ClusterManager
    /** config_.cluster(): the name of the cluster every flow is proxied to. */
    const cluster: string

    constructor (clusterManager: ClusterManager, cluster: string)
      ensures this.clusterManager == clusterManager && this.cluster == cluster
    {
      this.clusterManager := clusterManager;
      this.cluster := cluster;
    }

    /** The host a new session would be bound to right now: the configured
        cluster's chosen host, or None when the cluster is unknown or has no
        eligible host. It follows the cluster manager's current state. */
    function UpstreamHost(): (h: Option<Host>)
      reads clusterManager
      ensures h.Some? <==> cluster in clusterManager.clusters && clusterManager.clusters[cluster].chosenHost.Some?
    {
      match clusterManager.Find(cluster)
      case None => None
      case Some(c) => c.chosenHost
    }

    /** getCluster(): asks the cluster manager, once, for the configured cluster. */
    method GetCluster() returns (c: Option<ThreadLocalCluster>)
      modifies clusterManager
      ensures clusterManager.lookups == old(clusterManager.lookups) + [cluster]
      ensures clusterManager.clusters == old(clusterManager.clusters)
      ensures c == clusterManager.Find(cluster)
    {
      c := clusterManager.Get(cluster);
    }
  }

  /** The absl hash of a LocalPeerAddresses value; left uninterpreted. */
  type Hasher = LocalPeerAddresses -> nat

  /** HeterogeneousActiveSessionHash applied to a bare key. */
  function HashKey(hash: Hasher, value: LocalPeerAddresses): nat
  {
    hash(value)
  }

  /** HeterogeneousActiveSessionHash applied to an owned session: it hashes the
      session's embedded addresses, and so lands where a probe by that key
      would. */
  function HashSession(hash: Hasher, value: ActiveSession): (h: nat)
    ensures h == HashKey(hash, value.addresses)
  {
    hash(value.addresses)
  }

  /** HeterogeneousActiveSessionEqual between a session and a bare key. */
  predicate EqualKey(lhs: ActiveSession, rhs: LocalPeerAddresses)
  {
    lhs.addresses == rhs
  }

  /** HeterogeneousActiveSessionEqual between two sessions. */
  predicate EqualSessions(lhs: ActiveSession, rhs: ActiveSession)
  {
    lhs.addresses == rhs.addresses
  }

  /** The functors are consistent in the way a hash set needs: whatever they
      call equal hashes equally, whether it is given as a key or a session. */
  lemma FunctorsConsistent(hash: Hasher, s: ActiveSession, t: ActiveSession, k: LocalPeerAddresses)
    ensures EqualKey(s, k) <==> s.addresses == k
    ensures EqualKey(s, k) ==> HashSession(hash, s) == HashKey(hash, k)
    ensures EqualSessions(s, t) <==> s.addresses == t.addresses
    ensures EqualSessions(s, t) ==> HashSession(hash, s) == HashSession(hash, t)
    ensures EqualSessions(s, t) ==> (EqualKey(s, k) <==> EqualKey(t, k))
  {
  }

  /** Session equality is an equivalence relation. */
  lemma EqualSessionsIsEquivalence(s: ActiveSession, t: ActiveSession, u: ActiveSession)
    ensures EqualSessions(s, s)
    ensures EqualSessions(s, t) <==> EqualSessions(t, s)
    ensures EqualSessions(s, t) && EqualSessions(t, u) ==> EqualSessions(s, u)
  {
  }

  /** ActiveSession. The addresses and the host are fixed at construction; the
      idle timer and the record of upstream writes change. */
  class ActiveSession {
    const parent: UdpProxyFilter
    const addresses: LocalPeerAddresses
    const host: Host
    /** Whether idle_timer_ is armed. */
    var idleTimerEnabled: bool
    /** The payloads written to the upstream host, in order. */
    var upstreamWrites: seq<Buffer>

    constructor (parent: UdpProxyFilter, addresses: LocalPeerAddresses, host: Host)
      ensures this.parent == parent && this.addresses == addresses && this.host == host
      ensures idleTimerEnabled && upstreamWrites == []
    {
      this.parent := parent;
      this.addresses := addresses;
      this.host := host;
      idleTimerEnabled := true;
      upstreamWrites := [];
    }

    /** maxPacketSize(): the same fixed ceiling for every session. */
    function MaxPacketSize(): (r: nat)
      ensures r == MaxUdpPacketSize
    {
      MaxUdpPacketSize
    }

    /** write(): forwards one payload to the upstream host and re-arms the idle timer. */
    method Write(buffer: Buffer)
      modifies this
      ensures upstreamWrites == old(upstreamWrites) + [buffer]
      ensures idleTimerEnabled
    {
      upstreamWrites := upstreamWrites + [buffer];
      idleTimerEnabled := true;
    }

    /** onIdleTimer(): the session's only terminal transition. The one-shot
        timer has fired, so it is no longer armed, and the filter drops the
        session from its table; nothing else in the table changes. */
    method OnIdleTimer()
      requires parent.Valid() && parent.TimersArmed()
      requires addresses in parent.sessions.Contents && parent.sessions.Contents[addresses] == this
      modifies this, parent.sessions
      ensures !idleTimerEnabled && upstreamWrites == old(upstreamWrites)
      ensures parent.Valid() && parent.TimersArmed()
      ensures parent.View() == FlowTable.Step(old(parent.View()), FlowTable.IdleTimeout(addresses))
      ensures parent.sessions.Contents == old(parent.sessions.Contents) - {addresses}
    {
      ghost var c := parent.sessions.Contents;
      ghost var t := ViewOf(c);
      ghost var rest := c - {addresses};
      assert forall k :: k in rest ==> rest[k] != this by {
        forall k | k in rest ensures rest[k] != this {
          assert rest[k].addresses == k;
        }
      }
      idleTimerEnabled := false;
      assert Armed(rest) && ViewOf(rest) == t - {addresses};
      var erased := parent.sessions.Erase(addresses);
      assert FlowTable.Step(t, FlowTable.IdleTimeout(addresses)) == t - {addresses};
    }
  }

  /** The number of hash slots. absl's flat_hash_set grows its slot array; a
      fixed count keeps the model small and does not change what a lookup finds. */
  const SlotCount: nat := 16

  /** sessions_: a set of owned sessions, hashed and compared by their addresses
      through the heterogeneous functors. Each slot chains the sessions whose
      hash selects it. */
  class SessionSet {
    const hash: Hasher
    var slots: seq<seq<ActiveSession>>
    /** The abstract contents: each live key and the one session that owns it. */
    ghost var Contents: map<LocalPeerAddresses, ActiveSession>

    ghost predicate Valid()
      reads this
    {
      TableInv(hash, slots, Contents)
    }

    /** At most one live session per (local, peer) key, anywhere in the table. */
    ghost predicate AtMostOnePerKey()
      reads this
    {
      forall b, i, c, j ::
        (0 <= b < |slots| && 0 <= i < |slots[b]| && 0 <= c < |slots| && 0 <= j < |slots[c]|
         && (b, i) != (c, j))
        ==> slots[b][i].addresses != slots[c][j].addresses
    }

    lemma KeysUnique()
      requires Valid()
      ensures AtMostOnePerKey()
    {
      forall b, i, c, j |
        0 <= b < |slots| && 0 <= i < |slots[b]| && 0 <= c < |slots| && 0 <= j < |slots[c]| &&
        (b, i) != (c, j)
        ensures slots[b][i].addresses != slots[c][j].addresses
      {
        assert slots[b][i] in slots[b] && slots[c][j] in slots[c];
        if b == c {
          assert DistinctChain(slots[b]);
        }
      }
    }

    constructor (hash: Hasher)
      ensures Valid() && this.hash == hash && Contents == map[]
    {
      this.hash := hash;
      slots := seq(SlotCount, _ => []);
      Contents := map[];
    }

    /** Probes the slot of `key`, comparing each entry with the key by the
        heterogeneous equality; no session is built for the probe. */
    method Probe(key: LocalPeerAddresses) returns (slot: nat, index: int)
      requires Valid()
      ensures slot == SlotFor(hash, key) && slot < |slots|
      ensures -1 <= index < |slots[slot]|
      ensures index >= 0 <==> key in Contents
      ensures index >= 0 ==> slots[slot][index] == Contents[key]
    {
      slot := HashKey(hash, key) % SlotCount;
      var chain := slots[slot];
      index := 0;
      while index < |chain|
        invariant 0 <= index <= |chain|
        invariant forall j :: 0 <= j < index ==> !EqualKey(chain[j], key)
      {
        if EqualKey(chain[index], key) {
          return;
        }
        index := index + 1;
      }
      assert key in Contents ==> Live(Contents, key);
      index := -1;
    }

    /** find(): the session owning `key`, if there is one. */
    method Find(key: LocalPeerAddresses) returns (r: Option<ActiveSession>)
      requires Valid()
      ensures r.Some? <==> key in Contents
      ensures r.Some? ==> r.value == Contents[key] && EqualKey(r.value, key)
    {
      var slot, index := Probe(key);
      r := if index >= 0 then Some(slots[slot][index]) else None;
    }

    /** Probes for an owned session, as insert does: the slot is chosen by
        hashing the session and each entry is compared with it by the
        session-vs-session equality. It lands where a probe by the session's
        bare key would. */
    method ProbeSession(s: ActiveSession) returns (slot: nat, index: int)
      requires Valid()
      ensures slot == SlotFor(hash, s.addresses) && slot < |slots|
      ensures -1 <= index < |slots[slot]|
      ensures index >= 0 <==> s.addresses in Contents
      ensures index >= 0 ==> EqualSessions(slots[slot][index], s)
    {
      slot := HashSession(hash, s) % SlotCount;
      var chain := slots[slot];
      index := 0;
      while index < |chain|
        invariant 0 <= index <= |chain|
        invariant forall j :: 0 <= j < index ==> !EqualSessions(chain[j], s)
      {
        if EqualSessions(chain[index], s) {
          return;
        }
        index := index + 1;
      }
      assert s.addresses in Contents ==> Live(Contents, s.addresses);
      index := -1;
    }

    /** insert()/emplace(): adds `s` unless a session with equal addresses is
        already present, in which case nothing changes. */
    method Insert(s: ActiveSession) returns (inserted: bool)
      requires Valid()
      modifies this
      ensures Valid()
      ensures inserted <==> s.addresses !in old(Contents)
      ensures Contents == if inserted then old(Contents)[s.addresses := s] else old(Contents)
    {
      var slot, index := ProbeSession(s);
      if index >= 0 {
        return false;
      }
      InsertKeepsInv(hash, slots, Contents, s);
      slots := slots[slot := slots[slot] + [s]];
      Contents := Contents[s.addresses := s];
      inserted := true;
    }

    /** erase(key): removes the session owning `key` and reports how many were removed. */
    method Erase(key: LocalPeerAddresses) returns (erased: nat)
      requires Valid()
      modifies this
      ensures Valid()
      ensures erased == if key in old(Contents) then 1 else 0
      ensures Contents == old(Contents) - {key}
    {
      var slot, index := Probe(key);
      if index < 0 {
        assert Contents == Contents - {key};
        return 0;
      }
      EraseKeepsInv(hash, slots, Contents, key, index);
      slots := slots[slot := slots[slot][..index] + slots[slot][index + 1..]];
      Contents := Contents - {key};
      erased := 1;
    }
  }

  /** The slot of a key under a given hash. */
  function SlotFor(hash: Hasher, key: LocalPeerAddresses): (b: nat)
    ensures b < SlotCount
  {
    HashKey(hash, key) % SlotCount
  }

  /** The session table's representation invariant. */
  ghost predicate TableInv(hash: Hasher, slots: seq<seq<ActiveSession>>, contents: map<LocalPeerAddresses, ActiveSession>)
  {
    && |slots| == SlotCount
    && Placed(hash, slots, contents)
    && Keyed(contents)
    && Stored(hash, slots, contents)
    && (forall b :: 0 <= b < |slots| ==> DistinctChain(slots[b]))
  }

  /** Every stored session sits in the slot its own hash selects, and owns its key. */
  ghost predicate Placed(hash: Hasher, slots: seq<seq<ActiveSession>>, contents: map<LocalPeerAddresses, ActiveSession>)
  {
    forall b, s :: 0 <= b < |slots| && s in slots[b] ==>
      HashSession(hash, s) % SlotCount == b && s.addresses in contents && contents[s.addresses] == s
  }

  /** Every key's owner carries that key. */
  ghost predicate Keyed(contents: map<LocalPeerAddresses, ActiveSession>)
  {
    forall k :: k in contents ==> contents[k].addresses == k
  }

  /** `k` is a key of `contents`. Stored quantifies over this predicate rather
      than over bare membership so that only the table's own proofs, which name
      it, unfold where a key is stored. */
  ghost predicate Live(contents: map<LocalPeerAddresses, ActiveSession>, k: LocalPeerAddresses)
  {
    k in contents
  }

  /** Every key's owner is stored where a probe by the bare key looks. */
  ghost predicate Stored(hash: Hasher, slots: seq<seq<ActiveSession>>, contents: map<LocalPeerAddresses, ActiveSession>)
    requires |slots| == SlotCount
  {
    forall k {:trigger Live(contents, k)} :: Live(contents, k) ==> contents[k] in slots[SlotFor(hash, k)]
  }

  lemma InsertKeepsInv(hash: Hasher, slots: seq<seq<ActiveSession>>, contents: map<LocalPeerAddresses, ActiveSession>, s: ActiveSession)
    requires TableInv(hash, slots, contents)
    requires s.addresses !in contents
    ensures TableInv(hash, slots[SlotFor(hash, s.addresses) := slots[SlotFor(hash, s.addresses)] + [s]],
                     contents[s.addresses := s])
  {
    var slot := SlotFor(hash, s.addresses);
    var chain := slots[slot];
    var slots' := slots[slot := chain + [s]];
    var contents' := contents[s.addresses := s];
    assert forall x :: x in chain ==> x.addresses != s.addresses;
    AppendEntry(chain, s);
    forall b, x | 0 <= b < |slots'| && x in slots'[b]
      ensures HashSession(hash, x) % SlotCount == b && x.addresses in contents' && contents'[x.addresses] == x
    {
      if b != slot {
        assert x in slots[b];
      } else if x != s {
        assert x in chain;
      }
    }
    forall k | Live(contents', k) ensures contents'[k] in slots'[SlotFor(hash, k)] {
      if k != s.addresses {
        assert Live(contents, k);
      }
    }
    forall b | 0 <= b < |slots'| ensures DistinctChain(slots'[b]) {
      if b != slot {
        assert slots'[b] == slots[b];
      }
    }
  }

  lemma EraseKeepsInv(hash: Hasher, slots: seq<seq<ActiveSession>>, contents: map<LocalPeerAddresses, ActiveSession>,
                      key: LocalPeerAddresses, index: nat)
    requires TableInv(hash, slots, contents)
    requires index < |slots[SlotFor(hash, key)]|
    requires key in contents && slots[SlotFor(hash, key)][index] == contents[key]
    ensures TableInv(hash, slots[SlotFor(hash, key) :=
                       slots[SlotFor(hash, key)][..index] + slots[SlotFor(hash, key)][index + 1..]],
                     contents - {key})
  {
    var slot := SlotFor(hash, key);
    var chain := slots[slot];
    var rest := chain[..index] + chain[index + 1..];
    var slots' := slots[slot := rest];
    var contents' := contents - {key};
    RemoveEntry(chain, index);
    forall b, x | 0 <= b < |slots'| && x in slots'[b]
      ensures HashSession(hash, x) % SlotCount == b && x.addresses in contents' && contents'[x.addresses] == x
    {
      if b != slot {
        assert x in slots[b];
      } else {
        assert x in chain;
      }
    }
    forall k | Live(contents', k) ensures contents'[k] in slots'[SlotFor(hash, k)] {
      assert Live(contents, k);
    }
    forall b | 0 <= b < |slots'| ensures DistinctChain(slots'[b]) {
      if b != slot {
        assert slots'[b] == slots[b];
      }
    }
  }

  /** No two sessions of a chain are equal under the heterogeneous equality. */
  ghost predicate DistinctChain(chain: seq<ActiveSession>)
  {
    forall i, j :: 0 <= i < j < |chain| ==> !EqualSessions(chain[i], chain[j])
  }

  /** Appending a session whose addresses are new to the chain keeps it distinct. */
  lemma AppendEntry(chain: seq<ActiveSession>, s: ActiveSession)
    requires DistinctChain(chain)
    requires forall x :: x in chain ==> x.addresses != s.addresses
    ensures DistinctChain(chain + [s])
    ensures forall x :: x in chain + [s] <==> x in chain || x == s
  {
    var c := chain + [s];
    forall i, j | 0 <= i < j < |c| ensures !EqualSessions(c[i], c[j]) {
      if j == |chain| {
        assert c[i] in chain;
      } else {
        assert c[i] == chain[i] && c[j] == chain[j];
      }
    }
  }

  /** Removing one entry from a distinct chain keeps it distinct and removes
      exactly the sessions equal to that entry. */
  lemma RemoveEntry(chain: seq<ActiveSession>, index: nat)
    requires index < |chain|
    requires DistinctChain(chain)
    ensures DistinctChain(chain[..index] + chain[index + 1..])
    ensures forall x :: x in chain[..index] + chain[index + 1..] <==>
      x in chain && x.addresses != chain[index].addresses
  {
    var rest := chain[..index] + chain[index + 1..];
    assert forall j :: 0 <= j < |rest| ==> rest[j] == chain[if j < index then j else j + 1];
    forall j | 0 <= j < |chain| && j != index ensures chain[j].addresses != chain[index].addresses {
      if j < index {
        assert !EqualSessions(chain[j], chain[index]);
      } else {
        assert !EqualSessions(chain[index], chain[j]);
      }
    }
    forall x | x in chain && x.addresses != chain[index].addresses ensures x in rest {
      var j :| 0 <= j < |chain| && chain[j] == x;
      assert rest[if j < index then j else j - 1] == x;
    }
  }

  /** The flow-level view of a table of sessions: each key's host and upstream writes. */
  ghost function ViewOf(contents: map<LocalPeerAddresses, ActiveSession>): FlowTable.Table
    reads contents.Values
  {
    map k | k in contents :: FlowTable.Flow(contents[k].host, contents[k].upstreamWrites)
  }

  /** Every session of `contents` has its idle timer armed. */
  ghost predicate Armed(contents: map<LocalPeerAddresses, ActiveSession>)
    reads contents.Values
  {
    forall k :: k in contents ==> contents[k].idleTimerEnabled
  }

  /** UdpProxyFilter: the configuration it shares with other workers and the
      session table it owns. */
  class UdpProxyFilter {
    const config: UdpProxyFilterConfig
    const sessions: SessionSet

    /** The table is well formed and every live session belongs to this filter. */
    ghost predicate Valid()
      reads sessions
    {
      && sessions.Valid()
      && forall k :: k in sessions.Contents ==>
           sessions.Contents[k].parent == this
    }

    /** Every live session has its idle timer armed. */
    ghost predicate TimersArmed()
      reads sessions, sessions.Contents.Values
    {
      Armed(sessions.Contents)
    }

    /** The table as the flow-level model sees it. */
    ghost function View(): FlowTable.Table
      reads sessions, sessions.Contents.Values
    {
      ViewOf(sessions.Contents)
    }

    constructor (config: UdpProxyFilterConfig, hash: Hasher)
      ensures Valid() && TimersArmed() && this.config == config && fresh(sessions)
      ensures sessions.hash == hash && View() == map[]
    {
      this.config := config;
      sessions := new SessionSet(hash);
    }

    /** onData(): looks the datagram's flow up by its bare addresses. On a hit the
        payload is written on the existing session. On a miss the cluster is
        resolved once, with the cluster manager as it stands at this call;
        if it yields no host the datagram is dropped, otherwise one new
        session is created, inserted and given the payload. */
    method OnData(data: UdpRecvData)
      requires Valid() && TimersArmed()
      modifies sessions, sessions.Contents.Values, config.clusterManager
      ensures Valid() && TimersArmed()
      ensures View() == FlowTable.Step(old(View()), FlowTable.Packet(data.addresses, data.buffer, old(config.UpstreamHost())))
      ensures config.clusterManager.lookups == old(config.clusterManager.lookups)
        + Queries(config.cluster, FlowTable.Lookups(old(View()), FlowTable.Packet(data.addresses, data.buffer, None)))
      ensures config.clusterManager.clusters == old(config.clusterManager.clusters)
      ensures forall k :: k in old(sessions.Contents) ==>
        k in sessions.Contents && sessions.Contents[k] == old(sessions.Contents)[k]
      ensures forall k :: k in sessions.Contents ==> k in old(sessions.Contents) || k == data.addresses
      ensures data.addresses !in old(sessions.Contents) && data.addresses in sessions.Contents ==>
        fresh(sessions.Contents[data.addresses])
    {
      ghost var t := View();
      ghost var e := FlowTable.Packet(data.addresses, data.buffer, config.UpstreamHost());
      var found := sessions.Find(data.addresses);
      match found
      case Some(s) =>
        ghost var w := s.upstreamWrites;
        assert t[data.addresses] == FlowTable.Flow(s.host, w);
        Forward(s, data.buffer);
        assert FlowTable.Step(t, e) == t[data.addresses := FlowTable.Flow(s.host, w + [data.buffer])];
        assert FlowTable.Lookups(t, e) == 0;
      case None =>
        var _ := Open(data);
        assert FlowTable.Lookups(t, e) == 1;
    }

    /** The miss path of onData: one cluster lookup, then a new session if the
        lookup yields a host, or a dropped datagram if it does not. */
    method Open(data: UdpRecvData) returns (created: Option<ActiveSession>)
      requires Valid() && TimersArmed()
      requires data.addresses !in sessions.Contents
      modifies sessions, config.clusterManager
      ensures Valid() && TimersArmed()
      ensures View() == FlowTable.Step(old(View()), FlowTable.Packet(data.addresses, data.buffer, old(config.UpstreamHost())))
      ensures config.clusterManager.lookups == old(config.clusterManager.lookups) + [config.cluster]
      ensures config.clusterManager.clusters == old(config.clusterManager.clusters)
      ensures created.Some? <==> old(config.UpstreamHost()).Some?
      ensures created.Some? ==> fresh(created.value) && created.value.host == old(config.UpstreamHost()).value
      ensures sessions.Contents == if created.Some? then old(sessions.Contents)[data.addresses := created.value]
                                   else old(sessions.Contents)
    {
      ghost var t := View();
      ghost var resolved := config.UpstreamHost();
      ghost var e := FlowTable.Packet(data.addresses, data.buffer, resolved);
      var cluster := config.GetCluster();
      if cluster.None? || cluster.value.chosenHost.None? {
        assert resolved.None?;
        created := None;
      } else {
        var host := cluster.value.chosenHost.value;
        assert resolved == Some(host);
        var s := CreateSession(data, host);
        FlowTable.StepEffect(t, e);
        assert FlowTable.Step(t, e) == t[data.addresses := FlowTable.Flow(host, [data.buffer])];
        created := Some(s);
      }
    }

    /** A new flow's session: created bound to `host`, inserted into the table,
        and given the datagram that opened the flow. */
    method CreateSession(data: UdpRecvData, host: Host) returns (s: ActiveSession)
      requires Valid() && TimersArmed()
      requires data.addresses !in sessions.Contents
      modifies sessions
      ensures Valid() && TimersArmed() && fresh(s)
      ensures s.addresses == data.addresses && s.host == host
      ensures sessions.Contents == old(sessions.Contents)[data.addresses := s]
      ensures View() == old(View())[data.addresses := FlowTable.Flow(host, [data.buffer])]
    {
      ghost var t := View();
      s := new ActiveSession(this, data.addresses, host);
      assert View() == t;
      AddSession(s);
      ghost var v := View();
      ghost var w := s.upstreamWrites;
      assert w == [] && s.host == host;
      assert v == t[data.addresses := FlowTable.Flow(host, [])];
      Forward(s, data.buffer);
      assert View() == v[s.addresses := FlowTable.Flow(s.host, w + [data.buffer])];
      assert w + [data.buffer] == [data.buffer];
    }

    /** Inserts the freshly created session of a new flow into the table. */
    method AddSession(s: ActiveSession)
      requires Valid() && TimersArmed()
      requires s.addresses !in sessions.Contents
      requires s.parent == this && s.idleTimerEnabled
      modifies sessions
      ensures Valid() && TimersArmed()
      ensures sessions.Contents == old(sessions.Contents)[s.addresses := s]
      ensures View() == old(View())[s.addresses := FlowTable.Flow(s.host, s.upstreamWrites)]
    {
      var inserted := sessions.Insert(s);
    }

    /** Writes one payload on a live session (ActiveSession::write as the filter
        drives it); only that session's record of upstream writes changes. */
    method Forward(s: ActiveSession, buffer: Buffer)
      requires Valid() && TimersArmed()
      requires s.addresses in sessions.Contents && sessions.Contents[s.addresses] == s
      modifies s
      ensures Valid() && TimersArmed()
      ensures View() == old(View())[s.addresses := FlowTable.Flow(s.host, old(s.upstreamWrites) + [buffer])]
    {
      ghost var t := View();
      s.Write(buffer);
      ghost var r := t[s.addresses := FlowTable.Flow(s.host, old(s.upstreamWrites) + [buffer])];
      assert View() == r by {
        forall k | k in sessions.Contents && k != s.addresses ensures View()[k] == r[k] {
          assert sessions.Contents[k] != s;
        }
      }
    }
  }

  /** `n` queries for the cluster `name`, as the cluster manager logs them. */
  function Queries(name: string, n: nat): seq<string>
  {
    seq(n, _ => name)
  }

  /** Queries logged in two rounds are as many queries, logged at once. */
  lemma QueriesAdd(name: string, m: nat, n: nat)
    ensures Queries(name, m) + Queries(name, n) == Queries(name, m + n)
  {
  }

  /** One thing that reaches the filter: a datagram from the listener, or the
      expiry of the idle timer of the session of a flow. */
  datatype Input = Datagram(data: UdpRecvData) | Expiry(key: LocalPeerAddresses)

  /** The flow-level event an input amounts to, when resolving the configured
      cluster yields `resolved`. */
  function EventOf(input: Input, resolved: Option<Host>): FlowTable.Event
  {
    match input
    case Datagram(data) => FlowTable.Packet(data.addresses, data.buffer, resolved)
    case Expiry(key) => FlowTable.IdleTimeout(key)
  }

  function EventsOf(inputs: seq<Input>, resolved: Option<Host>): seq<FlowTable.Event>
  {
    seq(|inputs|, i requires 0 <= i < |inputs| => EventOf(inputs[i], resolved))
  }

  /** The events of a sequence of inputs extended by one are those of the
      sequence, then that input's event. */
  lemma EventsOfSnoc(inputs: seq<Input>, i: nat, resolved: Option<Host>)
    requires i < |inputs|
    ensures EventsOf(inputs[..i + 1], resolved) == EventsOf(inputs[..i], resolved) + [EventOf(inputs[i], resolved)]
  {
  }

  /** Delivers one input to the filter: a datagram goes to onData; an expiry
      fires the idle timer of the flow's session, if the flow has one. The
      table moves by exactly the input's flow-level event. */
  method Deliver(filter: UdpProxyFilter, input: Input)
    requires filter.Valid() && filter.TimersArmed()
    modifies filter.sessions, filter.sessions.Contents.Values, filter.config.clusterManager
    ensures filter.Valid() && filter.TimersArmed()
    ensures filter.View() == FlowTable.Step(old(filter.View()), EventOf(input, old(filter.config.UpstreamHost())))
    ensures filter.config.clusterManager.clusters == old(filter.config.clusterManager.clusters)
    ensures filter.config.clusterManager.lookups == old(filter.config.clusterManager.lookups)
      + Queries(filter.config.cluster, FlowTable.Lookups(old(filter.View()), EventOf(input, old(filter.config.UpstreamHost()))))
    ensures forall k :: k in filter.sessions.Contents ==>
      filter.sessions.Contents[k] in old(filter.sessions.Contents).Values || fresh(filter.sessions.Contents[k])
  {
    match input {
      case Datagram(data) =>
        filter.OnData(data);
      case Expiry(key) =>
        ghost var before := filter.View();
        var found := filter.sessions.Find(key);
        if found.Some? {
          found.value.OnIdleTimer();
        } else {
          assert before - {key} == before;
        }
    }
  }

  /** Delivers a sequence of inputs, one at a time. The table ends exactly
      where the flow-level run of the same events ends, and the cluster
      manager has logged exactly the lookups that run makes, so what the
      `FlowTable` lemmas prove about the table and about `RunLookups` holds
      of the filter itself. Nothing here changes the cluster manager, so
      every datagram's resolution is the one in force when delivery starts. */
  method Dispatch(filter: UdpProxyFilter, inputs: seq<Input>)
    requires filter.Valid() && filter.TimersArmed()
    modifies filter.sessions, filter.sessions.Contents.Values, filter.config.clusterManager
    ensures filter.Valid() && filter.TimersArmed()
    ensures filter.View() == FlowTable.Run(old(filter.View()), EventsOf(inputs, old(filter.config.UpstreamHost())))
    ensures filter.config.clusterManager.clusters == old(filter.config.clusterManager.clusters)
    ensures filter.config.clusterManager.lookups == old(filter.config.clusterManager.lookups)
      + Queries(filter.config.cluster, FlowTable.RunLookups(old(filter.View()), EventsOf(inputs, old(filter.config.UpstreamHost()))))
    ensures forall k :: k in filter.sessions.Contents ==>
      filter.sessions.Contents[k] in old(filter.sessions.Contents).Values || fresh(filter.sessions.Contents[k])
  {
    ghost var t := filter.View();
    ghost var log := filter.config.clusterManager.lookups;
    ghost var resolved := filter.config.UpstreamHost();
    var i := 0;
    while i < |inputs|
      invariant 0 <= i <= |inputs|
      invariant filter.Valid() && filter.TimersArmed()
      invariant filter.config.clusterManager.clusters == old(filter.config.clusterManager.clusters)
      invariant filter.config.UpstreamHost() == resolved
      invariant forall k :: k in filter.sessions.Contents ==>
        filter.sessions.Contents[k] in old(filter.sessions.Contents).Values || fresh(filter.sessions.Contents[k])
      invariant filter.View() == FlowTable.Run(t, EventsOf(inputs[..i], resolved))
      invariant filter.config.clusterManager.lookups
        == log + Queries(filter.config.cluster, FlowTable.RunLookups(t, EventsOf(inputs[..i], resolved)))
    {
      ghost var done := FlowTable.RunLookups(t, EventsOf(inputs[..i], resolved));
      ghost var now := FlowTable.Lookups(filter.View(), EventOf(inputs[i], resolved));
      Deliver(filter, inputs[i]);
      FlowTable.RunSnoc(t, EventsOf(inputs[..i], resolved), EventOf(inputs[i], resolved));
      FlowTable.RunLookupsSnoc(t, EventsOf(inputs[..i], resolved), EventOf(inputs[i], resolved));
      QueriesAdd(filter.config.cluster, done, now);
      EventsOfSnoc(inputs, i, resolved);
      i := i + 1;
    }
    assert inputs[..i] == inputs;
  }

  /** The first datagram of an unseen flow, as in the filter's basic-flow
      scenario: peer 10.0.0.1:1000 sends "hello" to local 10.0.0.2:80 with
      the cluster "fake_cluster" configured. It costs exactly one lookup,
      of that cluster, and leaves exactly one session, keyed by the pair,
      bound to the resolved host, with its idle timer armed, holding the
      payload unmodified. Holds for every hash and every host the load
      balancer picks. */
  method BasicFlow(hash: Hasher, host: Host) returns (lookups: seq<string>, session: Option<ActiveSession>, ghost flows: FlowTable.Table)
    ensures lookups == ["fake_cluster"]
    ensures session.Some? && session.value.host == host
    ensures session.value.addresses == LocalPeerAddresses(InternetAddress("10.0.0.2", 80), InternetAddress("10.0.0.1", 1000))
    ensures session.value.upstreamWrites == [Hello()] && session.value.idleTimerEnabled
    ensures flows == map[session.value.addresses := FlowTable.Flow(host, [Hello()])]
  {
    var clusterManager := new ClusterManager(map["fake_cluster" := ThreadLocalCluster("fake_cluster", Some(host))]);
    var config := new UdpProxyFilterConfig(clusterManager, "fake_cluster");
    var filter := new UdpProxyFilter(config, hash);
    var key := LocalPeerAddresses(InternetAddress("10.0.0.2", 80), InternetAddress("10.0.0.1", 1000));
    filter.OnData(UdpRecvData(key, Hello()));
    lookups := clusterManager.lookups;
    session := filter.sessions.Find(key);
    flows := filter.View();
  }

  /** A cluster registered only after a flow's first datagram: while the
      configured cluster is unknown, a datagram of an unseen flow costs one
      lookup and is dropped; once the cluster manager gains that cluster, the
      same datagram, sent again, costs a second lookup and opens a session bound
      to the new cluster's host. Each datagram is resolved against the cluster
      manager as it is when that datagram arrives. */
  method ClusterAddedLater(filter: UdpProxyFilter, data: UdpRecvData, host: Host)
    returns (before: Option<ActiveSession>, after: Option<ActiveSession>)
    requires filter.Valid() && filter.TimersArmed()
    requires data.addresses !in filter.sessions.Contents
    requires filter.config.cluster !in filter.config.clusterManager.clusters
    modifies filter.sessions, filter.sessions.Contents.Values, filter.config.clusterManager
    ensures filter.config.clusterManager.lookups
      == old(filter.config.clusterManager.lookups) + [filter.config.cluster, filter.config.cluster]
    ensures before.None?
    ensures after.Some? && after.value.host == host && after.value.upstreamWrites == [data.buffer]
  {
    var config := filter.config;
    var key := data.addresses;
    ghost var t := filter.View();
    assert config.UpstreamHost() == None;
    filter.OnData(data);
    assert filter.View() == t;
    assert Queries(config.cluster, 1) == [config.cluster];
    before := filter.sessions.Find(key);
    config.clusterManager.Update(config.cluster, Some(ThreadLocalCluster(config.cluster, Some(host))));
    assert config.UpstreamHost() == Some(host);
    filter.OnData(data);
    assert filter.View()[key] == FlowTable.Flow(host, [data.buffer]);
    after := filter.sessions.Find(key);
  }

  /** The bytes of "hello". */
  function Hello(): Buffer
  {
    [104, 101, 108, 108, 111]
  }
}
