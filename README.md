# UDP proxy session table

A Dafny model of the session table of Envoy's UDP proxy filter
(`source/extensions/filters/udp/udp_proxy/udp_proxy_filter.h`). Each flow is
identified by its (local, peer) address pair. The filter keeps one
`ActiveSession` per flow in an `absl::flat_hash_set`. That set's hash and
equality functors are heterogeneous: they take either a bare address pair or
an owned session, and they reduce a session to its address pair. The per-datagram
entry point `onData` looks the flow up. On a hit it writes the payload on
the existing session. On a miss it resolves the configured cluster once, then
either drops the datagram (no host) or creates, inserts and writes on one new
session. When a session's idle timer fires, the session is removed from the table.

Modules:

- `Options`: an optional value, standing for a nullable reference.
- `Network`: addresses, the `LocalPeerAddresses` key, received datagrams,
  payload bytes and `MAX_UDP_PACKET_SIZE`.
- `Upstream`: hosts, per-worker clusters and a `ClusterManager` class.
  The cluster manager records every query by name, so that the number of
  lookups can be stated. Its clusters can be added, replaced or removed
  from outside the filter (`Update`), so what a cluster name resolves to
  can change between datagrams.
- `FlowTable`: the abstract behaviour of the table, as pure functions.
  - `Step` applies one event: a packet on a flow, carrying the host the
    cluster resolved to when that packet arrived (or none), or an idle
    timeout of a flow's session.
  - `Run` applies a sequence of events.
  - Lemmas about whole runs: isolation of flows, uniqueness of sessions, one
    lookup per new flow, in-order forwarding, and forgetting a flow on idle expiry.
- `UdpProxy`:
  - the configuration class, whose own fields are constant but whose
    cluster manager is shared and mutable;
  - the hash and equality functors;
  - the `ActiveSession` class;
  - `SessionSet`: the hash set, as separate chaining over a fixed number of
    slots, each slot holding the sessions whose hash selects it;
  - the `UdpProxyFilter` class.

  `UdpProxyFilter.OnData` and `ActiveSession.OnIdleTimer` are proved to move
  the table's abstract view (`UdpProxyFilter.View`) by exactly one
  `FlowTable.Step`. The other filter methods (`Open`, `CreateSession`,
  `AddSession`, `Forward`) are the parts of `OnData` and state the partial
  update each one makes. The driver `Dispatch` delivers a whole sequence of
  datagrams and timer expiries and is proved to end where `FlowTable.Run`
  of the same events ends, and that the cluster manager's log grows by
  exactly the `FlowTable.RunLookups` of those events. So the `FlowTable` facts
  about the table a run leaves (isolation, liveness, hosts, forwarded
  payloads, eviction) and about lookup counts hold of the filter. The
  creation count `FlowTable.Creations` has no filter-level counterpart; at
  the filter it shows only through which flows are live and what they hold.

The hash is a parameter, an uninterpreted function on keys, so every result holds for any hash.
The bodies of `onData`, `write` and `onIdleTimer` live in `udp_proxy_filter.cc`,
which is not part of this model. Their effect on the table is modelled from their
declarations, from the type of `sessions_`, and from the basic-flow test. That
test expects one cluster lookup and one new session with its idle timer on the
first datagram of a flow. The test only covers a cluster that exists and yields
a host. What happens when `getCluster()` returns null or the cluster yields no
host is this model's reading, not something the header or the test shows: the
datagram is dropped, no session is created, and the table is unchanged.

## Model

| member | source | states |
|---|---|---|
| Upstream.ClusterManager.Get | source/extensions/filters/udp/udp_proxy/udp_proxy_filter.h:24-26 | each query is appended to the lookup log under the name asked; the result is the cluster of that name, present exactly when the name is registered |
| UdpProxy.UdpProxyFilterConfig.GetCluster | source/extensions/filters/udp/udp_proxy/udp_proxy_filter.h:24-26 | getCluster makes exactly one cluster-manager query, always with the configured cluster name, and returns that cluster |
| Upstream.ClusterManager.Update | source/extensions/filters/udp/udp_proxy/udp_proxy_filter.h:30 | the filter holds the cluster manager by reference, so it can change under the filter: a cluster is added, replaced or removed, and afterwards a query for that name finds exactly the new state; the lookup log is unchanged |
| UdpProxy.UdpProxyFilterConfig.UpstreamHost | source/extensions/filters/udp/udp_proxy/udp_proxy_filter.h:24-32 | a host is available exactly when the configured cluster is registered right now and yields a host; it follows the cluster manager's current state, so each datagram is resolved against the state at its own arrival |
| UdpProxy.UdpProxyFilterConfig.constructor | source/extensions/filters/udp/udp_proxy/udp_proxy_filter.h:20-22 | the configuration keeps exactly the cluster manager and the configured cluster name it is built with |
| UdpProxy.HashKey | source/extensions/filters/udp/udp_proxy/udp_proxy_filter.h:89-91 | the key overload of the hash functor hashes the bare address pair with the table's hash; its agreement with the session overload and with equality is stated by FunctorsConsistent |
| UdpProxy.EqualKey | source/extensions/filters/udp/udp_proxy/udp_proxy_filter.h:101-104 | session-vs-key equality compares the session's addresses with the key; FunctorsConsistent states it holds exactly when they are equal |
| UdpProxy.EqualSessions | source/extensions/filters/udp/udp_proxy/udp_proxy_filter.h:105-107 | session-vs-session equality compares the two sessions' addresses; EqualSessionsIsEquivalence states it is an equivalence |
| UdpProxy.HashSession | source/extensions/filters/udp/udp_proxy/udp_proxy_filter.h:89-94 | hashing an owned session gives the hash of its embedded addresses |
| UdpProxy.FunctorsConsistent | source/extensions/filters/udp/udp_proxy/udp_proxy_filter.h:89-107 | session-vs-key equality holds exactly when the addresses equal the key; session-vs-session equality holds exactly when the addresses are equal; whatever is equal hashes equally (key or session); equal sessions agree on every key; host and timer play no part |
| UdpProxy.EqualSessionsIsEquivalence | source/extensions/filters/udp/udp_proxy/udp_proxy_filter.h:105-107 | session equality is reflexive, symmetric and transitive |
| UdpProxy.ActiveSession.constructor | source/extensions/filters/udp/udp_proxy/udp_proxy_filter.h:49-51 | a new session keeps exactly the parent, addresses and host it was built with; those fields are constant; its idle timer starts armed and nothing has been written yet |
| UdpProxy.ActiveSession.MaxPacketSize | source/extensions/filters/udp/udp_proxy/udp_proxy_filter.h:62-67 | every session reports the same ceiling, MAX_UDP_PACKET_SIZE (1500), whatever its host or flow |
| UdpProxy.ActiveSession.Write | source/extensions/filters/udp/udp_proxy/udp_proxy_filter.h:52 | the payload is appended, unmodified, to what the session has forwarded upstream, and the idle timer is armed |
| UdpProxy.ActiveSession.OnIdleTimer | source/extensions/filters/udp/udp_proxy/udp_proxy_filter.h:55 | the session's key is erased and nothing else in the table changes; the view moves by an idle-timeout step; the fired timer is disarmed (it is one-shot), nothing is written, and every session still in the table keeps an armed timer |
| UdpProxy.SessionSet.constructor | source/extensions/filters/udp/udp_proxy/udp_proxy_filter.h:111-113 | a new table is empty and well formed |
| UdpProxy.SessionSet.Probe | source/extensions/filters/udp/udp_proxy/udp_proxy_filter.h:89-104 | a probe by bare key visits the slot the key's hash selects; it finds an entry exactly when the key is live, and that entry is the key's session |
| UdpProxy.SessionSet.ProbeSession | source/extensions/filters/udp/udp_proxy/udp_proxy_filter.h:92-93 | a probe by owned session hashes the session (through the session overload of the hash functor) to the slot its addresses select, compares with session-vs-session equality, and finds an entry exactly when the session's addresses are live |
| UdpProxy.SessionSet.Find | source/extensions/filters/udp/udp_proxy/udp_proxy_filter.h:111-113 | find by bare key returns a session exactly when the key is live; that session is the one stored under the key and compares equal to it |
| UdpProxy.SessionSet.Insert | source/extensions/filters/udp/udp_proxy/udp_proxy_filter.h:111-113 | insert probes by the owned session with the session overloads of the hash and equality functors; it adds the session exactly when no session with equal addresses is present, and otherwise changes nothing; the table invariant is kept |
| UdpProxy.SessionSet.Erase | source/extensions/filters/udp/udp_proxy/udp_proxy_filter.h:111-113 | erase by key removes that key and nothing else; it reports 1 if the key was live and 0 if not; the table invariant is kept |
| UdpProxy.SessionSet.KeysUnique | source/extensions/filters/udp/udp_proxy/udp_proxy_filter.h:111-113 | in a well-formed table no two entries, in any slots, share a (local, peer) pair |
| UdpProxy.InsertKeepsInv | source/extensions/filters/udp/udp_proxy/udp_proxy_filter.h:111-113 | appending a session with new addresses to its hash slot keeps the representation invariant: placement by hash, one owner per key, distinct chains |
| UdpProxy.EraseKeepsInv | source/extensions/filters/udp/udp_proxy/udp_proxy_filter.h:111-113 | removing a key's entry from its slot keeps the representation invariant |
| UdpProxy.UdpProxyFilter.constructor | source/extensions/filters/udp/udp_proxy/udp_proxy_filter.h:39-41 | a new filter has the given configuration and an empty, well-formed session table |
| UdpProxy.UdpProxyFilter.OnData | source/extensions/filters/udp/udp_proxy/udp_proxy_filter.h:44 | the view moves by one packet step, carrying the host the configured cluster resolved to at this call; the cluster registry is unchanged; the lookup log grows by one configured-cluster query on a miss and by none on a hit; every existing session stays in place; the only key that can appear is the datagram's, and its session is new |
| UdpProxy.UdpProxyFilter.Open | source/extensions/filters/udp/udp_proxy/udp_proxy_filter.h:44 | on a miss there is exactly one lookup; a session is created exactly when the cluster resolves to a host at this call, it is bound to that host and added under the datagram's key; otherwise the datagram is dropped and the table is unchanged (the drop is this model's reading) |
| UdpProxy.UdpProxyFilter.CreateSession | source/extensions/filters/udp/udp_proxy/udp_proxy_filter.h:44 | the new session is bound to the resolved host and stored under the datagram's key; the view gains that flow holding exactly the first payload |
| UdpProxy.UdpProxyFilter.AddSession | source/extensions/filters/udp/udp_proxy/udp_proxy_filter.h:44 | inserting a new session adds exactly that key to the table and to the view |
| UdpProxy.UdpProxyFilter.Forward | source/extensions/filters/udp/udp_proxy/udp_proxy_filter.h:44 | writing on a live session appends the payload to that flow alone; every other flow is untouched |
| UdpProxy.ClusterAddedLater | source/extensions/filters/udp/udp_proxy/udp_proxy_filter.h:24-30 | the cluster is looked up afresh for every datagram of an unseen flow, from the cluster manager held by reference: while the configured cluster is unknown a datagram costs one lookup and opens no session; after the cluster is added, the same datagram costs a second lookup and opens a session bound to the new host, holding that payload |
| UdpProxy.BasicFlow | test/extensions/filters/udp/udp_proxy/udp_proxy_filter_test.cc:69-78 | for every hash and host, the first "hello" from 10.0.0.1:1000 to 10.0.0.2:80 makes exactly one lookup, of "fake_cluster"; it leaves exactly one flow, keyed by that pair, bound to the host, with its idle timer armed, holding the payload unmodified |
| UdpProxy.Deliver | source/extensions/filters/udp/udp_proxy/udp_proxy_filter.h:44-55 | a datagram goes to onData and an expiry fires the idle timer of the flow's session if it has one; either way the view moves by exactly the input's flow-level event, the cluster registry is unchanged, and the lookup log grows by one configured-cluster query for a datagram of a flow with no session and by none otherwise; sessions still in the table are old ones or new ones |
| UdpProxy.Dispatch | source/extensions/filters/udp/udp_proxy/udp_proxy_filter.h:44-55 | delivering any sequence of datagrams and idle expiries leaves the filter's view equal to `FlowTable.Run` of the corresponding events from the starting view, with the table invariants kept; the lookup log grows by exactly `FlowTable.RunLookups` of those events, all of them queries for the configured cluster; every session left in the table is an old one or a new one, so the filter can be driven further |
| FlowTable.RunSnoc | source/extensions/filters/udp/udp_proxy/udp_proxy_filter.h:44 | running events one after another is running the prefix and then applying the last event, which is how the filter processes datagrams in arrival order |
| FlowTable.RunLookupsSnoc | source/extensions/filters/udp/udp_proxy/udp_proxy_filter.h:44 | the lookups of a run extended by one event are those of the run plus those the event makes in the table the run leaves |
| FlowTable.StepEffect | source/extensions/filters/udp/udp_proxy/udp_proxy_filter.h:44 | an event touches only its own flow; afterwards the flow is live exactly when it was live before a packet, or the packet found a host; a live flow keeps its host and gains the payload last; a new flow holds the resolved host and only the payload |
| FlowTable.RunIsolation | source/extensions/filters/udp/udp_proxy/udp_proxy_filter.h:111-113 | events on other flows never create, remove or alter a flow |
| FlowTable.SessionUniqueness | source/extensions/filters/udp/udp_proxy/udp_proxy_filter.h:111-113 | while a flow's timer does not fire, at most one session is created for it; exactly one when it had none and one of its packets arrives while the cluster resolves to a host; that session is bound to the first such host, whatever later packets resolve to; afterwards the flow is live exactly when it was before or a session was created |
| FlowTable.LookupsOfOneFlow | test/extensions/filters/udp/udp_proxy/udp_proxy_filter_test.cc:55-58 | over packets of one flow, the cluster is never queried for a live flow, and on every packet while the cluster resolves to no host |
| FlowTable.LookupsUntilResolved | test/extensions/filters/udp/udp_proxy/udp_proxy_filter_test.cc:55-58 | over packets of a new flow, the cluster is queried once per packet up to and including the first packet that resolves to a host; that packet opens the session, bound to the host it resolved to, and later packets reuse it without a query |
| FlowTable.ForwardedInOrder | source/extensions/filters/udp/udp_proxy/udp_proxy_filter.h:52 | while a flow stays live, what its session has forwarded is what it had before, followed by the flow's payloads in arrival order, and its host never changes |
| FlowTable.EvictionForgetsFlow | source/extensions/filters/udp/udp_proxy/udp_proxy_filter.h:55 | after a flow's idle timeout it is gone; its next packet is a miss that costs one lookup; a fresh session holding only that packet is opened exactly when that packet resolves to a host, bound to that host |

## Left out

- `source/common/config/version_converter.h`: protobuf upgrade and downgrade by reflection over dynamic messages, carried out in library code not part of this model.
- Socket and event plumbing: `onReadReady`, `processPacket`, `io_handle_` and `socket_event_`. These are I/O: reading the upstream's replies and writing them back downstream.
- Real timers and the time source. The idle timer is a flag that creating a session and each write arm. Its firing is the `OnIdleTimer` event, which the caller supplies, and its duration is not modelled.
- The absl hash algorithm and flat_hash_set internals: open addressing, control bytes, growth and rehashing. The set is modelled by separate chaining over 16 slots. The hash is an uninterpreted parameter of unbounded width rather than a `size_t`. This changes neither what a lookup finds nor the uniqueness of keys.
- Host selection by the load balancer. A cluster hands out a given host or none.
- Cluster manager internals, YAML and protobuf configuration loading and validation, logging, and the test's mocks. Parsing text such as "10.0.0.1:1000" into an address is also left out: the basic-flow scenario builds the addresses directly.
- A ceiling on the size of inbound datagrams. Nothing in the filter's header or test states one, so datagrams of every size are accepted.
- The value of `Network::MAX_UDP_PACKET_SIZE`. It comes from `common/network/utility.h`, which is not part of this model, and it is taken to be 1500.
- UdpProxy.UdpProxyFilter.OnData: `udp_proxy_filter.cc`, which holds the body, is not part of this model. The modelled body follows the declaration and the basic-flow test: find by bare key; on a hit, write; on a miss, one lookup, then create, insert and write. Dropping the datagram when the cluster is null or yields no host is this model's reading; neither the header nor the test shows that branch.
- UdpProxy.Dispatch: the cluster manager is not changed while a sequence is delivered, so every datagram of the run resolves against the same state. A change between datagrams is covered one call at a time by `OnData` and `Deliver`, both of which take the resolution at the call, and at the flow level by `FlowTable.Step`, whose events each carry their own resolution.
- UdpProxy.ActiveSession.OnIdleTimer: its body is in `udp_proxy_filter.cc`. Only its effect on the table is modelled, the erasure of its own key.
