/** The abstract behaviour of the UDP proxy's session table: which flows
    have a live session, bound to which host, and what has been forwarded
    on each. The filter's entry points are proved to move this state exactly
    as `Step` says; the lemmas below are what follows for whole runs of
    packets and idle expiries. */
module FlowTable {
  import opened Options
  import opened Network
  import opened Upstream

  /** What one live session amounts to: its host and the payloads written upstream, in order. */
  datatype Flow = Flow(host: Host, forwarded: seq<Buffer>)

  /** At most one flow per (local, peer) key, by construction of a map. */
  type Table = map<LocalPeerAddresses, Flow>

  /** The two things that change the table: a datagram arriving on a flow, and
      the idle timer of that flow's session firing. `resolved` is what resolving
      the configured cluster yields at the moment the datagram arrives; the
      cluster manager may answer differently from one datagram to the next, and
      the answer only matters when the flow has no live session. */
  datatype Event =
    | Packet(key: LocalPeerAddresses, payload: Buffer, resolved: Option<Host>)
    | IdleTimeout(key: LocalPeerAddresses)

  /** One event. A packet on a live flow is forwarded on it; a packet on an
      unseen flow opens a flow bound to the resolved host, or is dropped when
      none resolves; an idle timeout destroys the flow. */
  function Step(t: Table, e: Event): Table
  {
    match e
    case Packet(key, payload, resolved) =>
      if key in t then t[key := t[key].(forwarded := t[key].forwarded + [payload])]
      else if resolved.Some? then t[key := Flow(resolved.value, [payload])]
      else t
    case IdleTimeout(key) => t - {key}
  }

  /** What one event does: it touches no flow but its own; a packet leaves its
      flow live when the flow was live or a host resolves; a timeout leaves
      it dead; a live flow keeps its host and gains the payload at the end;
      a new flow starts with the resolved host and the one payload. */
  lemma StepEffect(t: Table, e: Event)
    ensures forall k :: k != e.key ==> (k in Step(t, e) <==> k in t)
    ensures forall k :: k != e.key && k in t ==> Step(t, e)[k] == t[k]
    ensures e.key in Step(t, e) <==> e.Packet? && (e.key in t || e.resolved.Some?)
    ensures e.key in t && e.key in Step(t, e) ==>
      Step(t, e)[e.key] == Flow(t[e.key].host, t[e.key].forwarded + [e.payload])
    ensures e.key !in t && e.key in Step(t, e) ==>
      Step(t, e)[e.key] == Flow(e.resolved.value, [e.payload])
  {
  }

  /** How many cluster lookups one event costs: one for a packet on a flow with no live session. */
  function Lookups(t: Table, e: Event): nat
  {
    if e.Packet? && e.key !in t then 1 else 0
  }

  /** Whether the event creates a session for `k`. */
  predicate Creates(t: Table, e: Event, k: LocalPeerAddresses)
  {
    e.Packet? && e.key == k && k !in t && e.resolved.Some?
  }

  function Run(t: Table, events: seq<Event>): Table
    decreases |events|
  {
    if events == [] then t else Run(Step(t, events[0]), events[1..])
  }

  function RunLookups(t: Table, events: seq<Event>): nat
    decreases |events|
  {
    if events == [] then 0
    else Lookups(t, events[0]) + RunLookups(Step(t, events[0]), events[1..])
  }

  /** The number of sessions created for `k` over a run. */
  function Creations(t: Table, events: seq<Event>, k: LocalPeerAddresses): nat
    decreases |events|
  {
    if events == [] then 0
    else
      var here := if Creates(t, events[0], k) then 1 else 0;
      here + Creations(Step(t, events[0]), events[1..], k)
  }

  /** The payloads of the packets of flow `k`, in arrival order. */
  function PayloadsOf(events: seq<Event>, k: LocalPeerAddresses): seq<Buffer>
    decreases |events|
  {
    if events == [] then []
    else
      var here := if events[0].Packet? && events[0].key == k then [events[0].payload] else [];
      here + PayloadsOf(events[1..], k)
  }

  /** The hosts resolved when the packets of flow `k` arrived, in arrival order. */
  function HostsOffered(events: seq<Event>, k: LocalPeerAddresses): seq<Host>
    decreases |events|
  {
    if events == [] then []
    else
      var e := events[0];
      var here := if e.Packet? && e.key == k && e.resolved.Some? then [e.resolved.value] else [];
      here + HostsOffered(events[1..], k)
  }

  /** No event of the run concerns flow `k`. */
  predicate Untouched(events: seq<Event>, k: LocalPeerAddresses)
  {
    forall i :: 0 <= i < |events| ==> events[i].key != k
  }

  /** The idle timer of flow `k` never fires during the run. */
  predicate NeverIdle(events: seq<Event>, k: LocalPeerAddresses)
  {
    forall i :: 0 <= i < |events| ==> events[i] != IdleTimeout(k)
  }

  /** Every event of the run is a packet of flow `k`. */
  predicate OneFlow(events: seq<Event>, k: LocalPeerAddresses)
  {
    forall i :: 0 <= i < |events| ==> events[i].Packet? && events[i].key == k
  }

  /** No packet of the run finds a host when it resolves the cluster. */
  predicate Unresolved(events: seq<Event>)
  {
    forall i :: 0 <= i < |events| && events[i].Packet? ==> events[i].resolved.None?
  }

  /** Running a run extended by one event is running the run, then that event. */
  lemma {:induction false} RunSnoc(t: Table, events: seq<Event>, e: Event)
    ensures Run(t, events + [e]) == Step(Run(t, events), e)
    decreases |events|
  {
    if events == [] {
      assert [] + [e] == [e];
    } else {
      assert (events + [e])[0] == events[0];
      assert (events + [e])[1..] == events[1..] + [e];
      RunSnoc(Step(t, events[0]), events[1..], e);
    }
  }

  /** The lookups of a run extended by one event are those of the run, then
      those of that event in the table the run leaves. */
  lemma {:induction false} RunLookupsSnoc(t: Table, events: seq<Event>, e: Event)
    ensures RunLookups(t, events + [e]) == RunLookups(t, events) + Lookups(Run(t, events), e)
    decreases |events|
  {
    if events == [] {
      assert [] + [e] == [e];
    } else {
      assert (events + [e])[0] == events[0];
      assert (events + [e])[1..] == events[1..] + [e];
      RunLookupsSnoc(Step(t, events[0]), events[1..], e);
    }
  }

  /** Flow isolation: events on other flows neither create, destroy nor alter flow `k`. */
  lemma {:induction false} RunIsolation(t: Table, events: seq<Event>, k: LocalPeerAddresses)
    requires Untouched(events, k)
    ensures k in Run(t, events) <==> k in t
    ensures k in t ==> Run(t, events)[k] == t[k]
    decreases |events|
  {
    if events != [] {
      assert events[0].key != k;
      assert Untouched(events[1..], k) by {
        forall i | 0 <= i < |events[1..]| ensures events[1..][i].key != k {
          assert events[1..][i] == events[i + 1];
        }
      }
      RunIsolation(Step(t, events[0]), events[1..], k);
    }
  }

  /** Per-flow order: while flow `k` stays live, the payloads written on its
      session are the ones it already had followed by the flow's packets in
      arrival order, bound throughout to the host chosen when it was opened. */
  lemma {:induction false} ForwardedInOrder(t: Table, events: seq<Event>, k: LocalPeerAddresses)
    requires NeverIdle(events, k)
    requires k in t
    ensures k in Run(t, events)
    ensures Run(t, events)[k] == Flow(t[k].host, t[k].forwarded + PayloadsOf(events, k))
    decreases |events|
  {
    if events == [] {
      assert t[k].forwarded + [] == t[k].forwarded;
    } else {
      var t' := Step(t, events[0]);
      assert events[0] != IdleTimeout(k);
      assert NeverIdle(events[1..], k) by {
        forall i | 0 <= i < |events[1..]| ensures events[1..][i] != IdleTimeout(k) {
          assert events[1..][i] == events[i + 1];
        }
      }
      ForwardedInOrder(t', events[1..], k);
      var head := if events[0].Packet? && events[0].key == k then [events[0].payload] else [];
      assert PayloadsOf(events, k) == head + PayloadsOf(events[1..], k);
      assert t'[k] == Flow(t[k].host, t[k].forwarded + head);
      assert t[k].forwarded + head + PayloadsOf(events[1..], k) == t[k].forwarded + PayloadsOf(events, k);
    }
  }

  /** Session uniqueness: while the idle timer of flow `k` does not fire, at most
      one session is created for it, exactly one when the flow had none and
      some packet of the flow finds a host; that session is bound to the first
      host found, and afterwards the flow is live exactly when it was before or
      that one session was created. */
  lemma {:induction false} SessionUniqueness(t: Table, events: seq<Event>, k: LocalPeerAddresses)
    requires NeverIdle(events, k)
    ensures Creations(t, events, k) == if k !in t && HostsOffered(events, k) != [] then 1 else 0
    ensures k in Run(t, events) <==> k in t || Creations(t, events, k) == 1
    ensures k !in t && Creations(t, events, k) == 1 ==>
      Run(t, events)[k].host == HostsOffered(events, k)[0]
    decreases |events|
  {
    if events != [] {
      var e := events[0];
      var t' := Step(t, e);
      assert e != IdleTimeout(k);
      assert NeverIdle(events[1..], k) by {
        forall i | 0 <= i < |events[1..]| ensures events[1..][i] != IdleTimeout(k) {
          assert events[1..][i] == events[i + 1];
        }
      }
      SessionUniqueness(t', events[1..], k);
      assert k in t ==> k in t';
      if Creates(t, e, k) {
        assert k in t' && t'[k].host == e.resolved.value;
        ForwardedInOrder(t', events[1..], k);
      } else if k !in t {
        assert k !in t';
      }
    }
  }

  /** Miss then reuse, for a live flow and for a flow no host is found for:
      over packets of one flow, a live flow costs no lookup, and a new flow
      whose lookups never find a host costs one lookup per packet. */
  lemma {:induction false} LookupsOfOneFlow(t: Table, events: seq<Event>, k: LocalPeerAddresses)
    requires OneFlow(events, k)
    ensures k in t ==> RunLookups(t, events) == 0
    ensures k !in t && Unresolved(events) ==> RunLookups(t, events) == |events|
    decreases |events|
  {
    if events != [] {
      var t' := Step(t, events[0]);
      assert OneFlow(events[1..], k) by {
        forall i | 0 <= i < |events[1..]| ensures events[1..][i].Packet? && events[1..][i].key == k {
          assert events[1..][i] == events[i + 1];
        }
      }
      if k !in t && Unresolved(events) {
        assert Unresolved(events[1..]) by {
          forall i | 0 <= i < |events[1..]| && events[1..][i].Packet? ensures events[1..][i].resolved.None? {
            assert events[1..][i] == events[i + 1];
          }
        }
        assert events[0].resolved.None?;
      }
      LookupsOfOneFlow(t', events[1..], k);
    }
  }

  /** Miss then reuse, for a new flow that a host is found for: every packet up
      to and including the first one whose lookup finds a host costs one
      lookup; that packet opens the session and every later packet reuses it. */
  lemma {:induction false} LookupsUntilResolved(t: Table, events: seq<Event>, k: LocalPeerAddresses, i: nat)
    requires OneFlow(events, k) && k !in t
    requires i < |events| && events[i].resolved.Some? && Unresolved(events[..i])
    ensures RunLookups(t, events) == i + 1
    ensures k in Run(t, events) && Run(t, events)[k].host == events[i].resolved.value
    decreases i
  {
    var t' := Step(t, events[0]);
    assert OneFlow(events[1..], k) by {
      forall j | 0 <= j < |events[1..]| ensures events[1..][j].Packet? && events[1..][j].key == k {
        assert events[1..][j] == events[j + 1];
      }
    }
    if i == 0 {
      assert k in t';
      LookupsOfOneFlow(t', events[1..], k);
      ForwardedInOrder(t', events[1..], k);
    } else {
      assert events[..i][0] == events[0];
      assert t' == t;
      var before := events[1..][..i - 1];
      assert Unresolved(before) by {
        forall j | 0 <= j < |before| && before[j].Packet? ensures before[j].resolved.None? {
          assert before[j] == events[..i][j + 1];
        }
      }
      LookupsUntilResolved(t', events[1..], k, i - 1);
    }
  }

  /** Idle eviction: once a flow's timer fires, its next packet is a miss again:
      it costs one lookup and opens a new session holding only that packet,
      bound to whatever host that lookup finds, or none if it finds none. */
  lemma EvictionForgetsFlow(t: Table, k: LocalPeerAddresses, payload: Buffer, resolved: Option<Host>)
    ensures k !in Step(t, IdleTimeout(k))
    ensures Lookups(Step(t, IdleTimeout(k)), Packet(k, payload, resolved)) == 1
    ensures k in Step(Step(t, IdleTimeout(k)), Packet(k, payload, resolved)) <==> resolved.Some?
    ensures resolved.Some? ==>
      Step(Step(t, IdleTimeout(k)), Packet(k, payload, resolved))[k] == Flow(resolved.value, [payload])
  {
  }
}
