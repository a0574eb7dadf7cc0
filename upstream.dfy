/** The upstream collaborators of the UDP proxy: hosts, clusters and the
    cluster manager that resolves a cluster by name. */
module Upstream {
  import opened Options
  import opened Network

  /** An upstream host, known only by its address. */
  datatype Host = Host(address: Address)

  /** A cluster as seen by one worker. Host selection belongs to the cluster's
      load balancer; `chosenHost` is the host it hands out, or None when no
      host is eligible. */
  datatype ThreadLocalCluster = ThreadLocalCluster(name: string, chosenHost: Option<Host>)

  /** The cluster manager. Its clusters, and the host each one hands out, may
      change between queries (`Update`); every query by name is recorded in
      `lookups`, so that callers can state how often they asked. */
  class ClusterManager {
    var clusters: map<string, ThreadLocalCluster>
    var lookups: seq<string>

    constructor (clusters: map<string, ThreadLocalCluster>)
      ensures this.clusters == clusters && lookups == []
    {
      this.clusters := clusters;
      lookups := [];
    }

    /** The cluster registered under `name`, if any. */
    function Find(name: string): Option<ThreadLocalCluster>
      reads this
    {
      if name in clusters then Some(clusters[name]) else None
    }

    /** ClusterManager::get: one query, recorded. */
    method Get(name: string) returns (cluster: Option<ThreadLocalCluster>)
      modifies this
      ensures lookups == old(lookups) + [name] && clusters == old(clusters)
      ensures cluster == Find(name)
      ensures cluster.Some? <==> name in clusters
    {
      lookups := lookups + [name];
      cluster := Find(name);
    }

    /** A change made outside the filter: the cluster `name` is added or
        replaced (for instance with another chosen host), or removed. */
    method Update(name: string, cluster: Option<ThreadLocalCluster>)
      modifies this
      ensures clusters == if cluster.Some? then old(clusters)[name := cluster.value] else old(clusters) - {name}
      ensures lookups == old(lookups)
      ensures Find(name) == cluster
    {
      clusters := if cluster.Some? then clusters[name := cluster.value] else clusters - {name};
    }
  }
}
