/**
 * The driver: one fresh bundler builds the graph of the entry file and the
 * emitter turns it into the bundle text.
 */
module Pipeline {
  import opened Environment
  import opened Graph
  import opened Bundling
  import opened Emit

  /**
   * The bundle of `entry` on a fresh run: the loader around the records of
   * the entry's graph with ids from 0, or the error of the first file that
   * does not compile.
   */
  method BundleEntry(host: Host, entry: string, ghost rank: imap<string, nat>) returns (r: Result<string>)
    requires Acyclic(host, rank, entry)
    ensures r.Ok? ==>
      exists graph :: IsGraph(host, entry, 0, graph) && r.value == BundleText(host.stringify, graph)
    ensures r.Err? ==> exists idAfter :: AbortedAt(host, entry, 0, idAfter, r.error)
  {
    var bundler := new Bundler(host);
    var graph := bundler.CreateGraph(entry, rank);
    if graph.Err? {
      return Err(graph.error);
    }
    var text := Bundle(host.stringify, graph.value);
    return Ok(text);
  }
}
