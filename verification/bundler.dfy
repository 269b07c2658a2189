/**
 * The asset compiler and the graph builder: a bundler object owns the id
 * counter, compiles files through its host and discovers the graph of an
 * entry file breadth-first.
 */
module Bundling {
  import opened Environment
  import opened Graph

  /**
   * The discovery stopped at a file that does not compile: either the entry
   * itself, or the file named by the `j`-th import of `q[i]` in some state
   * `(q, i, j)` the discovery reached. `idAfter` is the counter afterwards:
   * one id per asset created, plus one if the failing file got as far as
   * drawing its id.
   */
  ghost predicate AbortedAt(host: Host, entry: string, id0: nat, idAfter: nat, e: BuildError)
  {
    && !Compiles(host, e.filename)
    && e == ErrorOf(host, e.filename)
    && (|| (e.filename == entry && idAfter == id0 + IdsDrawn(host, entry))
        || exists q: seq<Asset>, i: nat, j: nat ::
             && Explored(host, entry, id0, q, i, j)
             && i < |q| && j < |q[i].dependencies|
             && e.filename == Resolve(host, q[i].filename, q[i].dependencies[j])
             && idAfter == id0 + |q| + IdsDrawn(host, e.filename))
  }

  lemma {:induction false} AbortInside(host: Host, entry: string, id0: nat, q: seq<Asset>, i: nat, j: nat,
                    idAfter: nat, e: BuildError)
    requires Explored(host, entry, id0, q, i, j) && i < |q| && j < |q[i].dependencies|
    requires e.filename == Resolve(host, q[i].filename, q[i].dependencies[j])
    requires !Compiles(host, e.filename) && e == ErrorOf(host, e.filename)
    requires idAfter == id0 + |q| + IdsDrawn(host, e.filename)
    ensures AbortedAt(host, entry, id0, idAfter, e)
  {
  }

  /**
   * Handling the imports of `q[i]` stopped at the `j`-th: the files of the
   * earlier ones compiled, and the file this one names does not. `idAfter`
   * counts the ids drawn for the earlier children and by the failing file.
   */
  ghost predicate LinkAborted(host: Host, id0: nat, q: seq<Asset>, i: nat, idAfter: nat, e: BuildError)
  {
    && i < |q|
    && exists j: nat ::
         && j < |q[i].dependencies| && ChildrenCompile(host, q, i, j)
         && e.filename == Resolve(host, q[i].filename, q[i].dependencies[j])
         && !Compiles(host, e.filename) && e == ErrorOf(host, e.filename)
         && idAfter == id0 + |q| + j + IdsDrawn(host, e.filename)
  }

  /** A failure while handling the imports of the asset under the cursor is a failure of the discovery. */
  lemma {:induction false} AbortWhileLinking(host: Host, entry: string, id0: nat, q: seq<Asset>, i: nat,
                                             idAfter: nat, e: BuildError)
    requires i < |q| && Explored(host, entry, id0, q, i, 0)
    requires LinkAborted(host, id0, q, i, idAfter, e)
    ensures AbortedAt(host, entry, id0, idAfter, e)
  {
    var j: nat :| && j < |q[i].dependencies| && ChildrenCompile(host, q, i, j)
                  && e.filename == Resolve(host, q[i].filename, q[i].dependencies[j])
                  && !Compiles(host, e.filename) && e == ErrorOf(host, e.filename)
                  && idAfter == id0 + |q| + j + IdsDrawn(host, e.filename);
    LinkedExplored(host, entry, id0, q, i, j);
    AbortInside(host, entry, id0, Linked(host, id0, q, i, j), i, j, idAfter, e);
  }

  class Bundler {
    /** The next id to hand out. */
    var nextId: nat
    /** The file system, parser, transformer and path library the bundler uses. */
    const host: Host

    /** A fresh run: the counter starts at 0. */
    constructor (host: Host)
      ensures this.host == host && nextId == 0
    {
      this.host := host;
      nextId := 0;
    }

    /**
     * Reads, parses and walks `filename`, draws the next id and lowers the
     * tree. A read or parse failure happens before the id is drawn; a
     * lowering failure happens after it, so that id is used up.
     */
    method CreateAsset(filename: string) returns (r: Result<Asset>)
      modifies this
      ensures r.Ok? <==> Compiles(host, filename)
      ensures r.Ok? ==>
        && r.value.id == old(nextId)
        && r.value.filename == filename
        && FromSource(host, r.value)
        && r.value.mapping == map[]
      ensures r.Err? ==> r.error == ErrorOf(host, filename)
      ensures nextId == old(nextId) + IdsDrawn(host, filename)
    {
      var frontend := host.frontend(filename);
      if frontend.Unreadable? {
        return Err(BuildError(ReadError, filename));
      }
      if frontend.Unparsable? {
        return Err(BuildError(ParseError, filename));
      }
      var dependencies := CollectImports(frontend.program);
      var id := nextId;
      nextId := nextId + 1;
      if frontend.lowering.LoweringFailed? {
        return Err(BuildError(TransformError, filename));
      }
      r := Ok(Asset(id, filename, dependencies, frontend.lowering.code, map[]));
    }

    /**
     * Compiles `entry` and then, for each queued asset in order, compiles the
     * file of each of its imports, records the child's id under the import
     * string and appends the child to the queue. The first file that does not
     * compile aborts the run. The model requires the imports reachable from
     * `entry` to have no cycle, which `rank` witnesses; the queue then stops
     * growing.
     */
    method CreateGraph(entry: string, ghost rank: imap<string, nat>) returns (r: Result<seq<Asset>>)
      requires Acyclic(host, rank, entry)
      modifies this
      ensures r.Ok? ==> IsGraph(host, entry, old(nextId), r.value) && nextId == old(nextId) + |r.value|
      ensures r.Ok? ==> |r.value| == Size(host, rank, entry)
      ensures r.Err? ==> AbortedAt(host, entry, old(nextId), nextId, r.error)
    {
      ghost var id0 := nextId;
      var mainAsset := CreateAsset(entry);
      if mainAsset.Err? {
        assert AbortedAt(host, entry, id0, nextId, mainAsset.error);
        return Err(mainAsset.error);
      }
      var queue := [mainAsset.value];
      ExploreStart(host, entry, id0, mainAsset.value);
      var i := 0;
      while i < |queue|
        invariant Explored(host, entry, id0, queue, i, 0)
        invariant nextId == id0 + |queue|
        invariant AllRanked(rank, queue)
        invariant i + Weight(host, rank, queue, i) == Size(host, rank, entry)
        decreases Size(host, rank, entry) - i
      {
        var asset := queue[i];
        UnprocessedHasNoMapping(host, entry, id0, queue, i);
        ResetMapping(queue, i);
        queue := queue[i := asset.(mapping := map[])];
        assert asset.dependencies == Deps(host, asset.filename) by {
          assert Compiled(host, id0, queue);
        }
        var linked := LinkDependencies(id0, queue, i);
        if linked.Err? {
          AbortWhileLinking(host, entry, id0, queue, i, nextId, linked.error);
          return Err(linked.error);
        }
        LinkedExplored(host, entry, id0, queue, i, |asset.dependencies|);
        AcyclicRanked(host, rank, entry, asset.filename);
        LinkedRanked(host, rank, entry, id0, queue, i, |asset.dependencies|);
        WeightLinked(host, rank, id0, queue, i, |asset.dependencies|);
        queue := linked.value;
        ExploreAdvance(host, entry, id0, queue, i);
        i := i + 1;
      }
      return Ok(queue);
    }

    /**
     * The `forEach` over one asset's imports: handles them in order with
     * `LinkImport`. The first file that does not compile aborts the run.
     */
    method LinkDependencies(ghost id0: nat, queue0: seq<Asset>, i: nat) returns (r: Result<seq<Asset>>)
      requires i < |queue0| && nextId == id0 + |queue0|
      modifies this
      ensures r.Ok? ==>
        && ChildrenCompile(host, queue0, i, |queue0[i].dependencies|)
        && r.value == Linked(host, id0, queue0, i, |queue0[i].dependencies|)
        && nextId == id0 + |r.value|
      ensures r.Err? ==> LinkAborted(host, id0, queue0, i, nextId, r.error)
    {
      var queue := queue0;
      var asset := queue[i];
      var dirname := host.dirname(asset.filename);
      var j := 0;
      while j < |asset.dependencies|
        invariant j <= |asset.dependencies| && ChildrenCompile(host, queue0, i, j)
        invariant queue == Linked(host, id0, queue0, i, j)
        invariant nextId == id0 + |queue|
      {
        var linked := LinkImport(queue, i, dirname, asset.dependencies[j]);
        if linked.Err? {
          return Err(linked.error);
        }
        queue := linked.value;
        j := j + 1;
      }
      return Ok(queue);
    }

    /**
     * The `forEach` callback for one import string of `queue[i]`: joins it to
     * the asset's directory, compiles that file, records the child's id under
     * the string in the asset's mapping and appends the child to the queue.
     */
    method LinkImport(queue: seq<Asset>, i: nat, dirname: string, relativePath: string)
      returns (r: Result<seq<Asset>>)
      requires i < |queue| && dirname == host.dirname(queue[i].filename)
      modifies this
      ensures r.Ok? <==> Compiles(host, Resolve(host, queue[i].filename, relativePath))
      ensures r.Ok? ==>
        var file := Resolve(host, queue[i].filename, relativePath);
        var child := Asset(old(nextId), file, Deps(host, file), Code(host, file), map[]);
        r.value == queue[i := queue[i].(mapping := queue[i].mapping[relativePath := child.id])] + [child]
      ensures r.Err? ==> r.error == ErrorOf(host, Resolve(host, queue[i].filename, relativePath))
      ensures nextId == old(nextId) + IdsDrawn(host, Resolve(host, queue[i].filename, relativePath))
    {
      var absolutePath := host.join(dirname, relativePath);
      var child := CreateAsset(absolutePath);
      if child.Err? {
        return Err(child.error);
      }
      var recorded := queue[i].(mapping := queue[i].mapping[relativePath := child.value.id]);
      return Ok(queue[i := recorded] + [child.value]);
    }
  }
}
