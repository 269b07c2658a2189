/**
 * The dependency graph: the queue of assets that the breadth-first discovery
 * produces, and what it promises about ids, child positions and mappings.
 */
module Graph {
  import opened Environment

  /**
   * One compiled module. `mapping` is empty until the graph builder attaches
   * the import-string-to-id table of this asset.
   */
  datatype Asset = Asset(
    id: nat,
    filename: string,
    dependencies: seq<string>,
    code: string,
    mapping: map<string, nat>)

  /** The asset's dependencies and code are what the frontend gives for its file. */
  ghost predicate FromSource(host: Host, a: Asset)
  {
    Compiles(host, a.filename) && a.dependencies == Deps(host, a.filename) && a.code == Code(host, a.filename)
  }

  /** The number of import strings of all assets of `q`. */
  function TotalDeps(q: seq<Asset>): nat
  {
    if q == [] then 0 else TotalDeps(q[..|q| - 1]) + |q[|q| - 1].dependencies|
  }

  /**
   * Where the children of `q[p]` begin: after the entry and after the
   * children of every asset before `q[p]`.
   */
  function ChildStart(q: seq<Asset>, p: nat): nat
    requires p <= |q|
  {
    1 + TotalDeps(q[..p])
  }

  /** The `c`-th child of `q[p]` sits at its place and is the file the `c`-th import names. */
  ghost predicate IsChild(host: Host, q: seq<Asset>, p: nat, c: nat)
    requires p < |q| && c < |q[p].dependencies|
  {
    && ChildStart(q, p) + c < |q|
    && q[ChildStart(q, p) + c].filename == Resolve(host, q[p].filename, q[p].dependencies[c])
  }

  /** The position of the last occurrence of `s` in `xs`. */
  function LastIndex(xs: seq<string>, s: string): (k: nat)
    requires s in xs
    ensures k < |xs| && xs[k] == s
    ensures forall k' :: k < k' < |xs| ==> xs[k'] != s
  {
    if xs[|xs| - 1] == s then |xs| - 1 else LastIndex(xs[..|xs| - 1], s)
  }

  /**
   * `m` maps exactly the distinct strings of `deps`, each to the id of the
   * child created for its last occurrence; the children's ids start at `first`.
   */
  ghost predicate MappingIs(m: map<string, nat>, deps: seq<string>, first: nat)
  {
    && (forall s :: s in m <==> s in deps)
    && (forall s :: s in m ==> m[s] == first + LastIndex(deps, s))
  }

  /** The cursor `(i, j)` is within the queue, and the queue ends where `q[i]`'s next child goes. */
  ghost predicate Cursor(q: seq<Asset>, i: nat, j: nat)
  {
    && 0 < |q|
    && i <= |q|
    && (i == |q| ==> j == 0)
    && (i < |q| ==> j <= |q[i].dependencies|)
    && |q| == ChildStart(q, i) + j
    && (forall p :: 0 <= p <= i && p < |q| ==> p < ChildStart(q, p))
  }

  /** Ids are consecutive from `id0`, and every asset is what its file compiles to. */
  ghost predicate Compiled(host: Host, id0: nat, q: seq<Asset>)
  {
    forall k :: 0 <= k < |q| ==> q[k].id == id0 + k && FromSource(host, q[k])
  }

  /** Every import handled so far has its child at its place. */
  ghost predicate Placed(host: Host, q: seq<Asset>, i: nat, j: nat)
    requires i <= |q|
    requires i < |q| ==> j <= |q[i].dependencies|
  {
    && (forall p, c :: 0 <= p < i && 0 <= c < |q[p].dependencies| ==> IsChild(host, q, p, c))
    && (i < |q| ==> forall c :: 0 <= c < j ==> IsChild(host, q, i, c))
  }

  /** The processed assets have complete mappings, `q[i]` a partial one, the rest none. */
  ghost predicate Mapped(id0: nat, q: seq<Asset>, i: nat, j: nat)
    requires i <= |q|
    requires i < |q| ==> j <= |q[i].dependencies|
  {
    && (forall p :: 0 <= p < i ==> MappingIs(q[p].mapping, q[p].dependencies, id0 + ChildStart(q, p)))
    && (i < |q| ==> MappingIs(q[i].mapping, q[i].dependencies[..j], id0 + ChildStart(q, i)))
    && (forall p :: i < p < |q| ==> q[p].mapping == map[])
  }

  /**
   * The state of the discovery after assets `q[..i]` are fully processed and
   * the first `j` imports of `q[i]` have their child: the entry comes first,
   * ids are consecutive from `id0`, every asset is what its file compiles to,
   * the children of each processed import sit in one block after their parent
   * and after the children of all earlier assets, and the processed mappings
   * are complete.
   */
  ghost predicate Explored(host: Host, entry: string, id0: nat, q: seq<Asset>, i: nat, j: nat)
  {
    && Cursor(q, i, j)
    && q[0].filename == entry
    && Compiled(host, id0, q)
    && Placed(host, q, i, j)
    && Mapped(id0, q, i, j)
  }

  /** The ids of the assets of `q`. */
  function Ids(q: seq<Asset>): set<nat>
  {
    set a | a in q :: a.id
  }

  /** A complete graph: every asset of the queue has been processed. */
  ghost predicate IsGraph(host: Host, entry: string, id0: nat, q: seq<Asset>)
  {
    Explored(host, entry, id0, q, |q|, 0)
  }

  // ---------------------------------------------------------------------------
  // Positions of children

  /** Each asset's children block follows right after the previous asset's block. */
  lemma {:induction false} ChildStartNext(q: seq<Asset>, p: nat)
    requires p < |q|
    ensures ChildStart(q, p + 1) == ChildStart(q, p) + |q[p].dependencies|
  {
    assert q[..p + 1][..p] == q[..p];
  }

  /**
   * Breadth-first order: the children of an earlier asset all come before the
   * children of a later one.
   */
  lemma {:induction false} ChildStartMonotone(q: seq<Asset>, p: nat, p': nat)
    requires p < p' <= |q|
    ensures ChildStart(q, p) + |q[p].dependencies| <= ChildStart(q, p')
    decreases p' - p
  {
    ChildStartNext(q, p);
    if p + 1 < p' {
      ChildStartMonotone(q, p + 1, p');
      ChildStartNext(q, p + 1);
    }
  }

  /** Distinct imports (of the same or different assets) get distinct queue positions. */
  lemma {:induction false} ChildIndexInjective(q: seq<Asset>, p1: nat, c1: nat, p2: nat, c2: nat)
    requires p1 < |q| && c1 < |q[p1].dependencies|
    requires p2 < |q| && c2 < |q[p2].dependencies|
    requires (p1, c1) != (p2, c2)
    ensures ChildStart(q, p1) + c1 != ChildStart(q, p2) + c2
  {
    if p1 < p2 {
      ChildStartMonotone(q, p1, p2);
    } else if p2 < p1 {
      ChildStartMonotone(q, p2, p1);
    }
  }

  // ---------------------------------------------------------------------------
  // Maintaining the discovery state

  /** Recording one more import of `q[i]` in its mapping. */
  lemma {:induction false} MappingStep(m: map<string, nat>, deps: seq<string>, j: nat, first: nat)
    requires j < |deps|
    requires MappingIs(m, deps[..j], first)
    ensures MappingIs(m[deps[j] := first + j], deps[..j + 1], first)
  {
    var m' := m[deps[j] := first + j];
    assert deps[..j + 1] == deps[..j] + [deps[j]];
    assert deps[..j + 1][..j] == deps[..j];
    forall s | s in m'
      ensures m'[s] == first + LastIndex(deps[..j + 1], s)
    {
      if s != deps[j] {
        assert s in deps[..j];
      }
    }
  }

  /** The entry alone, freshly compiled, starts the discovery. */
  lemma {:induction false} ExploreStart(host: Host, entry: string, id0: nat, main: Asset)
    requires main.id == id0 && main.filename == entry && FromSource(host, main) && main.mapping == map[]
    ensures Explored(host, entry, id0, [main], 0, 0)
  {
    assert [main][..0] == [];
  }

  /** Creating the child for the `j`-th import of `q[i]`, recording it and appending it. */
  lemma {:induction false} ExploreStep(host: Host, entry: string, id0: nat, q: seq<Asset>, i: nat, j: nat,
                    relativePath: string, recorded: Asset, child: Asset)
    requires Explored(host, entry, id0, q, i, j)
    requires i < |q| && j < |q[i].dependencies| && relativePath == q[i].dependencies[j]
    requires child.id == id0 + |q| && FromSource(host, child) && child.mapping == map[]
    requires child.filename == Resolve(host, q[i].filename, relativePath)
    requires recorded == q[i].(mapping := q[i].mapping[relativePath := child.id])
    ensures Explored(host, entry, id0, q[i := recorded] + [child], i, j + 1)
    ensures (q[i := recorded] + [child])[i].filename == q[i].filename
    ensures (q[i := recorded] + [child])[i].dependencies == q[i].dependencies
  {
    ChildStartAfterStep(q, i, recorded, child);
    CursorStep(q, i, j, recorded, child);
    PlacedStep(host, q, i, j, recorded, child);
    MappedStep(id0, q, i, j, child);
  }

  /** Appending a child and updating `q[i]`'s mapping leaves the first `i + 1` block starts alone. */
  lemma {:induction false} ChildStartAfterStep(q: seq<Asset>, i: nat, recorded: Asset, child: Asset)
    requires i < |q| && recorded.dependencies == q[i].dependencies
    ensures forall p :: 0 <= p <= i ==> ChildStart(q[i := recorded] + [child], p) == ChildStart(q, p)
  {
    var q' := q[i := recorded] + [child];
    forall p | 0 <= p <= i
      ensures ChildStart(q', p) == ChildStart(q, p)
    {
      assert q'[..p] == q[..p];
    }
  }

  lemma {:induction false} CursorStep(q: seq<Asset>, i: nat, j: nat, recorded: Asset, child: Asset)
    requires Cursor(q, i, j) && i < |q| && j < |q[i].dependencies|
    requires recorded.dependencies == q[i].dependencies
    ensures Cursor(q[i := recorded] + [child], i, j + 1)
  {
    var q' := q[i := recorded] + [child];
    ChildStartAfterStep(q, i, recorded, child);
    assert q'[i] == recorded;
    forall p | 0 <= p <= i && p < |q'|
      ensures p < ChildStart(q', p)
    {
      assert p < ChildStart(q, p);
    }
  }

  lemma {:induction false} PlacedStep(host: Host, q: seq<Asset>, i: nat, j: nat, recorded: Asset, child: Asset)
    requires Cursor(q, i, j) && i < |q| && j < |q[i].dependencies|
    requires Placed(host, q, i, j)
    requires recorded.dependencies == q[i].dependencies && recorded.filename == q[i].filename
    requires child.filename == Resolve(host, q[i].filename, q[i].dependencies[j])
    ensures Placed(host, q[i := recorded] + [child], i, j + 1)
  {
    var q' := q[i := recorded] + [child];
    ChildStartAfterStep(q, i, recorded, child);
    assert forall k :: 0 <= k < |q| ==> q'[k].filename == q[k].filename && q'[k].dependencies == q[k].dependencies;
    forall p, c | 0 <= p < i && 0 <= c < |q'[p].dependencies|
      ensures IsChild(host, q', p, c)
    {
      assert IsChild(host, q, p, c);
    }
    forall c | 0 <= c < j + 1
      ensures IsChild(host, q', i, c)
    {
      if c < j {
        assert IsChild(host, q, i, c);
      }
    }
  }

  lemma {:induction false} MappedStep(id0: nat, q: seq<Asset>, i: nat, j: nat, child: Asset)
    requires Cursor(q, i, j) && i < |q| && j < |q[i].dependencies|
    requires Mapped(id0, q, i, j)
    requires child.id == id0 + |q| && child.mapping == map[]
    ensures
      var recorded := q[i].(mapping := q[i].mapping[q[i].dependencies[j] := child.id]);
      Mapped(id0, q[i := recorded] + [child], i, j + 1)
  {
    var recorded := q[i].(mapping := q[i].mapping[q[i].dependencies[j] := child.id]);
    var q' := q[i := recorded] + [child];
    ChildStartAfterStep(q, i, recorded, child);
    forall p | 0 <= p < i
      ensures MappingIs(q'[p].mapping, q'[p].dependencies, id0 + ChildStart(q', p))
    {
      assert q'[p] == q[p];
    }
    MappingStep(q[i].mapping, q[i].dependencies, j, id0 + ChildStart(q, i));
    assert q'[i] == recorded;
    forall p | i < p < |q'|
      ensures q'[p].mapping == map[]
    {
      if p < |q| {
        assert q'[p] == q[p];
      }
    }
  }

  /** The asset under the cursor has no mapping yet before its first import is handled. */
  lemma {:induction false} UnprocessedHasNoMapping(host: Host, entry: string, id0: nat, q: seq<Asset>, i: nat)
    requires Explored(host, entry, id0, q, i, 0) && i < |q|
    ensures q[i].mapping == map[]
  {
    assert Mapped(id0, q, i, 0);
    assert q[i].mapping.Keys == {};
  }

  /** Attaching an empty mapping to an asset that has none changes nothing. */
  lemma {:induction false} ResetMapping(q: seq<Asset>, i: nat)
    requires i < |q| && q[i].mapping == map[]
    ensures q[i := q[i].(mapping := map[])] == q
  {
  }

  /** All imports of `q[i]` handled: move on to the next asset. */
  lemma {:induction false} ExploreAdvance(host: Host, entry: string, id0: nat, q: seq<Asset>, i: nat)
    requires i < |q| && Explored(host, entry, id0, q, i, |q[i].dependencies|)
    ensures Explored(host, entry, id0, q, i + 1, 0)
  {
    CursorAdvance(q, i);
    PlacedAdvance(host, q, i);
    MappedAdvance(id0, q, i);
  }

  lemma {:induction false} CursorAdvance(q: seq<Asset>, i: nat)
    requires i < |q| && Cursor(q, i, |q[i].dependencies|)
    ensures Cursor(q, i + 1, 0)
  {
    ChildStartNext(q, i);
  }

  lemma {:induction false} PlacedAdvance(host: Host, q: seq<Asset>, i: nat)
    requires i < |q| && Placed(host, q, i, |q[i].dependencies|)
    ensures Placed(host, q, i + 1, 0)
  {
  }

  lemma {:induction false} MappedAdvance(id0: nat, q: seq<Asset>, i: nat)
    requires i < |q| && Mapped(id0, q, i, |q[i].dependencies|)
    ensures Mapped(id0, q, i + 1, 0)
  {
    assert q[i].dependencies[..|q[i].dependencies|] == q[i].dependencies;
    if i + 1 < |q| {
      assert q[i + 1].dependencies[..0] == [];
    }
  }

  // ---------------------------------------------------------------------------
  // Handling the imports of one asset

  /** The first `j` imports of `q[i]` name files that compile. */
  ghost predicate ChildrenCompile(host: Host, q: seq<Asset>, i: nat, j: nat)
    requires i < |q| && j <= |q[i].dependencies|
  {
    forall c :: 0 <= c < j ==> Compiles(host, Resolve(host, q[i].filename, q[i].dependencies[c]))
  }

  /**
   * The queue after the first `j` imports of `q[i]` are handled: for each
   * one in turn, the file it names is compiled with the next id, the id is
   * recorded under the import string in `q[i]`'s mapping, and the new asset
   * is appended.
   */
  ghost function Linked(host: Host, id0: nat, q: seq<Asset>, i: nat, j: nat): (r: seq<Asset>)
    requires i < |q| && j <= |q[i].dependencies| && ChildrenCompile(host, q, i, j)
    ensures |r| == |q| + j
    ensures r[i].filename == q[i].filename && r[i].dependencies == q[i].dependencies
    decreases j
  {
    if j == 0 then q
    else
      var prev := Linked(host, id0, q, i, j - 1);
      var s := q[i].dependencies[j - 1];
      var file := Resolve(host, q[i].filename, s);
      var child := Asset(id0 + |prev|, file, Deps(host, file), Code(host, file), map[]);
      prev[i := prev[i].(mapping := prev[i].mapping[s := child.id])] + [child]
  }

  /** Handling the imports of the asset under the cursor keeps the discovery state. */
  lemma {:induction false} LinkedExplored(host: Host, entry: string, id0: nat, q: seq<Asset>, i: nat, j: nat)
    requires i < |q| && Explored(host, entry, id0, q, i, 0)
    requires j <= |q[i].dependencies| && ChildrenCompile(host, q, i, j)
    ensures Explored(host, entry, id0, Linked(host, id0, q, i, j), i, j)
    decreases j
  {
    if j > 0 {
      assert ChildrenCompile(host, q, i, j - 1);
      LinkedExplored(host, entry, id0, q, i, j - 1);
      LinkedNext(host, entry, id0, q, i, j);
    }
  }

  /** The `j`-th import of `q[i]`, handled. */
  lemma {:induction false} LinkedNext(host: Host, entry: string, id0: nat, q: seq<Asset>, i: nat, j: nat)
    requires i < |q| && 0 < j <= |q[i].dependencies| && ChildrenCompile(host, q, i, j)
    requires ChildrenCompile(host, q, i, j - 1)
    requires Explored(host, entry, id0, Linked(host, id0, q, i, j - 1), i, j - 1)
    ensures Explored(host, entry, id0, Linked(host, id0, q, i, j), i, j)
  {
    var prev := Linked(host, id0, q, i, j - 1);
    var s := q[i].dependencies[j - 1];
    var file := Resolve(host, q[i].filename, s);
    assert Compiles(host, file);
    var child := Asset(id0 + |prev|, file, Deps(host, file), Code(host, file), map[]);
    var recorded := prev[i].(mapping := prev[i].mapping[s := child.id]);
    assert Linked(host, id0, q, i, j) == prev[i := recorded] + [child];
    ExploreStep(host, entry, id0, prev, i, j - 1, s, recorded, child);
  }

  // ---------------------------------------------------------------------------
  // What a complete graph promises

  /** Ids are exactly `id0 .. id0 + |q| - 1`, each used once, and the entry has `id0`. */
  lemma {:induction false} IdsDense(host: Host, entry: string, id0: nat, q: seq<Asset>)
    requires IsGraph(host, entry, id0, q)
    ensures q[0].filename == entry && q[0].id == id0
    ensures forall n :: n in Ids(q) <==> id0 <= n < id0 + |q|
    ensures forall k, k' :: 0 <= k < k' < |q| ==> q[k].id != q[k'].id
  {
    IdsOfCompiled(host, id0, q);
  }

  lemma {:induction false} IdsOfCompiled(host: Host, id0: nat, q: seq<Asset>)
    requires Compiled(host, id0, q)
    ensures forall n :: n in Ids(q) <==> id0 <= n < id0 + |q|
  {
    forall n | id0 <= n < id0 + |q|
      ensures n in Ids(q)
    {
      assert q[n - id0] in q;
    }
  }

  /**
   * No deduplication: the queue holds one asset per import statement plus the
   * entry, so its length is fixed by the dependency counts.
   */
  lemma {:induction false} QueueLength(host: Host, entry: string, id0: nat, q: seq<Asset>)
    requires IsGraph(host, entry, id0, q)
    ensures |q| == 1 + TotalDeps(q)
  {
    assert q[..|q|] == q;
  }

  /**
   * Breadth-first placement: the children of `q[p]` form one block after
   * `q[p]` itself, in import order, each compiled from the file its import
   * names and numbered by its position.
   */
  lemma {:induction false} ChildrenBlock(host: Host, entry: string, id0: nat, q: seq<Asset>, p: nat)
    requires IsGraph(host, entry, id0, q) && p < |q|
    ensures p < ChildStart(q, p) && ChildStart(q, p) + |q[p].dependencies| <= |q|
    ensures forall c :: 0 <= c < |q[p].dependencies| ==>
      && q[ChildStart(q, p) + c].filename == Resolve(host, q[p].filename, q[p].dependencies[c])
      && q[ChildStart(q, p) + c].id == id0 + ChildStart(q, p) + c
  {
    ChildStartMonotone(q, p, |q|);
    forall c | 0 <= c < |q[p].dependencies|
      ensures q[ChildStart(q, p) + c].filename == Resolve(host, q[p].filename, q[p].dependencies[c])
    {
      assert IsChild(host, q, p, c);
    }
  }

  /**
   * Each mapping value is the id of an asset compiled from the file that the
   * key names, the child created for the key's last occurrence.
   */
  lemma {:induction false} MappingResolves(host: Host, entry: string, id0: nat, q: seq<Asset>, p: nat, s: string)
      returns (k: nat)
    requires IsGraph(host, entry, id0, q)
    requires p < |q| && s in q[p].dependencies
    ensures s in q[p].mapping && q[p].mapping[s] == id0 + k
    ensures k < |q| && q[k].id == q[p].mapping[s]
    ensures q[k].filename == Resolve(host, q[p].filename, s)
    ensures k == ChildStart(q, p) + LastIndex(q[p].dependencies, s)
    ensures Compiled(host, id0, q)
  {
    var c := LastIndex(q[p].dependencies, s);
    ProcessedAsset(host, entry, id0, q, p, c);
    k := ChildStart(q, p) + c;
  }

  /** In a complete graph, asset `p` has its `c`-th child placed and its mapping complete. */
  lemma {:induction false} ProcessedAsset(host: Host, entry: string, id0: nat, q: seq<Asset>, p: nat, c: nat)
    requires IsGraph(host, entry, id0, q)
    requires p < |q| && c < |q[p].dependencies|
    ensures Compiled(host, id0, q)
    ensures IsChild(host, q, p, c)
    ensures MappingIs(q[p].mapping, q[p].dependencies, id0 + ChildStart(q, p))
  {
  }

  /**
   * The assets are numbered from `id0` and compiled from their files, every
   * import string of an asset is mapped to the id of an asset compiled from
   * the file it names, and nothing else is mapped.
   */
  ghost predicate Wired(host: Host, id0: nat, q: seq<Asset>)
  {
    && Compiled(host, id0, q)
    && (forall p, s :: 0 <= p < |q| && s in q[p].mapping ==> s in q[p].dependencies)
    && (forall p, s :: 0 <= p < |q| && s in q[p].dependencies ==>
          && s in q[p].mapping
          && id0 <= q[p].mapping[s] < id0 + |q|
          && q[q[p].mapping[s] - id0].filename == Resolve(host, q[p].filename, s))
  }

  /** Every discovered graph is wired, its first asset being the entry. */
  lemma {:induction false} GraphWired(host: Host, entry: string, id0: nat, q: seq<Asset>)
    requires IsGraph(host, entry, id0, q)
    ensures Wired(host, id0, q) && q[0].filename == entry
  {
    forall p, s | 0 <= p < |q| && s in q[p].dependencies
      ensures && s in q[p].mapping
              && id0 <= q[p].mapping[s] < id0 + |q|
              && q[q[p].mapping[s] - id0].filename == Resolve(host, q[p].filename, s)
    {
      var k := MappingResolves(host, entry, id0, q, p, s);
    }
  }

  /**
   * Two import statements naming the same file (from one asset or from two)
   * give two distinct assets compiled from that file, with distinct ids.
   */
  lemma {:induction false} NoDedup(host: Host, entry: string, id0: nat, q: seq<Asset>, p1: nat, c1: nat, p2: nat, c2: nat)
    requires IsGraph(host, entry, id0, q)
    requires p1 < |q| && c1 < |q[p1].dependencies|
    requires p2 < |q| && c2 < |q[p2].dependencies|
    requires (p1, c1) != (p2, c2)
    requires Resolve(host, q[p1].filename, q[p1].dependencies[c1])
          == Resolve(host, q[p2].filename, q[p2].dependencies[c2])
    ensures
      var k1, k2 := ChildStart(q, p1) + c1, ChildStart(q, p2) + c2;
      && k1 < |q| && k2 < |q|
      && q[k1].filename == q[k2].filename
      && q[k1].id != q[k2].id
  {
    ChildIndexInjective(q, p1, c1, p2, c2);
    assert IsChild(host, q, p1, c1);
    assert IsChild(host, q, p2, c2);
  }

  /** Finds the asset whose block of children contains position `k`. */
  lemma {:induction false} FindParent(q: seq<Asset>, k: nat, lo: nat)
    returns (p: nat)
    requires lo < |q| && ChildStart(q, lo) <= k < ChildStart(q, |q|)
    ensures lo <= p < |q| && ChildStart(q, p) <= k < ChildStart(q, p) + |q[p].dependencies|
    decreases |q| - lo
  {
    ChildStartNext(q, lo);
    if k < ChildStart(q, lo + 1) {
      p := lo;
    } else {
      p := FindParent(q, k, lo + 1);
    }
  }

  /**
   * Every asset but the entry is the child of one import of an earlier
   * asset, so every asset is reachable from the entry.
   */
  lemma {:induction false} ParentOf(host: Host, entry: string, id0: nat, q: seq<Asset>, k: nat)
    returns (p: nat, c: nat)
    requires IsGraph(host, entry, id0, q) && 0 < k < |q|
    ensures p < k && c < |q[p].dependencies| && k == ChildStart(q, p) + c
    ensures q[k].filename == Resolve(host, q[p].filename, q[p].dependencies[c])
  {
    p, c := ParentIn(host, q, k);
  }

  lemma {:induction false} ParentIn(host: Host, q: seq<Asset>, k: nat) returns (p: nat, c: nat)
    requires Cursor(q, |q|, 0) && Placed(host, q, |q|, 0) && 0 < k < |q|
    ensures p < k && c < |q[p].dependencies| && k == ChildStart(q, p) + c
    ensures q[k].filename == Resolve(host, q[p].filename, q[p].dependencies[c])
  {
    assert ChildStart(q, 0) == 1 by { assert q[..0] == []; }
    p := FindParent(q, k, 0);
    c := k - ChildStart(q, p);
    assert IsChild(host, q, p, c);
  }

  // ---------------------------------------------------------------------------
  // Import cycles

  /**
   * A set of files that all compile, each importing at least one file of the
   * set again: from any of them the walk can go round the set for ever.
   */
  ghost predicate ImportsCycle(host: Host, files: set<string>)
  {
    forall f :: f in files ==>
      && Compiles(host, f)
      && exists s :: s in Deps(host, f) && Resolve(host, f, s) in files
  }

  /**
   * With an entry on an import cycle there is no finite graph: every asset
   * compiled from a file of the cycle has a child after it compiled from a
   * file of the cycle, so the discovery loop never runs out of queued assets.
   */
  lemma {:induction false} NoGraphOnCycle(host: Host, entry: string, id0: nat, q: seq<Asset>, files: set<string>)
    requires ImportsCycle(host, files) && entry in files
    ensures !IsGraph(host, entry, id0, q)
  {
    if IsGraph(host, entry, id0, q) {
      IdsDense(host, entry, id0, q);
      Climb(host, entry, id0, q, files, 0);
      assert false;
    }
  }

  /** An asset of a cycle has a later asset of the cycle, so no position of a complete graph holds one. */
  lemma {:induction false} Climb(host: Host, entry: string, id0: nat, q: seq<Asset>, files: set<string>, k: nat)
    requires ImportsCycle(host, files) && k < |q| && q[k].filename in files
    ensures !IsGraph(host, entry, id0, q)
    decreases |q| - k
  {
    if IsGraph(host, entry, id0, q) {
      assert Compiled(host, id0, q);
      assert FromSource(host, q[k]);
      var s :| s in Deps(host, q[k].filename) && Resolve(host, q[k].filename, s) in files;
      var child := MappingResolves(host, entry, id0, q, k, s);
      ChildrenBlock(host, entry, id0, q, k);
      Climb(host, entry, id0, q, files, child);
      assert false;
    }
  }

  // ---------------------------------------------------------------------------
  // The specification is complete

  /** Two maps that both satisfy `MappingIs` for the same imports are equal. */
  lemma {:induction false} MappingUnique(m1: map<string, nat>, m2: map<string, nat>, deps: seq<string>, first: nat)
    requires MappingIs(m1, deps, first) && MappingIs(m2, deps, first)
    ensures m1 == m2
  {
  }

  /**
   * The graph of a host, an entry and a starting id is unique: the
   * specification determines every asset and the queue's length.
   */
  lemma {:induction false} GraphUnique(host: Host, entry: string, id0: nat, q1: seq<Asset>, q2: seq<Asset>)
    requires IsGraph(host, entry, id0, q1) && IsGraph(host, entry, id0, q2)
    ensures q1 == q2
  {
    NotShorter(host, entry, id0, q1, q2);
    NotShorter(host, entry, id0, q2, q1);
    SamePrefix(host, entry, id0, q1, q2, |q1|);
    WholePrefix(q1, q2);
  }

  lemma {:induction false} WholePrefix(q1: seq<Asset>, q2: seq<Asset>)
    requires |q1| == |q2| && q1[..|q1|] == q2[..|q2|]
    ensures q1 == q2
  {
    assert q1 == q1[..|q1|];
    assert q2 == q2[..|q2|];
  }

  /** A graph cannot be a proper prefix of another graph for the same inputs. */
  lemma {:induction false} NotShorter(host: Host, entry: string, id0: nat, short: seq<Asset>, long: seq<Asset>)
    requires IsGraph(host, entry, id0, short) && IsGraph(host, entry, id0, long)
    ensures |long| <= |short|
  {
    if |short| < |long| {
      // the children of the shorter queue's assets end where that queue ends,
      // so the longer queue has no parent for its asset at that position
      PrefixChildStart(host, entry, id0, short, long);
      assert false;
    }
  }

  /** Where the shorter of two graphs ends, so do its children in the longer one. */
  lemma {:induction false} PrefixChildStart(host: Host, entry: string, id0: nat, short: seq<Asset>, long: seq<Asset>)
    requires IsGraph(host, entry, id0, short) && IsGraph(host, entry, id0, long)
    requires |short| <= |long|
    ensures ChildStart(long, |short|) == |short|
  {
    SamePrefix(host, entry, id0, short, long, |short|);
    assert short[..|short|] == short;
  }

  /** The first `n` assets of two graphs for the same inputs agree. */
  lemma {:induction false} SamePrefix(host: Host, entry: string, id0: nat, q1: seq<Asset>, q2: seq<Asset>, n: nat)
    requires IsGraph(host, entry, id0, q1) && IsGraph(host, entry, id0, q2)
    requires n <= |q1| && n <= |q2|
    ensures q1[..n] == q2[..n]
    decreases n
  {
    if n > 0 {
      SamePrefix(host, entry, id0, q1, q2, n - 1);
      SameAt(host, entry, id0, q1, q2, n - 1);
      SamePrefixExtend(q1, q2, n);
    }
  }

  lemma {:induction false} SamePrefixExtend(q1: seq<Asset>, q2: seq<Asset>, n: nat)
    requires 0 < n <= |q1| && n <= |q2|
    requires q1[..n - 1] == q2[..n - 1] && q1[n - 1] == q2[n - 1]
    ensures q1[..n] == q2[..n]
  {
    assert q1[..n] == q1[..n - 1] + [q1[n - 1]];
    assert q2[..n] == q2[..n - 1] + [q2[n - 1]];
  }

  /** Two graphs for the same inputs that agree before position `k` agree at `k`. */
  lemma {:induction false} SameAt(host: Host, entry: string, id0: nat, q1: seq<Asset>, q2: seq<Asset>, k: nat)
    requires IsGraph(host, entry, id0, q1) && IsGraph(host, entry, id0, q2)
    requires k < |q1| && k < |q2|
    requires q1[..k] == q2[..k]
    ensures q1[k] == q2[k]
  {
    SameFilename(host, q1, q2, k);
    SameAsset(host, id0, q1, q2, k);
  }

  lemma {:induction false} SameFilename(host: Host, q1: seq<Asset>, q2: seq<Asset>, k: nat)
    requires Cursor(q1, |q1|, 0) && Placed(host, q1, |q1|, 0)
    requires Cursor(q2, |q2|, 0) && Placed(host, q2, |q2|, 0)
    requires k < |q1| && k < |q2| && q1[..k] == q2[..k] && q1[0].filename == q2[0].filename
    ensures q1[k].filename == q2[k].filename
  {
    if k > 0 {
      var p, c := ParentIn(host, q1, k);
      SamePrefixPart(q1, q2, k, p);
      assert IsChild(host, q2, p, c);
    }
  }

  lemma {:induction false} SameAsset(host: Host, id0: nat, q1: seq<Asset>, q2: seq<Asset>, k: nat)
    requires Compiled(host, id0, q1) && Mapped(id0, q1, |q1|, 0)
    requires Compiled(host, id0, q2) && Mapped(id0, q2, |q2|, 0)
    requires k < |q1| && k < |q2| && q1[..k] == q2[..k] && q1[k].filename == q2[k].filename
    ensures q1[k] == q2[k]
  {
    assert FromSource(host, q1[k]) && FromSource(host, q2[k]);
    MappingUnique(q1[k].mapping, q2[k].mapping, q1[k].dependencies, id0 + ChildStart(q1, k));
  }

  /** Agreeing on the first `k` assets means agreeing on each of them and on their block starts. */
  lemma {:induction false} SamePrefixPart(q1: seq<Asset>, q2: seq<Asset>, k: nat, p: nat)
    requires p < k <= |q1| && k <= |q2| && q1[..k] == q2[..k]
    ensures q1[p] == q2[p] && ChildStart(q1, p) == ChildStart(q2, p)
  {
    assert q1[..p] == q1[..k][..p];
    assert q2[..p] == q2[..k][..p];
    assert q1[p] == q1[..k][p];
    assert q2[p] == q2[..k][p];
  }

  // ---------------------------------------------------------------------------
  // Size of the discovery, for termination

  /**
   * The number of assets discovering `filename` produces: itself, plus, when
   * it compiles, one subtree per import statement. An import that does not
   * rank below its importer counts nothing; on an acyclic host there is none
   * (`AcyclicRanked`), so this is the size of the unfolded import tree.
   */
  ghost function Size(host: Host, rank: imap<string, nat>, filename: string): nat
    decreases RankOf(rank, filename), 1
  {
    1 + if Compiles(host, filename) then SizeOfDeps(host, rank, filename, |Deps(host, filename)|) else 0
  }

  /** The sizes of the subtrees of the first `n` imports of `filename`, added up. */
  ghost function SizeOfDeps(host: Host, rank: imap<string, nat>, filename: string, n: nat): nat
    requires n <= |Deps(host, filename)|
    decreases RankOf(rank, filename), 0, n
  {
    if n == 0 then 0
    else
      var child := Resolve(host, filename, Deps(host, filename)[n - 1]);
      SizeOfDeps(host, rank, filename, n - 1) + if RankOf(rank, child) < RankOf(rank, filename) then Size(host, rank, child) else 0
  }

  /** The total size of the subtrees still to be discovered below the assets `q[k..]`. */
  ghost function Weight(host: Host, rank: imap<string, nat>, q: seq<Asset>, k: nat): nat
    decreases |q| - k
  {
    if |q| <= k then 0 else Size(host, rank, q[k].filename) + Weight(host, rank, q, k + 1)
  }

  lemma {:induction false} WeightAppend(host: Host, rank: imap<string, nat>, q: seq<Asset>, a: Asset, k: nat)
    requires k <= |q|
    ensures Weight(host, rank, q + [a], k) == Weight(host, rank, q, k) + Size(host, rank, a.filename)
    decreases |q| - k
  {
    if k < |q| {
      assert (q + [a])[k] == q[k];
      WeightAppend(host, rank, q, a, k + 1);
    } else {
      assert (q + [a])[k] == a;
    }
  }

  /** The weight of `q[k..]` depends only on the file names there. */
  lemma {:induction false} WeightSameFiles(host: Host, rank: imap<string, nat>, q1: seq<Asset>, q2: seq<Asset>, k: nat)
    requires |q1| == |q2|
    requires forall m :: k <= m < |q1| ==> q1[m].filename == q2[m].filename
    ensures Weight(host, rank, q1, k) == Weight(host, rank, q2, k)
    decreases |q1| - k
  {
    if k < |q1| {
      WeightSameFiles(host, rank, q1, q2, k + 1);
    }
  }

  /** Every import of `filename` names a file of lower rank. */
  ghost predicate ChildrenRanked(host: Host, rank: imap<string, nat>, filename: string)
  {
    forall c :: 0 <= c < |Deps(host, filename)| ==> RankOf(rank, Resolve(host, filename, Deps(host, filename)[c])) < RankOf(rank, filename)
  }

  /** Every import of a covered file that compiles ranks below it. */
  lemma {:induction false} AcyclicRanked(host: Host, rank: imap<string, nat>, entry: string, filename: string)
    requires Acyclic(host, rank, entry) && filename in rank && Compiles(host, filename)
    ensures ChildrenRanked(host, rank, filename)
  {
    forall c | 0 <= c < |Deps(host, filename)|
      ensures RankOf(rank, Resolve(host, filename, Deps(host, filename)[c])) < RankOf(rank, filename)
    {
      assert Deps(host, filename)[c] in Deps(host, filename);
    }
  }

  /** Every queued file is one the ranking covers. */
  ghost predicate AllRanked(rank: imap<string, nat>, q: seq<Asset>)
  {
    forall k :: 0 <= k < |q| ==> q[k].filename in rank
  }

  /** Linking the imports of a covered file that compiles only queues covered files. */
  lemma {:induction false} LinkedRanked(host: Host, rank: imap<string, nat>, entry: string, id0: nat, q: seq<Asset>, i: nat, j: nat)
    requires Acyclic(host, rank, entry) && i < |q| && AllRanked(rank, q)
    requires Compiles(host, q[i].filename) && q[i].dependencies == Deps(host, q[i].filename)
    requires j <= |q[i].dependencies| && ChildrenCompile(host, q, i, j)
    ensures AllRanked(rank, Linked(host, id0, q, i, j))
    decreases j
  {
    if j > 0 {
      assert ChildrenCompile(host, q, i, j - 1);
      LinkedRanked(host, rank, entry, id0, q, i, j - 1);
      var prev := Linked(host, id0, q, i, j - 1);
      var s := q[i].dependencies[j - 1];
      var file := Resolve(host, q[i].filename, s);
      assert file in rank by {
        assert q[i].filename in rank;
        assert s in Deps(host, q[i].filename);
      }
      var child := Asset(id0 + |prev|, file, Deps(host, file), Code(host, file), map[]);
      var recorded := prev[i].(mapping := prev[i].mapping[s := child.id]);
      assert Linked(host, id0, q, i, j) == prev[i := recorded] + [child];
    }
  }

  /** Handling the first `j` imports of `q[i]` moves the weight of their subtrees onto the queue. */
  lemma {:induction false} WeightLinked(host: Host, rank: imap<string, nat>, id0: nat, q: seq<Asset>, i: nat, j: nat)
    requires i < |q| && ChildrenRanked(host, rank, q[i].filename)
    requires Compiles(host, q[i].filename) && q[i].dependencies == Deps(host, q[i].filename)
    requires j <= |q[i].dependencies| && ChildrenCompile(host, q, i, j)
    ensures Weight(host, rank, Linked(host, id0, q, i, j), i + 1)
         == Weight(host, rank, q, i + 1) + SizeOfDeps(host, rank, q[i].filename, j)
    decreases j
  {
    if j > 0 {
      assert ChildrenCompile(host, q, i, j - 1);
      WeightLinked(host, rank, id0, q, i, j - 1);
      WeightLinkedNext(host, rank, id0, q, i, j);
    }
  }

  /** Handling import `j - 1` of `q[i]` moves the weight of its subtree onto the queue. */
  lemma {:induction false} WeightLinkedNext(host: Host, rank: imap<string, nat>, id0: nat, q: seq<Asset>, i: nat, j: nat)
    requires i < |q| && ChildrenRanked(host, rank, q[i].filename)
    requires Compiles(host, q[i].filename) && q[i].dependencies == Deps(host, q[i].filename)
    requires 0 < j <= |q[i].dependencies| && ChildrenCompile(host, q, i, j) && ChildrenCompile(host, q, i, j - 1)
    ensures Weight(host, rank, Linked(host, id0, q, i, j), i + 1) + SizeOfDeps(host, rank, q[i].filename, j - 1)
         == Weight(host, rank, Linked(host, id0, q, i, j - 1), i + 1) + SizeOfDeps(host, rank, q[i].filename, j)
  {
    var prev := Linked(host, id0, q, i, j - 1);
    var s := q[i].dependencies[j - 1];
    var file := Resolve(host, q[i].filename, s);
    assert Compiles(host, file);
    var child := Asset(id0 + |prev|, file, Deps(host, file), Code(host, file), map[]);
    var recorded := prev[i].(mapping := prev[i].mapping[s := child.id]);
    assert Linked(host, id0, q, i, j) == prev[i := recorded] + [child];
    WeightStep(host, rank, prev, i, recorded, child);
  }

  /** Appending a child moves the weight of its subtree onto the queue. */
  lemma {:induction false} WeightStep(host: Host, rank: imap<string, nat>, q: seq<Asset>, i: nat, recorded: Asset, child: Asset)
    requires i < |q|
    ensures Weight(host, rank, q[i := recorded] + [child], i + 1)
         == Weight(host, rank, q, i + 1) + Size(host, rank, child.filename)
  {
    WeightSameFiles(host, rank, q[i := recorded], q, i + 1);
    WeightAppend(host, rank, q[i := recorded], child, i + 1);
  }
}
