/**
 * The bundle emitter: one registry record per asset, wrapped in the fixed
 * loader whose `require` resolves import strings through the records'
 * mappings, and the loader's resolution rule stated over the records.
 */
module Emit {
  import opened Environment
  import opened Graph

  datatype Option<T> = None | Some(value: T)

  /** One registry entry: `id: [function (require, module, exports) { code }, mapping]`. */
  datatype ModuleRecord = ModuleRecord(id: nat, code: string, mapping: map<string, nat>)

  function RecordOf(a: Asset): ModuleRecord
  {
    ModuleRecord(a.id, a.code, a.mapping)
  }

  /** The registry of a graph, one record per asset. */
  function Records(graph: seq<Asset>): seq<ModuleRecord>
  {
    if graph == [] then [] else Records(graph[..|graph| - 1]) + [RecordOf(graph[|graph| - 1])]
  }

  /** One record per asset, in graph order, each keyed by its asset's id. */
  lemma {:induction false} RecordsInOrder(graph: seq<Asset>)
    ensures |Records(graph)| == |graph|
    ensures forall k :: 0 <= k < |graph| ==> Records(graph)[k] == RecordOf(graph[k])
    decreases |graph|
  {
    if graph != [] {
      RecordsInOrder(graph[..|graph| - 1]);
    }
  }

  // ---------------------------------------------------------------------------
  // Text

  predicate IsDecimal(s: string)
  {
    forall k :: 0 <= k < |s| ==> '0' <= s[k] <= '9'
  }

  function DigitChar(d: nat): (c: char)
    requires d < 10
    ensures '0' <= c <= '9' && c as int - '0' as int == d
  {
    "0123456789"[d]
  }

  /** The decimal text of an id, as a template literal writes a number. */
  function DecimalText(n: nat): (s: string)
    ensures |s| > 0 && IsDecimal(s)
  {
    if n < 10 then [DigitChar(n)] else DecimalText(n / 10) + [DigitChar(n % 10)]
  }

  function DecimalValue(s: string): nat
    requires IsDecimal(s)
  {
    if s == [] then 0 else 10 * DecimalValue(s[..|s| - 1]) + (s[|s| - 1] as int - '0' as int)
  }

  /** Reading back a record key gives its id, so distinct ids give distinct keys. */
  lemma {:induction false} DecimalRoundTrip(n: nat)
    ensures DecimalValue(DecimalText(n)) == n
  {
    if n >= 10 {
      DecimalRoundTrip(n / 10);
      var s := DecimalText(n);
      assert s[..|s| - 1] == DecimalText(n / 10);
    }
  }

  /** Distinct ids give distinct record keys. */
  lemma {:induction false} DecimalTextInjective(a: nat, b: nat)
    ensures DecimalText(a) == DecimalText(b) <==> a == b
  {
    DecimalRoundTrip(a);
    DecimalRoundTrip(b);
  }

  /** The text of one registry entry; the mapping goes through the host's serialiser. */
  function RecordText(stringify: map<string, nat> -> string, r: ModuleRecord): string
  {
    DecimalText(r.id) + RecordBody(stringify, r)
  }

  /** Everything of a registry entry after its key. */
  function RecordBody(stringify: map<string, nat> -> string, r: ModuleRecord): string
  {
    ": [" + ("\n      function (require, module, exports) { " + r.code + " },\n      "
      + stringify(r.mapping) + ",\n    ],")
  }

  /** The decimal digits at the front of `text`. */
  function LeadingDigits(text: string): (d: string)
    ensures IsDecimal(d) && d <= text
  {
    if text != [] && '0' <= text[0] <= '9' then [text[0]] + LeadingDigits(text[1..]) else []
  }

  /** Digits followed by a non-digit are read back exactly. */
  lemma {:induction false} LeadingDigitsBefore(d: string, rest: string)
    requires IsDecimal(d) && rest != [] && !('0' <= rest[0] <= '9')
    ensures LeadingDigits(d + rest) == d
    decreases |d|
  {
    if d == [] {
      assert d + rest == rest;
    } else {
      assert (d + rest)[1..] == d[1..] + rest;
      LeadingDigitsBefore(d[1..], rest);
    }
  }

  /** A registry entry starts with its key, the decimal text of the id, and reading the key back gives the id. */
  lemma {:induction false} RecordKey(stringify: map<string, nat> -> string, r: ModuleRecord)
    ensures LeadingDigits(RecordText(stringify, r)) == DecimalText(r.id)
    ensures DecimalValue(LeadingDigits(RecordText(stringify, r))) == r.id
  {
    assert RecordBody(stringify, r)[0] == ':';
    LeadingDigitsBefore(DecimalText(r.id), RecordBody(stringify, r));
    DecimalRoundTrip(r.id);
  }

  /** The registry entries' texts, one after the other. */
  function RegistryText(stringify: map<string, nat> -> string, rs: seq<ModuleRecord>): string
  {
    if rs == [] then "" else RegistryText(stringify, rs[..|rs| - 1]) + RecordText(stringify, rs[|rs| - 1])
  }

  /** The id the loader starts from. */
  const EntryId: nat := 0

  /** The loader's first call, which runs the entry module. */
  const EntryCall: string := "require(" + DecimalText(EntryId) + ");"

  /** The entry call the loader emits is `require(0);`. */
  lemma {:induction false} EntryCallText()
    ensures EntryCall == "require(0);"
  {
    assert DecimalText(EntryId) == "0";
  }

  /** The loader up to the registry literal: `require`, `localRequire` and the call `require(0)`. */
  const LoaderHead: string :=
    "\n    (function(modules) {\n      function require(id) {\n"
    + "        const [fn, mapping] = modules[id];\n"
    + "        function localRequire(name) {\n          return require(mapping[name]);\n        }\n"
    + "        const module = { exports : {} };\n"
    + "        fn(localRequire, module, module.exports);\n"
    + "        return module.exports;\n      }\n      " + EntryCall + "\n    })({"

  const LoaderTail: string := "})\n  "

  function BundleText(stringify: map<string, nat> -> string, graph: seq<Asset>): string
  {
    LoaderHead + RegistryText(stringify, Records(graph)) + LoaderTail
  }

  /** Appends one record's text per asset, in graph order, and wraps them in the loader. */
  method Bundle(stringify: map<string, nat> -> string, graph: seq<Asset>) returns (result: string)
    ensures result == BundleText(stringify, graph)
  {
    var modules := "";
    var k := 0;
    while k < |graph|
      invariant 0 <= k <= |graph|
      invariant modules == RegistryText(stringify, Records(graph[..k]))
    {
      assert graph[..k + 1][..k] == graph[..k];
      assert Records(graph[..k + 1]) == Records(graph[..k]) + [RecordOf(graph[k])];
      modules := modules + RecordText(stringify, RecordOf(graph[k]));
      k := k + 1;
    }
    assert graph[..k] == graph;
    result := LoaderHead + modules + LoaderTail;
  }

  // ---------------------------------------------------------------------------
  // The loader's resolution rule

  /** `modules[id]` in the registry literal; of repeated keys the last one wins. */
  function ModuleAt(rs: seq<ModuleRecord>, id: nat): Option<ModuleRecord>
  {
    if rs == [] then None
    else if rs[|rs| - 1].id == id then Some(rs[|rs| - 1])
    else ModuleAt(rs[..|rs| - 1], id)
  }

  /** `localRequire(name)` inside module `id`: the id it hands to `require`, if any. */
  function LocalRequire(rs: seq<ModuleRecord>, id: nat, name: string): Option<nat>
  {
    match ModuleAt(rs, id)
    case None => None
    case Some(r) => if name in r.mapping then Some(r.mapping[name]) else None
  }

  /** The record with key `id` that comes last, when there is one. */
  ghost predicate LastWithKey(rs: seq<ModuleRecord>, id: nat, k: int)
  {
    0 <= k < |rs| && rs[k].id == id && forall k' :: k < k' < |rs| ==> rs[k'].id != id
  }

  /** `modules[id]` finds the last record with key `id`, and nothing when no record has that key. */
  lemma {:induction false} ModuleAtLast(rs: seq<ModuleRecord>, id: nat)
    ensures ModuleAt(rs, id).None? <==> forall k :: 0 <= k < |rs| ==> rs[k].id != id
    ensures ModuleAt(rs, id).Some? ==> exists k :: LastWithKey(rs, id, k) && rs[k] == ModuleAt(rs, id).value
    decreases |rs|
  {
    if rs != [] {
      var init := rs[..|rs| - 1];
      ModuleAtLast(init, id);
      assert forall k :: 0 <= k < |init| ==> init[k] == rs[k];
      if rs[|rs| - 1].id == id {
        assert LastWithKey(rs, id, |rs| - 1);
      } else if ModuleAt(init, id).Some? {
        var k :| LastWithKey(init, id, k) && init[k] == ModuleAt(init, id).value;
        assert LastWithKey(rs, id, k);
      }
    }
  }

  /**
   * `localRequire(name)` inside module `id` answers what the mapping of the
   * last record with key `id` holds for `name`, and nothing inside a module
   * that does not exist.
   */
  lemma {:induction false} LocalRequireLast(rs: seq<ModuleRecord>, id: nat, name: string)
    ensures (forall k :: 0 <= k < |rs| ==> rs[k].id != id) ==> LocalRequire(rs, id, name).None?
    ensures LocalRequire(rs, id, name).Some? ==>
      exists k :: LastWithKey(rs, id, k) && name in rs[k].mapping && LocalRequire(rs, id, name).value == rs[k].mapping[name]
    ensures forall k :: LastWithKey(rs, id, k) ==>
      LocalRequire(rs, id, name) == (if name in rs[k].mapping then Some(rs[k].mapping[name]) else None)
  {
    ModuleAtLast(rs, id);
    forall k | LastWithKey(rs, id, k)
      ensures LocalRequire(rs, id, name) == (if name in rs[k].mapping then Some(rs[k].mapping[name]) else None)
    {
      var k' :| LastWithKey(rs, id, k') && rs[k'] == ModuleAt(rs, id).value;
    }
  }

  /** With distinct keys, `modules[id]` finds the one record with that id, and only ids of records are found. */
  lemma {:induction false} ModuleAtDistinct(rs: seq<ModuleRecord>, id: nat)
    requires forall a, b :: 0 <= a < b < |rs| ==> rs[a].id != rs[b].id
    ensures ModuleAt(rs, id).Some? <==> exists k :: 0 <= k < |rs| && rs[k].id == id
    ensures forall k :: 0 <= k < |rs| && rs[k].id == id ==> ModuleAt(rs, id) == Some(rs[k])
    decreases |rs|
  {
    if rs != [] {
      var init := rs[..|rs| - 1];
      ModuleAtDistinct(init, id);
      if rs[|rs| - 1].id != id {
        assert forall k :: 0 <= k < |init| ==> init[k] == rs[k];
      }
    }
  }

  /** In the bundle of a graph, `modules[id0 + k]` is the record of the `k`-th asset. */
  lemma {:induction false} ModuleOfAsset(host: Host, id0: nat, graph: seq<Asset>, k: nat)
    requires Compiled(host, id0, graph) && k < |graph|
    ensures ModuleAt(Records(graph), id0 + k) == Some(RecordOf(graph[k]))
  {
    RecordsInOrder(graph);
    ModuleAtDistinct(Records(graph), id0 + k);
  }

  /** The record of the `k`-th asset carries the code compiled from its file. */
  lemma {:induction false} ModuleCode(host: Host, id0: nat, graph: seq<Asset>, k: nat)
    requires Compiled(host, id0, graph) && k < |graph|
    ensures ModuleAt(Records(graph), id0 + k).Some?
    ensures Compiles(host, graph[k].filename)
    ensures ModuleAt(Records(graph), id0 + k).value.code == Code(host, graph[k].filename)
  {
    ModuleOfAsset(host, id0, graph, k);
  }

  /** Inside module `id0 + p`, `localRequire(name)` hands `require` the id its mapping records. */
  lemma {:induction false} RequireReaches(host: Host, id0: nat, graph: seq<Asset>, p: nat, name: string, k: nat)
    requires Compiled(host, id0, graph) && p < |graph| && k < |graph|
    requires name in graph[p].mapping && graph[p].mapping[name] == id0 + k
    ensures LocalRequire(Records(graph), id0 + p, name) == Some(id0 + k)
  {
    ModuleOfAsset(host, id0, graph, p);
  }

  /** The resolution step on numbered, compiled assets whose mapping points at the named file. */
  lemma {:induction false} RecordResolves(host: Host, id0: nat, graph: seq<Asset>, p: nat, name: string, k: nat)
    requires Compiled(host, id0, graph) && p < |graph| && k < |graph|
    requires name in graph[p].mapping && graph[p].mapping[name] == id0 + k
    requires graph[k].filename == Resolve(host, graph[p].filename, name)
    ensures LocalRequire(Records(graph), id0 + p, name) == Some(id0 + k)
    ensures ModuleAt(Records(graph), id0 + k).Some?
    ensures Compiles(host, Resolve(host, graph[p].filename, name))
    ensures ModuleAt(Records(graph), id0 + k).value.code == Code(host, Resolve(host, graph[p].filename, name))
  {
    RequireReaches(host, id0, graph, p, name, k);
    ModuleCode(host, id0, graph, k);
  }

  /**
   * Resolution correctness: inside the module of any asset of a wired graph,
   * requiring one of its import strings runs the code compiled from the file
   * that string names, relative to the asset's directory.
   */
  lemma {:induction false} LoaderResolves(host: Host, id0: nat, graph: seq<Asset>, p: nat, name: string)
    requires Wired(host, id0, graph) && p < |graph| && name in graph[p].dependencies
    ensures LocalRequire(Records(graph), graph[p].id, name).Some?
    ensures
      var target := LocalRequire(Records(graph), graph[p].id, name).value;
      && ModuleAt(Records(graph), target).Some?
      && Compiles(host, Resolve(host, graph[p].filename, name))
      && ModuleAt(Records(graph), target).value.code == Code(host, Resolve(host, graph[p].filename, name))
  {
    assert graph[p].id == id0 + p;
    RecordResolves(host, id0, graph, p, name, graph[p].mapping[name] - id0);
  }

  /**
   * Self-containment: inside the module of an asset of a wired graph,
   * `localRequire` answers exactly the asset's import strings, and every id
   * it answers names a module of the bundle.
   */
  lemma {:induction false} RegistryClosed(host: Host, id0: nat, graph: seq<Asset>, p: nat, name: string)
    requires Wired(host, id0, graph) && p < |graph|
    ensures LocalRequire(Records(graph), graph[p].id, name).Some? <==> name in graph[p].dependencies
    ensures LocalRequire(Records(graph), graph[p].id, name).Some? ==>
      ModuleAt(Records(graph), LocalRequire(Records(graph), graph[p].id, name).value).Some?
  {
    assert graph[p].id == id0 + p;
    if name in graph[p].dependencies {
      LoaderResolves(host, id0, graph, p, name);
    } else {
      RequireMisses(host, id0, graph, p, name);
    }
  }

  /** A name missing from an asset's mapping resolves to nothing inside its module. */
  lemma {:induction false} RequireMisses(host: Host, id0: nat, graph: seq<Asset>, p: nat, name: string)
    requires Compiled(host, id0, graph) && p < |graph| && name !in graph[p].mapping
    ensures LocalRequire(Records(graph), id0 + p, name) == None
  {
    ModuleOfAsset(host, id0, graph, p);
  }

  /** On a fresh run the loader's `require(0)` runs the entry file's code. */
  lemma {:induction false} EntryRunsFirst(host: Host, entry: string, graph: seq<Asset>)
    requires IsGraph(host, entry, 0, graph)
    ensures ModuleAt(Records(graph), EntryId).Some?
    ensures Compiles(host, entry) && ModuleAt(Records(graph), EntryId).value.code == Code(host, entry)
  {
    IdsDense(host, entry, 0, graph);
    assert Compiled(host, 0, graph);
    ModuleOfAsset(host, 0, graph, 0);
    assert FromSource(host, graph[0]);
  }
}
