# mybundler in Dafny

This project models the minimal JavaScript bundler in `index.js` and
proves what it does. The bundler has three steps:

- **`createAsset`** reads one file, parses it, and collects the source string
  of every top-level `import` declaration. It then draws the next id from a
  global counter and lowers the syntax tree to plain code.
- **`createGraph`** starts from the entry file and walks a queue that grows
  while it is iterated. For each queued asset it does the following for every
  import string, in order:
  - resolve the string against the asset's directory;
  - compile the child file into a fresh asset;
  - record `mapping[importString] = child.id`;
  - append the child to the queue.

  Nothing is deduplicated, so a file imported twice is compiled twice.
- **`bundle`** emits one registry entry per asset, of the form
  `id: [function (require, module, exports) { code }, mapping]`. It wraps the
  entries in a fixed loader. The loader's `require(id)` runs module `id` with a
  `localRequire(name)` that calls `require(mapping[name])`, and the loader
  starts by calling `require(0)`.

The model is split into five modules:

- `Environment` (environment.dfy): what the bundler gets from outside. The
  file system, parser and transformer form one function from a file name to
  its frontend outcome. That outcome is unreadable, unparsable, or parsed
  (the top-level statements plus the lowering result). Path `dirname`/`join`
  and `JSON.stringify` are uninterpreted functions. The import walk itself is
  modelled concretely as `CollectImports`.
- `Graph` (graph.dfy): the asset record and the specification of the
  discovery.
  - `Explored(q, i, j)` is the state of the queue after assets `q[..i]` are
    fully processed and the first `j` imports of `q[i]` are handled.
  - `IsGraph` is the finished state.
  - The module proves what a finished graph promises: dense ids, breadth-first
    blocks of children, mapping contents, no deduplication, reachability,
    uniqueness, and no finite graph on an import cycle.
- `Bundling` (bundler.dfy): a `Bundler` class whose `nextId` field is the
  global `ID` counter, with the imperative `CreateAsset` and `CreateGraph`
  methods.
- `Emit` (emit.dfy): the text of the bundle, built by the `Bundle` loop, and
  the loader's lookup rules `modules[id]` and `localRequire(name)`, stated
  over the emitted records.
- `Pipeline` (pipeline.dfy): the driver's composition of a fresh bundler, the
  graph and the bundle.

`CreateGraph` ends in two ways. It returns the complete graph once the queue is
exhausted, or it raises the error of the first file that does not compile. The
child of every import is pushed unconditionally. So a run that reaches an import
cycle and never meets a file that fails to compile does not end. `Graph.NoGraphOnCycle` proves this: with the
entry in a set of files that all compile, each importing at least one file of
the set, no finite graph exists.

The method requires a ghost ranking, a map from file names to naturals. The
ranking must cover the entry and every import target of a covered file that
compiles, and it must strictly decrease along those imports. Files the entry
never reaches are left unconstrained, so a cycle elsewhere on disk is allowed.
The method proves that the graph has exactly as many assets as the unfolded
import tree has nodes.

## Model

| member | source | states |
|---|---|---|
| Environment.CollectImports | index.js:19-25 | the walk returns the import source strings of the program, in statement order, duplicates kept |
| Environment.ImportSourcesAppend | index.js:21-25 | walking two consecutive pieces of a program gives the first piece's imports, then the second's |
| Environment.ImportSourcesExact | index.js:21-24 | a string is collected if and only if the program has an import declaration with that source |
| Environment.ErrorOf | index.js:14-31 | a file that does not compile raises an error naming that file; the error is a transform error exactly when the file got past parsing and so used up an id |
| Bundling.Bundler.constructor | index.js:7 | a fresh run starts the id counter at 0 |
| Bundling.Bundler.CreateAsset | index.js:13-40 | succeeds exactly when the file reads, parses and lowers. On success the asset's id is the counter before the call, the file name is unchanged, and the dependencies and code are the frontend's. A read or parse error leaves the counter alone; otherwise the counter moves by exactly one, even when lowering then fails |
| Bundling.Bundler.CreateGraph | index.js:46-62 | on success the result is a complete graph for the entry: queue[0] is the entry, ids run consecutively from the starting counter, and every import has its child at its breadth-first place with the mapping recording it. The counter ends at start + size, and the size equals the number of nodes of the unfolded import tree. On failure the error is that of a file reached by the walk (the entry, or the target of an import handled in a reachable state), with the counter advanced accordingly |
| Bundling.Bundler.LinkDependencies | index.js:52-58 | handles the imports of one asset in order. On success every import target compiles and the queue is exactly the specified result of linking all of them: one child appended per import, mapping entries recorded in order, the counter advanced by the children's ids. On failure the error is that of the first import target that does not compile, after the earlier imports were linked |
| Bundling.Bundler.LinkImport | index.js:54-57 | succeeds exactly when the resolved file compiles. The child then carries the counter's value as id, its mapping entry is recorded under the import string, and it is appended at the end of the queue; on failure the error names the resolved file. The counter moves by the ids the child's compilation drew |
| Graph.Linked | index.js:53-57 | the queue after the first `j` imports of `q[i]` are handled: one child appended per import, and the asset being processed keeps its file and its imports |
| Graph.LinkedExplored | index.js:53-58 | linking the first `j` imports of the asset being processed, starting from a state where it has none linked, reaches the exploration state with `j` imports handled |
| Graph.WeightLinked | index.js:53-58 | linking the imports moves the size of their subtrees from the pending work onto the queue, so the work left decreases by one per processed asset |
| Bundling.AbortWhileLinking | index.js:53-57 | an error raised by an import target while one asset's imports are linked is an error of a file the walk reached, with the counter advanced accordingly |
| Graph.IdsDense | index.js:46-57 | the entry is queue[0] with the starting id; the ids are exactly start .. start + size - 1, each used once |
| Graph.QueueLength | index.js:53-57 | the queue holds the entry plus one asset per import statement of every asset |
| Graph.ChildrenBlock | index.js:50-58 | the children of queue[p] form one block after queue[p], in import order; each child is compiled from the file its import names and carries the id of its position |
| Graph.ChildStartMonotone | index.js:50-58 | breadth-first order: the block of children of an earlier asset ends before the block of a later asset begins |
| Graph.MappingResolves | index.js:51-57 | every import string of an asset is a mapping key. Its value is the id of an asset compiled from join(dirname(filename), string), namely the child created for the string's last occurrence, so a repeated string keeps the later child |
| Graph.GraphWired | index.js:51-57 | in every complete graph, the mapping keys of each asset are exactly its import strings, and each value names an asset of the graph compiled from the resolved file |
| Graph.NoDedup | index.js:53-57 | two import statements that resolve to the same file give two assets with the same file name and different ids |
| Graph.ParentOf | index.js:50-58 | every asset except the entry is the child of some import of an earlier asset, so everything in the graph is reachable from the entry |
| Graph.GraphUnique | index.js:46-62 | the complete graph for an entry, host and starting id is unique, so the model's result is what the code computes |
| Graph.NoGraphOnCycle | index.js:50-58 | if the entry lies in a set of files that all compile, each importing at least one file of the set (other imports may lead out of it), no complete graph exists: the run either raises the error of a failing file or never ends |
| Graph.Climb | index.js:50-58 | in a complete graph, an asset compiled from a file of such a set would have a child after it compiled from a file of the set, so no position can hold one |
| Graph.LastIndex | index.js:56 | the position of the last occurrence of a string, the one whose assignment to mapping survives |
| Emit.Bundle | index.js:68-93 | the text is the loader head (`LoaderHead`: `require` with `localRequire`, then the entry call), then each asset's record text in graph order, then the loader tail (`LoaderTail`) |
| Emit.RecordsInOrder | index.js:70-75 | one registry record per asset, in graph order, each carrying its asset's id, code and mapping |
| Emit.DecimalText | index.js:71 | the key of a record, the id written in decimal: a non-empty string of digits |
| Emit.RecordKey | index.js:71-74 | the text of a registry entry starts with its key, and reading the leading digits back gives the asset's id |
| Emit.EntryCallText | index.js:89 | the loader's first call, built from the entry id, is the text `require(0);` |
| Emit.ModuleAtLast | index.js:81 | `modules[id]` finds the last record whose key is `id`, and nothing when no record has that key |
| Emit.LocalRequireLast | index.js:82-84 | `localRequire(name)` inside module `id` answers `mapping[name]` of the last record with key `id` exactly when `name` is in that mapping, and nothing otherwise or inside a module that does not exist |
| Emit.DecimalRoundTrip | index.js:71 | reading back the decimal key of a record gives its id |
| Emit.DecimalTextInjective | index.js:71 | two records get the same key exactly when they have the same id |
| Emit.ModuleAtDistinct | index.js:81-90 | with distinct keys, modules[id] finds exactly the record with that id, and nothing for other ids |
| Emit.LoaderResolves | index.js:81-86 | in a wired graph, localRequire(s) inside any asset's module runs, for each import string s of the asset, a module whose code is the compiled code of the file that s names |
| Emit.RegistryClosed | index.js:81-83 | inside an asset's module, localRequire answers exactly the asset's import strings, and every id it answers names a module of the bundle |
| Emit.EntryRunsFirst | index.js:89 | on a fresh run, require(0) finds the entry's module and runs the entry file's compiled code |
| Pipeline.BundleEntry | index.js:95-96 | a fresh bundler either returns the bundle text of the complete graph of the entry with ids from 0, or the error of a file the walk reached |

## Left out

- Reading the entry and writing `output.js`, and printing the result (index.js:14, 97-98), are I/O and are not modelled. The file name `./example/entry.js` becomes a parameter.
- The internals of `babylon.parse`, `babel-traverse` and `transformFromAst` are one uninterpreted function from a file name to its outcome. Only the top-level statements reach the import walk, which matches what the `ImportDeclaration` visitor sees, since ES module imports are top level.
- `path.dirname` and `path.join` are uninterpreted: path normalisation is not modelled.
- `JSON.stringify` is an uninterpreted function of the mapping. The model's mapping is a `map`, which has no key order, so the order in which the code inserted the keys does not reach the serialised text.
- Running the emitted bundle as JavaScript is not modelled. The loader is described only by its lookup rules, `modules[id]` with the last duplicate key winning, and `localRequire(name) = require(mapping[name])`.
- Bundling.Bundler.CreateGraph: requires the imports reachable from the entry to have no cycle, witnessed by a ghost ranking of the file names. A run that reaches a cycle and meets no failing file never returns (Graph.NoGraphOnCycle); it is not modelled as a method. Also excluded is a run that does end because it meets a file that does not compile after having reached a cycle. For example, the entry imports `./a` and then `./missing`, and `a` imports the entry. The code throws on `./missing`, but no ranking exists for that host.
- Pipeline.BundleEntry: inherits the requirement of `CreateGraph`, so the runs excluded there are excluded here too.
- Object keys that are special on a plain JavaScript object are not modelled. The mapping is a `map`, whereas `createGraph` writes into `{}` (index.js:51, 56). An import string `__proto__` reaches the inherited setter, which ignores a number, so the code records no key and `JSON.stringify` leaves it out. The model records it like any other string, and `MappingIs`, `GraphWired` and `RegistryClosed` then promise a mapping entry the program does not have.
- Ids are unbounded naturals, whereas JavaScript numbers lose precision past 2^53. That limit is far beyond any real graph.
- `asset.mapping` is added to the asset object at index.js:51. The model gives every asset an empty mapping until it is processed. `createGraph` overwrites the mapping with `{}` before use, so the difference cannot be observed.
- An exception thrown by a frontend stage aborts the whole run. The model returns it as the `Err` case of a result that names the stage and the file.
