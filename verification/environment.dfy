/**
 * What the bundler receives from the outside world: the file system, the
 * parser, the import walk's input, the code transformer, the path library and
 * the JSON serialiser. All of them are left uninterpreted; only the shape of
 * their answers matters to the bundler.
 */
module Environment {

  /** A top-level statement of a parsed module, as far as the bundler looks at it. */
  datatype Statement = ImportDeclaration(source: string) | OtherStatement

  /** The outcome of lowering a syntax tree to plain code. */
  datatype Lowering = Lowered(code: string) | LoweringFailed

  /** What reading, parsing and lowering one file yields. */
  datatype Frontend =
    | Unreadable
    | Unparsable
    | Parsed(program: seq<Statement>, lowering: Lowering)

  /**
   * The collaborators of the bundler, as functions: a file name's frontend
   * outcome, the directory part of a path, the joining of a directory and a
   * relative path, and the serialisation of a mapping.
   */
  datatype Host = Host(
    frontend: string -> Frontend,
    dirname: string -> string,
    join: (string, string) -> string,
    stringify: map<string, nat> -> string)

  datatype ErrorKind = ReadError | ParseError | TransformError

  /** A fatal failure of one file; it aborts the whole run. */
  datatype BuildError = BuildError(kind: ErrorKind, filename: string)

  datatype Result<T> = Ok(value: T) | Err(error: BuildError)

  /** The import source strings of a program, in traversal order, duplicates kept. */
  function ImportSources(program: seq<Statement>): seq<string>
  {
    if program == [] then []
    else
      var last := program[|program| - 1];
      ImportSources(program[..|program| - 1])
        + (if last.ImportDeclaration? then [last.source] else [])
  }

  /** The import walk: visits the statements in order and pushes each import's source. */
  method CollectImports(program: seq<Statement>) returns (dependencies: seq<string>)
    ensures dependencies == ImportSources(program)
  {
    dependencies := [];
    var k := 0;
    while k < |program|
      invariant 0 <= k <= |program|
      invariant dependencies == ImportSources(program[..k])
    {
      assert program[..k + 1][..k] == program[..k];
      if program[k].ImportDeclaration? {
        dependencies := dependencies + [program[k].source];
      }
      k := k + 1;
    }
    assert program[..k] == program;
  }

  /** Walking two consecutive pieces of a program visits the first piece's imports first. */
  lemma {:induction false} ImportSourcesAppend(a: seq<Statement>, b: seq<Statement>)
    ensures ImportSources(a + b) == ImportSources(a) + ImportSources(b)
    decreases |b|
  {
    if b == [] {
      assert a + b == a;
    } else {
      var b' := b[..|b| - 1];
      assert (a + b)[..|a + b| - 1] == a + b';
      ImportSourcesAppend(a, b');
    }
  }

  /** Every import contributes its source string and nothing else contributes one. */
  lemma {:induction false} ImportSourcesExact(program: seq<Statement>, s: string)
    ensures s in ImportSources(program) <==> ImportDeclaration(s) in program
    decreases |program|
  {
    if program != [] {
      var init := program[..|program| - 1];
      assert program == init + [program[|program| - 1]];
      ImportSourcesExact(init, s);
    }
  }

  /** The file reads, parses and lowers without error. */
  predicate Compiles(host: Host, filename: string)
  {
    host.frontend(filename).Parsed? && host.frontend(filename).lowering.Lowered?
  }

  /** The import strings of a file that parses. */
  function Deps(host: Host, filename: string): seq<string>
  {
    if host.frontend(filename).Parsed? then ImportSources(host.frontend(filename).program) else []
  }

  function Code(host: Host, filename: string): string
    requires Compiles(host, filename)
  {
    host.frontend(filename).lowering.code
  }

  /** The absolute path an import string names, relative to the importing file's directory. */
  function Resolve(host: Host, filename: string, relativePath: string): string
  {
    host.join(host.dirname(filename), relativePath)
  }

  /** How many ids compiling a file draws: the counter moves once the file has parsed. */
  function IdsDrawn(host: Host, filename: string): nat
  {
    if host.frontend(filename).Parsed? then 1 else 0
  }

  /** The error a file that does not compile raises, by the stage at which it fails. */
  function ErrorOf(host: Host, filename: string): (e: BuildError)
    requires !Compiles(host, filename)
    ensures e.filename == filename
    ensures e.kind == TransformError <==> IdsDrawn(host, filename) == 1
  {
    match host.frontend(filename)
    case Unreadable => BuildError(ReadError, filename)
    case Unparsable => BuildError(ParseError, filename)
    case Parsed(_, _) => BuildError(TransformError, filename)
  }

  /** The rank of a file; a file the ranking leaves out has rank 0. */
  function RankOf(rank: imap<string, nat>, filename: string): nat
  {
    if filename in rank then rank[filename] else 0
  }

  /**
   * `rank` covers `entry` and every import target of a covered file that
   * compiles, and strictly decreases along those imports. So the imports
   * reachable from the entry form no cycle and every chain of them is finite;
   * files the entry never reaches are unconstrained.
   */
  ghost predicate Acyclic(host: Host, rank: imap<string, nat>, entry: string)
  {
    && entry in rank
    && forall filename, s ::
        filename in rank && Compiles(host, filename) && s in Deps(host, filename) ==>
          && Resolve(host, filename, s) in rank
          && RankOf(rank, Resolve(host, filename, s)) < RankOf(rank, filename)
  }
}
