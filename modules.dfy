/** Loading modules (module.rs): the registry that caches loaded modules by name, the file
  loader with its guard against import cycles, the naming of a module's source and compiled
  files, the choice between them, the check of a module's export list, the builder of modules
  written in the host language, and the table of built-in modules.
  File contents, parsing, compiling and running a module's code are inputs to the model: a
  module read from bytecode or from source arrives as the result of a given function of the
  import chain it is loaded under. */
module Modules {
  import opened Names
  import opened Wrappers
  import opened Values
  import opened Errors
  import opened Scopes

  /** A loaded module: its name and its namespace. */
  datatype Module = Module(name: Name, scope: ScopeView)

  /** The namespace of a scope as the modules loading from it see it. */
  function View(s: GlobalScope): (r: ScopeView)
    reads s
    ensures r.values == s.values && r.macros == s.macros && r.exports == s.exports
  {
    ScopeView(s.values, s.macros, s.exports)
  }

  // ---------------------------------------------------------------------------------------
  // Exports

  /** A name a module's scope defines, as a value or as a macro. */
  predicate Defines(view: ScopeView, name: Name) {
    name in view.values || name in view.macros
  }

  /** The module declared an export list and defines every name in it. */
  predicate ExportsDeclared(view: ScopeView) {
    view.exports.Some? && forall n :: n in view.exports.value ==> Defines(view, n)
  }

  /** `check_exports`: a module loaded from source must declare an export list, and every
    exported name must be defined in its scope. */
  method CheckExports(view: ScopeView, modName: Name) returns (r: Outcome<CompileError>)
    ensures view.exports.None? ==> r == Fail(MissingExport)
    ensures view.exports.Some? ==> (r.Pass? <==> ExportsDeclared(view))
    ensures r.Fail? && view.exports.Some? ==>
      exists n :: n in view.exports.value && !Defines(view, n) && r.error == ExportError(modName, n)
  {
    if view.exports.None? {
      return Fail(MissingExport);
    }
    var exports := view.exports.value;
    var rest := exports;
    while rest != {}
      invariant rest <= exports
      invariant forall n :: n in exports && n !in rest ==> Defines(view, n)
      decreases |rest|
    {
      var n :| n in rest;
      if !Defines(view, n) {
        return Fail(ExportError(modName, n));
      }
      rest := rest - {n};
    }
    r := Pass;
  }

  /** `ModuleBuilder`: builds a module in the host language by adding values to a scope. */
  class ModuleBuilder {
    const name: Name
    const scope: GlobalScope

    constructor (name: Name, scope: GlobalScope)
      ensures this.name == name && this.scope == scope
    {
      this.name := name;
      this.scope := scope;
    }

    /** `add_value`: defines `n` as `v` in the module's scope. */
    method AddValue(n: Name, v: Value)
      modifies scope
      ensures scope.values == old(scope.values)[n := v]
      ensures scope.macros == old(scope.macros) && scope.exports == old(scope.exports)
    {
      scope.values := scope.values[n := v];
    }

    /** `finish`: every value added to the scope is exported, and nothing else. The module
      then passes the export check that modules loaded from source must pass. */
    method Finish() returns (m: Module)
      modifies scope
      ensures scope.exports == Some(scope.values.Keys)
      ensures scope.values == old(scope.values) && scope.macros == old(scope.macros)
      ensures m == Module(name, View(scope))
      ensures ExportsDeclared(m.scope)
    {
      scope.exports := Some(scope.values.Keys);
      m := Module(name, View(scope));
    }
  }

  // ---------------------------------------------------------------------------------------
  // Built-in modules

  /** The modules built into the interpreter. Their contents (mod_code.rs, mod_math.rs,
    mod_random.rs) are not part of this model. */
  datatype BuiltinModule = CodeModule | MathModule | RandomModule

  /** The name a built-in module is imported by. */
  function BuiltinName(b: BuiltinModule): string {
    match b
    case CodeModule => "code"
    case MathModule => "math"
    case RandomModule => "random"
  }

  /** `get_loader`: the built-in module of a name, if there is one. */
  function GetLoader(text: string): (r: Option<BuiltinModule>)
    ensures r.Some? <==> text == "code" || text == "math" || text == "random"
    ensures r.Some? ==> BuiltinName(r.value) == text
  {
    if text == "code" then Some(CodeModule)
    else if text == "math" then Some(MathModule)
    else if text == "random" then Some(RandomModule)
    else None
  }

  /** Every built-in module is found under its own name. */
  lemma GetLoaderFinds(b: BuiltinModule)
    ensures GetLoader(BuiltinName(b)) == Some(b)
  {
    match b
    case CodeModule =>
    case MathModule =>
      assert BuiltinName(b) != "code";
    case RandomModule =>
      assert BuiltinName(b) != "code" && BuiltinName(b) != "math";
  }

  /** `load_builtin_module`: the module `name` (whose text is `text`) when it is built in,
    otherwise `ModuleError`. */
  function LoadBuiltinModule(name: Name, text: string): (r: Result<BuiltinModule, Error>)
    ensures r.Ok? <==> text == "code" || text == "math" || text == "random"
    ensures r.Ok? ==> BuiltinName(r.value) == text
    ensures r.Err? ==> r.error == Compile(ModuleError(name))
  {
    match GetLoader(text)
    case Some(b) => Ok(b)
    case None => Err(Compile(ModuleError(name)))
  }

  // ---------------------------------------------------------------------------------------
  // Module files

  type Path = string

  const FileExtension: string := "kts"
  const CompiledFileExtension: string := "ktsc"

  /** A character that would lead a module name out of the directory it is looked up in. */
  predicate IsSeparator(c: char) {
    c == '.' || c == '/' || c == '\\'
  }

  predicate HasSeparator(text: string)
    ensures HasSeparator(text) <==> '.' in text || '/' in text || '\\' in text
  {
    exists i :: 0 <= i < |text| && IsSeparator(text[i])
  }

  function SourcePath(text: string): Path {
    text + "." + FileExtension
  }

  function CompiledPath(text: string): Path {
    text + "." + CompiledFileExtension
  }

  /** The file names of the module named `text` (interned as `name`): `<name>.kts` for its
    source and `<name>.ktsc` for its bytecode; a name holding a dot or a path separator is
    refused. */
  function ModulePaths(name: Name, text: string): (r: Result<(Path, Path), CompileError>)
    ensures r.Err? <==> exists i :: 0 <= i < |text| && IsSeparator(text[i])
    ensures r.Err? ==> r.error == InvalidModuleName(name)
    ensures r.Ok? ==> r.value.0 == text + ".kts" && r.value.1 == text + ".ktsc"
  {
    if HasSeparator(text) then Err(InvalidModuleName(name))
    else Ok((SourcePath(text), CompiledPath(text)))
  }

  /** The part of a file name before its first dot. */
  function Stem(path: Path): (r: string)
    ensures |r| <= |path| && r == path[..|r|]
  {
    if path == [] || path[0] == '.' then [] else [path[0]] + Stem(path[1..])
  }

  lemma {:induction false} StemOfDotted(text: string, ext: string)
    requires !HasSeparator(text)
    ensures Stem(text + "." + ext) == text
  {
    if text != [] {
      assert (text + "." + ext)[1..] == text[1..] + "." + ext;
      assert !HasSeparator(text[1..]) by {
        forall i | 0 <= i < |text[1..]|
          ensures !IsSeparator(text[1..][i])
        {
          assert text[1..][i] == text[i + 1];
        }
      }
      StemOfDotted(text[1..], ext);
    }
  }

  /** Both file names of an accepted module name give the name back as their stem, so
    different modules never share a file. */
  lemma ModulePathsStem(name: Name, text: string)
    requires ModulePaths(name, text).Ok?
    ensures Stem(ModulePaths(name, text).value.0) == text
    ensures Stem(ModulePaths(name, text).value.1) == text
  {
    StemOfDotted(text, FileExtension);
    StemOfDotted(text, CompiledFileExtension);
  }

  /** A modification time as the Unix metadata gives it: seconds and nanoseconds. */
  datatype Time = Time(secs: int, nanos: int)

  /** `is_younger_impl` on Unix: `a` was modified after `b`, comparing the pair
    (seconds, nanoseconds) lexicographically. */
  predicate Later(a: Time, b: Time)
    ensures a == b ==> !Later(a, b)
    ensures a.secs != b.secs ==> (Later(a, b) <==> a.secs > b.secs)
  {
    a.secs > b.secs || (a.secs == b.secs && a.nanos > b.nanos)
  }

  const NanosPerSec: int := 1_000_000_000

  function TotalNanos(t: Time): int {
    t.secs * NanosPerSec + t.nanos
  }

  /** With the nanoseconds in range, the lexicographic comparison is the comparison of the
    times counted in nanoseconds. */
  lemma LaterByNanos(a: Time, b: Time)
    requires 0 <= a.nanos < NanosPerSec && 0 <= b.nanos < NanosPerSec
    ensures Later(a, b) <==> TotalNanos(a) > TotalNanos(b)
  {
    var d := a.secs - b.secs;
    assert TotalNanos(a) - TotalNanos(b) == d * NanosPerSec + (a.nanos - b.nanos);
    if d >= 1 {
      assert d * NanosPerSec >= NanosPerSec;
    } else if d <= -1 {
      assert d * NanosPerSec <= -NanosPerSec;
    }
  }

  /** What the file system tells the loader: the files that exist and, for each, its
    modification time, or None when reading its metadata fails. */
  datatype FileSystem = FileSystem(files: map<Path, Option<Time>>)

  /** `use_code_file`: the bytecode file is used when it exists and either the source file
    does not or the bytecode is the younger of the two; reading a time can fail. The source
    asks whether a file exists through its metadata, so a file whose metadata cannot be read
    counts as absent there; the time read that follows fails only when the metadata became
    unreadable in between. The model keeps that case (`Some` file with a `None` time) so the
    error branch of `is_younger` is represented. */
  function UseCodeFile(fs: FileSystem, code: Path, src: Path): (r: Result<bool, Error>)
    ensures code !in fs.files ==> r == Ok(false)
    ensures code in fs.files && src !in fs.files ==> r == Ok(true)
    ensures code in fs.files && src in fs.files ==>
      && (fs.files[code].None? ==> r == Err(Io(code)))
      && (fs.files[code].Some? && fs.files[src].None? ==> r == Err(Io(src)))
      && (fs.files[code].Some? && fs.files[src].Some? ==> r == Ok(Later(fs.files[code].value, fs.files[src].value)))
  {
    if code !in fs.files then Ok(false)
    else if src !in fs.files then Ok(true)
    else IsYounger(fs, code, src)
  }

  /** `is_younger`: whether `a` was modified after `b`, failing when a time cannot be read. */
  function IsYounger(fs: FileSystem, a: Path, b: Path): (r: Result<bool, Error>)
    requires a in fs.files && b in fs.files
    ensures r.Err? <==> fs.files[a].None? || fs.files[b].None?
    ensures r.Err? ==> r.error == Io(if fs.files[a].None? then a else b)
    ensures r.Ok? ==> (r.value <==> Later(fs.files[a].value, fs.files[b].value))
  {
    match (fs.files[a], fs.files[b])
    case (None, _) => Err(Io(a))
    case (Some(_), None) => Err(Io(b))
    case (Some(ta), Some(tb)) => Ok(Later(ta, tb))
  }

  /** Bytecode modified at the same moment as its source is never preferred to it. */
  lemma SameTimeUsesSource(fs: FileSystem, code: Path, src: Path)
    requires code in fs.files && src in fs.files && fs.files[code].Some?
    requires fs.files[src] == fs.files[code]
    ensures UseCodeFile(fs, code, src) == Ok(false)
  {
  }

  // ---------------------------------------------------------------------------------------
  // Loaders

  /** `ModuleRegistry`: loads modules through its loader and keeps each one loaded, so a name
    is loaded at most once. The loader is a function of the name: the files it reads are taken
    not to change while the program runs. */
  class ModuleRegistry {
    const loader: Name -> Result<Module, Error>
    var modules: map<Name, Module>
    /** The names the loader was called for, in order. */
    ghost var loads: seq<Name>

    /** Every cached module is what the loader gives for its name. */
    ghost predicate Valid()
      reads this
    {
      forall n :: n in modules ==> loader(n) == Ok(modules[n])
    }

    constructor (loader: Name -> Result<Module, Error>)
      ensures this.loader == loader && modules == map[] && loads == []
      ensures Valid()
    {
      this.loader := loader;
      modules := map[];
      loads := [];
    }

    /** `get_module`: a cached module is returned without calling the loader; otherwise the
      loader is called once and a module it loads is cached. Either way the result is what the
      loader gives for the name. */
    method GetModule(name: Name) returns (r: Result<Module, Error>)
      requires Valid()
      modifies this
      ensures Valid()
      ensures r == loader(name)
      ensures name in old(modules) ==> modules == old(modules) && loads == old(loads)
      ensures name !in old(modules) ==> loads == old(loads) + [name]
      ensures name !in old(modules) ==> modules == if r.Ok? then old(modules)[name := r.value] else old(modules)
    {
      if name in modules {
        return Ok(modules[name]);
      }
      loads := loads + [name];
      r := loader(name);
      if r.Ok? {
        modules := modules[name := r.value];
      }
    }
  }

  /** What reading a module's bytecode gives when the bytecode was written by another
    version: the source is compiled again if it exists. */
  function FromBytecode(read: Result<Module, Error>, sourceExists: bool, fromSource: Result<Module, Error>): (r: Result<Module, Error>)
    ensures read.Ok? ==> r == read
    ensures read.Err? && read.error.IncorrectVersion? && sourceExists ==> r == fromSource
    ensures read.Err? && !(read.error.IncorrectVersion? && sourceExists) ==> r == read
  {
    match read
    case Ok(m) => Ok(m)
    case Err(e) =>
      if e.IncorrectVersion? && sourceExists then fromSource else Err(e)
  }

  /** `FileModuleLoader`: loads a module from its bytecode or source file, falling back to the
    built-in modules, and refuses a module whose loading is already under way. */
  class FileModuleLoader {
    /** The source files of the modules being loaded, outermost first. */
    var chain: seq<Path>

    constructor ()
      ensures chain == []
    {
      chain := [];
    }

    /** `guard_import`: runs `f` with `path` on the chain, unless it is already there; the
      chain is the same afterwards whatever `f` gives. */
    method GuardImport<T>(name: Name, path: Path, f: seq<Path> -> Result<T, Error>) returns (r: Result<T, Error>)
      modifies this
      ensures chain == old(chain)
      ensures path in old(chain) ==> r == Err(Compile(ImportCycle(name)))
      ensures path !in old(chain) ==> r == f(old(chain) + [path])
    {
      if path in chain {
        return Err(Compile(ImportCycle(name)));
      }
      chain := chain + [path];
      r := f(chain);
      chain := chain[..|chain| - 1];
    }

    /** `load_module` of the file loader, for the module `name` whose text is `text`.
      `readCode` and `fromSource` load the module from its bytecode and from its source under a
      given chain; `builtin` builds a built-in module. */
    method LoadModule(name: Name, text: string, fs: FileSystem,
                      readCode: seq<Path> -> Result<Module, Error>,
                      fromSource: seq<Path> -> Result<Module, Error>,
                      builtin: BuiltinModule -> Module)
      returns (r: Result<Module, Error>)
      modifies this
      ensures chain == old(chain)
      ensures HasSeparator(text) ==> r == Err(Compile(InvalidModuleName(name)))
      ensures !HasSeparator(text) ==>
        var src, code := SourcePath(text), CompiledPath(text);
        var use := UseCodeFile(fs, code, src);
        var c := old(chain) + [src];
        && (use.Err? ==> r == Err(use.error))
        && ((use == Ok(true) || (use == Ok(false) && src in fs.files)) && src in old(chain) ==>
              r == Err(Compile(ImportCycle(name))))
        && (use == Ok(true) && src !in old(chain) ==>
              r == FromBytecode(readCode(c), src in fs.files, fromSource(c)))
        && (use == Ok(false) && src in fs.files && src !in old(chain) ==> r == fromSource(c))
        && (use == Ok(false) && src !in fs.files ==>
              && (r.Ok? <==> GetLoader(text).Some?)
              && (r.Ok? ==> r.value == builtin(GetLoader(text).value))
              && (r.Err? ==> r.error == Compile(ModuleError(name))))
    {
      var paths := ModulePaths(name, text);
      if paths.Err? {
        return Err(Compile(paths.error));
      }
      var (src, code) := paths.value;
      var use := UseCodeFile(fs, code, src);
      if use.Err? {
        return Err(use.error);
      }
      var srcExists := src in fs.files;
      if use.value {
        r := GuardImport(name, src, c => FromBytecode(readCode(c), srcExists, fromSource(c)));
      } else if srcExists {
        r := GuardImport(name, src, fromSource);
      } else {
        var b := LoadBuiltinModule(name, text);
        if b.Err? {
          return Err(b.error);
        }
        r := Ok(builtin(b.value));
      }
    }
  }
}
