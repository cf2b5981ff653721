/** The errors of compilation and module loading. */
module Errors {
  import opened Names
  import opened Wrappers
  import opened Values

  /** `CompileError`, variant for variant. */
  datatype CompileError =
    | ArityError(name: Name, expected: Arity, found: nat)
    | CannotDefine(name: Name)
    | DuplicateExports
    | DuplicateParameter(name: Name)
    | ExportError(modName: Name, name: Name)
    | ImportCycle(name: Name)
    | ImportError(modName: Name, name: Name)
    | ImportShadow(modName: Name, name: Name)
    | InvalidCallExpression(typeName: string)
    | InvalidCommaAt
    | InvalidModuleName(name: Name)
    | MacroRecursionExceeded
    | MissingExport
    | ModuleError(name: Name)
    | OperandOverflow(n: nat)
    | PrivacyError(modName: Name, name: Name)
    | SyntaxError(msg: string)
    | UnbalancedComma

  /** The interpreter-wide error type, reduced to what compilation and loading can produce. */
  datatype Error =
    | Compile(err: CompileError)
    | Exec(code: nat)                 // an error raised while running code (a macro, a module body)
    | Io(path: string)                // a failed stat, open or read
    | IncorrectVersion(path: string)  // a bytecode file written by another version
    | Panic(reason: string)           // an assertion of the source that does not hold
    | OutOfFuel                       // the model's bound on macro expansions ran out

  function Syntax(msg: string): Error {
    Compile(SyntaxError(msg))
  }

  /** `get_name`: a name, or the syntax error every form reports for a non-name. */
  function GetName(v: Value): (r: Result<Name, CompileError>)
    ensures r.Ok? <==> v.Name?
    ensures r.Ok? ==> r.value == v.name
    ensures r.Err? ==> r.error == SyntaxError("expected name")
  {
    match v
    case Name(n) => Ok(n)
    case _ => Err(SyntaxError("expected name"))
  }
}
