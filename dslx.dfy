/**
 * Values shared by the type-information tree and the inference pass: AST node
 * identities, error statuses, concrete types, interpreter values and
 * parametric environments. Their internals belong to the frontend and are
 * kept as small closed datatypes.
 */
module Dslx {

  /** A module of the program being type checked. */
  datatype ModuleId = ModuleId(name: string)

  /** The identity of an AST node; `owner` is the module the node belongs to. */
  datatype NodeId = NodeId(owner: ModuleId, index: nat)

  /** The error statuses the core can produce. */
  datatype Status =
    | NotFound            // no entry is recorded for the key
    | FailedPrecondition  // an entry is recorded, but of another concrete-type variant
    | DuplicateRoot       // a second root TypeInfo requested for a module
    | NotRoot             // a root-only setter called on a derived TypeInfo
    | Internal(code: nat) // errors raised by collaborators outside the core

  /** A signed 64-bit integer, the width of slice starts and widths. */
  newtype int64 = x: int | -0x8000_0000_0000_0000 <= x < 0x8000_0000_0000_0000

  /** A value computed by the constant evaluator. */
  datatype InterpValue =
    | Bits(isSigned: bool, bitCount: nat, value: int)
    | Tuple(elements: seq<InterpValue>)

  /** The values bound to parametric parameters for one instantiation; compared by content. */
  datatype ParametricEnv = ParametricEnv(bindings: map<string, InterpValue>)

  /** The closed set of concrete-type variants. */
  datatype ConcreteType =
    | BitsType(isSigned: bool, size: nat)
    | TupleType(members: seq<ConcreteType>)
    | StructType(structName: string, members: seq<ConcreteType>)
    | ArrayType(elementType: ConcreteType, size: nat)
    | FunctionType(params: seq<ConcreteType>, returnType: ConcreteType)
    | TokenType
    | ParametricPlaceholderType(parameterName: string)
  {
    /** The variant tag, what a checked downcast compares. */
    function Kind(): TypeKind {
      match this
      case BitsType(_, _) => BitsKind
      case TupleType(_) => TupleKind
      case StructType(_, _) => StructKind
      case ArrayType(_, _) => ArrayKind
      case FunctionType(_, _) => FunctionKind
      case TokenType => TokenKind
      case ParametricPlaceholderType(_) => ParametricPlaceholderKind
    }
  }

  /** The variant tags of ConcreteType. */
  datatype TypeKind =
    | BitsKind | TupleKind | StructKind | ArrayKind | FunctionKind | TokenKind | ParametricPlaceholderKind
}
