/** The resolved tree the parser hands to the code generator: names are slots, calls are function
    indices, and every conversion is explicit. */
module Ast {
  import opened Values

  datatype Type = TInt | TDouble | TArrInt | TArrDouble

  predicate IsArray(t: Type) { t.TArrInt? || t.TArrDouble? }

  /** Element type of an array type, or the type itself if scalar. */
  function Elem(t: Type): Type {
    match t
    case TArrInt => TInt
    case TArrDouble => TDouble
    case _ => t
  }

  function ArrayOf(t: Type): Type { if t.TInt? then TArrInt else TArrDouble }

  /** A double literal of the source: the lexer only produces non-negative, non-NaN values. */
  type Lit = d: Bits | IsLiteral(d)

  datatype Expr =
    | IntLit(i: int)
    | DblLit(d: Lit)
    | Var(slot: nat, ty: Type)
    | Index(arr: Expr, idx: Expr)
    | I2D(e: Expr)
    | D2I(e: Expr)
    | Neg(e: Expr)
    | Bin(op: Op, a: Expr, b: Expr, ty: Type)
    | Call(f: nat, args: seq<Expr>, ty: Type)

  datatype Stmt =
    | Block(body: seq<Stmt>)
    | DeclArray(elem: Type, slot: nat, len: Expr)
    | Decl(ty: Type, slot: nat, init: Option<Expr>)
    | Assign(slot: nat, e: Expr)
    | AssignIndex(arr: Expr, idx: Expr, e: Expr)
    | If(cond: Expr, thn: Stmt, els: Option<Stmt>)
    | While(cond: Expr, body1: Stmt)
    | Return(value: Option<Expr>)
    | ExprStmt(e: Expr)
    | Print(e: Expr)

  datatype Func = Func(name: string, nparams: nat, nlocals: nat, body: Stmt)

  /** Functions are called by their position; `main` is found by name. */
  type Program = seq<Func>

  /** The `type` field of an expression node. */
  function TypeOf(e: Expr): Type {
    match e
    case IntLit(_) => TInt
    case DblLit(_) => TDouble
    case Var(_, t) => t
    case Index(a, _) => Elem(TypeOf(a))
    case I2D(_) => TDouble
    case D2I(_) => TInt
    case Neg(a) => TypeOf(a)
    case Bin(_, _, _, t) => t
    case Call(_, _, t) => t
  }
}
