/** The already-parsed program the evaluator walks: expressions and
    statements of HCL. Nodes that the resolver annotates with a scope
    distance (variables, `self`, assignments, `super`) carry an identity. */
module Syntax {
  import opened Base

  /** Identity of an expression node, the key of the resolver's `locals` map. */
  type ExprId = nat

  /** The literals the parser produces. Numbers are kept abstract as reals. */
  datatype Lit = NilLit | BoolLit(b: bool) | NumLit(n: real) | StrLit(s: string)

  datatype LogicalOp = And | Or

  datatype UnaryOp = Bang | Negate

  datatype BinaryOp =
    | Greater | GreaterEqual | Less | LessEqual
    | Minus | Plus | Slash | Star | Caret
    | BangEqual | EqualEqual

  datatype Expr =
    | Literal(lit: Lit)
    | Grouping(inner: Expr)
    | Variable(id: ExprId, name: string)
    | SelfRef(id: ExprId)
    | Assign(id: ExprId, name: string, value: Expr)
    | Logical(lop: LogicalOp, left: Expr, right: Expr)
    | Unary(uop: UnaryOp, operand: Expr)
    | Binary(bop: BinaryOp, left: Expr, right: Expr)
    | Call(callee: Expr, arguments: seq<Expr>)
    | Get(obj: Expr, name: string)
    | Set(obj: Expr, name: string, value: Expr)
    | Super(id: ExprId, methodName: string)

  /** A function or method declaration. */
  datatype FunDecl = FunDecl(name: string, params: seq<string>, body: seq<Stmt>)

  datatype Stmt =
    | ExprStmt(expr: Expr)
    | PrintStmt(expr: Expr)
    | LetStmt(name: string, initializer: Option<Expr>)
    | BlockStmt(statements: seq<Stmt>)
    | IfStmt(condition: Expr, thenBranch: Stmt, elseBranch: Option<Stmt>)
    | LoopStmt(body: Stmt)
    | BreakStmt
    | ReturnStmt(value: Option<Expr>)
    | FunctionStmt(decl: FunDecl)
    | ClassStmt(name: string, superclass: Option<Expr>, methods: seq<FunDecl>, classMethods: seq<FunDecl>)
    | ImportStmt(moduleName: Expr, isStd: bool)
}
