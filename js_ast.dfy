/**
 * The part of the swc syntax tree that the chain collector looks at. Every expression form the
 * collector does not distinguish (function expressions, numbers, `this`, object literals, ...)
 * is `Other`, carrying its source text; every statement other than an expression statement is
 * `OtherStmt`. A callee that is `super` or `import` is an `Other` expression.
 */
module JsAst {

  datatype Expr =
    | Call(callee: Expr, args: seq<Expr>)   // `callee(args)`; spread markers on arguments are dropped
    | Member(obj: Expr, prop: MemberProp)   // `obj.prop`
    | Ident(name: string)
    | StrLit(value: string)                 // a string literal, by its value
    | Other(text: string)

  /** `.name`, or a computed `[expr]` / private `#name` property. */
  datatype MemberProp = PropIdent(name: string) | PropOther

  datatype ExprStmt = ExprStmt(expr: Expr)

  datatype Stmt = ExprStatement(exprStmt: ExprStmt) | OtherStmt

  /** A module item is a statement or a module declaration (`import`, `export`). */
  datatype ModuleItem = StmtItem(stmt: Stmt) | ModuleDecl

  datatype Module = Module(body: seq<ModuleItem>)
}
