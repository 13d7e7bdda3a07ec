/**
 * The part of the host IDE's program model (IntelliJ PSI) that the operator
 * resolver reads: types, method declarations, the class table, and the
 * expression and variable nodes it inspects. The host's own algorithms
 * (class resolution, generic substitution, assignability) are not modelled;
 * they are supplied as values of `Host`.
 */
module Psi {
  import opened Optional

  /**
   * A host type. `NullType` is the type of the `null` literal; the resolver
   * reuses that very type as its "no overload" sentinel.
   *
   * As in the host, a type parameter such as `T` is a class type: it is
   * `ClassType("T", [])`, and the class table entry for `T` lists the methods
   * of its bounds, which is where a lookup on a `T`-typed receiver searches.
   */
  datatype Type =
    | ClassType(name: string, args: seq<Type>)
    | PrimitiveType(name: string)
    | ArrayType(component: Type)
    | NullType

  /** A declared method: name, parameter types (possibly generic) and return type. */
  datatype MethodDecl = MethodDecl(name: string, params: seq<Type>, returnType: Type)

  /** A class declaration: all its methods, inherited ones included, in the host's enumeration order. */
  datatype ClassDecl = ClassDecl(methods: seq<MethodDecl>)

  /**
   * The host type system as the resolver sees it.
   * - `classes`: what a class type's name resolves to; a name that is absent does
   *   not resolve (for instance, its import is not there yet).
   * - `substitute(receiver, t)`: `t` after the substitutor of the receiver's
   *   generic instantiation has been applied.
   * - `assignable(to, from)`: `to.isAssignableFrom(from)`.
   */
  datatype Host = Host(
    classes: map<string, ClassDecl>,
    substitute: (Type, Type) -> Type,
    assignable: (Type, Type) -> bool)

  /**
   * The methods of `c` named `name`, inherited ones included, in enumeration
   * order: the host's `findMethodsByName(name, true)`.
   */
  function FindMethodsByName(c: ClassDecl, name: string): (ms: seq<MethodDecl>)
    ensures forall m :: m in ms <==> m in c.methods && m.name == name
    ensures |ms| <= |c.methods|
    decreases |c.methods|
  {
    if c.methods == [] then []
    else
      var rest := FindMethodsByName(ClassDecl(c.methods[1..]), name);
      if c.methods[0].name == name then [c.methods[0]] + rest else rest
  }

  /** A source range: start and end offsets in the file. */
  datatype TextRange = TextRange(startOffset: int, endOffset: int)

  /**
   * An expression node with its type (null when the host cannot type it) and
   * its range. Array accesses carry their array and (possibly missing) index
   * sub-expressions; every other expression shape is a `Leaf`.
   */
  datatype Expr =
    | Leaf(ty: Option<Type>, range: TextRange)
    | ArrayAccess(ty: Option<Type>, range: TextRange, arrayExpr: Expr, indexExpr: Option<Expr>)

  /** `PsiArrayAccessExpression`. */
  type ArrayAccessExpr = e: Expr | e.ArrayAccess?
    witness ArrayAccess(None, TextRange(0, 0), Leaf(None, TextRange(0, 0)), None)

  /** `PsiBinaryExpression`: the right operand is missing in incomplete code. */
  datatype BinaryExpr = BinaryExpr(lOperand: Expr, rOperand: Option<Expr>, sign: string)

  /** `PsiPrefixExpression`: the operand is missing in incomplete code. */
  datatype PrefixExpr = PrefixExpr(range: TextRange, operand: Option<Expr>, sign: string)

  /**
   * `PsiPolyadicExpression`: `o0 t1 o1 t2 o2 ...`; `tokens[i - 1]` is the
   * token before `operands[i]` (`getTokenBeforeOperand`), null when missing.
   */
  datatype PolyadicExpr = PolyadicExpr(range: TextRange, operands: seq<Expr>, tokens: seq<Option<string>>) {
    predicate WellFormed() {
      |operands| >= 1 && |tokens| == |operands| - 1
    }
  }

  /** `PsiAssignmentExpression`: `lhs sign rhs`; the right-hand side is missing in incomplete code. */
  datatype AssignmentExpr = AssignmentExpr(range: TextRange, sign: string, lhs: Expr, rhs: Option<Expr>)

  /**
   * `PsiVariable`: declared type, where its type element starts, its own range
   * and its initializer, if any.
   */
  datatype Variable = Variable(ty: Option<Type>, typeElementStart: int, range: TextRange, initializer: Option<Expr>)
}
