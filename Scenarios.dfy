/**
 * Worked examples on a small fixed class table: generic substitution, first
 * match, the binary fold, index set and implicit conversion, each stated as a
 * lemma about the model.
 */
module Scenarios {
  import opened Optional
  import opened Psi
  import opened OOMethods
  import opened OOResolver
  import opened OOHighlightVisitor

  const Int: Type := ClassType("Int", [])
  const Str: Type := ClassType("String", [])
  const Float: Type := ClassType("Float", [])
  const Vec2: Type := ClassType("Vec2", [])
  const Matrix: Type := ClassType("Matrix", [])
  const Fraction: Type := ClassType("Fraction", [])
  const Number: Type := ClassType("Number", [])
  const Object: Type := ClassType("Object", [])
  const X: Type := ClassType("X", [])
  const Y: Type := ClassType("Y", [])

  /** `Box<T>`'s type parameter. */
  const T: Type := ClassType("T", [])

  /** A type parameter declared `V extends Vec2`. */
  const V: Type := ClassType("V", [])

  /** `Box<T>.add(T): Box<T>`. */
  const BoxAdd: MethodDecl := MethodDecl("add", [T], ClassType("Box", [T]))

  /** `Sel.op(Object): X`, declared before `Sel.op(Number): Y`. */
  const OpObject: MethodDecl := MethodDecl("op", [Object], X)
  const OpNumber: MethodDecl := MethodDecl("op", [Number], Y)

  /**
   * The receiver's substitutor for the one-parameter generics of the table:
   * `T` becomes the receiver's type argument, also inside `C<T>`.
   */
  function Substitute(receiver: Type, t: Type): Type {
    if receiver.ClassType? && |receiver.args| == 1 then
      if t == T then receiver.args[0]
      else if t.ClassType? && t.args == [T] then ClassType(t.name, [receiver.args[0]])
      else t
    else t
  }

  /** Exact type match, plus `Object` takes anything, `Number` takes `Int` and `Vec2` takes `V`. */
  predicate Assignable(to: Type, from: Type) {
    to == from || to == Object || (to == Number && from == Int) || (to == Vec2 && from == V)
  }

  function Table(): Host {
    Host(
      map[
        "Box" := ClassDecl([BoxAdd]),
        "Sel" := ClassDecl([OpObject, OpNumber]),
        "Vec2" := ClassDecl([MethodDecl("add", [Vec2], Vec2)]),
        "V" := ClassDecl([MethodDecl("add", [Vec2], Vec2)]),
        "Matrix" := ClassDecl([MethodDecl("set", [Int, Float], Matrix)]),
        "Fraction" := ClassDecl([MethodDecl("valueOf", [Int], Fraction)])
      ],
      Substitute,
      Assignable)
  }

  function Names(): OpTables {
    OpTables(map["+" := "add"], map["-" := "negate"], "get", ["set", "put"], "valueOf")
  }

  /** `Box<Int>.add(Int)` resolves to `Box<Int>`; `Box<Int>.add(String)` does not resolve. */
  lemma GenericSubstitution()
    ensures Resolve(Table(), Some(ClassType("Box", [Int])), Some("add"), [Some(Int)]) == Some(ClassType("Box", [Int]))
    ensures Resolve(Table(), Some(ClassType("Box", [Int])), Some("add"), [Some(Str)]).None?
  {
    var h, box := Table(), ClassType("Box", [Int]);
    assert h.classes["Box"].methods == [BoxAdd];
    ResolveIsFirstMatch(h, box, "add", [Some(Int)], 0);
    SingleArgumentResolvesIff(h, box, "add", Str);
  }

  /** Both `op` overloads accept an `Int`; the one declared first is chosen. */
  lemma FirstMatchWins()
    ensures Resolve(Table(), Some(ClassType("Sel", [])), Some("op"), [Some(Int)]) == Some(X)
  {
    var h, sel := Table(), ClassType("Sel", []);
    assert h.classes["Sel"].methods == [OpObject, OpNumber];
    assert Accepts(h, sel, OpNumber, [Int]);
    ResolveIsFirstMatch(h, sel, "op", [Some(Int)], 0);
  }

  /** `a + b` with `a` and `b` of type parameter `V extends Vec2` finds `add` through the bound. */
  lemma BoundedTypeParameter()
    ensures OOType(Names(), Table(), Some(V), Some(V), Some("+")) == Vec2
  {
    var h := Table();
    assert h.classes["V"].methods == [MethodDecl("add", [Vec2], Vec2)];
    ResolveIsFirstMatch(h, V, "add", [Some(V)], 0);
  }

  function Operand(ty: Type): Expr {
    Leaf(Some(ty), TextRange(0, 0))
  }

  /** `v + v + v` on `Vec2` with `add(Vec2): Vec2` folds to `Vec2`. */
  lemma Vec2Chain()
    ensures PolyadicType(Names(), Table(), PolyadicExpr(TextRange(0, 0),
      [Operand(Vec2), Operand(Vec2), Operand(Vec2)], [Some("+"), Some("+")])) == Some(Vec2)
  {
    var t, h := Names(), Table();
    var e := PolyadicExpr(TextRange(0, 0), [Operand(Vec2), Operand(Vec2), Operand(Vec2)], [Some("+"), Some("+")]);
    assert h.classes["Vec2"].methods == [MethodDecl("add", [Vec2], Vec2)];
    ResolveIsFirstMatch(h, Vec2, "add", [Some(Vec2)], 0);
    OOTypeFoldStep(t, h, e, 1);
    OOTypeFoldStep(t, h, e, 2);
  }

  /** `v + v + i` with no `add(Int)` on `Vec2`: the second step fails and the chain is `NoType`. */
  lemma MixedChain()
    ensures PolyadicType(Names(), Table(), PolyadicExpr(TextRange(0, 0),
      [Operand(Vec2), Operand(Vec2), Operand(Int)], [Some("+"), Some("+")])) == Some(NoType)
  {
    var t, h := Names(), Table();
    var e := PolyadicExpr(TextRange(0, 0), [Operand(Vec2), Operand(Vec2), Operand(Int)], [Some("+"), Some("+")]);
    assert h.classes["Vec2"].methods == [MethodDecl("add", [Vec2], Vec2)];
    ResolveIsFirstMatch(h, Vec2, "add", [Some(Vec2)], 0);
    SingleArgumentResolvesIff(h, Vec2, "add", Int);
    OOTypeFoldStep(t, h, e, 1);
    OOTypeFoldStep(t, h, e, 2);
  }

  /** `m[i] = f` on `Matrix` with `set(Int, Float): Matrix`: the first index-set name resolves. */
  lemma MatrixIndexSet()
    ensures IndexSetType(Names(), Table(),
      Some(ArrayAccess(None, TextRange(0, 0), Operand(Matrix), Some(Operand(Int)))), Some(Operand(Float))) == Matrix
  {
    var h := Table();
    assert h.classes["Matrix"].methods == [MethodDecl("set", [Int, Float], Matrix)];
    ResolveIsFirstMatch(h, Matrix, "set", [Some(Int), Some(Float)], 0);
    var args := [Some(Operand(Int)), Some(Operand(Float))];
    assert TypesOf(args) == [Some(Int), Some(Float)];
    assert ResolveOnExprs(h, Some(Operand(Matrix)), Some("set"), args) == Some(Matrix);
    FirstWhereAt(Names().indexSet, ResolvesUnder(h, Operand(Matrix), args), 0);
  }

  /** `Fraction.valueOf(Int)` makes an `Int` convertible to `Fraction`, but not a `String`. */
  lemma FractionConversion()
    ensures IsTypeConvertible(Names(), Table(), Some(Fraction), Some(Operand(Int)))
    ensures !IsTypeConvertible(Names(), Table(), Some(Fraction), Some(Operand(Str)))
  {
    var h := Table();
    assert h.classes["Fraction"].methods == [MethodDecl("valueOf", [Int], Fraction)];
  }
}
