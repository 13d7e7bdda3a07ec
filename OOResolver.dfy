/**
 * Operator-overload type resolution (`javaoo.idea.OOResolver`): an operator
 * expression is turned into a method lookup on the left operand's type, and
 * the lookup yields either the method's (substituted) return type or the
 * `NoType` sentinel.
 *
 * `Resolve` is the lookup as a function; `ResolveMethod` is the source's loop
 * proved equal to it. The operator forms (`OOType`, `PrefixExprOOType`,
 * `IndexGet`, `IndexSetType`, `IsTypeConvertible`) are stated on `Resolve`.
 */
module OOResolver {
  import opened Optional
  import opened Psi
  import opened OOMethods

  /** "No overload resolved": the null literal's type, which is not a class type. */
  const NoType: Type := NullType

  /** No argument type is null. */
  predicate AllKnown(argTypes: seq<Option<Type>>) {
    forall i :: 0 <= i < |argTypes| ==> argTypes[i].Some?
  }

  /** The argument types once none is null. */
  function Known(argTypes: seq<Option<Type>>): (ts: seq<Type>)
    requires AllKnown(argTypes)
    ensures |ts| == |argTypes|
    ensures forall i :: 0 <= i < |ts| ==> argTypes[i] == Some(ts[i])
  {
    seq(|argTypes|, i requires 0 <= i < |argTypes| => argTypes[i].value)
  }

  /**
   * Method `m`, looked up on `receiver`, takes `args`: as many parameters as
   * arguments, and every substituted parameter type is assignable from the
   * matching argument type.
   */
  predicate Accepts(h: Host, receiver: Type, m: MethodDecl, args: seq<Type>) {
    |m.params| == |args| &&
    forall i :: 0 <= i < |args| ==> h.assignable(h.substitute(receiver, m.params[i]), args[i])
  }

  /** `p` as a predicate on methods: the method accepts `args` on `receiver`. */
  function AcceptedBy(h: Host, receiver: Type, args: seq<Type>): MethodDecl -> bool {
    m => Accepts(h, receiver, m, args)
  }

  /**
   * The index of the first element of `s` satisfying `p`, if any: the
   * first-match scan that both method lookup and index-set name lookup perform.
   */
  function FirstWhere<T>(s: seq<T>, p: T -> bool): (r: Option<nat>)
    ensures r.Some? ==> r.value < |s| && p(s[r.value])
    ensures r.Some? ==> forall j :: 0 <= j < r.value ==> !p(s[j])
    ensures r.None? ==> forall j :: 0 <= j < |s| ==> !p(s[j])
    decreases |s|
  {
    if s == [] then None
    else if p(s[0]) then Some(0)
    else match FirstWhere(s[1..], p)
      case None => None
      case Some(k) => Some(k + 1)
  }

  /** An element satisfying `p`, with none before it, is the one `FirstWhere` finds. */
  lemma FirstWhereAt<T>(s: seq<T>, p: T -> bool, k: nat)
    requires k < |s| && p(s[k])
    requires forall j :: 0 <= j < k ==> !p(s[j])
    ensures FirstWhere(s, p) == Some(k)
  {
  }

  /** Past a first element that fails `p`, the scan goes on in the tail, one index lower. */
  lemma FirstWhereTail<T>(s: seq<T>, p: T -> bool, i: nat)
    requires s != [] && !p(s[0]) && FirstWhere(s, p) == Some(i)
    ensures 1 <= i && FirstWhere(s[1..], p) == Some(i - 1)
  {
  }

  /**
   * `resolveMethod(type, methodName, argTypes...)`: None stands for the
   * source's null ("not found").
   */
  function Resolve(h: Host, ty: Option<Type>, methodName: Option<string>, argTypes: seq<Option<Type>>): (r: Option<Type>)
    ensures ty.None? || !ty.value.ClassType? || methodName.None? ==> r.None?
    ensures (exists i :: 0 <= i < |argTypes| && argTypes[i].None?) ==> r.None?
    ensures ty.Some? && ty.value.ClassType? && ty.value.name !in h.classes ==> r.None?
  {
    if ty.None? || !ty.value.ClassType? || methodName.None? then None
    else if !AllKnown(argTypes) then None
    else if ty.value.name !in h.classes then None
    else
      var candidates := FindMethodsByName(h.classes[ty.value.name], methodName.value);
      match FirstWhere(candidates, AcceptedBy(h, ty.value, Known(argTypes)))
      case None => None
      case Some(k) => Some(h.substitute(ty.value, candidates[k].returnType))
  }

  /** `m` is named `name` and accepts `args` on `receiver`. */
  predicate Applicable(h: Host, receiver: Type, m: MethodDecl, name: string, args: seq<Type>) {
    m.name == name && Accepts(h, receiver, m, args)
  }

  /**
   * Reference definition of the method a lookup picks: the `k`-th method of
   * the class's enumeration is applicable and no earlier one is.
   */
  predicate IsFirstMatch(h: Host, receiver: Type, methods: seq<MethodDecl>, name: string, args: seq<Type>, k: int) {
    0 <= k < |methods| && Applicable(h, receiver, methods[k], name, args) &&
    forall j :: 0 <= j < k ==> !Applicable(h, receiver, methods[j], name, args)
  }

  /** When no name-filtered candidate satisfies `p`, no method of that name in the enumeration does. */
  lemma NoneOfFiltered(methods: seq<MethodDecl>, name: string, p: MethodDecl -> bool)
    requires FirstWhere(FindMethodsByName(ClassDecl(methods), name), p).None?
    ensures forall k :: 0 <= k < |methods| ==> !(methods[k].name == name && p(methods[k]))
  {
    var candidates := FindMethodsByName(ClassDecl(methods), name);
    forall k | 0 <= k < |methods| && methods[k].name == name ensures !p(methods[k]) {
      assert methods[k] in candidates;
      var j :| 0 <= j < |candidates| && candidates[j] == methods[k];
    }
  }

  /** The name-filtered candidates of a non-empty enumeration: its head if so named, then those of its tail. */
  lemma FindMethodsByNameUnfold(methods: seq<MethodDecl>, name: string)
    requires methods != []
    ensures FindMethodsByName(ClassDecl(methods), name) ==
      (if methods[0].name == name then [methods[0]] else []) + FindMethodsByName(ClassDecl(methods[1..]), name)
  {
  }

  /**
   * The first name-filtered candidate satisfying `p` is the first method of
   * the whole enumeration that has the name and satisfies `p`.
   */
  lemma {:induction false} FirstOfFiltered(methods: seq<MethodDecl>, name: string, p: MethodDecl -> bool, i: nat)
    returns (k: nat)
    requires FirstWhere(FindMethodsByName(ClassDecl(methods), name), p) == Some(i)
    ensures k < |methods| && FindMethodsByName(ClassDecl(methods), name)[i] == methods[k]
    ensures methods[k].name == name && p(methods[k])
    ensures forall j :: 0 <= j < k ==> !(methods[j].name == name && p(methods[j]))
    decreases |methods|
  {
    var candidates := FindMethodsByName(ClassDecl(methods), name);
    var rest := FindMethodsByName(ClassDecl(methods[1..]), name);
    FindMethodsByNameUnfold(methods, name);
    if methods[0].name == name && p(methods[0]) {
      assert candidates[0] == methods[0];
      k := 0;
    } else {
      var i' := i;
      if methods[0].name == name {
        assert candidates[1..] == rest;
        FirstWhereTail(candidates, p, i);
        i' := i - 1;
      }
      var k' := FirstOfFiltered(methods[1..], name, p, i');
      k := k' + 1;
      forall j | 0 <= j < k ensures !(methods[j].name == name && p(methods[j])) {
        if j > 0 { assert methods[j] == methods[1..][j - 1]; }
      }
      assert candidates[i] == rest[i'];
      assert methods[1..][k'] == methods[k];
    }
  }

  /** On a resolvable class type with known arguments, the lookup is the first-match scan of the named candidates. */
  lemma ResolveOnClass(h: Host, receiver: Type, name: string, argTypes: seq<Option<Type>>)
    requires receiver.ClassType? && receiver.name in h.classes && AllKnown(argTypes)
    ensures var candidates := FindMethodsByName(h.classes[receiver.name], name);
      Resolve(h, Some(receiver), Some(name), argTypes) ==
        match FirstWhere(candidates, AcceptedBy(h, receiver, Known(argTypes)))
        case None => None
        case Some(k) => Some(h.substitute(receiver, candidates[k].returnType))
  {
  }

  /**
   * On a resolvable class type with known arguments, the lookup fails exactly
   * when no method of the class is named `name` and accepts the arguments.
   */
  lemma ResolveFailsIffNoneApplicable(h: Host, receiver: Type, name: string, argTypes: seq<Option<Type>>)
    requires receiver.ClassType? && receiver.name in h.classes && AllKnown(argTypes)
    ensures Resolve(h, Some(receiver), Some(name), argTypes).None? <==>
      forall k :: 0 <= k < |h.classes[receiver.name].methods| ==>
        !Applicable(h, receiver, h.classes[receiver.name].methods[k], name, Known(argTypes))
  {
    var methods := h.classes[receiver.name].methods;
    var args := Known(argTypes);
    assert ClassDecl(methods) == h.classes[receiver.name];
    var candidates := FindMethodsByName(ClassDecl(methods), name);
    var p := AcceptedBy(h, receiver, args);
    ResolveOnClass(h, receiver, name, argTypes);
    match FirstWhere(candidates, p)
    case None =>
      NoneOfFiltered(methods, name, p);
    case Some(i) =>
      var k := FirstOfFiltered(methods, name, p, i);
      assert Applicable(h, receiver, methods[k], name, args);
  }

  /**
   * First match wins: when the `k`-th method of the class's enumeration is the
   * earliest one named `name` that accepts the arguments, the lookup yields
   * its substituted return type, whatever later methods would accept.
   */
  lemma ResolveIsFirstMatch(h: Host, receiver: Type, name: string, argTypes: seq<Option<Type>>, k: nat)
    requires receiver.ClassType? && receiver.name in h.classes && AllKnown(argTypes)
    requires IsFirstMatch(h, receiver, h.classes[receiver.name].methods, name, Known(argTypes), k)
    ensures Resolve(h, Some(receiver), Some(name), argTypes) ==
      Some(h.substitute(receiver, h.classes[receiver.name].methods[k].returnType))
  {
    var methods := h.classes[receiver.name].methods;
    var args := Known(argTypes);
    assert ClassDecl(methods) == h.classes[receiver.name];
    var candidates := FindMethodsByName(ClassDecl(methods), name);
    var p := AcceptedBy(h, receiver, args);
    ResolveFailsIffNoneApplicable(h, receiver, name, argTypes);
    ResolveOnClass(h, receiver, name, argTypes);
    var i := FirstWhere(candidates, p).value;
    var k' := FirstOfFiltered(methods, name, p, i);
    assert !(k < k') && !(k' < k);
  }

  /** The source's `resolveMethod(PsiType, String, PsiType...)`, loops included. */
  method ResolveMethod(h: Host, ty: Option<Type>, methodName: Option<string>, argTypes: seq<Option<Type>>)
    returns (r: Option<Type>)
    ensures r == Resolve(h, ty, methodName, argTypes)
  {
    if ty.None? || !ty.value.ClassType? || methodName.None? {
      return None;
    }
    for i := 0 to |argTypes|
      invariant forall j :: 0 <= j < i ==> argTypes[j].Some?
    {
      if argTypes[i].None? {
        return None;
      }
    }
    var clas := ty.value;
    var args := Known(argTypes);
    if clas.name in h.classes {
      var methods := FindMethodsByName(h.classes[clas.name], methodName.value);
      for k := 0 to |methods|
        invariant forall j :: 0 <= j < k ==> !Accepts(h, clas, methods[j], args)
      {
        var pars := methods[k].params;
        if |pars| == |args| {
          var ok := true;
          for i := 0 to |pars|
            invariant ok <==> forall j :: 0 <= j < i ==> h.assignable(h.substitute(clas, pars[j]), args[j])
          {
            // `ok &= ...`: Java's non-short-circuit and; the operands have no side effects
            ok := ok && h.assignable(h.substitute(clas, pars[i]), args[i]);
          }
          if ok {
            FirstWhereAt(methods, AcceptedBy(h, clas, args), k);
            return Some(h.substitute(clas, methods[k].returnType));
          }
        }
      }
    }
    return None;
  }

  /** No argument expression is null. */
  predicate AllPresent(args: seq<Option<Expr>>) {
    forall i :: 0 <= i < |args| ==> args[i].Some?
  }

  /** The types of the argument expressions, each possibly null. */
  function TypesOf(args: seq<Option<Expr>>): (ts: seq<Option<Type>>)
    requires AllPresent(args)
    ensures |ts| == |args|
    ensures forall i :: 0 <= i < |args| ==> ts[i] == args[i].value.ty
  {
    seq(|args|, i requires 0 <= i < |args| => args[i].value.ty)
  }

  /**
   * `resolveMethod(PsiExpression, String, PsiExpression...)`: not found when
   * the receiver, the name or any argument is null; otherwise the type form
   * on the expressions' types.
   */
  function ResolveOnExprs(h: Host, clas: Option<Expr>, methodName: Option<string>, args: seq<Option<Expr>>): (r: Option<Type>)
    ensures clas.None? || methodName.None? ==> r.None?
    ensures !AllPresent(args) ==> r.None?
    ensures clas.Some? && AllPresent(args) ==> r == Resolve(h, clas.value.ty, methodName, TypesOf(args))
  {
    if clas.None? || methodName.None? then None
    else if !AllPresent(args) then None
    else Resolve(h, clas.value.ty, methodName, TypesOf(args))
  }

  /** The source's expression form of `resolveMethod`, filling an array of argument types. */
  method ResolveMethodOnExprs(h: Host, clas: Option<Expr>, methodName: Option<string>, args: seq<Option<Expr>>)
    returns (r: Option<Type>)
    ensures r == ResolveOnExprs(h, clas, methodName, args)
  {
    if clas.None? || methodName.None? {
      return None;
    }
    var argTypes := new Option<Type>[|args|];
    for i := 0 to |args|
      invariant forall j :: 0 <= j < i ==> args[j].Some? && argTypes[j] == args[j].value.ty
    {
      if args[i].None? {
        return None;
      }
      argTypes[i] := args[i].value.ty;
    }
    assert argTypes[..] == TypesOf(args);
    r := ResolveMethod(h, clas.value.ty, methodName, argTypes[..]);
  }

  /**
   * `getOOType(ltype, rtype, op)`: the binary operator's method on the left
   * type with the right type as sole argument, or `NoType`.
   */
  function OOType(t: OpTables, h: Host, ltype: Option<Type>, rtype: Option<Type>, op: Option<string>): (r: Type)
    ensures op.None? || op.value !in t.binary || rtype.None? ==> r == NoType
    ensures ltype.None? || !ltype.value.ClassType? ==> r == NoType
    ensures r != NoType ==>
      op.Some? && op.value in t.binary && Resolve(h, ltype, Some(t.binary[op.value]), [rtype]) == Some(r)
    ensures op.Some? && op.value in t.binary && rtype.Some? ==>
      r == Resolve(h, ltype, Some(t.binary[op.value]), [rtype]).GetOr(NoType)
  {
    if op.None? then NoType
    else
      var methodName := if op.value in t.binary then Some(t.binary[op.value]) else None;
      if methodName.Some? && rtype.Some? then
        match Resolve(h, ltype, methodName, [rtype])
        case Some(res) => res
        case None => NoType
      else NoType
  }

  /**
   * `getOOType(PsiBinaryExpression)`: the binary form on the operands' types
   * and the operator sign, or `NoType` when the right operand is missing.
   */
  function BinaryExprOOType(t: OpTables, h: Host, e: Option<BinaryExpr>): (r: Type)
    ensures e.None? || e.value.rOperand.None? || e.value.sign !in t.binary ==> r == NoType
    ensures r != NoType ==>
      e.Some? && e.value.rOperand.Some? && e.value.sign in t.binary &&
      Resolve(h, e.value.lOperand.ty, Some(t.binary[e.value.sign]), [e.value.rOperand.value.ty]) == Some(r)
    ensures e.Some? && e.value.rOperand.Some? && e.value.sign in t.binary && e.value.rOperand.value.ty.Some? ==>
      r == Resolve(h, e.value.lOperand.ty, Some(t.binary[e.value.sign]), [e.value.rOperand.value.ty]).GetOr(NoType)
  {
    if e.None? || e.value.rOperand.None? then NoType
    else OOType(t, h, e.value.lOperand.ty, e.value.rOperand.value.ty, Some(e.value.sign))
  }

  /**
   * `getOOType(PsiPrefixExpression)`: the prefix operator's method on the
   * operand's type, with no argument, or `NoType`.
   */
  function PrefixExprOOType(t: OpTables, h: Host, e: Option<PrefixExpr>): (r: Type)
    ensures e.None? || e.value.operand.None? || e.value.sign !in t.unary ==> r == NoType
    ensures r != NoType ==>
      e.Some? && e.value.operand.Some? && e.value.sign in t.unary &&
      Resolve(h, e.value.operand.value.ty, Some(t.unary[e.value.sign]), []) == Some(r)
    ensures e.Some? && e.value.operand.Some? && e.value.sign in t.unary ==>
      r == Resolve(h, e.value.operand.value.ty, Some(t.unary[e.value.sign]), []).GetOr(NoType)
  {
    if e.None? || e.value.operand.None? then NoType
    else
      var optype := e.value.operand.value.ty;
      if e.value.sign in t.unary then
        match Resolve(h, optype, Some(t.unary[e.value.sign]), [])
        case Some(res) => res
        case None => NoType
      else NoType
  }

  /**
   * `indexGet`: the single index-get method on the array expression's type
   * with the index's type as sole argument, or `NoType`.
   */
  function IndexGet(t: OpTables, h: Host, e: Option<ArrayAccessExpr>): (r: Type)
    ensures e.None? || e.value.indexExpr.None? ==> r == NoType
    ensures r != NoType ==>
      e.Some? && e.value.indexExpr.Some? &&
      Resolve(h, e.value.arrayExpr.ty, Some(t.indexGet), [e.value.indexExpr.value.ty]) == Some(r)
    ensures e.Some? && e.value.indexExpr.Some? ==>
      r == Resolve(h, e.value.arrayExpr.ty, Some(t.indexGet), [e.value.indexExpr.value.ty]).GetOr(NoType)
  {
    if e.None? || e.value.indexExpr.None? then NoType
    else Resolve(h, e.value.arrayExpr.ty, Some(t.indexGet), [e.value.indexExpr.value.ty]).GetOr(NoType)
  }

  /** A method name under which `clas.name(args)` resolves. */
  function ResolvesUnder(h: Host, clas: Expr, args: seq<Option<Expr>>): string -> bool {
    name => ResolveOnExprs(h, Some(clas), Some(name), args).Some?
  }

  /**
   * `indexSet(paa, value)`: the index-set names are tried in order with the
   * index and the value as arguments, and the first that resolves gives the
   * result; `NoType` when none does.
   */
  function IndexSetType(t: OpTables, h: Host, paa: Option<ArrayAccessExpr>, value: Option<Expr>): (r: Type)
    ensures paa.None? || paa.value.indexExpr.None? || value.None? ==> r == NoType
    ensures r != NoType ==>
      paa.Some? &&
      exists k :: 0 <= k < |t.indexSet| &&
        ResolveOnExprs(h, Some(paa.value.arrayExpr), Some(t.indexSet[k]), [paa.value.indexExpr, value]) == Some(r) &&
        forall j :: 0 <= j < k ==> ResolveOnExprs(h, Some(paa.value.arrayExpr), Some(t.indexSet[j]), [paa.value.indexExpr, value]).None?
    ensures paa.Some? &&
      (forall k :: 0 <= k < |t.indexSet| ==> ResolveOnExprs(h, Some(paa.value.arrayExpr), Some(t.indexSet[k]), [paa.value.indexExpr, value]).None?)
      ==> r == NoType
  {
    if paa.None? then NoType
    else
      var args := [paa.value.indexExpr, value];
      assert args[0] == paa.value.indexExpr && args[1] == value;
      match FirstWhere(t.indexSet, ResolvesUnder(h, paa.value.arrayExpr, args))
      case None => NoType
      case Some(k) => ResolveOnExprs(h, Some(paa.value.arrayExpr), Some(t.indexSet[k]), args).value
  }

  /**
   * When the `k`-th index-set name is the first that resolves with (index,
   * value), `indexSet` returns what it resolves to.
   */
  lemma IndexSetTakesFirstResolving(t: OpTables, h: Host, paa: ArrayAccessExpr, value: Option<Expr>, k: nat)
    requires k < |t.indexSet|
    requires ResolveOnExprs(h, Some(paa.arrayExpr), Some(t.indexSet[k]), [paa.indexExpr, value]).Some?
    requires forall j :: 0 <= j < k ==> ResolveOnExprs(h, Some(paa.arrayExpr), Some(t.indexSet[j]), [paa.indexExpr, value]).None?
    ensures IndexSetType(t, h, Some(paa), value) ==
      ResolveOnExprs(h, Some(paa.arrayExpr), Some(t.indexSet[k]), [paa.indexExpr, value]).value
  {
    FirstWhereAt(t.indexSet, ResolvesUnder(h, paa.arrayExpr, [paa.indexExpr, value]), k);
  }

  /** The source's `indexSet`, a loop over the index-set names with early return. */
  method IndexSet(t: OpTables, h: Host, paa: Option<ArrayAccessExpr>, value: Option<Expr>) returns (r: Type)
    ensures r == IndexSetType(t, h, paa, value)
  {
    if paa.None? {
      return NoType;
    }
    var args := [paa.value.indexExpr, value];
    for k := 0 to |t.indexSet|
      invariant forall j :: 0 <= j < k ==> ResolveOnExprs(h, Some(paa.value.arrayExpr), Some(t.indexSet[j]), args).None?
    {
      var res := ResolveMethodOnExprs(h, Some(paa.value.arrayExpr), Some(t.indexSet[k]), args);
      if res.Some? {
        FirstWhereAt(t.indexSet, ResolvesUnder(h, paa.value.arrayExpr, args), k);
        return res.value;
      }
    }
    return NoType;
  }

  /**
   * A one-argument lookup on a resolvable class type succeeds exactly when
   * some method of the class with that name takes one parameter whose
   * substituted type is assignable from the argument type.
   */
  lemma SingleArgumentResolvesIff(h: Host, receiver: Type, name: string, argType: Type)
    requires receiver.ClassType? && receiver.name in h.classes
    ensures Resolve(h, Some(receiver), Some(name), [Some(argType)]).Some? <==>
      exists m :: m in h.classes[receiver.name].methods && m.name == name && |m.params| == 1 &&
        h.assignable(h.substitute(receiver, m.params[0]), argType)
  {
    var methods := h.classes[receiver.name].methods;
    var argTypes := [Some(argType)];
    assert Known(argTypes) == [argType];
    ResolveFailsIffNoneApplicable(h, receiver, name, argTypes);
    if Resolve(h, Some(receiver), Some(name), argTypes).Some? {
      var k :| 0 <= k < |methods| && Applicable(h, receiver, methods[k], name, [argType]);
      assert methods[k] in methods;
    } else {
      forall m | m in methods && m.name == name && |m.params| == 1
        ensures !h.assignable(h.substitute(receiver, m.params[0]), argType)
      {
        var k :| 0 <= k < |methods| && methods[k] == m;
        assert !Accepts(h, receiver, m, [argType]);
      }
    }
  }

  /**
   * `isTypeConvertible(to, from)`: an implicit conversion is accepted exactly
   * when the source expression is there, its type is known, the target is a
   * resolvable class type, and some method of the target class named
   * `valueOf` takes one parameter assignable from the source's type.
   */
  function IsTypeConvertible(t: OpTables, h: Host, to: Option<Type>, from: Option<Expr>): (r: bool)
    ensures r <==>
      from.Some? && from.value.ty.Some? && to.Some? && to.value.ClassType? && to.value.name in h.classes &&
      exists m :: m in h.classes[to.value.name].methods && m.name == t.valueOf && |m.params| == 1 &&
        h.assignable(h.substitute(to.value, m.params[0]), from.value.ty.value)
  {
    if from.None? then false
    else
      var argTypes := [from.value.ty];
      var res := Resolve(h, to, Some(t.valueOf), argTypes).Some?;
      if from.value.ty.Some? && to.Some? && to.value.ClassType? && to.value.name in h.classes then
        SingleArgumentResolvesIff(h, to.value, t.valueOf, from.value.ty.value);
        res
      else
        assert argTypes[0] == from.value.ty;
        res
  }
}
