/**
 * The error-suppression side of the plugin (`javaoo.idea.OOHighlightVisitorImpl`).
 * After the host's own checker has visited an element and possibly reported an
 * error on it, the plugin asks whether the last reported diagnostic is an error
 * covering exactly that element, and whether an operator overload makes the
 * element legal after all; if both hold, that one diagnostic is retracted.
 *
 * The host's diagnostic store is `HighlightInfoHolder`; each `Visit...` method
 * starts from the holder as the host's own visit left it.
 */
module OOHighlightVisitor {
  import opened Optional
  import opened Psi
  import opened OOMethods
  import opened OOResolver

  datatype Severity = Information | WeakWarning | Warning | Error

  /** One reported diagnostic: its severity and the range it covers. */
  datatype HighlightInfo = HighlightInfo(severity: Severity, startOffset: int, endOffset: int)

  /** The number of ERROR diagnostics in `infos`. */
  function ErrorCount(infos: seq<HighlightInfo>): nat {
    if infos == [] then 0
    else ErrorCount(infos[..|infos| - 1]) + (if infos[|infos| - 1].severity == Error then 1 else 0)
  }

  /** An element a diagnostic can be attached to: an expression (by its range) or a variable declaration. */
  datatype Element = ExprElement(range: TextRange) | VariableElement(v: Variable)

  /**
   * The range an error must cover to be this element's. For a variable it runs
   * from the start of the variable's type element to the variable's end, which
   * is where the host reports "incompatible types" on a declaration.
   */
  function HighlightRange(el: Element): TextRange {
    match el
    case ExprElement(r) => r
    case VariableElement(v) => TextRange(v.typeElementStart, v.range.endOffset)
  }

  /** The last diagnostic is an error whose range is exactly `el`'s. */
  predicate LastCovers(infos: seq<HighlightInfo>, el: Element) {
    |infos| > 0 && infos[|infos| - 1].severity == Error &&
    infos[|infos| - 1].startOffset == HighlightRange(el).startOffset &&
    infos[|infos| - 1].endOffset == HighlightRange(el).endOffset
  }

  /**
   * The diagnostics after a visit that retracts the error on `el` when that
   * error is the last one and the overload `resolved`.
   */
  function Suppressed(infos: seq<HighlightInfo>, el: Element, resolved: bool): (r: seq<HighlightInfo>)
    ensures r == infos || (LastCovers(infos, el) && resolved && r == infos[..|infos| - 1])
    ensures ErrorCount(r) == ErrorCount(infos) - (|infos| - |r|)
  {
    if LastCovers(infos, el) && resolved then infos[..|infos| - 1] else infos
  }

  /**
   * A visit drops an entry exactly when the last diagnostic is an error
   * covering `el` and the overload resolved, and then it drops that last one.
   */
  lemma SuppressedDropsIff(infos: seq<HighlightInfo>, el: Element, resolved: bool)
    ensures |Suppressed(infos, el, resolved)| < |infos| <==> LastCovers(infos, el) && resolved
    ensures LastCovers(infos, el) && resolved ==> Suppressed(infos, el, resolved) == infos[..|infos| - 1]
  {
  }

  /**
   * The host's diagnostic store for the file being highlighted: the list of
   * reported diagnostics and the count of errors among them.
   */
  class HighlightInfoHolder {
    var infos: seq<HighlightInfo>
    var errorCount: int

    /** The counter counts the ERROR diagnostics, as the host keeps it when adding one. */
    ghost predicate Valid()
      reads this
    {
      errorCount == ErrorCount(infos)
    }

    predicate HasErrorResults()
      reads this
    {
      errorCount != 0
    }

    /**
     * `isHighlighted`: the holder reports errors, its last diagnostic is an
     * error, and that diagnostic's range is exactly the element's.
     */
    function IsHighlighted(el: Element): (r: bool)
      reads this
      requires Valid()
      ensures !HasErrorResults() ==> !r
      ensures r <==> LastCovers(infos, el)
    {
      if HasErrorResults() then
        var hi := infos[|infos| - 1];
        if hi.severity != Error then false
        else match el
          case VariableElement(v) => hi.startOffset == v.typeElementStart && hi.endOffset == v.range.endOffset
          case ExprElement(tr) => hi.startOffset == tr.startOffset && hi.endOffset == tr.endOffset
      else false
    }

    /**
     * `removeLastHighlight`: drop the last diagnostic and decrement the error
     * count. The count stays right when the dropped diagnostic was an error,
     * which `IsHighlighted` has checked at every call site.
     */
    method RemoveLastHighlight()
      requires |infos| > 0
      modifies this
      ensures infos == old(infos[..|infos| - 1])
      ensures errorCount == old(errorCount) - 1
      ensures old(Valid()) && old(infos[|infos| - 1].severity) == Error ==> Valid()
    {
      infos := infos[..|infos| - 1];
      errorCount := errorCount - 1;
    }
  }

  /** One step of an operator-chain fold: (accumulated type, operand's type, token before it) to the new accumulated type. */
  type FoldStep = (Option<Type>, Option<Type>, Option<string>) -> Type

  /** The step of `visitPolyadicExpression`: the binary overload's type. */
  function OOTypeStep(t: OpTables, h: Host): FoldStep {
    (l: Option<Type>, r: Option<Type>, op: Option<string>) => OOType(t, h, l, r, op)
  }

  /**
   * The type of `o0 t1 o1 ... t(n-1) o(n-1)` folded from the left: it starts as
   * the first operand's type, and each following operand replaces it by `step`
   * applied to (accumulated type, operand's type, token before the operand).
   */
  function LeftFold(step: FoldStep, e: PolyadicExpr, n: nat): Option<Type>
    requires e.WellFormed() && 1 <= n <= |e.operands|
    decreases n
  {
    if n == 1 then e.operands[0].ty
    else Some(step(LeftFold(step, e, n - 1), e.operands[n - 1].ty, e.tokens[n - 2]))
  }

  /** The type a polyadic expression folds to under the binary-overload step. */
  function PolyadicType(t: OpTables, h: Host, e: PolyadicExpr): Option<Type>
    requires e.WellFormed()
  {
    LeftFold(OOTypeStep(t, h), e, |e.operands|)
  }

  /** `step` maps an accumulated `NoType` to `NoType`, whatever the operand and token. */
  ghost predicate Absorbing(step: FoldStep) {
    forall r, op :: step(Some(NoType), r, op) == NoType
  }

  /**
   * The step that brings operand `k` into the fold yields something other
   * than `NoType` only from a class-typed accumulated type, a token that has a
   * method name in `binary`, and a known operand type.
   */
  ghost predicate ResolvesAt(step: FoldStep, binary: map<string, string>, e: PolyadicExpr, k: nat)
    requires e.WellFormed() && 1 <= k < |e.operands|
  {
    var l, r, op := LeftFold(step, e, k), e.operands[k].ty, e.tokens[k - 1];
    step(l, r, op) != NoType ==> l.Some? && l.value.ClassType? && op.Some? && op.value in binary && r.Some?
  }

  /** The binary-overload step absorbs `NoType` and resolves only as `ResolvesAt` says, at every operand. */
  lemma OOTypeStepResolves(t: OpTables, h: Host, e: PolyadicExpr)
    requires e.WellFormed()
    ensures Absorbing(OOTypeStep(t, h))
    ensures forall k :: 1 <= k < |e.operands| ==> ResolvesAt(OOTypeStep(t, h), t.binary, e, k)
  {
    forall r, op ensures OOTypeStep(t, h)(Some(NoType), r, op) == NoType {
      assert OOType(t, h, Some(NoType), r, op) == NoType;
    }
    forall k | 1 <= k < |e.operands| ensures ResolvesAt(OOTypeStep(t, h), t.binary, e, k) {
      var l, r, op := LeftFold(OOTypeStep(t, h), e, k), e.operands[k].ty, e.tokens[k - 1];
      assert OOTypeStep(t, h)(l, r, op) == OOType(t, h, l, r, op);
    }
  }

  /** Once the accumulated type is `NoType`, it stays `NoType` to the end of the chain. */
  lemma {:induction false} LeftFoldStaysNoType(step: FoldStep, e: PolyadicExpr, n: nat, m: nat)
    requires Absorbing(step)
    requires e.WellFormed() && 1 <= n <= m <= |e.operands|
    requires LeftFold(step, e, n) == Some(NoType)
    ensures LeftFold(step, e, m) == Some(NoType)
    decreases m
  {
    if m > n {
      LeftFoldStaysNoType(step, e, n, m - 1);
      assert LeftFold(step, e, m) == Some(step(Some(NoType), e.operands[m - 1].ty, e.tokens[m - 2]));
    }
  }

  /** A step that left something other than `NoType` came from a class type, a binary token and a known operand. */
  lemma ResolvedStepAt(step: FoldStep, binary: map<string, string>, e: PolyadicExpr, k: nat)
    requires e.WellFormed() && 1 <= k < |e.operands|
    requires ResolvesAt(step, binary, e, k)
    requires LeftFold(step, e, k + 1) != Some(NoType)
    ensures LeftFold(step, e, k).Some? && LeftFold(step, e, k).value.ClassType?
    ensures e.tokens[k - 1].Some? && e.tokens[k - 1].value in binary && e.operands[k].ty.Some?
  {
    assert LeftFold(step, e, k + 1) == Some(step(LeftFold(step, e, k), e.operands[k].ty, e.tokens[k - 1]));
  }

  /**
   * A chain folds to something other than `NoType` only if every step
   * resolved: no intermediate result is `NoType`, each accumulated type before
   * the last operand is a class type, each token is there and has a binary
   * method name, and each operand after the first has a known type.
   */
  lemma EveryStepResolved(step: FoldStep, binary: map<string, string>, e: PolyadicExpr)
    requires e.WellFormed() && |e.operands| >= 2
    requires Absorbing(step) && forall k :: 1 <= k < |e.operands| ==> ResolvesAt(step, binary, e, k)
    requires LeftFold(step, e, |e.operands|) != Some(NoType)
    ensures forall k :: 2 <= k <= |e.operands| ==> LeftFold(step, e, k) != Some(NoType)
    ensures forall k :: 1 <= k < |e.operands| ==> LeftFold(step, e, k).Some? && LeftFold(step, e, k).value.ClassType?
    ensures forall j :: 0 <= j < |e.tokens| ==>
      e.tokens[j].Some? && e.tokens[j].value in binary && e.operands[j + 1].ty.Some?
  {
    forall k | 2 <= k <= |e.operands| ensures LeftFold(step, e, k) != Some(NoType) {
      if LeftFold(step, e, k) == Some(NoType) {
        LeftFoldStaysNoType(step, e, k, |e.operands|);
      }
    }
    forall k | 1 <= k < |e.operands|
      ensures LeftFold(step, e, k).Some? && LeftFold(step, e, k).value.ClassType?
    {
      ResolvedStepAt(step, binary, e, k);
    }
    forall j | 0 <= j < |e.tokens|
      ensures e.tokens[j].Some? && e.tokens[j].value in binary && e.operands[j + 1].ty.Some?
    {
      ResolvedStepAt(step, binary, e, j + 1);
    }
  }

  /** Bringing operand `k` into the binary-overload fold is one `OOType` call. */
  lemma OOTypeFoldStep(t: OpTables, h: Host, e: PolyadicExpr, k: nat)
    requires e.WellFormed() && 1 <= k < |e.operands|
    ensures LeftFold(OOTypeStep(t, h), e, k + 1) ==
      Some(OOType(t, h, LeftFold(OOTypeStep(t, h), e, k), e.operands[k].ty, e.tokens[k - 1]))
  {
  }

  /**
   * A chain whose type is not `NoType` resolved an overload at every operator:
   * each token has a method name, and that method looked up on the type so far
   * with the next operand's type gives the next type so far.
   */
  lemma PolyadicTypeResolvesEveryOperator(t: OpTables, h: Host, e: PolyadicExpr)
    requires e.WellFormed() && |e.operands| >= 2
    requires PolyadicType(t, h, e) != Some(NoType)
    ensures forall j :: 0 <= j < |e.tokens| ==>
      e.tokens[j].Some? && e.tokens[j].value in t.binary &&
      Resolve(h, LeftFold(OOTypeStep(t, h), e, j + 1), Some(t.binary[e.tokens[j].value]), [e.operands[j + 1].ty])
        == LeftFold(OOTypeStep(t, h), e, j + 2)
  {
    var step := OOTypeStep(t, h);
    OOTypeStepResolves(t, h, e);
    EveryStepResolved(step, t.binary, e);
    forall j | 0 <= j < |e.tokens|
      ensures Resolve(h, LeftFold(step, e, j + 1), Some(t.binary[e.tokens[j].value]), [e.operands[j + 1].ty])
        == LeftFold(step, e, j + 2)
    {
      OOTypeFoldStep(t, h, e, j + 1);
    }
  }

  /** The fold loop of `visitPolyadicExpression`. */
  method PolyadicOOType(t: OpTables, h: Host, e: PolyadicExpr) returns (lType: Option<Type>)
    requires e.WellFormed()
    ensures lType == PolyadicType(t, h, e)
  {
    lType := e.operands[0].ty;
    for i := 1 to |e.operands|
      invariant lType == LeftFold(OOTypeStep(t, h), e, i)
    {
      var rType := e.operands[i].ty;
      OOTypeFoldStep(t, h, e, i);
      lType := Some(OOType(t, h, lType, rType, e.tokens[i - 1]));
    }
  }

  /**
   * Binary operators: the error on the whole chain is retracted when the
   * chain's fold is not `NoType`.
   */
  method VisitPolyadicExpression(t: OpTables, h: Host, holder: HighlightInfoHolder, e: PolyadicExpr)
    requires holder.Valid() && e.WellFormed()
    modifies holder
    ensures holder.Valid()
    ensures holder.infos ==
      Suppressed(old(holder.infos), ExprElement(e.range), PolyadicType(t, h, e) != Some(NoType))
  {
    if holder.IsHighlighted(ExprElement(e.range)) {
      var lType := PolyadicOOType(t, h, e);
      if lType != Some(NoType) {
        holder.RemoveLastHighlight();
      }
    }
  }

  /** Prefix operators: the error on the expression is retracted when the unary overload resolves. */
  method VisitPrefixExpression(t: OpTables, h: Host, holder: HighlightInfoHolder, e: PrefixExpr)
    requires holder.Valid()
    modifies holder
    ensures holder.Valid()
    ensures holder.infos ==
      Suppressed(old(holder.infos), ExprElement(e.range), PrefixExprOOType(t, h, Some(e)) != NoType)
  {
    if holder.IsHighlighted(ExprElement(e.range)) && PrefixExprOOType(t, h, Some(e)) != NoType {
      holder.RemoveLastHighlight();
    }
  }

  /**
   * Index read `a[i]`: the error on the array expression `a` is retracted when
   * the index-get overload resolves; other expressions are left alone.
   */
  method VisitExpression(t: OpTables, h: Host, holder: HighlightInfoHolder, e: Expr)
    requires holder.Valid()
    modifies holder
    ensures holder.Valid()
    ensures !e.ArrayAccess? ==> holder.infos == old(holder.infos)
    ensures e.ArrayAccess? ==>
      holder.infos == Suppressed(old(holder.infos), ExprElement(e.arrayExpr.range), IndexGet(t, h, Some(e)) != NoType)
  {
    if e.ArrayAccess? {
      if holder.IsHighlighted(ExprElement(e.arrayExpr.range)) && IndexGet(t, h, Some(e)) != NoType {
        holder.RemoveLastHighlight();
      }
    }
  }

  /**
   * Plain assignment `lhs = rhs` (compound assignments are left alone): first
   * an index write `a[i] = v` whose index-set overload resolves has its error
   * on `a[i]` retracted; then, against what is left, an error on the whole
   * assignment is retracted when `rhs` converts to the type of `lhs`.
   */
  method VisitAssignmentExpression(t: OpTables, h: Host, holder: HighlightInfoHolder, ass: AssignmentExpr)
    requires holder.Valid()
    modifies holder
    ensures holder.Valid()
    ensures ass.sign != "=" ==> holder.infos == old(holder.infos)
    ensures ass.sign == "=" ==>
      var afterIndexSet := Suppressed(old(holder.infos), ExprElement(ass.lhs.range),
        ass.lhs.ArrayAccess? && IndexSetType(t, h, Some(ass.lhs), ass.rhs) != NoType);
      holder.infos == Suppressed(afterIndexSet, ExprElement(ass.range), IsTypeConvertible(t, h, ass.lhs.ty, ass.rhs))
  {
    if ass.sign == "=" {
      ghost var afterIndexSet := Suppressed(holder.infos, ExprElement(ass.lhs.range),
        ass.lhs.ArrayAccess? && IndexSetType(t, h, Some(ass.lhs), ass.rhs) != NoType);
      if ass.lhs.ArrayAccess? && holder.IsHighlighted(ExprElement(ass.lhs.range)) {
        var ty := IndexSet(t, h, Some(ass.lhs), ass.rhs);
        if ty != NoType {
          holder.RemoveLastHighlight();
        }
      }
      assert holder.Valid() && holder.infos == afterIndexSet;
      if holder.IsHighlighted(ExprElement(ass.range)) && IsTypeConvertible(t, h, ass.lhs.ty, ass.rhs) {
        holder.RemoveLastHighlight();
      }
    }
  }

  /**
   * Variable declaration with an initializer: the error on the declaration is
   * retracted when the initializer converts to the declared type.
   */
  method VisitVariable(t: OpTables, h: Host, holder: HighlightInfoHolder, v: Variable)
    requires holder.Valid()
    modifies holder
    ensures holder.Valid()
    ensures holder.infos == Suppressed(old(holder.infos), VariableElement(v),
      v.initializer.Some? && IsTypeConvertible(t, h, v.ty, v.initializer))
  {
    if v.initializer.Some? && holder.IsHighlighted(VariableElement(v)) && IsTypeConvertible(t, h, v.ty, v.initializer) {
      holder.RemoveLastHighlight();
    }
  }
}
