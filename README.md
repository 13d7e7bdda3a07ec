# java-oo operator overloading in the IDE: resolver and error suppression

java-oo adds operator overloading to Java. For example, `a + b` means
`a.add(b)`, `-a` means `a.negate()`, `a[i]` means `a.get(i)`, `a[i] = v`
means `a.set(i, v)`, and `Fraction f = 1` means `Fraction.valueOf(1)`. The
IntelliJ plugin does two things with such expressions:

- **Type resolution** (`OOResolver`). An operator expression is turned into a
  method lookup on the type of its left operand. The lookup returns the
  substituted return type of the first method that accepts the argument
  types. Otherwise it returns the `NoType` sentinel.
- **Error suppression** (`OOHighlightVisitorImpl`). The IDE's own checker
  visits an element first and may report an error on it. After that, the
  plugin checks two things: whether the last diagnostic is an ERROR covering
  exactly that element, and whether an overload makes the element legal. If
  both hold, it removes that diagnostic and decrements the holder's error
  count.

The model has six modules:

- `Optional` holds `Option`. Java `null` is `None`.
- `Psi` models the host program model. It has types, method declarations and
  the class table. It also has the expression and variable nodes the plugin
  reads, and a `Host` value that supplies class resolution, generic
  substitution and assignability.
- `OOMethods` holds the operator-to-method-name tables, given as a value.
- `OOResolver` models the resolver. Each lookup is a function
  (`Resolve`, `ResolveOnExprs`, `IndexSetType`). The source's loops are
  methods (`ResolveMethod`, `ResolveMethodOnExprs`, `IndexSet`), each proved
  equal to its function.
- `OOHighlightVisitor` models the holder as a class with a list of
  diagnostics and an error count. It also has the polyadic fold, as a loop
  proved equal to a left fold, and the five `visit*` decisions as methods that
  may pop the holder's last diagnostic.
- `Scenarios` states lemmas about the model on a small fixed class table. They
  cover generic substitution on `Box<Int>`, first match, a type parameter
  bounded by `Vec2`, `Vec2` chains with and without an `add(Int)`, index set on
  `Matrix`, and `Fraction.valueOf`.

`NoType` is `TypeConversionUtil.NULL_TYPE`, the type of the `null` literal.
The model gives it the same identity (`NullType`). A lookup whose substituted
return type happened to be the null type would therefore look like a
failure, exactly as in the source. `NullType` is not a class type, so once
the fold holds `NoType`, every later step fails.

A type parameter is a class type in the host, and a method lookup on it
searches the methods of its bounds. The model writes a type parameter `T` as
`ClassType("T", [])`, and the class table entry for `T` lists the methods of
its bounds.

Two details of the code the model keeps:

- Index-get uses a single method name (`OOMethods.indexGet`,
  `idea-oo-plugin/src/javaoo/idea/OOResolver.java:78`), not an ordered list of
  candidates. Index-set does iterate over its list of names.
- `resolveMethod` rejects only a null method name. An empty name is looked up
  like any other name.

## Model

| member | source | states |
|---|---|---|
| Psi.FindMethodsByName | idea-oo-plugin/src/javaoo/idea/OOResolver.java:137 | The candidates are exactly the class's methods with that name, inherited ones included, and there are no more of them than the class has methods. |
| OOResolver.FirstWhere | idea-oo-plugin/src/javaoo/idea/OOResolver.java:137-149 | The scan returns an index whose element passes the test while no earlier element does, or returns nothing when no element passes. |
| OOResolver.Resolve | idea-oo-plugin/src/javaoo/idea/OOResolver.java:120-152 | The lookup is not found when the receiver type is null or not a class type, when the method name is null, when any argument type is null, or when the class does not resolve. |
| OOResolver.ResolveFailsIffNoneApplicable | idea-oo-plugin/src/javaoo/idea/OOResolver.java:134-151 | On a resolvable class with known argument types, the lookup fails exactly when no method of the class has the name, the right number of parameters, and every substituted parameter type assignable from its argument type. |
| OOResolver.ResolveIsFirstMatch | idea-oo-plugin/src/javaoo/idea/OOResolver.java:137-147 | First match wins. When the k-th method in enumeration order is the earliest applicable one, the lookup yields its substituted return type, whatever later methods would accept. |
| OOResolver.FirstOfFiltered | idea-oo-plugin/src/javaoo/idea/OOResolver.java:137-147 | The first accepted method among the name-filtered candidates is the first method of the whole enumeration that has the name and is accepted. |
| OOResolver.ResolveMethod | idea-oo-plugin/src/javaoo/idea/OOResolver.java:120-152 | The loops (the null check on argument types, the method scan with the `ok &=` conjunction, the early return) compute exactly `Resolve`. |
| OOResolver.ResolveOnExprs | idea-oo-plugin/src/javaoo/idea/OOResolver.java:102-116 | The lookup is not found when the receiver expression, the name or any argument expression is null. Otherwise it is `Resolve` on the expressions' types. |
| OOResolver.ResolveMethodOnExprs | idea-oo-plugin/src/javaoo/idea/OOResolver.java:102-116 | The loop that fills the `argTypes` array, with its early return on a null argument, computes exactly `ResolveOnExprs`. |
| OOResolver.OOType | idea-oo-plugin/src/javaoo/idea/OOResolver.java:39-53 | The result is `NoType` when the token is null, the token is not in the binary table, the right type is null, or the left type is null or not a class type. A result other than `NoType` is the binary method's lookup result. With a known method name and right type, the result is that lookup or `NoType`. |
| OOResolver.BinaryExprOOType | idea-oo-plugin/src/javaoo/idea/OOResolver.java:30-37 | The result is `NoType` when the expression or its right operand is missing, or when the sign has no method name. Otherwise it is the binary method's lookup on the operand types, or `NoType`. |
| OOResolver.PrefixExprOOType | idea-oo-plugin/src/javaoo/idea/OOResolver.java:55-70 | The result is `NoType` when the expression or its operand is missing, or when the sign is not in the unary table. Otherwise it is the zero-argument lookup of the unary method on the operand's type, or `NoType`. |
| OOResolver.IndexGet | idea-oo-plugin/src/javaoo/idea/OOResolver.java:72-80 | The result is `NoType` when the index is missing. Otherwise it is the single index-get method's lookup on the array expression's type, with the index type as the only argument, or `NoType`. |
| OOResolver.IndexSetType | idea-oo-plugin/src/javaoo/idea/OOResolver.java:82-95 | The result is `NoType` when the access, its index or the value is missing, or when no index-set name resolves. A result other than `NoType` comes from the first name in list order that resolves with (index, value), and every earlier name fails. |
| OOResolver.IndexSetTakesFirstResolving | idea-oo-plugin/src/javaoo/idea/OOResolver.java:82-95 | When the `k`-th index-set name is the first one that resolves with (index, value), the result is exactly what that name resolves to. |
| OOResolver.IndexSet | idea-oo-plugin/src/javaoo/idea/OOResolver.java:82-95 | The loop over the index-set names, with its early return, computes exactly `IndexSetType`. |
| OOResolver.SingleArgumentResolvesIff | idea-oo-plugin/src/javaoo/idea/OOResolver.java:139-147 | On a resolvable class, a one-argument lookup succeeds exactly when some method with that name has one parameter whose substituted type is assignable from the argument type. |
| OOResolver.IsTypeConvertible | idea-oo-plugin/src/javaoo/idea/OOResolver.java:97-100 | Conversion holds exactly when four things are true: the source expression is there, its type is known, the target is a resolvable class type, and the target class has a one-parameter `valueOf` method that accepts the source type. |
| OOHighlightVisitor.Suppressed | idea-oo-plugin/src/javaoo/idea/OOHighlightVisitorImpl.java:59-61 | A visit either leaves the diagnostics alone, or drops exactly the last one. It drops it only when that one is an ERROR covering the element and the overload resolved. The error count falls by the number of entries removed. |
| OOHighlightVisitor.HighlightInfoHolder.IsHighlighted | idea-oo-plugin/src/javaoo/idea/OOHighlightVisitorImpl.java:121-137 | The result is false when the holder has no errors. Otherwise it is true exactly when the last diagnostic is an ERROR whose start and end offsets equal the element's range. For a variable, that range runs from its type element's start to its own end. |
| OOHighlightVisitor.HighlightInfoHolder.RemoveLastHighlight | idea-oo-plugin/src/javaoo/idea/OOHighlightVisitorImpl.java:139-149 | Exactly the last diagnostic is removed, every earlier one is unchanged, and the error count goes down by one. The count stays correct when the removed diagnostic was an ERROR. |
| OOHighlightVisitor.OOTypeFoldStep | idea-oo-plugin/src/javaoo/idea/OOHighlightVisitorImpl.java:57 | Folding in operand k is one `getOOType` call on the accumulated type, operand k's type, and the token before it. |
| OOHighlightVisitor.OOTypeStepResolves | idea-oo-plugin/src/javaoo/idea/OOResolver.java:40-53 | The fold step maps `NoType` to `NoType`. It yields another type only from a class-typed accumulator, a token with a binary method name, and a known operand type. |
| OOHighlightVisitor.LeftFoldStaysNoType | idea-oo-plugin/src/javaoo/idea/OOHighlightVisitorImpl.java:53-58 | Once the accumulator is `NoType`, it stays `NoType` to the end of the chain. |
| OOHighlightVisitor.EveryStepResolved | idea-oo-plugin/src/javaoo/idea/OOHighlightVisitorImpl.java:53-58 | A chain that does not end at `NoType` has no `NoType` along the way. Every accumulator before the last operand is a class type, every token has a binary method name, and every later operand's type is known. |
| OOHighlightVisitor.PolyadicTypeResolvesEveryOperator | idea-oo-plugin/src/javaoo/idea/OOHighlightVisitorImpl.java:51-58 | When a chain's type is not `NoType`, every operator resolved an overload. The binary method, looked up on the accumulated type with the next operand's type, gives the next accumulated type. |
| OOHighlightVisitor.PolyadicOOType | idea-oo-plugin/src/javaoo/idea/OOHighlightVisitorImpl.java:51-58 | The `lType` loop computes the left fold. It starts at the first operand's type and applies `getOOType` with each following operand and the token before it. |
| OOHighlightVisitor.VisitPolyadicExpression | idea-oo-plugin/src/javaoo/idea/OOHighlightVisitorImpl.java:46-63 | The error on the whole chain is removed exactly when it is the last diagnostic and the chain's type is not `NoType`. The holder invariant is kept. |
| OOHighlightVisitor.VisitPrefixExpression | idea-oo-plugin/src/javaoo/idea/OOHighlightVisitorImpl.java:65-73 | The error on the expression is removed exactly when it is the last diagnostic and the unary overload resolves. The holder invariant is kept. |
| OOHighlightVisitor.VisitExpression | idea-oo-plugin/src/javaoo/idea/OOHighlightVisitorImpl.java:75-85 | Only an array access is handled. The error on its array expression is removed exactly when it is the last diagnostic and index-get resolves. Every other expression leaves the holder unchanged. |
| OOHighlightVisitor.VisitAssignmentExpression | idea-oo-plugin/src/javaoo/idea/OOHighlightVisitorImpl.java:87-105 | Only a plain `=` is handled; any other sign leaves the holder unchanged. First, the error on an array-access left side is removed if it is the last diagnostic and index-set resolves. Then, against what remains, the error on the whole assignment is removed if it is last and the right side converts to the left side's type. |
| OOHighlightVisitor.VisitVariable | idea-oo-plugin/src/javaoo/idea/OOHighlightVisitorImpl.java:107-114 | The error on the declaration, from its type element to its end, is removed exactly when the variable has an initializer, the error is the last diagnostic, and the initializer converts to the declared type. |
| OOHighlightVisitor.SuppressedDropsIff | idea-oo-plugin/src/javaoo/idea/OOHighlightVisitorImpl.java:59-61 | A visit shortens the diagnostics if and only if the last one is an ERROR covering the element and the overload resolved. In that case the result is the list without its last entry. |
| Scenarios.GenericSubstitution | idea-oo-plugin/src/javaoo/idea/OOResolver.java:131-147 | `Box<Int>.add(Int)` resolves to `Box<Int>` through the substitutor, and `Box<Int>.add(String)` does not resolve. |
| Scenarios.FirstMatchWins | idea-oo-plugin/src/javaoo/idea/OOResolver.java:137-147 | With `op(Object): X` declared before `op(Number): Y`, an `Int` argument resolves to `X`, although both overloads accept it. |
| Scenarios.BoundedTypeParameter | idea-oo-plugin/src/javaoo/idea/OOResolver.java:120-147 | With `V extends Vec2`, `a + b` on two `V` operands finds `add(Vec2): Vec2` through the bound and has type `Vec2`. |
| Scenarios.Vec2Chain | idea-oo-plugin/src/javaoo/idea/OOHighlightVisitorImpl.java:51-58 | `v + v + v` on `Vec2`, which has `add(Vec2): Vec2`, folds to `Vec2`. |
| Scenarios.MixedChain | idea-oo-plugin/src/javaoo/idea/OOHighlightVisitorImpl.java:51-58 | `v + v + i`, with no `add(Int)` on `Vec2`, folds to `NoType` even though the first step resolves. |
| Scenarios.MatrixIndexSet | idea-oo-plugin/src/javaoo/idea/OOResolver.java:82-95 | `m[i] = f` on `Matrix`, which has `set(Int, Float): Matrix`, resolves to `Matrix` with the names `set`, `put`. |
| Scenarios.FractionConversion | idea-oo-plugin/src/javaoo/idea/OOResolver.java:97-100 | `Fraction.valueOf(Int)` makes an `Int` expression convertible to `Fraction`. A `String` expression is not convertible. |

## Left out

- `Util.java` is not part of this model. Its reflective field access,
  constructor patching and exception laundering are foreign runtime calls with
  no resolution logic.
- The reflection inside `getMyHolder` and `removeLastHighlight` (private field
  lookups by name) is not modelled. Only its effect on the holder is: the list
  of diagnostics and the error count.
- The `super.visit*` calls and the rest of the host highlighting pipeline are
  not modelled. Each `Visit...` method takes the holder as the host's own visit
  left it.
- `clone()` and the constructor are not modelled. They exist so that the host
  can reuse the visitor in parallel, which is a concurrency concern.
- Host internals are given, not modelled. `PsiClassType.resolve` is a lookup
  in `Host.classes`. `resolveGenerics().getSubstitutor().substitute` is
  `Host.substitute`, and `isAssignableFrom` is `Host.assignable`.
  `findMethodsByName(name, true)` filters an ordered method list that already
  includes inherited methods.
- The contents of the `javaoo.OOMethods` tables are not part of this model.
  They are an `OpTables` value passed to every operation.
- Cancellation (`ProcessCanceledException`) comes from the host runtime and is
  not modelled.
- Expression nodes are reduced to what the plugin reads: types, ranges,
  operands, tokens and signs. `getTypeElement()` of a variable is taken to be
  present, as the source assumes.
- The fold lemmas `LeftFoldStaysNoType`, `EveryStepResolved` and
  `ResolvedStepAt` are stated for any fold step that has the stated
  properties. `OOTypeStepResolves` shows that the binary-overload step has
  them.
- HighlightInfoHolder.IsHighlighted: requires the holder invariant, namely that
  the error count equals the number of ERROR diagnostics. The host keeps this
  invariant. Without it, the Java would read the last element of an empty
  list whenever the count is non-zero.
- HighlightInfoHolder.RemoveLastHighlight: requires a non-empty list. Every call
  site first checks `isHighlighted`, which implies one.
- `HasErrorResults` is modelled as a non-zero error count. The host's
  `hasErrorResults` is not part of this model, and this is the assumed
  definition.
