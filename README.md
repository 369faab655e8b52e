# Pohhnii.js automatic differentiation, modelled in Dafny

Pohhnii.js is a small machine-learning library. Its core is forward-mode
automatic differentiation. The library builds functions in two ways:

- **Positional parameter functions** (`Pohhnii.add`, `multiply`, `pow`,
  `PARAMETER(i)`, `CONSTANT(c)`, …). These are objects whose `valueOf(...parameter)`
  and `derivative(index, ...parameter)` read their arguments by position.
  `PolynomialRegressionModel` is built from them and trains its coefficients
  by gradient descent.
- **Reference functions.** A `UUIDContainer` stores objects under generated ids.
  A `ReferenceObject` keeps the numeric cells of a model in such a container and
  pre-registers eight constants: ZERO, ONE, TWO, THREE, PI, E, INFINITY and
  NEGATIVEINFINITY. A `FunctionSystem` is a builder. Every method (`add`,
  `multiply`, `pow`, `sigmoid`, …) wraps the current root in a new node that can
  compute its value and its derivative with respect to any cell. `regression`
  does one gradient step on chosen cells. `Presets.PolynomialFunction` builds
  a polynomial out of these methods. A `MatrixFunction` holds a `Matrix`
  record (rows, cols, row-major data) of such builders. Its operations are:
  - elementwise add, subtract and Hadamard product;
  - matrix product;
  - padding, parts, vectorisation and transposition;
  - convolution, correlation and 2 × 2 max pooling;
  - activations;
  - cellwise valueOf, derivative and regression.
- The `MISC` array helpers: initArray, toOneDimension, shapeArray and map.

The model represents each of these as follows:

- **Numbers** are `Num`, a real, ±Infinity or NaN. Sums, products, quotients
  and comparisons follow JavaScript's rules on the infinities and NaN.
  `Math.exp`, `Math.log`, `Math.sin`, … are the uninterpreted fields of a
  `MathLib` value. `Math.pow` with an integer exponent is interpreted.
- **Builder roots** are the `Expr` datatype. Their value and derivative are the
  functions `Expressions.Value` and `Expressions.Deriv`.
- **Stores** are maps from ids to values, held by classes whose methods update
  them in place. These are `UUIDContainer`, `ReferenceObject`,
  `FunctionSystem`, `MatrixFunction`, the `Matrix` record over an array, and
  `PolynomialRegressionModel`.
- **Loops** are methods with invariants. Each is proved against a
  specification function.

## Model

| member | source | states |
|---|---|---|
| Store.FreshDraw | Pohhnii.js:477-486 | Among any \|keys\| + 1 consecutive draws of a generator that never repeats, one id is not in use, so add's retry loop ends |
| Store.UUIDContainer.constructor | Pohhnii.js:465-472 | A new container is empty and draws ids from the given generator |
| Store.UUIDContainer.Add | Pohhnii.js:477-486 | add draws until an id is unused (every rejected draw was in use), stores {uuid, Container} under it, and leaves every other entry as it was |
| Store.UUIDContainer.Get | Pohhnii.js:491-493 | get finds the entry exactly when the id is stored, and it is the stored entry |
| Store.UUIDContainer.Remove | Pohhnii.js:499-503 | remove returns what get returned before and deletes only that id, so a later get finds nothing |
| Store.UUIDContainer.Replace | Pohhnii.js:510-514 | replace returns the previous entry (or nothing) and stores the new object under the id, present or not |
| Store.UUIDContainer.UuidHashTable | Pohhnii.js:519-521 | The hash table answers exactly what get answers, id by id |
| Store.UUIDContainer.GetUUIDs | Pohhnii.js:526-528 | getUUIDS lists every stored id once and nothing else |
| Store.Register | Pohhnii.js:554-557 | addParameter stores the value under an id that was not in use and leaves every other cell as it was |
| Store.RegisterAll | Pohhnii.js:554-557 | Repeated addParameter calls register the values in order under new, pairwise distinct ids and keep every older cell |
| Store.RegisterConstants | Pohhnii.js:541-548 | The eight constants 0, 1, 2, 3, π, e, ∞, −∞ are registered in order under new, distinct ids |
| Store.ReferenceObject.constructor | Pohhnii.js:537-548 | The reference object's cells are the container's old cells plus the eight constants, under distinct new ids |
| Store.ReferenceObject.AddParameter | Pohhnii.js:554-557 | addParameter stores the value in one new cell, under an id not in use, and changes no other cell |
| Store.ReferenceObject.GetParameter | Pohhnii.js:563-565 | getParameter gives the cell when the id is stored, and a TypeError otherwise |
| Store.ReferenceObject.RemoveParameter | Pohhnii.js:570-572 | removeParameter deletes that one cell; a missing id changes nothing |
| Store.ReferenceObject.SetValue | Pohhnii.js:647-649 | Writing `getParameter(id).value` changes that one cell, or throws a TypeError and changes nothing when the id is missing |
| Numbers.Negative | Pohhnii.js:376-387 | Unary minus negates finite values, swaps the infinities and keeps NaN |
| Numbers.Plus | Pohhnii.js:88-107 | `+` adds finite values and is NaN exactly when an operand is NaN or the operands are opposite infinities |
| Numbers.Times | Pohhnii.js:139-152 | `*` multiplies finite values and is NaN exactly when an operand is NaN or an infinity meets a zero |
| Numbers.Over | Pohhnii.js:158-170 | `/` divides finite values by a non-zero divisor and gives 0 for a finite value over an infinity |
| Numbers.IntPowFinite | Pohhnii.js:211-224 | Math.pow with a natural exponent on a finite base is the real power |
| Numbers.PowerTwo | Pohhnii.js:158-170 | Math.pow(x, 2) equals x * x for every number, the infinities and NaN included |
| Numbers.ReciprocalVanishes | Pohhnii.js:247-259 | `1 / x === 0` holds exactly for the two infinities |
| Misc.InitArray | Pohhnii.js:1109-1115 | initArray gives `length` copies of the value, and none for a length ≤ 0 |
| Misc.ToOneDimension | Pohhnii.js:360-370 | toOneDimension returns the depth-first flattening of the nested array |
| Misc.FlattenAppend | Pohhnii.js:360-370 | Flattening distributes over concatenation |
| Misc.FlattenItems | Pohhnii.js:360-370 | A flat array flattens to itself |
| Misc.Shape.constructor | Pohhnii.js:427-430 | The shape array shapeArray pops from is the caller's own array, holding the given dimensions |
| Misc.ShapeArray | Pohhnii.js:427-443 | shapeArray's result and the dimensions it pops from the caller's array are those of the recursive definition ShapeSpec |
| Misc.ShapeRoundTrip | Pohhnii.js:427-443 | Whenever shapeArray succeeds, flattening its result gives back the input's contents in order |
| Misc.ChunksExact | Pohhnii.js:427-443 | Chunking rows · dim elements gives exactly the rows of the row-major grid |
| Misc.FlattenChunks | Pohhnii.js:427-443 | Chunking never changes the flattened contents |
| Misc.TwoDimensional | Pohhnii.js:1605-1607 | shapeArray(data, [rows, cols]) wraps the rows of the grid in one array, or gives nothing when a dimension is 0 |
| Misc.MapRange | Pohhnii.js:279-281 | map of finite numbers over a range with min != max is finite; a NaN anywhere gives NaN |
| Misc.MapRangeLinear | Pohhnii.js:279-281 | map is the line through (min, newMin) and (max, newMax): it sends min to newMin and max to newMax |
| Misc.MapRangeDegenerate | Pohhnii.js:279-281 | With min == max, map never gives a finite number |
| Matrices.MakeMatrix | Pohhnii.js:1595-1596 | The factory succeeds exactly when rows · cols equals the data length, keeping shape and data; otherwise it throws (undefined) |
| Matrices.AtInside | Pohhnii.js:1599-1601 | Inside the shape, get reads cell row · cols + col |
| Matrices.AtWraps | Pohhnii.js:1599-1601 | get does not check the column: a column past the last reads the next row |
| Matrices.AtAfterSet | Pohhnii.js:1602-1604 | After set, get at the same place reads the new value and every other place is unchanged |
| Matrices.TransposedAt | Pohhnii.js:1608-1617 | Transposing swaps the shape and moves cell (j, i) to (i, j) |
| Matrices.TransposeTwice | Pohhnii.js:1608-1617 | Transposing twice gives back the matrix |
| Matrices.TransposeOf | Pohhnii.js:1608-1617 | transpose fails with a TypeError exactly for a matrix without cells (twoDimensionalArray is undefined) and is otherwise the transposition |
| Matrices.PartAt | Pohhnii.js:1618-1626 | Cell (i, j) of getPart(row, col, h, w) is get(row + i, col + j), and the part always fits its shape |
| Matrices.ReversedTwice | Pohhnii.js:1627-1629 | Reversing the data twice gives it back |
| Matrices.RotatedCell | Pohhnii.js:1627-1629 | Reversing row-major data turns the matrix by half a turn: (i, j) comes from (rows−1−i, cols−1−j) |
| Matrices.Matrix.constructor | Pohhnii.js:1595-1598 | A record keeps the shape and the very data array it is given |
| Matrices.Matrix.Get | Pohhnii.js:1599-1601 | The record's get reads the flat index of its current data |
| Matrices.Matrix.Set | Pohhnii.js:1602-1604 | set writes one element inside the data array and leaves the others |
| Matrices.Matrix.TwoDimensionalArray | Pohhnii.js:1605-1607 | twoDimensionalArray gives the rows of the grid, or undefined when the matrix has no cells |
| Matrices.Matrix.Transpose | Pohhnii.js:1608-1617 | transpose builds a new record whose value is the transposition, or fails with a TypeError for a matrix without cells |
| Matrices.Matrix.GetPart | Pohhnii.js:1618-1626 | getPart builds a new height × width record of what get finds |
| Matrices.Matrix.RotateHalf | Pohhnii.js:1627-1629 | rotateHalf reverses the shared data array in place and wraps that same array in a new record |
| Matrices.NewMatrix | Pohhnii.js:1595-1596 | The factory over an array keeps that array, and throws unless the shape fits it |
| Expressions.ValueDefined | Pohhnii.js:678-1060 | A root's value is defined exactly when every cell it names is in the store (a missing cell is a TypeError) |
| Expressions.DerivDefined | Pohhnii.js:678-1060 | A root whose cells are all present always has a derivative, with respect to any cell |
| Expressions.LeafDerivative | Pohhnii.js:678-695 | A bare id's derivative is 1 for the target and 0 otherwise, and reads no cell |
| Expressions.FrameValue | Pohhnii.js:678-1060 | A root's value depends only on the cells it names |
| Expressions.FrameDeriv | Pohhnii.js:678-1060 | A root's derivative depends only on the cells it names |
| Calculus.AddValue | Pohhnii.js:678-695 | add's value is the sum of the operands' values |
| Calculus.AddDeriv | Pohhnii.js:678-695 | add's derivative is the sum of the operands' derivatives |
| Calculus.SubtractValue | Pohhnii.js:701-718 | subtract's value is old root minus operand |
| Calculus.SubtractDeriv | Pohhnii.js:701-718 | subtract's derivative is the difference of the derivatives |
| Calculus.NegateValue | Pohhnii.js:861-875 | negate's value is the negated value |
| Calculus.NegateDeriv | Pohhnii.js:861-875 | negate's derivative is the negated derivative |
| Calculus.MultiplyValue | Pohhnii.js:724-743 | multiply's value is the product of the values |
| Calculus.MultiplyDeriv | Pohhnii.js:724-743 | multiply's derivative follows the product rule |
| Calculus.FirstOrder | Pohhnii.js:678-875 | For every root built from cells with add, subtract, multiply and negate, in a finite store, moving a cell by h changes the value by a polynomial in h whose constant term is the value and whose linear coefficient is the derivative: the derivative is the true slope |
| Calculus.SimplePowSquare | Pohhnii.js:794-811 | simplePow(2) agrees with multiplying the root by itself in value and derivative, 2 · v · d |
| Calculus.SimplePowZeroBase | Pohhnii.js:794-811 | simplePow's derivative is 0 at a zero base for any power, 1/2 included |
| Calculus.PowZeroBase | Pohhnii.js:836-856 | pow's derivative is 0 at a zero base, whatever the exponent |
| Calculus.LnIgnoresTarget | Pohhnii.js:816-830 | ln's derivative is 1 / value whatever the target cell: it drops the inner derivative |
| Calculus.LnChainFactor | Pohhnii.js:816-830 | ln's derivative equals the chain rule d / v exactly when the inner derivative d is 1 |
| Calculus.MaxSelects | Pohhnii.js:1003-1020 | max keeps the old root only when it is strictly greater; value and derivative come from the same operand, and the value is at least both operands |
| Calculus.MinSelects | Pohhnii.js:1026-1043 | min keeps the old root only when it is strictly smaller; value and derivative come from the same operand, and the value is at most both operands |
| Calculus.ReciprocalRule | Pohhnii.js:794-811 | simplePow(−1) of a non-zero finite root has value 1/w and derivative −dw/w² |
| Calculus.QuotientAsReciprocal | Pohhnii.js:749-768 | devide agrees with multiplying by simplePow(−1) of the divisor, in value and derivative, and follows the quotient rule |
| Calculus.ExpRule | Pohhnii.js:773-788 | exp's derivative is the chain rule d · e^v |
| Calculus.SigmoidRule | Pohhnii.js:1056-1060 | sigmoid's root has value σ = 1/(1 + e^−v) and derivative σ(1 − σ) · d |
| FunctionSystems.LastValueDefault | Pohhnii.js:601-606 | The value the bindings leave in a cell depends on the old value only when no binding names the cell |
| FunctionSystems.BoundPointwise | Pohhnii.js:601-606 | With every binding id present, each cell ends with the last value written to it |
| FunctionSystems.BoundUntouched | Pohhnii.js:601-606 | A cell no binding names keeps its value |
| FunctionSystems.BoundLast | Pohhnii.js:601-606 | The last binding of the list wins |
| FunctionSystems.BoundStops | Pohhnii.js:601-606 | Writing stops at the first missing id; the earlier writes stay and the later ones are not made |
| FunctionSystems.BoundIdempotent | Pohhnii.js:601-606 | Binding the same list twice changes nothing more |
| FunctionSystems.Evaluate | Pohhnii.js:601-606 | valueOf of a bare-id root is the id string; of any other root it is the value, defined exactly when every named cell exists, else a TypeError |
| FunctionSystems.Differentiate | Pohhnii.js:613-618 | derivative of a bare-id root throws; of any other root it is Deriv, and it is defined when every named cell exists |
| FunctionSystems.DerivWhenDefined | Pohhnii.js:613-618 | A root whose cells all exist always has a derivative |
| FunctionSystems.Rate | Pohhnii.js:1069-1070 | regression's learning rate defaults to 0.05 when none is given |
| FunctionSystems.Descend | Pohhnii.js:1074-1075 | The update on finite numbers is value − error · derivative · rate |
| FunctionSystems.FunctionSystem.constructor | Pohhnii.js:582-595 | A builder over a given store; the root defaults to the ZERO cell |
| FunctionSystems.FunctionSystem.Fresh | Pohhnii.js:582-595 | Without a store, the builder gets a new store holding exactly the eight constants |
| FunctionSystems.FunctionSystem.StartWith | Pohhnii.js:655-658 | startWith replaces the root |
| FunctionSystems.FunctionSystem.GetFunction | Pohhnii.js:670-672 | getFunction hands out the root itself, not a copy |
| FunctionSystems.FunctionSystem.Br | Pohhnii.js:663-665 | br gives a new builder over the same store, starting from ZERO |
| FunctionSystems.FunctionSystem.Add | Pohhnii.js:678-695 | add makes the operand the first summand of the new root |
| FunctionSystems.FunctionSystem.Subtract | Pohhnii.js:701-718 | subtract makes old root minus operand |
| FunctionSystems.FunctionSystem.Multiply | Pohhnii.js:724-743 | multiply makes old root times operand |
| FunctionSystems.FunctionSystem.Devide | Pohhnii.js:749-768 | devide makes old root over operand |
| FunctionSystems.FunctionSystem.Exp | Pohhnii.js:773-788 | exp wraps the root |
| FunctionSystems.FunctionSystem.SimplePow | Pohhnii.js:794-811 | simplePow wraps the root with a constant power |
| FunctionSystems.FunctionSystem.Ln | Pohhnii.js:816-830 | ln wraps the root |
| FunctionSystems.FunctionSystem.Pow | Pohhnii.js:836-856 | pow raises the root to an expression |
| FunctionSystems.FunctionSystem.Negate | Pohhnii.js:861-875 | negate wraps the root |
| FunctionSystems.FunctionSystem.Tanh | Pohhnii.js:880-895 | tanh wraps the root |
| FunctionSystems.FunctionSystem.Sin | Pohhnii.js:900-915 | sin wraps the root |
| FunctionSystems.FunctionSystem.Cos | Pohhnii.js:920-935 | cos wraps the root |
| FunctionSystems.FunctionSystem.Tan | Pohhnii.js:940-955 | tan wraps the root |
| FunctionSystems.FunctionSystem.ReLu | Pohhnii.js:960-975 | ReLu wraps the root |
| FunctionSystems.FunctionSystem.LeakyReLu | Pohhnii.js:981-997 | LeakyReLu wraps the root with its factor |
| FunctionSystems.FunctionSystem.Max | Pohhnii.js:1003-1020 | max compares the old root with the operand |
| FunctionSystems.FunctionSystem.Min | Pohhnii.js:1026-1043 | min compares the old root with the operand |
| FunctionSystems.FunctionSystem.Sqrt | Pohhnii.js:1048-1051 | sqrt is simplePow(1/2) |
| FunctionSystems.FunctionSystem.Sigmoid | Pohhnii.js:1056-1060 | sigmoid is simplePow(ONE + e^(−root), −1) |
| FunctionSystems.FunctionSystem.Apply | Pohhnii.js:601-606 | The binding loop writes the pairs in order and throws a TypeError at the first missing id, keeping the earlier writes |
| FunctionSystems.FunctionSystem.ValueOf | Pohhnii.js:601-606 | valueOf binds, then evaluates the root in the bound store, or throws at a missing binding id |
| FunctionSystems.FunctionSystem.Derivative | Pohhnii.js:613-618 | derivative binds, then differentiates the root in the bound store, or throws at a missing binding id |
| FunctionSystems.FunctionSystem.AddParameter | Pohhnii.js:624-626 | addParameter adds one new cell |
| FunctionSystems.FunctionSystem.GetParameter | Pohhnii.js:632-634 | getParameter finds the cell or throws a TypeError |
| FunctionSystems.FunctionSystem.RemoveParameter | Pohhnii.js:639-641 | removeParameter deletes one cell |
| FunctionSystems.FunctionSystem.SetParameter | Pohhnii.js:647-649 | setParameter writes one existing cell, or throws and changes nothing |
| FunctionSystems.FunctionSystem.TrainStep | Pohhnii.js:1073-1076 | One round of regression's loop is GradientStep: derivative in the current store, then the update |
| FunctionSystems.FunctionSystem.Train | Pohhnii.js:1072-1076 | regression's loop runs the steps in order, each seeing the earlier updates |
| FunctionSystems.FunctionSystem.Regression | Pohhnii.js:1069-1078 | regression is Regress: bind, predict, error = prediction − y, the loop, then the squared error |
| FunctionSystems.PresentKeys | Pohhnii.js:601-606 | Whether binding succeeds depends only on which cells exist |
| FunctionSystems.StepsPass | Pohhnii.js:1072-1076 | With every cell and target present, the loop succeeds and keeps the set of cells |
| FunctionSystems.StepsFrame | Pohhnii.js:1072-1076 | A cell that is neither a target nor bound keeps its value, even when the loop fails |
| FunctionSystems.RegressSquaredError | Pohhnii.js:1069-1078 | regression returns (v − y)², where v is the value after binding; only targets and bound cells change |
| FunctionSystems.RegressRebinds | Pohhnii.js:1069-1078 | Binding before calling regression changes nothing, because regression binds first |
| FunctionSystems.RegressOutcome | Pohhnii.js:1069-1078 | On a bound store whose loop passes, regression's store is the loop's and its answer is error² |
| FunctionSystems.RegressLeafRoot | Pohhnii.js:1069-1078 | With a bare-id root, the error is NaN (a generated id string minus a number) and any target makes derivative throw |
| FunctionSystems.RegressMissingBinding | Pohhnii.js:1069-1078 | A missing binding id throws before anything is evaluated, keeping the writes before it |
| Presets.AddTerm | Pohhnii.js:1095-1097 | One round adds a new cell holding 0 and puts x^i · c in front of the root |
| Presets.BuildTerm | Pohhnii.js:1097 | br().startWith(x).simplePow(i).multiply(c) builds the term x^i · c |
| Presets.AddTerms | Pohhnii.js:1095-1098 | grade + 1 rounds add distinct new cells holding 0 and build PolynomialRoot |
| Presets.WithVariable | Pohhnii.js:1092-1093 | A new model with its constants, plus the cell x holding 0 |
| Presets.PolynomialFunction | Pohhnii.js:1091-1104 | The preset returns a new model whose store holds the constants, x and grade + 1 distinct parameters, all at 0, with the polynomial root |
| Presets.ZeroedKeys | Pohhnii.js:1095-1097 | The rounds add exactly the parameters' cells |
| Presets.ZeroedValues | Pohhnii.js:1095-1097 | The new cells hold 0 and the old cells are untouched |
| Presets.TermValue | Pohhnii.js:1097 | A term's value is v^i · w |
| Presets.TermDeriv | Pohhnii.js:1097 | A term's derivative along a cell other than x is v^i for its own parameter and 0 otherwise |
| Presets.PolynomialValue | Pohhnii.js:1091-1104 | The preset's value is Σ ws[i] · v^i |
| Presets.SlopeAt | Pohhnii.js:1091-1104 | With distinct parameters, the slope along parameter k is v^k |
| Presets.PolynomialGradient | Pohhnii.js:1091-1104 | The preset's derivative along any cell other than x and ZERO is Σ over parameters equal to it of v^i |
| Presets.PolynomialGradientAt | Pohhnii.js:1091-1104 | derivative along parameter j answers v^j |
| Presets.PolynomialGradientStep | Pohhnii.js:1073-1076 | One regression round on parameter j moves only that cell, by error · v^j · rate |
| Presets.PolynomialStepsAll | Pohhnii.js:1072-1076 | The whole loop passes and moves every parameter i by error · v^i · rate |
| Presets.PolynomialBound | Pohhnii.js:1069-1078 | Bindings that name no parameter leave the parameters' values in place |
| Presets.PolynomialPrediction | Pohhnii.js:1069-1078 | On a bound store, regression's error is Σ ws[i]·v^i − y and its answer is its square |
| Presets.PolynomialRegressionLoss | Pohhnii.js:1069-1078 | One regression call on the preset answers the squared error of the polynomial's value |
| Presets.PolynomialDescent | Pohhnii.js:1072-1076 | The loop moves parameter i, holding wᵢ, to wᵢ − e · v^i · lr |
| Presets.PolynomialRegressionCells | Pohhnii.js:1069-1078 | After regression, the store is the loop's result on the bound store, with error Σ ws[i]·v^i − y |
| Presets.PolynomialRegressionStep | Pohhnii.js:1069-1078 | regression on the preset is one gradient-descent step on the squared error: wᵢ − (Σ w·v^k − y) · v^i · lr |
| Positional.ValueOf | Pohhnii.js:88-259 | valueOf of a parameter function, add's and subtract's loops included, is Value |
| Positional.ChainValueOf | Pohhnii.js:88-132 | add's loop sums from 0; subtract's starts at the first operand; an undefined operand stops them |
| Positional.ChainValueStops | Pohhnii.js:113-132 | Once an operand is undefined the rest of the loop stays undefined |
| Positional.DerivativeOf | Pohhnii.js:88-259 | derivative of a parameter function is Deriv |
| Positional.PowDerivativeOf | Pohhnii.js:211-224 | pow's derivative does not evaluate the exponent when the base is 0 |
| Positional.ChainDerivativeOf | Pohhnii.js:88-132 | The derivative loops of add and subtract fold the operands' derivatives in order |
| Positional.ChainDerivStops | Pohhnii.js:113-132 | Once an operand's derivative is undefined, the loop stays undefined |
| Positional.ProductRuleHolds | Pohhnii.js:139-152 | multiply's value is x·y and its derivative dx·y + dy·x |
| Positional.QuotientRuleHolds | Pohhnii.js:158-170 | devide's value is x/y and its derivative (dx·y − dy·x)/y² wherever y is finite and non-zero |
| Positional.PowZeroBase | Pohhnii.js:211-224 | pow's derivative is 0 at a zero base |
| Positional.LnRule | Pohhnii.js:247-259 | ln's derivative is d / v on a non-zero finite value and 0 at an infinity |
| Positional.ChainValues | Pohhnii.js:88-132 | With finite operands, add's value is the sum and subtract's is the first minus the rest |
| Positional.ChainDerivs | Pohhnii.js:88-132 | add's and subtract's derivatives fold the same way over the operands' derivatives |
| Positional.NegatedRule | Pohhnii.js:376-387 | negative(x), as a one-operand subtract, has value −v and derivative −d |
| Positional.ExpRule | Pohhnii.js:230-241 | exp's derivative is d · e^v |
| Positional.ReciprocalRule | Pohhnii.js:158-170 | devide(CONSTANT(1), b) is 1/w with derivative −dw/w² |
| Positional.SigmoidRule | Pohhnii.js:392-404 | Sigmoid has value σ and derivative σ(1 − σ) · d |
| Positional.TanHRule | Pohhnii.js:409-421 | TanH has value t = (e^2v − 1)/(e^2v + 1) and derivative (1 − t²) · d |
| Positional.PowerOfInput | Pohhnii.js:211-224 | pow(PARAMETER(0), CONSTANT(i)) is x^i |
| Positional.PolynomialValue | Pohhnii.js:295-298 | The model's parameter function at (x, ws) is Σ ws[i] · x^i |
| Positional.TermDeriv | Pohhnii.js:295-298 | A term's derivative in argument k is x^i for its own parameter and 0 for the others, where pow's log term is harmless |
| Positional.PolynomialGradient | Pohhnii.js:295-298 | The parameter function's derivative in argument k ≥ 1 is x^(k−1) while k is a parameter's position and 0 beyond, where pow's log term is harmless |
| Positional.TermPoisoned | Pohhnii.js:211-224 | With pow's rule as written and log(x) NaN (x < 0), every term's derivative is NaN |
| Positional.PolynomialPoisoned | Pohhnii.js:211-224 | ... and so is the whole parameter function's, in every argument |
| Positional.PolynomialDefined | Pohhnii.js:295-298 | The parameter function never throws: its value and every derivative are defined |
| Positional.Prediction | Pohhnii.js:304-306 | valueOf of the model's function is always a number |
| Positional.Slope | Pohhnii.js:314-317 | derivative of the model's function is always a number |
| Positional.Reals | Pohhnii.js:312-321 | Finite parameters as the reals behind them |
| Positional.TrainedAt | Pohhnii.js:312-321 | train moves parameter i by (prediction − y) · derivative_(i+1) · rate, all at the old parameters |
| Positional.PredictionAt | Pohhnii.js:304-306 | With finite parameters, the model predicts Σ ws[i] · x^i |
| Positional.SlopeAt | Pohhnii.js:314-317 | The derivative in parameter i + 1 is x^i, where pow's log term is harmless |
| Positional.TrainDescent | Pohhnii.js:312-321 | train is one gradient-descent step on the squared error: wᵢ − (Σ w·x^k − y) · x^i · lr, where pow's log term is harmless |
| Positional.GuardedDescent | Pohhnii.js:211-224 | With the corrected pow rule, train is a gradient-descent step at every finite input, negative ones included |
| Positional.GuardedAtFit | Pohhnii.js:312-321 | With the corrected rule, training on a sample the model already fits leaves the parameters as they are |
| Positional.TrainPoisoned | Pohhnii.js:312-321 | With pow's rule as written and x < 0 (log NaN), train sets every parameter to NaN |
| Positional.PolynomialRegressionModel.constructor | Pohhnii.js:287-298 | grade + 1 parameters at 0 and LEARNRATE 0.01 |
| Positional.PolynomialRegressionModel.Predict | Pohhnii.js:304-306 | valueOf(x) is the polynomial Σ parameter[i] · x^i for finite input and parameters |
| Positional.PolynomialRegressionModel.Train | Pohhnii.js:312-321 | train sets the parameters to Trained: all derivatives at the old parameters, then every update; the rate is unchanged |
| Positional.PolynomialRegressionModel.SetLearnRate | Pohhnii.js:327-329 | setLearnRate changes the rate and nothing else |
| MatrixCells.Refs | Pohhnii.js:1161-1163 | A reference matrix read as a grid of bare ids, cell for cell |
| MatrixCells.OperandFits | Pohhnii.js:1161-1163 | A named operand of a valid store fits its shape |
| MatrixCells.CellValueMeaning | Pohhnii.js:1252-1265 | A bare id or a builder cell has a value exactly when its cells exist, and it is the value of the expression it stands for |
| MatrixCells.CellValueFails | Pohhnii.js:1252-1265 | Every failure of a cell's value is a TypeError |
| MatrixCells.RawNodeValue | Pohhnii.js:1252-1265 | A raw node, evaluated without a store, always fails |
| MatrixCells.CellDerivMeaning | Pohhnii.js:1272-1282 | A cell's derivative is that of the expression it stands for; a builder on a bare id throws, the bare id itself does not |
| MatrixCells.AllValues | Pohhnii.js:1252-1265 | The cells' values in order succeed exactly when every cell's does, each in its place; any failure is a TypeError |
| MatrixCells.AllDerivs | Pohhnii.js:1272-1282 | The cells' derivatives in order succeed exactly when every cell's does, each in its place |
| MatrixCells.Grow | Pohhnii.js:1288-1295 | The per-cell loop changes cell k exactly when cells 0..k are builders, and passes exactly when all the cells it visits are |
| MatrixCells.ElementwiseGuard | Pohhnii.js:1288-1321 | add/subtract/HadamardProduct refuse only operands whose rows and cols both differ (the check joins the tests with &&) |
| MatrixCells.ElementwiseCells | Pohhnii.js:1288-1321 | After the method, cell k is the combined builder or the old cell, as far as the loop got |
| MatrixCells.ElementwiseValue | Pohhnii.js:1288-1321 | On success a cell holding w with an operand holding x now has value x + w, w − x or w · x |
| MatrixCells.ActivationCells | Pohhnii.js:1376-1539 | An activation succeeds exactly on a grid of builders and wraps every root; a failure keeps the changed prefix |
| MatrixCells.SigmoidCell | Pohhnii.js:1376-1381 | After Sigmoid a cell with value v has value σ and derivative σ(1 − σ) · d |
| MatrixCells.TanhCell | Pohhnii.js:1386-1391 | After TanH a cell with value v and derivative d has value tanh(v) and derivative d / cosh(v)² |
| MatrixCells.RectifiedCell | Pohhnii.js:1523-1539 | After ReLu a cell is max(v, 0); after LeakyReLu it is v or factor · v |
| MatrixCells.ProductLayoutAt | Pohhnii.js:1352-1371 | Cell (i, j) of the product's layout is the dot-product builder of row j and column i |
| MatrixCells.RealProductAt | Pohhnii.js:1352-1371 | Cell (j, i) of the real product is row j dotted with column i |
| MatrixCells.DotValue | Pohhnii.js:1360-1366 | The sum the inner loop builds, from ZERO, has the value of the dot product |
| MatrixCells.ProductValue | Pohhnii.js:1352-1371 | MatrixProduct passes and its cell (j, i) has the value of cell (j, i) of the real matrix product of the cells' values |
| MatrixCells.RealProductExample | Pohhnii.js:1352-1371 | [[1,2,3],[4,5,6]] · [[7,8],[9,10],[11,12]] = [[58,64],[139,154]] |
| MatrixCells.ProductExample | Pohhnii.js:1352-1371 | MatrixProduct on cells with those values gives cells with the values 58, 64, 139, 154 |
| MatrixCells.PaddedCell | Pohhnii.js:1398-1412 | The padded grid holds the old cell inside the frame and ZERO on the border |
| MatrixCells.PaddingDefault | Pohhnii.js:1398-1412 | addPadding(p) pads rows and columns alike and succeeds exactly on a grid with cells |
| MatrixCells.GridPartAt | Pohhnii.js:1421-1424 | Cell (i, j) of getPart is get(row + i, col + j), or undefined |
| MatrixCells.Vec | Pohhnii.js:1429-1432 | vec keeps the cells as one column |
| MatrixCells.Halves | Pohhnii.js:1498-1499 | newRows and newCols are ⌈n/2⌉ |
| MatrixCells.PoolingOf | Pohhnii.js:1494-1518 | maxPooling yields ⌈rows/2⌉ × ⌈cols/2⌉ builders whenever it succeeds |
| MatrixCells.PoolingAt | Pohhnii.js:1494-1518 | Pooled cell (i, j) is the builder of its window's root |
| MatrixCells.PoolValue | Pohhnii.js:1505-1512 | A window's root is max(−∞, v0, v1, v2, v3), each max keeping the old value only when strictly greater |
| MatrixCells.LargerFold | Pohhnii.js:1505-1512 | That fold is −∞ or one of the four values, and at least every finite one |
| MatrixCells.PoolingWraps | Pohhnii.js:1503-1509 | With an odd number of columns, the last window of rows 2i, 2i + 1 reads cell (2i + 1, 0) of the next row where the grid ends; the clipped reading gives −∞ there |
| MatrixCells.PoolingWrapsExample | Pohhnii.js:1494-1518 | Pooling [[0, 0, 0], [9, 0, 0]] gives 9 in the right window as written, though that window's cells are all 0; the clipped reading gives 0 |
| MatrixCells.ClippedMaximum | Pohhnii.js:1494-1518 | With the clipped reading, each pooled cell is the maximum of its window's cells inside the grid: one of them and at least each of them |
| MatrixFunctions.DataValues | Pohhnii.js:1147-1155 | addMatrix registers zeros, one repeated number, or the given array, one value per cell |
| MatrixFunctions.RefMatrix | Pohhnii.js:1161-1163 | getRefMatrix finds a stored id matrix, or fails with a TypeError |
| MatrixFunctions.Writes | Pohhnii.js:1190-1195 | setMatrix writes data[i] into cell i, undefined past the end of data |
| MatrixFunctions.BindMatrices | Pohhnii.js:1252-1258 | The trailing (id, data) pairs only change values, never which cells exist |
| MatrixFunctions.Started | Pohhnii.js:1219-1228 | startWith turns every bare id into a builder on it and keeps the other cells |
| MatrixFunctions.Roots | Pohhnii.js:1240-1246 | getFunction succeeds exactly when every cell is a builder, giving each root in place; otherwise a TypeError |
| MatrixFunctions.RootsOfStarted | Pohhnii.js:1219-1246 | getFunction after startWith gives back the grid of bare ids |
| MatrixFunctions.Passes | Pohhnii.js:1252-1265 | valueOf's two loops together compute each cell's value |
| MatrixFunctions.Errors | Pohhnii.js:1548-1571 | errdata[i] is prediction[i] − y[i], undefined past the end of y |
| MatrixFunctions.Updates | Pohhnii.js:1548-1571 | regression's parameter loop never adds or removes cells |
| MatrixFunctions.MatrixFunction.constructor | Pohhnii.js:1125-1139 | A function over given stores, possibly undefined |
| MatrixFunctions.MatrixFunction.Fresh | Pohhnii.js:1125-1139 | Without stores, two new reference objects each holding exactly the constants |
| MatrixFunctions.MatrixFunction.AddMatrix | Pohhnii.js:1147-1155 | addMatrix registers one new cell per value, and stores the id matrix under a new id exactly when the shape fits; getMatrix then reads the values back |
| MatrixFunctions.MatrixFunction.AddCells | Pohhnii.js:1149-1152 | addMatrix's loop registers the values in order under new, distinct ids |
| MatrixFunctions.MatrixFunction.GetRefMatrix | Pohhnii.js:1161-1163 | getRefMatrix returns what the matrix store holds under the id |
| MatrixFunctions.MatrixFunction.GetParameter | Pohhnii.js:1169-1171 | getParameter finds the number cell or throws |
| MatrixFunctions.MatrixFunction.GetMatrix | Pohhnii.js:1177-1184 | getMatrix reads the current numbers of the stored matrix |
| MatrixFunctions.MatrixFunction.SetMatrix | Pohhnii.js:1190-1195 | setMatrix writes the data into the matrix's cells in order, stopping at a removed cell |
| MatrixFunctions.MatrixFunction.WriteCells | Pohhnii.js:1191-1194 | setMatrix's loop is the binding loop |
| MatrixFunctions.MatrixFunction.RemoveParameter | Pohhnii.js:1200-1202 | removeParameter deletes one number cell |
| MatrixFunctions.MatrixFunction.RemoveMatrix | Pohhnii.js:1207-1213 | removeMatrix deletes the matrix and all its cells, after which getMatrix throws; an unknown id throws and changes nothing |
| MatrixFunctions.MatrixFunction.StartWith | Pohhnii.js:1219-1228 | startWith makes every bare id a builder; a stored number is kept as the function and then throws a TypeError; an unknown id throws and keeps the function |
| MatrixFunctions.MatrixFunction.Br | Pohhnii.js:1233-1235 | br gives a new, undefined function over the same stores |
| MatrixFunctions.MatrixFunction.GetFunction | Pohhnii.js:1240-1246 | getFunction gives the roots of the cells, or throws when undefined |
| MatrixFunctions.MatrixFunction.Bind | Pohhnii.js:1252-1258 | The trailing (id, data) pairs are written with setMatrix in order |
| MatrixFunctions.MatrixFunction.ValueOf | Pohhnii.js:1252-1265 | valueOf throws when nothing is set, binds, throws a TypeError for a held number, then gives every cell's value in the shape of the function |
| MatrixFunctions.MatrixFunction.Derivative | Pohhnii.js:1272-1282 | derivative throws when nothing is set, binds, throws a TypeError for a held number, then gives every cell's derivative |
| MatrixFunctions.MatrixFunction.Regression | Pohhnii.js:1548-1571 | regression resolves y (an array cannot be shaped like a held number), predicts, takes the errors once, moves the parameters in order and answers the mean squared error |
| MatrixFunctions.MatrixFunction.UpdateParameters | Pohhnii.js:1558-1566 | regression's parameter loop is Updates |
| MatrixFunctions.MatrixFunction.GrowCells | Pohhnii.js:1288-1295 | The per-cell builder loop is Grow |
| MatrixFunctions.MatrixFunction.CombineWith | Pohhnii.js:1288-1321 | An elementwise method first needs its operand and a defined function (a held number fails the shape check or the data read); then it is Elementwise |
| MatrixFunctions.MatrixFunction.Add | Pohhnii.js:1288-1295 | add is the elementwise sum |
| MatrixFunctions.MatrixFunction.Subtract | Pohhnii.js:1301-1308 | subtract is the elementwise difference |
| MatrixFunctions.MatrixFunction.HadamardProduct | Pohhnii.js:1314-1321 | HadamardProduct is the elementwise product |
| MatrixFunctions.MatrixFunction.Negate | Pohhnii.js:1326-1333 | negate always throws a ReferenceError (it reads an undeclared variable) |
| MatrixFunctions.MatrixFunction.MultiplyBy | Pohhnii.js:1339-1346 | multiplyBy registers the number and then throws a ReferenceError |
| MatrixFunctions.MatrixFunction.MatrixProduct | Pohhnii.js:1352-1371 | MatrixProduct is MatrixProductOf, after the operand and function checks |
| MatrixFunctions.MatrixFunction.AddPadding | Pohhnii.js:1398-1412 | addPadding pads with ZERO, or throws on an undefined function or a grid without cells |
| MatrixFunctions.MatrixFunction.GetPart | Pohhnii.js:1421-1424 | getPart keeps the part of the grid |
| MatrixFunctions.MatrixFunction.Vectorize | Pohhnii.js:1429-1432 | vec makes the function one column |
| MatrixFunctions.MatrixFunction.Transpose | Pohhnii.js:1437-1440 | transpose transposes the function, or throws and keeps it |
| MatrixFunctions.MatrixFunction.MaxPooling | Pohhnii.js:1494-1518 | maxPooling is PoolingOf (a held number gives a NaN × NaN shape the Matrix factory refuses), with window cells read by flat index as written or clipped to the grid as intended; a failing window keeps the function |
| MatrixFunctions.MatrixFunction.Convolute | Pohhnii.js:1446-1465 | Convolute transposes the filter, pads, builds one product per window, and reshapes to the old size |
| MatrixFunctions.MatrixFunction.Correlate | Pohhnii.js:1471-1489 | Correlate does the same with the filter as it is |
| MatrixFunctions.MatrixFunction.Filter | Pohhnii.js:1453-1463 | The padding and window loops shared by both are ConvolutionOf |
| MatrixFunctions.MatrixFunction.Sigmoid | Pohhnii.js:1376-1381 | Sigmoid wraps every cell builder |
| MatrixFunctions.MatrixFunction.TanH | Pohhnii.js:1386-1391 | TanH wraps every cell builder in tanh |
| MatrixFunctions.MatrixFunction.ReLu | Pohhnii.js:1523-1528 | ReLu wraps every cell builder |
| MatrixFunctions.MatrixFunction.LeakyReLu | Pohhnii.js:1534-1539 | LeakyReLu wraps every cell builder with the factor |
| MatrixFunctions.MatrixFunction.Activate | Pohhnii.js:1376-1539 | An activation is the same step on every cell |
| MatrixFunctions.CellValues | Pohhnii.js:1252-1265 | valueOf's loops are AllValues |
| MatrixFunctions.CellDerivs | Pohhnii.js:1272-1282 | derivative's loop is AllDerivs |
| MatrixFunctions.Ready | Pohhnii.js:1288-1295 | An operation with an operand passes its checks exactly when the operand is found and the function is defined; over a held number, an operand with a shape is refused by the shape check and a stored number fails reading its data |
| MatrixFunctions.ValueOfSpec | Pohhnii.js:1252-1265 | A value matrix comes only from a defined function and has its shape |
| MatrixFunctions.DerivativeSpec | Pohhnii.js:1272-1282 | A derivative matrix comes only from a defined function and has its shape |
| MatrixFunctions.PoolWindow | Pohhnii.js:1503-1512 | One window's loop builds the pooled root |
| MatrixFunctions.WindowStep | Pohhnii.js:1506-1510 | Each read of a window takes the max with that cell, or fails with it |
| MatrixFunctions.WindowFails | Pohhnii.js:1503-1512 | A window read that fails makes the window fail with a TypeError |
| MatrixFunctions.ProductGrid | Pohhnii.js:1352-1371 | MatrixProduct's loops build ProductLayout |
| MatrixFunctions.DotCell | Pohhnii.js:1360-1366 | The innermost loop builds one dot-product sum from ZERO |
| MatrixFunctions.PadGrid | Pohhnii.js:1398-1412 | addPadding's loops build Padded |
| MatrixFunctions.PoolGrid | Pohhnii.js:1494-1518 | maxPooling's loops build PoolingOf |
| MatrixFunctions.PoolRow | Pohhnii.js:1501-1514 | One row of windows: all builders, or the TypeError of a window that fails |
| MatrixFunctions.ErrorsOf | Pohhnii.js:1553-1556 | The error loop computes Errors |
| MatrixFunctions.GradientSumOf | Pohhnii.js:1560-1564 | The inner loop computes dp |
| MatrixFunctions.MeanSquareOf | Pohhnii.js:1567-1570 | The last loop computes the mean of the squared errors |
| MatrixFunctions.ReadRecord | Pohhnii.js:1177-1184 | getMatrix reads back the values the matrix's cells hold, in order |
| MatrixFunctions.LastDistinct | Pohhnii.js:1190-1195 | Writing distinct cells: each ends with its one written value |
| MatrixFunctions.SetThenGet | Pohhnii.js:1177-1195 | setMatrix then getMatrix gives the data back (undefined past its end) |
| MatrixFunctions.SquaresFinite | Pohhnii.js:1567-1570 | With finite errors the loop's sum is Σ e_i² |
| MatrixFunctions.MeanSquareFinite | Pohhnii.js:1548-1571 | regression answers (Σ e_i²)/n, and NaN for a function without cells |
| MatrixFunctions.SquaresNaN | Pohhnii.js:1567-1570 | One NaN error makes the sum NaN |
| MatrixFunctions.MeanSquareNaN | Pohhnii.js:1548-1571 | A y shorter than the prediction makes the answer NaN |
| MatrixFunctions.GradientFinite | Pohhnii.js:1560-1564 | With finite numbers dp is Σ d_i · e_i · lr |
| MatrixFunctions.UpdateOne | Pohhnii.js:1558-1566 | One parameter with finite derivatives moves by −Σ d_i · e_i · lr |
| MatrixFunctions.UpdatesFrame | Pohhnii.js:1558-1566 | The loop changes only the parameters it is given |
| MatrixFunctions.UpdatesAppend | Pohhnii.js:1558-1566 | The loop over t1 + t2 is the loop over t1 followed by the loop over t2, unless t1 fails |
| MatrixFunctions.AllValuesFail | Pohhnii.js:1252-1265 | One failing cell makes valueOf fail with a TypeError |
| MatrixFunctions.AllDerivsFail | Pohhnii.js:1272-1282 | derivative fails with the error of the first failing cell |
| MatrixFunctions.Span | Pohhnii.js:1458-1459 | The loop bound `size − filter + 1` counts the window positions, or 0 when the filter is larger |
| MatrixFunctions.Collect | Pohhnii.js:1457-1462 | Pushing the results in order gives one value per result |
| MatrixFunctions.Results | Pohhnii.js:1457-1462 | One result per loop index |
| MatrixFunctions.ResultsStop | Pohhnii.js:1457-1462 | Once a result fails, every longer run fails with the same error |
| MatrixFunctions.ResultsOk | Pohhnii.js:1457-1462 | When every result succeeds, the run does, each value in its place |
| MatrixFunctions.CollectAll | Pohhnii.js:1457-1462 | Collecting succeeds exactly when every result does, keeping the values in place |
| MatrixFunctions.Window | Pohhnii.js:1460 | One window's product is the first cell of vec(filter)ᵀ · vec(part) |
| MatrixFunctions.WindowGrid | Pohhnii.js:1457-1462 | The two window loops push one product per window, row by row |
| MatrixFunctions.WindowLine | Pohhnii.js:1458-1461 | The inner loop pushes the products of one row of windows |
| MatrixFunctions.WindowRowsLength | Pohhnii.js:1457-1462 | A successful run pushes n · nc cells |
| MatrixFunctions.ColumnTransposed | Pohhnii.js:1460 | Transposing a column gives the same cells as one row |
| MatrixFunctions.PartInside | Pohhnii.js:1421-1424 | A part inside the grid holds only cells of the grid |
| MatrixFunctions.PaddedInside | Pohhnii.js:1398-1412 | The padded grid holds only old cells and ZERO |
| MatrixFunctions.WindowInside | Pohhnii.js:1460 | Every window inside a grid of bare ids, with a plain filter, gives its product |
| MatrixFunctions.WindowRowInside | Pohhnii.js:1458-1461 | A row of windows inside the grid gives one product per window |
| MatrixFunctions.WindowRowsInside | Pohhnii.js:1457-1462 | All window positions inside the grid give their products |
| MatrixFunctions.ConvolutionKeepsShape | Pohhnii.js:1446-1465 | With an odd-sized filter of bare ids or leaf builders, the convolution passes and keeps the function's shape |
| MatrixFunctions.ConvolutionEvenFilter | Pohhnii.js:1446-1465 | A filter with an even dimension always makes the final Matrix call throw, leaving the function padded |

## Left out

- generateUUID (Pohhnii.js:448-457) and MISC.shuffle (Pohhnii.js:265-268) use Math.random. The id generator is a parameter, an abstract stream of ids. Shuffling is not modelled.
- PolynomialRegressionModel.stringRepresentation (Pohhnii.js:336-351): string formatting with toFixed is not modelled.
- Floating point: numbers are exact reals plus ±Infinity and NaN. Rounding, signed zero and overflow to Infinity are not modelled.
- Math.exp, log, sin, cos, tan, tanh and cosh are left uninterpreted. Only Math.pow with an integer exponent is computed.
- SimpleNN and SimpleRecurrentModel (Pohhnii.js:1645 onwards) are not part of this model.
- console output is not modelled, including the warning add prints for each id already in use (Pohhnii.js:480). The value a `throw console.error(...)` (Pohhnii.js:1253, 1273, 1290-1341, 1354, 1550) or a `throw console.warn(...)` (Pohhnii.js:1596) throws is modelled as the error Undefined.
- A builder object that sits in two cells at once is modelled as two equal values. Aliasing between builder objects is not modelled; it can arise from overlapping getPart calls.
- FunctionSystems.FunctionSystem.Add, FunctionSystems.FunctionSystem.Subtract, FunctionSystems.FunctionSystem.Multiply, FunctionSystems.FunctionSystem.Devide, FunctionSystems.FunctionSystem.Pow, FunctionSystems.FunctionSystem.Max, FunctionSystems.FunctionSystem.Min: the operand is always an expression, the root that `getFunction()` hands out, as the documentation of br asks (Pohhnii.js:660-662). The model cannot express a builder object itself passed as the operand. In the source such an operand makes every later valueOf and derivative throw a TypeError: the node calls the builder's own valueOf or derivative with the reference object (Pohhnii.js:682-690). These treat that object as a binding id (Pohhnii.js:601-606, 612-617), and getParameter then reads `.Container` of undefined (Pohhnii.js:561-565).
- MatrixFunctions.MatrixFunction.CombineWith, MatrixFunctions.MatrixFunction.MatrixProduct: an operand cell that is a builder object, or missing, is refused at call time with a TypeError and the grid is left unchanged. In the source (Pohhnii.js:1288-1371) the call returns normally and every cell builder is grown around that operand; the TypeError comes only at the next valueOf or derivative, where the builder is passed to getParameter as an id and `.Container` of undefined is read (Pohhnii.js:561-565, 601-606). The model thus differs in when the error appears and in the grid it leaves.
- Matrices.Matrix.Set: writes past the end of data are not modelled. In the source they grow the array, leaving holes, so that rows · cols no longer equals its length.
- The trailing argument lists of valueOf, derivative and regression are lists of (id, value) pairs. An odd-length flat list is not modelled.
- FunctionSystems.RegressLeafRoot, FunctionSystems.ErrorOf: ids are assumed never to be numeric strings. The ids generateUUID makes (Pohhnii.js:448-457) never are, but a custom generator (Pohhnii.js:465-470) could make one. For such an id JavaScript converts the string: `"5" - y` is 5 − y and `"" - y` is −y, not the NaN the model gives.
- Store.UUIDContainer.Add: ids are assumed never to be names of Object.prototype properties such as "toString" or "constructor". The source's `typeof this.uuids[id] !== 'undefined'` test (Pohhnii.js:478) treats those as already in use and draws again; the model accepts them.
- Positional.ValueOf, Positional.Arg: a top-level `PARAMETER(k)` with k past the end of the arguments reads `undefined`, which valueOf returns unchanged (Pohhnii.js:68-70, 179-181). The model gives NaN there, the number that `undefined` computes as in arithmetic.
- Store.UUIDContainer.GetUUIDs: does not model the order of Object.keys, only which ids are listed.
- MatrixFunctions.MatrixFunction.Convolute: the model proves the output shape and the failure cases. It does not prove each output cell's value as a dot product.
- Expressions.Value: typeof checks on operands that are neither strings nor builders are not modelled. Operands are always a bare id or an expression.

## Findings

| source | as written | input that shows it | evidently intended | confidence | as-written member | corrected member |
|---|---|---|---|---|---|---|
| Pohhnii.js:1505-1509 | maxPooling reads each window cell with get(row, col), which does not check the column | A 2 × 3 grid [[0, 0, 0], [9, 0, 0]]: the right window reads (0, 3) as cell (1, 0) and pools to 9 | Places outside the grid count as −∞, so a pooled cell is the maximum of its window's cells inside the grid | not executed | MatrixCells.PoolingWrapsExample | MatrixCells.ClippedMaximum |
| Pohhnii.js:211-224 | pow's derivative always adds `Math.log(base) * derivative(exponent)`, even when the exponent's derivative is 0 | PolynomialRegressionModel.train(x, y) with x < 0: Math.log(x) is NaN, and NaN · 0 is NaN, so every parameter becomes NaN | A constant exponent contributes nothing, so train is a gradient-descent step for every finite x | not executed | Positional.TrainPoisoned | Positional.GuardedDescent |
