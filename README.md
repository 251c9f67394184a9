# Symbol table and value model of the extended calculator

This project models the core of the calculator's runtime in `symboltable-utils.h`:

- **Values** (`values.dfy`, module `Values`). The C `struct variable` is a union of `int`, `double` and `char *` with a separate `type` byte (1 = int, 2 = double, 3 = string, 0 = none, and 9 = the error tag that `sumOrConcat` returns). Here it is the sum type `Value = Undef | Int | Dbl | Str | Err`, so a payload can only be read through its own kind. The module holds the arithmetic operators `sumOrConcat`, `sub`, `mult`, `divide`, `inc` and `dec`, the comparisons `greaterNum`, `equal`, `lesserNum`, `neqNum`, `geqNum` and `leqNum`, and `varType`. Each operator is specified against two reference definitions. `ArithTag`/`SumTag` give the table of result tags: Int with Int stays Int, any Int/Double mix widens to Double, two strings concatenate, and everything else is an error. `Num` gives the mathematical number a numeric value stands for. `exit(0)` inside `divide`, `inc` and `dec` becomes the result `Exit(fault)`.
- **Symbol table** (`symbol_table.dfy`, module `SymbolTable`). The table is a `Table` object whose fields are the C globals `head` and `numberOfNodes`. Its nodes are `TableNode` objects linked by real `next` pointers. A ghost sequence `nodes` lists them from the head. `Valid()` says that `nodes` is the list reachable from `head`, that the counter equals its length and is at most `MAX_SIZE_SYMBOL_TABLE = 64`, and that ids are pairwise distinct. `FindOrAdd` walks the list in a `while` loop, as the C code does. Its effect on the ids is specified by the pure function `FindOrAddIds`, and the lemmas about that function state what the table promises.
- `wrappers.dfy` holds the `Option` type.

Modelling choices:
- C `int` is 32 bits and signed overflow is undefined, so `Int` payloads are `Int32`. Each integer operation requires that its exact result fits.
- `double` payloads are exact reals, so IEEE rounding is not modelled.
- C's `/` on `int` truncates toward zero. Dafny's `/` is Euclidean, so `TruncDiv` defines C's division, and its contract is the remainder rule of section 6.5.5 of ISO C99.
- Strings are their character content; `equal`'s `strcmp` is content equality.

Points where the C code's behaviour may be unexpected:
- In `sumOrConcat`, a string paired with a number, and any pairing with an `Undef` operand, gives the error tag 9.
- In `sub`, `mult`, `divide`, `inc` and `dec`, an `Undef` operand takes the C `else` branch, which reads a meaningless `double_val`; the model gives `Err`.
- `lesserNum` is literally `!equal && !greaterNum`. So it is true for every non-numeric pair except two equal strings, and `leqNum` is exactly `!greaterNum`. The contracts of `LesserNum` and `LeqNum` state this.

## Model

| member | source | states |
|---|---|---|
| Values.SumOrConcat | symboltable-utils.h:225-255 | Result kind follows the sum table: Int+Int gives Int, any Int/Double mix gives Double, Str+Str gives Str. Every other pairing, including any Undefined operand, gives tag 9. A numeric result equals the sum of the operands' numbers. A string result is the left operand's text followed by the right's. |
| Values.Sub | symboltable-utils.h:257-278 | Int exactly when both operands are Int, Double for any Int/Double mix. A numeric result equals the difference of the operands' numbers. |
| Values.Mult | symboltable-utils.h:280-302 | Same result-tag table as Sub. A numeric result equals the product of the operands' numbers. |
| Values.TruncDiv | symboltable-utils.h:311-313 | C integer division: the remainder is smaller than the divisor in magnitude and has the dividend's sign. |
| Values.TruncDivUnique | symboltable-utils.h:311-313 | Any quotient that obeys those remainder rules equals TruncDiv, so the rules pin down C's quotient. |
| Values.TruncDivOdd | symboltable-utils.h:311-313 | Truncating division is symmetric about zero in both dividend and divisor. |
| Values.TruncDivNonNegative | symboltable-utils.h:311-313 | For a non-negative dividend and a positive divisor, C's division agrees with Euclidean division. |
| Values.Divide | symboltable-utils.h:304-329 | Terminates with DivisionByZero exactly when the divisor is Int 0 or Double 0.0, whatever the dividend. Otherwise it follows the result-tag table of Sub: Int/Int gives the truncated quotient, and a Double result equals the real quotient. |
| Values.Inc | symboltable-utils.h:331-344 | A string terminates. Int and Double keep their kind and gain one. |
| Values.Dec | symboltable-utils.h:346-359 | A string terminates. Int and Double keep their kind and lose one. |
| Values.IncIsSumWithOne | symboltable-utils.h:331-344 | On numbers, inc is sumOrConcat with the integer 1. |
| Values.DecIsSubOne | symboltable-utils.h:346-359 | On numbers, dec is sub of the integer 1. |
| Values.IncDecRoundTrip | symboltable-utils.h:331-359 | dec undoes inc on every Int value, and on Double values taken as exact reals. |
| Values.SumOrConcatCommutesOnNumbers | symboltable-utils.h:234-249 | Numeric addition does not depend on operand order. |
| Values.ConcatAssociative | symboltable-utils.h:229-233 | Concatenation keeps the left operand as a prefix and is associative. |
| Values.GreaterNum | symboltable-utils.h:363-382 | True exactly when both operands are numeric and the first number is larger (Int widened to Double). False for any pairing with a string or Undefined. |
| Values.Equal | symboltable-utils.h:384-410 | True exactly for two numbers with equal value, or two strings with equal content. |
| Values.LesserNum | symboltable-utils.h:412-414 | On numbers, exactly "less than". On any other pair, true unless the two are equal strings. |
| Values.NeqNum | symboltable-utils.h:416-418 | On numbers, exactly "different value". On any other pair, true unless the two are equal strings. |
| Values.GeqNum | symboltable-utils.h:420-422 | On numbers, exactly "at least". On any other pair, true only for equal strings. |
| Values.LeqNum | symboltable-utils.h:424-426 | Always the negation of greaterNum. On numbers, exactly "at most". |
| Values.NumericTrichotomy | symboltable-utils.h:363-414 | For two numbers, exactly one of greaterNum, equal and lesserNum holds. |
| Values.IntComparisons | symboltable-utils.h:363-426 | On two Ints, the six comparisons coincide with C's >, ==, <, !=, >= and <=. |
| Values.NonNumericComparisons | symboltable-utils.h:363-414 | Undefined is never equal or greater. A string is never greater or lesser under greaterNum. With Undefined involved, lesserNum holds both ways. |
| Values.EqualIsSymmetric | symboltable-utils.h:384-410 | equal is symmetric, and reflexive exactly on Int, Double and String. |
| Values.GreaterNumIsStrictOrder | symboltable-utils.h:363-382 | greaterNum is irreflexive, asymmetric and transitive. |
| Values.VarType | symboltable-utils.h:186-207 | Tags 0-3 have a name and the error tag has none. Reading the name back gives the tag. |
| SymbolTable.IndexOf | symboltable-utils.h:75-86 | The walk from the head stops at the first node named s. The result is None exactly when s is absent. |
| SymbolTable.FindOrAddKeepsInvariant | symboltable-utils.h:33 | Lookup-or-insert keeps ids pairwise distinct and the table at most 64 long. |
| SymbolTable.FindOrAddContents | symboltable-utils.h:61-102 | Afterwards s is present unless the table was full. No other id is added or lost. The old ids are a prefix and at most one id is added. |
| SymbolTable.FindOrAddIdempotent | symboltable-utils.h:75-86 | Looking up the same name again changes nothing. |
| SymbolTable.IndexOfAppend | symboltable-utils.h:91-102 | Appending at the tail keeps every earlier name at its position. |
| SymbolTable.FindOrAddPositions | symboltable-utils.h:79-102 | Old names keep their positions, and a new name is found at the old length. |
| SymbolTable.TableNode.constructor | symboltable-utils.h:92-96 | A fresh node has the given id, no declared type, no value and no successor. |
| SymbolTable.Table.constructor | symboltable-utils.h:29-35 | The table starts empty: null head and a counter of 0. |
| SymbolTable.Table.AddNode | symboltable-utils.h:91-102 | Links a fresh node after the last one and increments the counter. The node has the given id and both flags false. The last node's other fields are unchanged, and the invariant is kept. |
| SymbolTable.Table.FindOrAdd | symboltable-utils.h:61-88 | The ids become FindOrAddIds of the old ids. A returned node is in the table, has the given id, and is the node at IndexOf's position, the first one named s on the walk from the head. If the name was present, the list, head and counter are unchanged. On an empty table, a new head node is created and the counter becomes 1. If the name is absent and there is room, exactly one fresh node is appended at the tail, with both flags false, and the counter goes up by one. No failure occurs otherwise. Earlier nodes keep their flags and values, and only the old tail's next pointer changes. |

## Left out

- `printNode`, `printTable`, `recPrintTable`, `printResult`, and the `printf` diagnostics in `findOrAdd` and the operators: console output only.
- `table_init`: it only decides whether `printTable` prints.
- The `fromID` byte of `struct variable`: no core operation reads or writes it.
- `malloc`/`strdup` memory management. Ids are immutable values here.
- SymbolTable.Table.FindOrAdd: when the table is full and the name is absent, the C loop steps to a NULL node and calls `strcmp` on it, which is undefined behaviour. The model returns `None` instead.
- SymbolTable.Table.AddNode: requires the name to be absent and the table below capacity. Its only caller, `findOrAdd`, guarantees both, and the uniqueness invariant needs them.
- SymbolTable.TableNode.constructor: the C node's `value` is left uninitialised. The model sets it to `Undef`, since it is meaningless until `initialised` is set.
- Values.SumOrConcat: `strcat` writes the concatenation into the left operand's buffer, so the left operand is overwritten and its buffer may overflow. The model returns a fresh string and leaves both operands unchanged.
- Values.Sub: for any pairing in which an operand is neither Int nor Double, the C code's `else` branch reads `double_val` from that operand, which gives a meaningless number. The model returns `Err`.
- Values.Mult: same wrong-field read as `sub`. The model returns `Err`.
- Values.Divide: same wrong-field read as `sub`. The model returns `Done(Err)`. The zero test also reads both union fields regardless of the tag. For example, a Double divisor whose low 32 bits are zero, such as 2.0 on a little-endian machine, would also be refused. The model tests the divisor only through its own kind, because the model has no bit layout for doubles.
- Values.Inc: the C code treats every non-Int, non-String value as a Double and reads a meaningless payload. The model returns `Done(Err)` for `Undef` and `Err`.
- Values.Dec: same as `inc`.
- Values.VarType: for a tag outside 0-3, the C function returns an uninitialised pointer. The model returns `None`.
- Floating point: double payloads are exact reals, so rounding, infinities and NaN are not modelled.
- Declaration and assignment resolution (typed, untyped and shorthand assignment) is not part of this model.
