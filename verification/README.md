# A verified model of a character-package toolchain

The repository analyses character packages: it lexes and parses definition and
state files, evaluates trigger expressions as far as the inputs allow, resolves
state and command references across files, caches whole analyses, and edits the
files of a package in one transaction. This project models those parts and
proves what they are for. `dafny verify dfyconfig.toml` checks everything.

| module | models |
|---|---|
| `ExprSyntax`, `ExprLexer`, `StringLiterals`, `ExprParser`, `Int64`, `ExprEval` | the expression language: tokens, scanning loop, string literals with all their escapes, recursive-descent parser object, 64-bit arithmetic, partial evaluator |
| `ExprLaws`, `ExprTexts`, `ExprErrors`, `ExprMeaning` | the laws of the evaluator's operators and leaves, and what whole texts parse to, fail with and evaluate to |
| `ExprGrammar`, `ExprSoundness`, `ExprPrinter` | the layered grammar as derivation trees, the proof that the parser decides it, and a printer with fewest parentheses |
| `PatchPaths`, `PatchSpan`, `PatchEdits`, `PatchPreview`, `PatchLaws` | paths and links, span checks, back-to-front splicing, grouping by file, and what a file and a path can rely on |
| `PatchDisk`, `PatchRecovery`, `PatchStates`, `PatchStaging`, `PatchCommit` | a disk whose operations may fail, recovery, the disks a commit goes through, and the stage, backup, journal, replace and clean-up protocol with rollback |
| `PatchOutcome`, `PatchTransaction`, `PatchCrashes` | what a commit makes of each file, the whole of an atomic patch, and runs that do harm |
| `Workspace`, `WorkspaceLaws`, `Coordinator`, `Closure`, `Invalidation` | the loader and what a load holds, the analysis cache over it, and the incremental invalidation of the repository store |
| `Lines`, `Adapter`, `AdapterLaws`, `PackageResolution` | line splitting, the pairing of `type` and `value` lines, package-scoped resolution |
| `JsonDiff`, `JsonOrder`, `Framing` | the snapshot comparison, the order of its report, and the language-server frames |
| `Wrappers`, `Ordering`, `Text`, `TextLaws`, `StringTables`, `LetterCase`, `Hashing` | option and result types, sorting, the string routines used and their tables by number, lower-casing, hashes |

Code that changes state step by step is a class or a method with loops, proved
against a function that says what it computes; the lemmas are about those
functions. The modules named `Laws`, `Texts`, `Errors`, `Meaning`, `Tables` and
`Order` say what they mean without naming the helpers they are made of. The lexer, the parser, `prepare`, `Resolve`, `splitLines`,
`FromSyntax`, `diffJSONValues`, `ReadFrame`, `ChangedDocuments` and
`TransitiveDependents` are of this kind, and so are the cache (`Coordinator`)
and the disk (`PatchDisk.Disk`), whose operations may fail at any point.

Conventions. A string is a sequence of bytes, each the character of its code.
SHA-256 is injective. JSON validity, float parsing, `strings.ToLower` beyond ASCII
(`LetterCase.TO_LOWER`), the parsing of a source file and the resolver as the cache
sees it are parameters. White space is that of `unicode.IsSpace` over UTF-8.
The disk is a map from names to files. A ghost trail holds every state it has been
in, so "stopped at any step" means "any element of the trail"; a ghost log holds
every operation with its outcome, a fault being one that failed although the disk
allowed it. What an operation promises is stated over that log: a commit succeeds
if and only if no fault stopped it, a rollback restores everything if and only if no
rename in it was a fault. Where the code reads a Go map in no fixed order, the
model picks any order.

## What turned out not to hold

Each of these is a lemma with a concrete input, an exact condition, or both.

- A crash between the backup rename and the journal entry that lists it leaves a
  file that recovery does not bring back. Recovery restores every target if and only
  if none is in that window (`CrashRecovery`); every completed commit takes every
  target through it (`Commit`, by `Exposed`), and `WindowExample` reaches it by a run
  of the program (internal/patch/patch.go:334-342).
- A crash inside the clean-up loop leaves one file new and another old
  (`CleanUpRecovery`, `CleanUpMixExample`), which every clean-up of two targets
  passes through unless its first removal fails (internal/patch/patch.go:351-354).
- A patch begun while an earlier one is unfinished forgets it: its first journal
  entry is empty, and it removes the backups it finds. `EarlierCommitForgotten` says
  of which files the original is lost, `EarlierCommitExample` is a run
  (internal/patch/patch.go:288-290, 333).
- Two paths of one patch can name the same file, because a canonical path that
  begins or ends with white space is trimmed once more when it is resolved: "./ x" and
  "x", or the same with U+00A0 (`CanonicalTwiceIff`, `BlankPath`). The targets of an
  accepted patch are distinct if and only if no two of its paths name one file
  (`PreparedTargets`), which is so when no canonical path of it begins or ends with
  white space (`TrimmedPathsSuffice`). Where two do, there is a disk with the patch
  applied if and only if they make the same text of the file (`ApplicableIff`;
  `SharedFileExample` is an accepted patch without any), and a commit without any
  fault ends in such a disk under the same condition (`FinishedAppliesIff`,
  `ApplyAtomic`). But it is not all or nothing: the second turn removes the backup of
  the original, so that recovery does not bring it back (`SharedTarget`), and a
  rollback leaves nothing of the file (`SharedRollback`;
  internal/patch/patch.go:217-230, 293-298, 333).
- A column so large that adding it to the start of its line wraps around ends in a
  panic: the sum is negative and used as an index. `ValidateSpan` says exactly when,
  `OverflowExample` is an input, and `SmallColumnsAreSafe` leaves a margin
  (internal/patch/patch.go:188-203).
- Package roots are sorted by their length as written and compared in lower case,
  which can change the length. Every path finds its deepest root if and only if, of two
  roots one below the other, the deeper is listed first (`DeepestIff`); so do roots
  whose length lower-casing keeps (`LongestIsDeepest`), ASCII ones among them, but not
  those of `ShallowerRootExample` (internal/semantics/semantics.go:367-383).
- The staged temporary file stays behind exactly when the journal cannot be
  written after the backup, the target cannot be replaced, or removing it fails
  (`ReplaceOne`, by `LeftFor`; internal/patch/patch.go:342-349).
- `Recover` takes any error of `Stat` for a missing backup and then removes the
  journal. Having completed, it has put everything back if and only if `Stat` missed
  nothing (`Recover`, by `RecoversFrom`; internal/patch/patch.go:418-427).
- The cache answers as long as every recorded hash is current. That answer is the
  fresh one if and only if a load of now would load the same paths and report the same
  (`EntryFreshIffSameReport`); where lookups lead to the same paths, if and only if no
  file that the recorded load missed has appeared (`EntryFreshIff`). A root and a
  source that appear, and a file that shadows a loaded one, are the failing inputs
  (`AppearingRootExample`, `AppearingSourceExample`, `ShadowingFileExample`;
  internal/service/service.go:160-191).
- A literal written without escapes keeps its bytes if and only if they are UTF-8
  (`RawTextIff`; the byte FF in `RawByteExample`). Escaped literals reach every byte
  string.
- Printing a parsed expression and parsing it again gives the same tree if and
  only if the lower-cased text of every identifier of the source is identifier text
  again (`ParsePrintParse`). That is so of ASCII sources (`AsciiSurvives`) and not of
  the name with bytes C4 AA, whose lower case holds a byte the lexer refuses
  (`MacronExample`; internal/expr/expr.go:720, 905-914).
- The numbers 1 and 1.0 are reported as different: one is read as an integer, the
  other as a float (`OneIsNotOnePointZero`, with the exact condition in
  `SameFloatIff`; internal/oracle/oracle.go:206-213).
- `ChangedDocuments` overlooks an added document whose hash is empty
  (`ChangedIffDiffers`; internal/repository/query.go:83-87).
- Splitting a join does not return the single empty line, nor a list where an
  empty LF line follows a CR ending (`SplitJoinIff`).
- `||` evaluates its right operand even when the left one is true, so an
  unsupported right operand spoils the result, unlike `&&`
  (`DeMorgan`; internal/expr/expr.go:318-350).
- A number outside the ranges of int64 and float64 compares equal to a text of
  the same characters (`NormalizedEqual`; internal/oracle/oracle.go:206-213).

## Model

| member | source | states |
|---|---|---|
| ExprLexer.LexSource | internal/expr/expr.go:871-996 | the scanning loop returns the tokens and errors of reading the source turn by turn, for every byte string |
| ExprLexer.ScanOne | internal/expr/expr.go:876-996 | one turn of the loop: it consumes at least one byte and adds exactly one space, token or error |
| ExprLexer.TurnOf | internal/expr/expr.go:876-996 | every turn consumes at least one byte and never more than there are, so scanning ends |
| ExprLexer.Run | internal/expr/expr.go:883-914 | the run of digits or identifier bytes taken is the longest: all its bytes qualify and the next does not |
| ExprLexer.ScanString | internal/expr/expr.go:891-904 | the loop stops at the first quote that no backslash protects, or at the end of the source |
| ExprLexer.SymbolLongest | internal/expr/expr.go:917-996 | an operator is recognised exactly when one is spelled there, and the longest one spelled there is taken |
| ExprLexer.LexProducesLexemes | internal/expr/expr.go:871-996 | every token has a text of the shape of its kind; none is the end token |
| ExprLexer.LexJoin | internal/expr/expr.go:871-996 | any list of well-shaped tokens, joined by single spaces, lexes back to that list without errors |
| StringTables.SpaceBytes | internal/expr/expr.go:876-880 | the bytes between tokens, by their codes |
| StringTables.NameBytes | internal/expr/expr.go:1000-1006 | the bytes a name begins with and goes on with, by their codes |
| ExprParser.Parse | internal/expr/expr.go:212-222 | returns exactly one of a tree and a non-empty error list, whatever the source, and the one the parse functions define; `ExprTexts` and `ExprErrors` say which for whole texts |
| ExprParser.Parser.Level | internal/expr/expr.go:517-660 | the parse method of a binary level leaves the cursor, tree and errors its function prescribes, and terminates on every token list |
| ExprParser.Parser.LevelTail | internal/expr/expr.go:522-531 | the operator loop builds the tree to the left and stops with an error when a right operand is missing |
| ExprParser.Parser.Unary | internal/expr/expr.go:662-684 | prefix operators nest to the right; a missing operand is reported after its own errors |
| ExprParser.Parser.Primary | internal/expr/expr.go:686-820 | literals, parentheses and names consume what the grammar gives them; every other token is consumed with one error |
| ExprParser.Parser.Named | internal/expr/expr.go:718-813 | a name is dispatched by its lower-cased text |
| ExprParser.Parser.VarCall | internal/expr/expr.go:722-735 | `var` needs an opening parenthesis, an index and a closing one, each with its own error |
| ExprParser.Parser.Random | internal/expr/expr.go:736-748 | `random` always yields a tree; arguments are skipped to the next closing parenthesis with an error |
| ExprParser.Parser.Cond | internal/expr/expr.go:761-790 | `cond` reads a condition and its first comma, then the branches |
| ExprParser.Parser.Branches | internal/expr/expr.go:773-790 | the two branches of `cond`, their comma and the closing parenthesis, each with its own error |
| ExprParser.Parser.Call | internal/expr/expr.go:791-813 | any other name, with or without an argument list, becomes an unsupported node holding the arguments that parsed |
| ExprParser.Parser.Arguments | internal/expr/expr.go:793-805 | the argument loop keeps the arguments that parsed, in order, and all errors |
| ExprParser.LiteralSaturates | internal/expr/expr.go:694-697 | a literal is read as its value, saturated at the largest int64 |
| ExprTexts.FullTextParses | internal/expr/expr.go:212-222 | every tree parses from its text with all operations in parentheses, so every operator, keyword, call and literal is read as it is spelled |
| ExprTexts.PrecedenceText | internal/expr/expr.go:517-660 | of two operators without parentheses between them the second takes the middle operand exactly when it binds more tightly by the table of precedences; equal ones go to the left |
| ExprTexts.PrefixText | internal/expr/expr.go:662-684 | a prefix operator binds more tightly than any binary one |
| ExprErrors.MissingRightText | internal/expr/expr.go:517-660 | an operator at the end of a text: the missing expression, then the missing right operand of that operator |
| ExprErrors.MissingOperandText | internal/expr/expr.go:662-684 | a prefix operator at the end of a text |
| ExprErrors.EmptyText | internal/expr/expr.go:212-222 | the one error of an empty text |
| ExprErrors.UnclosedText | internal/expr/expr.go:706-717 | the one error of a parenthesis left open |
| ExprErrors.TrailingText | internal/expr/expr.go:212-222 | the one error of a whole expression with more after it |
| ExprErrors.UnterminatedText | internal/expr/expr.go:891-904 | a literal left open: the error of the lexer, then that of the missing expression |
| ExprErrors.UnexpectedByteText | internal/expr/expr.go:990-993 | a byte that begins no token: the error of the lexer, then that of the missing expression |
| ExprErrors.BareKeywordTexts | internal/expr/expr.go:722-765 | `var`, `cond` and `pos` alone: what each asks for |
| ExprErrors.OpenedTexts | internal/expr/expr.go:722-772 | `var` and `cond` with nothing after the parenthesis |
| ExprErrors.UnclosedVarText | internal/expr/expr.go:722-735 | `var` whose index is not closed |
| ExprErrors.RandomTexts | internal/expr/expr.go:736-748 | `random` with an argument, closed and left open: the errors in their order |
| ExprErrors.BrokenCondTexts | internal/expr/expr.go:761-790 | `cond` broken off before its first comma, its second and its closing parenthesis |
| ExprErrors.MissingBranchTexts | internal/expr/expr.go:773-790 | `cond` broken off after a comma: the missing expression, then the missing branch |
| ExprErrors.UnclosedCallText | internal/expr/expr.go:791-813 | a call that is not closed |
| ExprErrors.UnexpectedTexts | internal/expr/expr.go:815-820 | a mark no expression begins with |
| ExprErrors.InvalidStringText | internal/expr/expr.go:698-705 | a literal with an escape there is not |
| ExprGrammar.Complete | internal/expr/expr.go:517-820 | completeness: whatever a level of the grammar derives, the parse function of that level reads as its meaning, without errors, and leaves what follows |
| ExprGrammar.CompletePrimary | internal/expr/expr.go:686-820 | completeness for literals, parentheses, names and calls |
| ExprSoundness.SoundLevel | internal/expr/expr.go:517-660 | soundness: a parse without errors read exactly the tokens of a derivation of its level, and the tree is what it stands for |
| ExprSoundness.SoundPrimary | internal/expr/expr.go:686-820 | soundness for literals, parentheses, names and calls |
| ExprSoundness.ParseDecidesGrammar | internal/expr/expr.go:212-222 | `Parse` returns a tree if and only if the source lexes cleanly and all its tokens are derived by the grammar with that meaning |
| ExprSoundness.GrammarUnambiguous | internal/expr/expr.go:517-820 | the layered grammar gives a source at most one tree |
| ExprPrinter.QuoteRoundTrip | internal/expr/expr.go:698-705 | every byte string has a literal, UTF-8 or not; the lexer takes it as one token, and unquoting it gives the string back |
| StringLiterals.UnquoteEscape | internal/expr/expr.go:698-705 | escaping any byte string and reading the escapes gives it back |
| StringLiterals.RawTextIff | internal/expr/expr.go:698-705 | a literal without escapes keeps its bytes exactly when they are UTF-8 |
| StringLiterals.RawByteExample | internal/expr/expr.go:698-705 | the lone byte FF is read as the three bytes of the replacement character |
| StringLiterals.EncodedIsRune | internal/expr/expr.go:698-705 | a rune written as an escape comes out as the UTF-8 of a rune, whatever follows |
| StringTables.EncodeDecode | internal/expr/expr.go:698-705 | the bytes of a rune, weighed as UTF-8 does, give its number back |
| StringTables.NamedEscapes | internal/expr/expr.go:698-705 | the byte each one-letter escape stands for, by its number |
| StringTables.HexDigitValues | internal/expr/expr.go:698-705 | the value of each hexadecimal digit, in both letter cases |
| StringTables.OctalEscape | internal/expr/expr.go:698-705 | three octal digits weigh 64, 8 and 1, and above 255 there is no such escape |
| StringTables.RuneEscape | internal/expr/expr.go:698-705 | four hexadecimal digits weigh as they should and come out as the UTF-8 of that rune; surrogates are refused |
| ExprPrinter.ParseBuilds | internal/expr/expr.go:212-222 | which trees parsing can return, and that their names can be written exactly when the lower-cased identifiers of the source can |
| ExprPrinter.DeriveCorrect | internal/expr/expr.go:517-820 | the printed derivation is one of the grammar, stands for the tree and consists of lexemes |
| ExprPrinter.PrintParse | internal/expr/expr.go:517-820 | round trip: every tree the parser can build, whose names can be written, prints to text that parses back to it |
| ExprPrinter.PrintParseIff | internal/expr/expr.go:517-820 | a tree the parser can build survives printing and parsing exactly when its names can be written as identifiers |
| ExprPrinter.ParsePrintParse | internal/expr/expr.go:212-222 | printing what was parsed and parsing it again gives the same tree exactly when the lower-cased text of every identifier of the source is identifier text |
| ExprPrinter.AsciiSurvives | internal/expr/expr.go:212-222 | sources with ASCII identifiers always survive |
| ExprPrinter.OneNameSurvivesIff | internal/expr/expr.go:718-813 | a source that is one name survives exactly when its lower-cased text is a name |
| ExprPrinter.MacronExample | internal/expr/expr.go:718-813 | the name with bytes C4 AA parses and does not survive |
| ExprPrinter.PrintMinimal | internal/expr/expr.go:517-660 | no derivation of the tree at that level has fewer tokens than the printed one |
| Int64.WrapUnique | internal/expr/expr.go:417-423 | 64-bit wrap-around picks the only int64 congruent modulo 2^64 |
| Int64.DivModLaw | internal/expr/expr.go:424-435 | l = (l / r) * r + l % r in 64-bit arithmetic and |l % r| < |r| with the sign of l, MinInt64 / -1 included |
| Int64.ExactDivision | internal/expr/expr.go:424-435 | away from MinInt64 / -1 division does not wrap and the law holds over the unbounded integers |
| ExprEval.Stable | internal/expr/expr.go:225-457 | a result that is not dynamic stays the same when any input is added |
| ExprEval.Completable | internal/expr/expr.go:225-457 | for every tree and inputs, some way of adding inputs makes the result definite |
| ExprEval.DynamicIffUndecided | internal/expr/expr.go:225-457 | a result is dynamic exactly when adding inputs can still change it |
| ExprEval.SuppliedNeverDynamic | internal/expr/expr.go:225-457 | with every input the tree reads supplied, the result is never dynamic |
| ExprEval.OverflowOnlyWraps | internal/expr/expr.go:282-435 | a tree of sums, differences, products and negations evaluates to its unbounded value wrapped once to 64 bits |
| ExprEval.WrappingOperators | internal/expr/expr.go:403-423 | `+`, `-` and `*` on integers are exact modulo 2^64 |
| ExprEval.DivisionOperators | internal/expr/expr.go:403-435 | `/` and `%` give the truncated quotient and its remainder |
| ExprEval.DivisionTreeLaw | internal/expr/expr.go:403-435 | for operands that are integers, (l / r) * r + l % r evaluates to l exactly when r is not zero, and is unsupported otherwise |
| ExprEval.ComparisonTurned | internal/expr/expr.go:351-400 | any two trees may change sides when the comparison is turned around, whatever their results; `=` is `==` |
| ExprEval.ComparisonNegated | internal/expr/expr.go:351-400 | `>=` is the opposite of `<` and `!=` of `==`, for any two trees |
| ExprEval.SmallerOrEqual | internal/expr/expr.go:351-400 | `<=` of any two trees equals `<` or `==`; two trees that are `<=` both ways are equal integers (`OrderMeasures` fixes the direction) |
| ExprEval.ComparisonChains | internal/expr/expr.go:351-400 | `<=` chains, strictly as soon as one link is strict |
| ExprEval.EqualityLaws | internal/expr/expr.go:351-377 | two trees are equal exactly when they have one and the same finite value; a tree equals itself exactly when it has one; equality is transitive |
| ExprEval.LogicalOperators | internal/expr/expr.go:304-350 | given the truth of the left operand: what `&&` and `||` make of every right one, unsupported and without a truth included |
| ExprEval.DeMorgan | internal/expr/expr.go:282-350 | exactly when negating `&&` equals `||` of the negations |
| ExprEval.ConditionSelects | internal/expr/expr.go:262-274 | `cond` takes the branch of its truth whatever the other branch is; negating it swaps the branches |
| ExprLaws.OrderMeasures | internal/expr/expr.go:378-402 | `<`, `<=`, `>` and `>=` of two integers say on which side of zero their exact difference lies |
| ExprLaws.EqualityMeasures | internal/expr/expr.go:351-377 | `==`, `=` and `!=` of two integers say whether their difference is zero |
| ExprLaws.SuccessorIsLarger | internal/expr/expr.go:390-419 | an integer is smaller than itself plus one exactly when it is not the largest |
| ExprLaws.TruthOfValues | internal/expr/expr.go:459-468 | the truth of a condition: of an integer that it is not zero, of a boolean itself, of a text none |
| ExprLaws.LogicOfIntegers | internal/expr/expr.go:306-350 | `&&` and `||` of two integers |
| ExprLaws.NegationMeans | internal/expr/expr.go:294-298 | negation is exact but for the smallest integer, which it leaves |
| ExprLaws.LiteralValues | internal/expr/expr.go:229-232 | literals have their own value |
| ExprLaws.InputsAreRead | internal/expr/expr.go:239-261 | each input that is supplied is the value of the expression that reads it, and its absence makes that dynamic for its own reason |
| ExprLaws.VariablesAreRead | internal/expr/expr.go:441-457 | `var` reads the entry its index names; an absent entry or table makes it dynamic |
| ExprLaws.RefusedNames | internal/expr/expr.go:249-276 | any axis but `y` and any other name is refused |
| ExprLaws.OperandsDecide | internal/expr/expr.go:351-435 | an unsupported operand decides a comparison or an arithmetic operation; otherwise a dynamic one leaves it open |
| ExprLaws.ValuesRefused | internal/expr/expr.go:351-435 | values an operation cannot take, zero divisors included, are refused each for its own reason |
| ExprLaws.LogicRefused | internal/expr/expr.go:294-317 | a logical operator passes on a left operand without a value and refuses a text |
| ExprLaws.PassedOn | internal/expr/expr.go:262-287 | prefix operators, indexes and conditions pass on an operand without a value |
| ExprMeaning.NumberText | internal/expr/expr.go:694-697 | a printed number evaluates to itself, saturated at the largest int64 |
| ExprMeaning.ComparisonTexts | internal/expr/expr.go:351-402 | from text to value: the seven comparison signs between any two expressions that are integers |
| ExprMeaning.LogicTexts | internal/expr/expr.go:306-350 | from text to value: `&&` and `||` |
| ExprMeaning.ArithmeticTexts | internal/expr/expr.go:403-423 | from text to value: sums, differences and products that fit 64 bits are exact |
| ExprMeaning.DivisionTexts | internal/expr/expr.go:403-435 | from text to value: `/` and `%` give a quotient and a remainder, and are refused for a zero divisor |
| PatchSpan.PositionFor | internal/expr/expr.go:1021-1039 | the newline-counting position of any index, clamped to the source |
| PatchSpan.PositionIncreasing | internal/expr/expr.go:1021-1039 | positions grow strictly with the offset |
| PatchSpan.PositionFromStarts | internal/patch/patch.go:179-185 | line starts and newline counting give the same positions |
| PatchSpan.LineByteOffsets | internal/patch/patch.go:179-213 | a pair of positions resolves to exactly the offsets they name, to none when they name none, and to a panic exactly when a column overflows |
| PatchSpan.ReachesIffNames | internal/patch/patch.go:189-206 | resolving a position gives offset i exactly when i has that position, no CR lies before it on its line and no rune is cut |
| PatchSpan.ValidateSpan | internal/patch/patch.go:163-177 | accepts exactly the spans in range that have no positions, or positions naming both ends, and panics exactly when resolving them overflows |
| PatchSpan.OverflowIsNegative | internal/patch/patch.go:198-203 | the 64-bit sum of a line start and a column is negative exactly when it overflows, and is the sum otherwise |
| PatchSpan.OverflowExample | internal/patch/patch.go:188-203 | the largest column on the second line of three bytes ends in the panic |
| PatchSpan.SmallColumnsAreSafe | internal/patch/patch.go:163-213 | columns that leave room for the size of the data never do |
| PatchSpan.PositionsDecideOffsets | internal/patch/patch.go:163-213 | two accepted spans with the same positions have the same offsets |
| PatchPaths.CanonicalStaysInside | internal/patch/patch.go:217-227 | a canonical path consists of ordinary names only, so it never leaves its root |
| PatchPaths.CanonicalTwiceIff | internal/patch/patch.go:217-233 | a canonical path is its own canonical path exactly when it neither begins nor ends with white space |
| PatchPaths.BlankPath | internal/patch/patch.go:217-233 | for any white space w, the path of "./", w and "x" is canonical as w and "x", which is resolved as "x" |
| PatchPaths.ResolvedIffInside | internal/patch/patch.go:229-252 | a path is resolved, to its canonical form, exactly when it has one and that, with links followed, lies below the root; and which of the two errors it ends in otherwise |
| PatchLaws.DetoursVanish | internal/patch/patch.go:217-227 | going into a directory and out again, or staying where one is, changes no canonical path |
| PatchLaws.CleanedBelow | internal/patch/patch.go:217-227 | below a directory a path is cleaned as it is on its own |
| PatchLaws.OutsideRefused | internal/patch/patch.go:217-227 | an absolute path, an empty one and one that begins by climbing have no canonical form, whatever follows |
| PatchEdits.CheckAll | internal/patch/patch.go:116-134 | returns the error of the first edit, in listing order, that fails a check |
| PatchEdits.Overlapping | internal/patch/patch.go:148-152 | true exactly when two neighbours in span order overlap |
| PatchEdits.AdjacentIsPairwise | internal/patch/patch.go:148-152 | checking neighbours suffices: any edit ends before every later one starts |
| PatchEdits.PatchFile | internal/patch/patch.go:114-158 | one file: first failing check, else overlap error, else the simultaneous replacement |
| PatchEdits.SpliceBackwards | internal/patch/patch.go:153-157 | the descending loop yields the untouched gaps of the original interleaved with the new texts |
| PatchEdits.InterleaveLength | internal/patch/patch.go:153-157 | the result is longer than the original by exactly what the edits add |
| PatchEdits.UndoRestores | internal/patch/patch.go:153-157 | applying the inverse edits to the result gives the original back, for any non-overlapping edits |
| PatchEdits.PatchedUndo | internal/patch/patch.go:91-158 | an accepted patch has that length and is undone by its inverse edits |
| PatchEdits.PatchedOrderFree | internal/patch/patch.go:91-158 | for one file, acceptance and bytes do not depend on the listing order, ties included |
| PatchLaws.RejectedFor | internal/patch/patch.go:116-134 | the first edit to fail a check decides, and its checks run in this order: hash, contract, span, old text |
| PatchLaws.AcceptedWhenDisjoint | internal/patch/patch.go:148-152 | edits that pass all checks are accepted exactly when no two overlap, else the error is the overlap |
| PatchLaws.TextsInPlace | internal/patch/patch.go:153-157 | every new text stands where its span was, moved by what the edits before it add, and the untouched text follows it |
| PatchLaws.InsertionsInOrder | internal/patch/patch.go:135-147 | two insertions at one place come in the byte order of their texts, however they are listed |
| PatchPreview.Prepare | internal/patch/patch.go:87-161 | the previews of all files in path order, or the first error, links included; `PreviewOf` says what each holds |
| PatchPreview.PreviewOf | internal/patch/patch.go:108-158 | every preview of an accepted patch has the bytes its edits make of the file its path names, the hash of those bytes as the new one, and as the old one the hash of the file, which every edit of that file carries |
| PatchPreview.NextPatchHash | internal/patch/patch.go:115-121 | with the bytes of a preview in place, a further edit of that file passes the hash check exactly when it carries the new hash of the preview |
| PatchPreview.GroupEdits | internal/patch/patch.go:91-98 | groups edits by canonical path in listing order; refuses when a path has none |
| PatchPreview.PreparedDistinct | internal/patch/patch.go:99-105 | every file is previewed once, in strictly increasing path order |
| PatchPreview.PreparedOkIff | internal/patch/patch.go:87-161 | a patch is accepted exactly when all its paths are canonical and each of its files is accepted on its own |
| PatchPreview.PreparedRefused | internal/patch/patch.go:87-134 | a path without a canonical form refuses the patch before any file is read; else the first refused file in path order decides: its path leads out of the root, it cannot be read, or its edits are refused |
| PatchPreview.TrimmedPathsSuffice | internal/patch/patch.go:217-233 | no two paths of a patch name one file when no canonical path begins or ends with white space |
| PatchPreview.PreparedOrderFree | internal/patch/patch.go:87-161 | a whole patch: acceptance, files, hashes and bytes do not depend on the listing order |
| PatchDisk.Disk.Do | internal/patch/patch.go:278-427 | an operation that is possible happens or is logged as a fault and changes nothing; an impossible one changes nothing; the log and the trail grow by it |
| PatchTransaction.ApplyAtomic | internal/patch/patch.go:278-356 | a rejected patch touches nothing; an accepted one succeeds exactly when no fault stops it and otherwise names the phase of the faults; without any fault no backup and no journal is left and the patch is applied exactly when its paths agree about shared files; where no two paths name one file, success means applied, an error means every file is as it was unless a backup could not be moved back, and every state on the way is recoverable or in clean-up |
| PatchTransaction.PreparedTargets | internal/patch/patch.go:99-161 | the targets of an accepted patch are the files it touches, all there, distinct exactly when no two of its paths name one file |
| PatchTransaction.CommitApplies | internal/patch/patch.go:278-356 | committing the previews of an accepted patch applies it |
| PatchTransaction.FinishedAppliesIff | internal/patch/patch.go:278-356 | a commit without any fault applies an accepted patch exactly when its paths agree about the files they share |
| PatchTransaction.ApplicableIff | internal/patch/patch.go:217-356 | some disk has an accepted patch applied exactly when its paths agree about the files they share |
| PatchTransaction.OneFileEachAgrees | internal/patch/patch.go:217-233 | paths agree when no two of them name one file |
| PatchTransaction.NextPatch | internal/patch/patch.go:115-158 | so patches chain: on a disk that has a patch applied, an edit of one of its files passes the hash check exactly when it carries the new hash |
| PatchOutcome.FinishedAt | internal/patch/patch.go:299-354 | what a commit without any fault makes of each file: the bytes of its last replacement under the old mode and no backup, all else undisturbed |
| PatchTransaction.SharedFileExample | internal/patch/patch.go:217-233 | for any white space, an accepted patch that no disk can hold applied, because two of its paths name one file |
| PatchCommit.Commit | internal/patch/patch.go:278-356 | completes exactly when no fault stops it and all targets are there, otherwise names the phase the faults belong to; completed, it has done its script in order, leaving the finished disk when nothing failed; where no file is replaced twice, every earlier state is pending, every later one in clean-up, what is left over is what could not be removed, and where crashes would do harm is passed through |
| PatchCommit.ReplaceAll | internal/patch/patch.go:299-350 | turn after turn until one fails: the disk after all turns, or the failure of that turn |
| PatchCommit.ReplaceOne | internal/patch/patch.go:299-350 | one file: the disk after the turn and its ten operations, or a failure for a cause, its staged file left exactly when the journal or the replacement failed; where no file is replaced twice, committed, or rolled back exactly when no backup got stuck |
| PatchStaging.StageOne | internal/patch/patch.go:305-331 | stages the bytes under the old mode, touching nothing else; on a failure nothing is left, unless removing the staged file failed too |
| PatchCommit.BackUp | internal/patch/patch.go:332-337 | removes a stale backup, then moves the target; each state on the way is pending |
| PatchCommit.ListAndReplace | internal/patch/patch.go:338-349 | lists the backup in the journal, then replaces the target; rolls back when either fails |
| PatchCommit.MoveIntoPlace | internal/patch/patch.go:346-349 | the last operation of a turn replaces the target or rolls everything back |
| PatchCommit.Rollback | internal/patch/patch.go:293-298 | every target is as it was exactly when none of the renames was a fault |
| PatchCommit.CleanUp | internal/patch/patch.go:351-354 | removes backups and journal, which are all gone when nothing fails; where no file is replaced twice, what is left is exactly what could not be removed and every state on the way has all targets committed |
| PatchStates.CrashRecovery | internal/patch/patch.go:299-350 | stopped anywhere before clean-up, recovery restores every target exactly when none was caught between backup and journal entry |
| PatchStates.CleanUpRecovery | internal/patch/patch.go:351-354 | stopped during clean-up, exactly the targets whose backup is still there under a journal go back |
| PatchStates.RolledBackRecovery | internal/patch/patch.go:293-298 | after a clean rollback recovery only removes the journal |
| PatchStates.EarlierCommitForgotten | internal/patch/patch.go:288-333 | recovery after a commit begun over an unfinished one gives the same file as before it exactly where no backup was waiting or it equals what stood there |
| PatchRecovery.Recover | internal/patch/patch.go:408-427 | completes exactly when no bearable operation is a fault, has put everything back exactly when `Stat` missed nothing, and goes by steps of recovery unless it completed having missed something |
| PatchRecovery.RecoverStepKeeps | internal/patch/patch.go:408-427 | however far recovery got, running it again reaches the same disk |
| PatchRecovery.RecoverRunKeeps | internal/patch/patch.go:408-427 | any number of interrupted recoveries still leads to the same disk |
| PatchCrashes.ReplayIsRun | internal/patch/patch.go:278-356 | replaying operations without faults is a run of the disk |
| PatchCrashes.WindowExample | internal/patch/patch.go:334-342 | the first nine operations of a commit lead to a disk from which recovery loses the file |
| PatchCrashes.CleanUpMixExample | internal/patch/patch.go:351-354 | the first twenty-two operations of a commit lead to a disk that recovers to one new and one old file |
| PatchCrashes.EarlierCommitExample | internal/patch/patch.go:288-333 | a commit over an unfinished one: after one operation the original is not put back any more, after eight it is gone |
| PatchCrashes.SharedTarget | internal/patch/patch.go:299-354 | two previews of one file: before the clean-up recovery finds no original, after it the first preview is lost |
| PatchCrashes.SharedRollback | internal/patch/patch.go:293-298 | a rollback after the two turns leaves nothing of the shared file |
| Workspace.SourceReferences | internal/workspace/workspace.go:159-184 | the nested loops list the references of all file-bearing sections in order |
| Workspace.LoadWorkspace | internal/workspace/workspace.go:64-122 | the loading loop returns what the load function says, which `LoadIs` tells from the references alone |
| WorkspaceLaws.LoadIs | internal/workspace/workspace.go:64-122 | a load is the root, then the references that lead to a new file that can be read, in order; its diagnostics are those of the parser on each, and one at its line for each reference to a new file that cannot be read, common1.cns as stcommon excepted; an unreadable root is all there is to report |
| WorkspaceLaws.MissingIsReported | internal/workspace/workspace.go:101-114 | such a reference is reported after the reports on the references before it |
| WorkspaceLaws.SectionsJoin | internal/workspace/workspace.go:159-184 | sections are gone through in order |
| WorkspaceLaws.OneSection | internal/workspace/workspace.go:165-168 | only a section whose header is `files` in any letter case has references |
| WorkspaceLaws.LinesJoin | internal/workspace/workspace.go:168-180 | lines are gone through in order |
| WorkspaceLaws.OneLine | internal/workspace/workspace.go:168-180 | a key-value line with a file key makes a reference unless its value is normalised away |
| WorkspaceLaws.FileKeys | internal/workspace/workspace.go:186-204 | `cmd`, `cns`, `st` and `stcommon` in any letter case are file keys, and `st` with more exactly when that is a number |
| WorkspaceLaws.OtherKeys | internal/workspace/workspace.go:186-204 | no other key is one |
| WorkspaceLaws.BaseIs | internal/workspace/workspace.go:103-105 | the file name that is looked at is what stands between the last slashes |
| Workspace.LoadIsLocal | internal/workspace/workspace.go:85-122 | a load depends only on which files are readable and on the bytes of the files it loads |
| Workspace.LoadChangesIff | internal/workspace/workspace.go:85-122 | with the loaded files and the lookups unchanged, a load changes exactly when a file it could not read can be read |
| Workspace.LoadSameIff | internal/workspace/workspace.go:85-122 | when the loaded files read the same, two loads are equal exactly when they load the same paths in order and report the same |
| Workspace.LoadReadable | internal/workspace/workspace.go:85-122 | every loaded document was read from a readable file |
| Coordinator.Coordinator.Analyze | internal/service/service.go:83-158 | on hit and miss alike the answer holds the word of the resolver on the documents in it and every diagnostic as often as loader and resolver give it, and it is that of a fresh load and resolve of the disk when that is coherent with those seen before; otherwise it still is, unless a load of now would load other paths or report something else |
| Coordinator.Coordinator.Hit | internal/service/service.go:160-191 | answers exactly when the root is valid and every recorded hash is current; the answer is the fresh one exactly when a load of now would load the same paths and report the same |
| Coordinator.Coordinator.StillTheSame | internal/service/service.go:173-182 | comparing in any order: true exactly when every recorded hash is the current one |
| Coordinator.Coordinator.AnalyzeAnew | internal/service/service.go:116-158 | loads, records every hash, resolves and stores; the answer is the fresh one: the load, the word of the resolver on its documents, and every diagnostic as often as the two give it |
| Coordinator.Coordinator.Snapshot | internal/service/service.go:201-273 | returns the current hash and records it; a change invalidates exactly the roots that depend on something the document reaches, without one nothing is invalidated |
| Coordinator.Coordinator.StoreResult | internal/service/service.go:275-312 | replaces one entry and moves exactly that root in the index, keeping it the exact inverse |
| Coordinator.Coordinator.InvalidateDependents | internal/service/service.go:331-352 | the queue loop invalidates exactly the roots that depend on something reachable from the path, and terminates |
| Coordinator.Coordinator.UnexpiredIsCurrent | internal/service/service.go:370-375 | a record that has not expired holds the hash the file has now |
| Coordinator.EntryStillFresh | internal/service/service.go:160-191 | an entry whose recorded hashes are current answers for the current disk when the same files exist |
| Coordinator.EntryFreshIff | internal/service/service.go:160-191 | with lookups unchanged, an entry whose recorded hashes are current answers for the current disk exactly when no file its load missed has appeared |
| Coordinator.EntryFreshIffSameReport | internal/service/service.go:160-191 | whatever else changed, an entry whose recorded hashes are current answers for the current disk exactly when a load of now would load the same paths and report the same |
| Coordinator.ShadowingFileExample | internal/service/service.go:160-191 | a file that appears where the profile looks first shadows a loaded one, and the cached answer is wrong |
| Coordinator.AppearingRootExample | internal/service/service.go:160-191 | the answer recorded for a missing root is served after the file appears, and is wrong |
| Coordinator.AppearingSourceExample | internal/service/service.go:160-191 | so is the one recorded while a referenced source was missing |
| Coordinator.RecordKept | internal/service/service.go:201-273 | recording a document and invalidating what it reaches keeps valid roots in step with the document table |
| Coordinator.StoreKept | internal/service/service.go:275-312 | storing a new entry keeps the invariants |
| Coordinator.InverseMoved | internal/service/service.go:275-312 | clearing old and adding new dependencies leaves the index the exact inverse, without empty entries |
| Invalidation.ChangedDocuments | internal/repository/query.go:80-100 | the strictly sorted list of the paths whose hash reads differently, and of the removed ones |
| Invalidation.InsertionSort | internal/repository/query.go:94-98 | the exchange loops sort the list and keep its elements |
| Invalidation.ChangedIffDiffers | internal/repository/query.go:80-93 | the list holds exactly the differing paths if and only if no added document has an empty hash |
| Invalidation.TransitiveDependents | internal/repository/invalidation.go:6-32 | a strictly sorted list whose elements are the least set that holds the changed paths and is closed under reverse edges; the loop terminates |
| Invalidation.InvalidatedIffDependsOnChange | internal/repository/invalidation.go:6-32 | a path is listed exactly when a chain of edges leads from it to a changed path |
| Invalidation.UntouchedIsUnchanged | internal/repository/invalidation.go:6-32 | a path not listed is unchanged and so is everything it depends on |
| Closure.ReachIsConnected | internal/repository/invalidation.go:15-26 | the least closed set is exactly what walks reach |
| Lines.SplitLines | internal/syntax/syntax.go:288-324 | the scan yields the lines of the source, an empty source none |
| Lines.JoinSplit | internal/syntax/syntax.go:288-324 | concatenating every text and ending gives the source back |
| Lines.SplitFromWellFormed | internal/syntax/syntax.go:288-324 | numbers run from 1, no text holds CR or LF, only the last ending is empty, no CR precedes an empty LF line |
| Lines.SplitFromJoin | internal/syntax/syntax.go:288-324 | splitting the join of a well-formed list gives the list back |
| Lines.SplitJoinIff | internal/syntax/syntax.go:288-324 | exactly which line lists survive joining and splitting |
| Adapter.FromSyntax | internal/parser/adapter/adapter.go:40-187 | the references are those of the declared value lines, in order |
| Adapter.ControllerLine | internal/parser/adapter/adapter.go:169-187 | one line of a state section moves the controller as the machine does |
| Adapter.StateController.EmitStateReference | internal/parser/adapter/adapter.go:468-497 | the pending value is consumed; it becomes a reference exactly when the type in force changes state and the stripped text is not empty |
| Adapter.RunMeans | internal/parser/adapter/adapter.go:46-65 | after any prefix the controller holds what the prefix says: the type in force and the waiting value line |
| Adapter.EmitsStep | internal/parser/adapter/adapter.go:169-187 | one more token makes at most the waiting value line emitted, and only a transition type does |
| Adapter.DeclaredCount | internal/parser/adapter/adapter.go:468-497 | there are as many references as emitted value lines, so none is emitted twice |
| AdapterLaws.HeaderKinds | internal/parser/adapter/adapter.go:233-248 | the first word of a header, in any letter case, tells the kind of its section |
| AdapterLaws.StateHeaders | internal/parser/adapter/adapter.go:46-65 | a header opens a state section exactly when its first word is `state` |
| AdapterLaws.LineKeys | internal/parser/adapter/adapter.go:169-179 | the two keys looked at are `type` and `value`, in any letter case |
| AdapterLaws.TransitionTypes | internal/parser/adapter/adapter.go:169-187 | the types that change state are `changestate` and `selfstate`, in any letter case, bare or quoted |
| AdapterLaws.ValueTexts | internal/parser/adapter/adapter.go:289-294 | a value names the state it spells, unquoted, and `+1` names state -10 |
| AdapterLaws.OneController | internal/parser/adapter/adapter.go:169-187 | one `type` line that changes state and one `value` line make one reference, whichever comes first; it stands at the value and its id is made of the line that completes the pair |
| AdapterLaws.OtherControllers | internal/parser/adapter/adapter.go:169-187 | with another type they make none |
| PackageResolution.PackageRoots | internal/semantics/semantics.go:353-374 | every directory of a definition file once, up to letter case and as first written, longest first |
| PackageResolution.FindPackageRoot | internal/semantics/semantics.go:376-385 | the loop returns the first listed root that holds the path, else its own directory |
| PackageResolution.DefinitionFiles | internal/semantics/semantics.go:356-360 | a file is a definition file exactly when its name ends in `.def`, in any letter case |
| PackageResolution.PathTextGrows | internal/semantics/semantics.go:361-362 | a path is its directory, a slash and a name |
| PackageResolution.DeepestIff | internal/semantics/semantics.go:353-385 | the package root of every path is its deepest known root exactly when, of two roots one below the other, the deeper is listed first |
| PackageResolution.LongestIsDeepest | internal/semantics/semantics.go:353-385 | so it is when lower-casing keeps the length of every root |
| PackageResolution.AsciiRootsAreDeepest | internal/semantics/semantics.go:353-385 | and so it is of ASCII roots |
| PackageResolution.ShallowerRootExample | internal/semantics/semantics.go:367-385 | two definition files of which the shallower root is found for a path below the deeper one, because lower-casing changes their lengths |
| PackageResolution.TargetsAreScope | internal/semantics/semantics.go:97-130 | the targets are exactly the declarations in scope, in order and each once for every place it stands at: the states and commands of that name in the own package if any, else, for characters, those outside `chars` |
| PackageResolution.DefinitionsAreDeclared | internal/semantics/semantics.go:97-104 | what is indexed under a name is every state and command symbol of that name, each once for every place it stands at in the documents |
| PackageResolution.NeverSilent | internal/semantics/semantics.go:185-287 | a state or command reference is exact with a target and no diagnostic, or not exact with exactly one |
| PackageResolution.ExactIff | internal/semantics/semantics.go:185-287 | the class of every reference, told from the documents: dynamic under `data` or computed, invalid with nothing in scope, a state ambiguous unless a single declaration is, otherwise exact; the target comes first by path, line, column and id |
| PackageResolution.OwnCommandIsExact | internal/semantics/semantics.go:262-283 | a command reference is exact, and to its own package, as soon as a document of its package declares that command |
| PackageResolution.OtherReferencesPass | internal/semantics/semantics.go:187-285 | any other reference is invalid and not reported |
| PackageResolution.ComplaintsExplained | internal/semantics/semantics.go:185-287 | one diagnostic at the line of the reference, whose code is that of its class and kind, or none when it is exact |
| PackageResolution.CharacterScope | internal/semantics/semantics.go:105-130 | a character resolves inside its own package when that declares the name, otherwise outside `chars` |
| PackageResolution.DuplicatesReported | internal/semantics/semantics.go:167-182 | a state declared again in the file of its first declaration is reported for every repetition, at its line and related to the first; a repeated command is not |
| PackageResolution.NamesAreDeclared | internal/semantics/semantics.go:134-140 | repetitions are looked for under every declared name |
| PackageResolution.OneResolutionEach | internal/semantics/semantics.go:185-287 | every reference yields exactly one resolution |
| PackageResolution.OutcomesInOrder | internal/semantics/semantics.go:185-187 | the outcome of a reference stands after those of the documents and references before it |
| PackageResolution.DiagnosticsInOrder | internal/semantics/semantics.go:185-287 | every diagnostic of every outcome is listed, in order |
| PackageResolution.Resolve | internal/semantics/semantics.go:77-287 | the resolving loops return the roots, one resolution per reference in order, and duplicate then reference diagnostics |
| JsonDiff.NormalizedEqual | internal/oracle/oracle.go:192-217 | two decoded documents normalize to the same tree exactly when they say the same, numbers as the same int64, or outside it as the same float, or as the same unreadable text |
| JsonDiff.SameFloatIff | internal/oracle/oracle.go:206-213 | two spellings of one float count as the same number exactly when both or neither spell that integer |
| JsonDiff.OneIsNotOnePointZero | internal/oracle/oracle.go:206-223 | 1 and 1.0 are reported as different |
| JsonDiff.DiffJson | internal/oracle/oracle.go:219-223 | returns no mismatch exactly when the trees are equal |
| JsonDiff.Differ.Values | internal/oracle/oracle.go:225-343 | the recursion appends the mismatches of the two values, in order |
| JsonDiff.Differ.ExpectedKeys | internal/oracle/oracle.go:245-265 | walks the sorted expected keys and leaves exactly the unexpected ones in the seen set |
| JsonDiff.Differ.Arrays | internal/oracle/oracle.go:282-330 | a length mismatch first, then the common elements, then the surplus of one side |
| JsonDiff.EmptyIffEqual | internal/oracle/oracle.go:219-343 | for all trees nothing is reported if and only if they are equal |
| JsonDiff.ReportIsExact | internal/oracle/oracle.go:225-343 | a mismatch is reported at a path exactly when looking the path up in both trees shows that difference |
| JsonOrder.ReportInOrder | internal/oracle/oracle.go:225-343 | mismatches come in the order of the walk: a length before the elements, elements by number, expected keys in byte order before the others in byte order; with `ReportIsExact` this fixes the report as a list |
| JsonOrder.ReportedOnce | internal/oracle/oracle.go:225-343 | no two mismatches have one path |
| JsonDiff.PathsBelow | internal/oracle/oracle.go:225-343 | everything reported for a pair of values lies at or below its path |
| JsonDiff.SnapshotsAgree | internal/oracle/oracle.go:182-223 | after normalization the comparison is empty exactly when the snapshots say the same |
| Framing.Reader.ReadFrame | internal/lsp/protocol.go:57-90 | the header loop, length check and body read take off the stream what the frame function says, errors included |
| Framing.Writer.WriteFrame | internal/lsp/protocol.go:93-103 | writes one header and the body, or nothing when the body is longer than 16 MiB or not JSON |
| Framing.ReadExactly | internal/lsp/protocol.go:57-90 | a body is read exactly when the stream starts with a frame of it: header lines in any order and case whose last Content-Length is the size of a valid body |
| Framing.EveryStream | internal/lsp/protocol.go:57-90 | every stream is header lines and then one of three things: a last line cut off, a line without a colon, or an empty line |
| Framing.EndsInHeader | internal/lsp/protocol.go:64-67 | in the first case it is at its end and all of it is taken |
| Framing.LineWithoutColon | internal/lsp/protocol.go:68-75 | in the second it is malformed and left behind that line |
| Framing.BehindHeader | internal/lsp/protocol.go:78-89 | in the third the declared length decides: without one from 0 to 16 MiB it is malformed and left there; with too little behind it everything is taken; an invalid body is malformed and taken |
| Framing.FieldIsSplit | internal/lsp/protocol.go:72-76 | a field is split at its first colon, its name taken in lower case, and white space around both parts goes |
| Framing.FrameRoundTrip | internal/lsp/protocol.go:57-103 | a written frame is read back as its body, and what follows it stays |
| Framing.StreamRoundTrip | internal/lsp/protocol.go:57-103 | any sequence of valid bodies is read back in order and the stream is used up exactly (Base Protocol, Header Part, of the Language Server Protocol Specification 3.17) |
| TextLaws.DecimalDigits | internal/lsp/protocol.go:97 | decimal notation, digit by digit |
| TextLaws.AtoiReads | internal/lsp/protocol.go:78-81 | a printed number is read back, with or without a sign, when it is in the range of int64 |
| TextLaws.AtoiRefuses | internal/lsp/protocol.go:78-81 | text without digits, or with another byte after the first, is no number |
| TextLaws.AtoiRefusesFirst | internal/lsp/protocol.go:78-81 | nor is text that begins with neither a digit nor a sign |
| TextLaws.LowerLetters | internal/lsp/protocol.go:76 | lower-casing of ASCII, by codes |
| TextLaws.FoldsAscii | internal/workspace/workspace.go:103-105 | for ASCII text folding is a matter of letter case alone |
| TextLaws.FoldsBeyondAscii | internal/workspace/workspace.go:103-105 | U+017F folds to `s` and U+212A to `k` |
| TextLaws.QuotesStripped | internal/parser/adapter/adapter.go:324-332 | one pair of equal quotes is removed and no more; unequal quotes stay |
| TextLaws.BlanksStripped | internal/parser/adapter/adapter.go:324-332 | white space before the text goes first |
| StringTables.FrontBlank | internal/patch/patch.go:217-219 | white space is trimmed at the front exactly where the rune there has the property White_Space |
| StringTables.EndBlank | internal/patch/patch.go:217-219 | and so it is at the end |
| Ordering.LexDecides | internal/patch/patch.go:103 | strings that share a beginning compare as the rest does: the shorter first, else by the first byte that differs |

## Left out

- Source spans of expression nodes and parse errors; an error keeps its code and the place it speaks about, not its text.
- ExprParser.Parser.Level: one method indexed by level stands for the six binary methods, which differ only in their operators and messages.
- Lower-casing beyond ASCII is a parameter (`LetterCase.TO_LOWER`) that agrees with ASCII lower-casing, settles identifiers and brings no blank or other ASCII byte into them.
- Nil expression nodes and the distinction between a nil and an empty argument list.
- The expression evaluator's input record beyond the five inputs it reads.
- PatchCommit.Commit: the journal is written at once or not at all; no target is reached by two names that differ after resolving, is another's backup, a staged file or the journal. Where a file is replaced twice, what a failed commit leaves of it is shown by `SharedTarget` and `SharedRollback` only.
- PatchPreview.Prepare: a file that exists can be read while the patch is prepared; where links lead is a parameter and does not change meanwhile.
- The unified diff of a preview, plans and their validation, and the non-transactional `ApplyPatch`.
- Recovery across roots: the journal's root field is not read by `Recover` and is not modelled.
- Coordinator.Coordinator.Analyze: calls run one at a time, and a change of content changes size or modification time; cancellation and overlapping calls are not modelled.
- Coordinator.Coordinator.AnalyzeAnew: the resolver is a parameter there, and the final sort of diagnostics is left to it; profiles and their digests are fixed.
- The startup-manifest branch of the loader (internal/workspace/workspace.go:123-148), which reads files the cache does not track.
- Path canonicalization and letter-case folding of the loader's profile are parameters; a blank definition path, refused before the load begins, is met in `Coordinator.Coordinator.Analyze` only.
- Adapter.FromSyntax: only the state references are modelled; sections, symbols, command references and diagnostics of the same loop are not.
- Comments, quotes and key-value splitting of single lines (internal/syntax/syntax.go:326-390).
- PackageResolution.Resolve: the initial sort of the documents and the final sorts of resolutions and diagnostics are left out; severities, messages and identities are not modelled, and a diagnostic keeps its line as it is, where the source moves line 0 to 1.
- JsonDiff.Differ.Values: a path is a list of steps and its printed form, in which different paths can look alike, is not modelled; nor is the message text.
- Framing.Writer.WriteFrame: errors of the underlying writer, and of the reader other than the end of the stream.
- The command line, the MCP and language servers' handlers, SQLite storage, release signing and process execution.
