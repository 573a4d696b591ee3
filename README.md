# Machining-time estimator for ISO part programs: a Dafny model

The program estimates how long a CNC machine takes to run an ISO (G-code)
part program. It handles two kinds of machine.

- **Milling centre** (`parser-mill.js`):
  - `parseISO` turns the text into records: labels, register assignments
    `R<n>=<expr>`, conditional jumps `IF … GOTOB <label>`,
    `REPEAT <label> P=<n>` blocks, and plain commands.
  - `expandProgram` interprets those records into a flat list of G-code
    lines. It keeps a program counter, a register bank and a Siemens
    drill-cycle context (`MCALL CYCLE81…89(…)`).
  - `computeMillTime` reads that list and adds up the time of:
    - rapid moves (`G0`/`G00`);
    - feed moves (`G1`/`G01`);
    - arcs (`G2`/`G3`);
    - dwells (`G4`/`G04`);
    - turns of the rotary B axis.
- **Lathe** (`parser-lathe.js`):
  - `parseISO` turns each line into a command. A command holds an
    upper-cased, canonical code and its X, Z, F and S values.
  - `computeLatheTime` adds up:
    - rapid moves;
    - feed-per-revolution moves, at the spindle speed set by `M3`, or by
      constant surface speed (`G96`).

Each of the five functions is a `method` with the source's loops, proved
equal to a specification function:

| Function | Method | Specification function |
|---|---|---|
| mill `parseISO` | `MillParse.ParseISO` | `MillParse.ParseLines` |
| mill `expandProgram` | `MillExpand.ExpandProgram` | `MillExpand.Run` |
| mill `computeMillTime` | `MillTime.ComputeMillTime` | `MillTime.Integrate` |
| lathe `parseISO` | `LatheParse.ParseISO` | `LatheParse.ParseLines` |
| lathe `computeLatheTime` | `LatheTime.ComputeLatheTime` | `LatheTime.Integrate` |

The loop bodies are methods too (`Pass`, `ExecuteCommand`, `RepeatBlock`,
`CopyBlock`, `BuildLabels`, `ReadLine`, `ReadFields`, `AdvanceLine`,
`AdvanceCommand`). The lemmas then state what the source promises about
those specification functions.

Modules:

- `Options`:
  - `Option`;
  - `FilterMap`, the "push at most one item per element" loop shape;
  - `Collect`, the "assign at most one key per element" loop shape.
- `Text`:
  - the JavaScript string operations the parsers use: `split(/\r?\n/)`,
    `split(/;|\(/)[0]`, `trim`, `split(/\s+/)`, `toUpperCase`;
  - the block-number `replace`;
  - regular-expression classes.
- `Numbers`: `parseFloat` and `parseInt` of decimal text.
- `Geometry`:
  - `Math.hypot`, `Math.atan2` and `Math.PI`, as a `Geo` value passed as
    a parameter;
  - JavaScript's truncated `%` next to the floored remainder.
- `MillParse`, `MillExpand`, `MillTime`: the three milling functions.
- `LatheParse`, `LatheTime`: the two lathe functions.

Numbers are unbounded reals. JavaScript's `NaN` is kept where it changes
the outcome:

- `Option<real>`'s `None` in the mill interpreter;
- `Num.NaN` in the lathe, apart from `null` (`Option.None`).

`eval` is the evaluator the mill interpreter calls on an assignment's
expression. It is a parameter of type `seq<Token> -> Option<real>`, given
the expression with every register reference replaced by the register's
value.

Where the program's design description and its code disagree, the model
follows the code:

- Drill cycles:
  - A drill cycle stays active across every hole until a bare `MCALL` or
    a new cycle call. It does not close after one hole.
  - As parsed, no cycle call survives (see Findings).
- Modal state:
  - There is no modal motion state. A line is a move only when its own
    first word is a move code.
  - Neither integrator keeps a feed mode.
- Lathe:
  - The lathe has no threading cycle, no dwell, no arcs and no
    per-minute feed.
  - The lathe has no RPM ceiling. `computeLatheTime` ignores the ceiling
    its caller passes (main.js:69).
  - Surface speed becomes RPM only when a `G96` line is read, from the
    X value at that moment. X is used as it stands, not halved to a
    radius. RPM is not recomputed at each cutting move.
- Numbers:
  - The lathe stores NaN for a word without a number; only the mill
    integrator drops such words.
  - Only the first word (the code) and each word's letter are
    upper-cased.
- Canonical codes:
  - Only the lathe makes codes canonical, and only `G00`, `G01` and
    `M03`.
  - The mill integrator matches `G0`/`G00`, `G1`/`G01` and `G4`/`G04`,
    but only `G2` and `G3`.
- Time:
  - The mill's elapsed time can go down: a dwell with a negative `P`
    subtracts time.
  - The B turn is not always the shortest one (see Findings).

## Model

| member | source | states |
|---|---|---|
| Text.LinesSplit | parser-mill.js:10 | `split(/\r?\n/)`: the lines are the pieces between line feeds, in order, each but the last without the one carriage return before its line feed |
| Text.JoinSplit | parser-mill.js:10 | joining the pieces of a split with the separator gives back the text |
| Text.SplitJoin | parser-mill.js:10 | splitting pieces that hold no separator, once joined, gives back those pieces |
| Text.CutComment | parser-mill.js:12 | the text before the first `;` or `(`: a prefix free of both, stopped only by one of them |
| Text.StripBlockNumberOf | parser-mill.js:14 | the block-number `replace` turns `N`/`O` (either case), its digits, the white space after them and a rest starting with neither a digit nor white space into that rest |
| Text.TrimIsInfix | parser-mill.js:14 | `trim` keeps a piece of the text with only white space before and after it, and the piece neither starts nor ends with white space |
| Text.WordsJoin | parser-mill.js:171 | `split(/\s+/)` of tokens joined by single spaces gives back the tokens, with an empty first word when the line starts with a space |
| Text.TokensRun | parser-lathe.js:15 | the split skips the white space in front, takes the maximal run of non-space characters after it as the first piece, and then splits the rest |
| Text.TokensJoin | parser-lathe.js:15 | non-empty runs of non-space characters joined by single spaces split back into the same runs |
| Text.TokensEmpty | parser-lathe.js:15 | the split yields no run exactly when the text is all white space |
| Numbers.ParseFloatDefined | parser-mill.js:38 | `parseFloat` gives a number exactly when the text, after its leading white space, starts with a decimal literal; the number is not positive after a `-` and not negative otherwise |
| Numbers.ParseFixed | parser-lathe.js:25 | `<digits>.<digits>` reads as the decimal those digits write |
| Numbers.FractionValue | parser-lathe.js:25 | the decimal of `a.b` is the value of `a` plus that of `b` divided by ten to the number of digits of `b` |
| Numbers.ParseScientific | parser-lathe.js:25 | `<digits>e<k>` reads as the digits' value shifted by `k` decimal places, for every integer `k` |
| Numbers.ShiftUp | parser-lathe.js:25 | a shift by `n` places up is a product with ten to the `n` |
| Numbers.ShiftDown | parser-lathe.js:25 | a shift by `n` places down is a quotient by ten to the `n` |
| Numbers.DigitsConcat | parser-lathe.js:25 | the value of two digit strings written one after the other is the first shifted by the length of the second, plus the second |
| Numbers.MagnitudeDefined | parser-lathe.js:25 | an unsigned literal is read exactly when it starts with a digit, or with a point and a digit, and its value is not negative |
| Numbers.ParseDigits | parser-mill.js:47 | `parseInt` of a digit string, as `REPEAT … P=` reads it, is the digits' value |
| Numbers.ParseShowInt | parser-mill.js:141-145 | an integer written into a drill move's text reads back as itself |
| Numbers.DigitsOfShowNat | parser-mill.js:141-145 | the decimal digits of a natural number read back as that number |
| Geometry.Rem | parser-mill.js:229 | JavaScript's `%`: the left operand less the divisor times the quotient truncated toward zero; so in [0, d) for a left operand that is not negative and in (-d, 0] otherwise |
| Geometry.Mod | parser-mill.js:229 | the floored remainder: the left operand less the divisor times the floored quotient, always in [0, d) |
| Geometry.RemIsMod | parser-mill.js:229 | the two remainders agree on a left operand that is not negative |
| MillParse.AsAssign | parser-mill.js:25-28 | an assignment starts with `R` or `r` and a digit, and has an `=` after the register and before the last character |
| MillParse.IfRoundTrip | parser-mill.js:32-40 | `IF R<digits> <op> <value> GOTOB <target>` reads back as a conditional on register `R<digits>`, that comparison, `parseFloat` of the value and that target |
| MillParse.RepeatRoundTrip | parser-mill.js:45-47 | `REPEAT <block> P=<digits>` reads back as a repeat of that block, the digits' value times |
| MillParse.ClassifyFirstMatch | parser-mill.js:17-52 | a line that matches a directive pattern becomes that directive's record, and a line that matches none becomes a command holding the line itself |
| MillParse.ParseLine | parser-mill.js:10-15 | a line yields no record exactly when nothing but white space is left once the comment is cut off and the block number removed |
| MillParse.ParseISO | parser-mill.js:8-55 | the loop pushes the record of every line that keeps something, in order |
| MillParse.RecordCount | parser-mill.js:10-53 | there are as many records as lines less the skipped ones, so never more records than lines |
| MillParse.CommentOnlyLine | parser-mill.js:12-15 | a line with only white space before its comment yields nothing |
| MillParse.BlockNumberOnlyLine | parser-mill.js:14-15 | a line holding only a leading `N`/`O` block number (either case), white space after it and a comment yields nothing |
| MillParse.IndentedBlockNumber | parser-mill.js:14 | the block number is removed before the trim, so an indented ` N<digits>` stays and yields the command `N<digits>` |
| MillParse.NotOtherDirective | parser-mill.js:17-52 | a line that starts with neither `R` nor `I` and does not end in `:` is a command |
| MillParse.ParsedCommandsClean | parser-mill.js:12-52 | every command record the parser produces is non-empty, trimmed, and holds no `;` and no `(` |
| MillParse.CleanText | parser-mill.js:12-14 | the cleaned text of a line that keeps something is non-empty, trimmed and free of `;` and `(` |
| MillParse.LabelRoundTrip | parser-mill.js:18-20 | `<name>:` reads back as the label `<name>` for every identifier |
| MillParse.AssignRoundTrip | parser-mill.js:25-27 | `R<digits>=<expr>` reads back as register `R<digits>` and expression `<expr>` |
| MillParse.AsAssignOf | parser-mill.js:25-27 | the assignment pattern matches `R<digits>=<expr>` with exactly that register and expression |
| MillParse.AssignExcludes | parser-mill.js:17-49 | a line the assignment pattern matches is no label, no conditional and no repeat, so pattern order does not matter for it |
| MillParse.IfExcludes | parser-mill.js:17-49 | a line of the conditional's shape is no label and no repeat |
| MillParse.RepeatExcludes | parser-mill.js:17-49 | a line the repeat pattern matches is no label |
| MillParse.StartNotIf | parser-mill.js:32 | a line that does not start with `I`/`i` is no conditional |
| MillParse.StartNotRepeat | parser-mill.js:45 | a line that does not start with `R`/`r` is no repeat |
| MillParse.DigitNotRepeat | parser-mill.js:45 | a line whose second character is a digit is no repeat |
| MillParse.NotLabel | parser-mill.js:18 | a line with a non-word character before its last is no label |
| MillParse.PlainCommand | parser-mill.js:12-52 | a trimmed line with no block number, starting with neither `R` nor `I` and not ending in `:`, yields a command holding exactly its text before the comment |
| MillParse.CycleCallCut | parser-mill.js:12 | the `(` of `MCALL CYCLE8<d>(…)` is cut as a comment, so the line becomes the bare command `MCALL CYCLE8<d>` |
| MillParse.CycleCallKept | parser-mill.js:115 | with the parameter list spared, a cycle call's line yields the command holding the whole call |
| MillParse.CycleParamsSpared | parser-mill.js:115 | the comment cutting that spares a cycle call's parameter list keeps the call whole |
| MillParse.ListSpared | parser-mill.js:115 | any comment-free text ending in a cycle name, followed by a parameter list, is kept whole by that cutting |
| MillExpand.SubstituteNoReference | parser-mill.js:79 | an expression naming no register reaches `eval` as written |
| MillExpand.SubstituteUnassigned | parser-mill.js:79 | with no register assigned, every reference is replaced by 0 |
| MillExpand.CycleParamsOf | parser-mill.js:118-124 | four integers written as `a,b,c,d` give the cycle with approach `a`, plane `b`, safety `c` and depth `d` |
| MillExpand.Values | parser-mill.js:118 | `map(v => parseFloat(v) || 0)`: one value per piece, in order, each that piece's `parseFloat`, or 0 when it reads no number |
| MillExpand.CycleStartParen | parser-mill.js:115 | a line the cycle-start pattern matches holds a `(` |
| MillExpand.LabelTable | parser-mill.js:64-65 | every index in the label table is the index of a record |
| MillExpand.LabelTableLast | parser-mill.js:65 | a name is in the table exactly when some record labels it, and it maps to the last such record |
| MillExpand.BuildLabels | parser-mill.js:64-65 | the `forEach` builds exactly the label table |
| MillExpand.RepeatEndLast | parser-mill.js:100 | a repeat range ends at the last `ENDLABEL` label when one sits past index 0, and at the end of the program otherwise |
| MillExpand.ExpandProgram | parser-mill.js:63-159 | the `while` loop's output is that of the specification run, and it ends exactly when the counter passes the last record |
| MillExpand.Pass | parser-mill.js:73-155 | one loop pass is one step of the specification |
| MillExpand.ExecuteCommand | parser-mill.js:111-154 | the `command` branch is the specification's command step |
| MillExpand.RepeatBlock | parser-mill.js:98-107 | the `repeat` loops append `count` copies of the block's command lines |
| MillExpand.CopyBlock | parser-mill.js:102-106 | one pass appends the line of every command record in the range, in order |
| MillExpand.StepCommand | parser-mill.js:111-154 | a command record moves the counter by one and leaves the registers alone |
| MillExpand.StepQuiet | parser-mill.js:75-96 | labels, assignments and conditionals emit nothing and keep the cycle; labels and conditionals also keep the registers; labels and assignments move the counter by one |
| MillExpand.StepAssign | parser-mill.js:78-83 | an assignment stores `eval` of the substituted expression in its register and touches no other register |
| MillExpand.StepIf | parser-mill.js:85-96 | a failed comparison moves on by one; a holding one jumps to the target's last label, or moves on by one when there is none or it sits at index 0 |
| MillExpand.StepRepeat | parser-mill.js:98-110 | a repeat appends `count` times the block's command lines, copied as written; it keeps the cycle and registers and adds nothing when the block label is missing |
| MillExpand.RepeatBodyRange | parser-mill.js:99-106 | one repeat pass holds exactly the command lines from the block's last label up to the end of the range |
| MillExpand.RepeatedShape | parser-mill.js:101 | `count` copies are `count` times as long and hold only what one copy holds |
| MillExpand.CommandLinesFrom | parser-mill.js:102-106 | the copied lines are exactly the command records of the range, unexpanded |
| MillExpand.StepExtends | parser-mill.js:72-155 | a pass never takes back output |
| MillExpand.RunExtends | parser-mill.js:72-156 | the output of a run starts with the output it started from |
| MillExpand.StepFromCommands | parser-mill.js:74-155 | a pass emits as written only lines of command records |
| MillExpand.RepeatFromCommands | parser-mill.js:98-107 | a repeat copies only lines of command records |
| MillExpand.RunFromCommands | parser-mill.js:72-156 | label, assignment, conditional and repeat records are never emitted: every line emitted as written is a command record's line |
| MillExpand.StepCycle | parser-mill.js:115-148 | the cycle is set only by a cycle call, cleared only by a bare `MCALL`, and kept by everything else, holes included |
| MillExpand.StepDrill | parser-mill.js:136-147 | with a cycle active, an `X… Y…` line emits exactly the five moves of a hole, in order, and keeps the cycle |
| MillExpand.ExecuteHole | parser-mill.js:137-147 | a hole line under an active cycle emits the cycle's moves for its X and Y |
| MillExpand.HoleIsNoCall | parser-mill.js:115-137 | a line starting with `X` is neither a cycle call nor a bare `MCALL` |
| MillExpand.ExecuteAdds | parser-mill.js:111-154 | a command record emits as written at most its own line |
| MillExpand.StepAdvances | parser-mill.js:74-155 | every record but a conditional moves the counter on by one |
| MillExpand.NoJumpsHalt | parser-mill.js:72-156 | without conditionals the loop ends after at most as many passes as there are records |
| MillExpand.RunWithoutCycles | parser-mill.js:115-151 | without a cycle call no cycle is ever active and only lines as written are emitted |
| MillExpand.ParsedNeverDrills | parser-mill.js:12 | no run of a parsed program activates a drill cycle: its output is lines as written only |
| MillExpand.CycleCallInert | parser-mill.js:115 | what parsing leaves of a cycle call does not match the cycle-start pattern |
| MillExpand.IntendedCycleStarts | parser-mill.js:115-124 | with the parameter list spared, a cycle call starts the cycle its parameters describe |
| MillExpand.CycleStartOf | parser-mill.js:115-124 | the cycle-start pattern reads the parameters of `MCALL CYCLE8<d>(<p>)` |
| MillTime.ParsedReadable | parser-mill.js:171-178 | every line a parsed program emits can be split and read without error |
| MillTime.ReadLine | parser-mill.js:171-181 | the argument loop builds the block of the line |
| MillTime.ComputeMillTime | parser-mill.js:165-239 | the result is the integrated time in minutes, times 60, with B turns timed as the source's truncated remainder computes them |
| MillTime.AdvanceLine | parser-mill.js:182-235 | one pass of the loop, B turn included, is one step of the specification |
| MillTime.Sweep | parser-mill.js:213-215 | a `G2` sweep is not positive, a `G3` sweep is not negative, and every sweep lies within one full turn |
| MillTime.ArcLength | parser-mill.js:216 | an arc length is never negative |
| MillTime.AdvanceMove | parser-mill.js:185-204 | `G0`/`G1` go to the given X, Y, Z, keep the absent ones and B; rapid time is length/10000, feed time length/feed when the feed is positive |
| MillTime.AdvanceArc | parser-mill.js:205-220 | `G2`/`G3` go to X, Y around the centre at I, J (0 when absent), keep Z and B, and take arc/feed when the feed is positive |
| MillTime.AdvanceDwell | parser-mill.js:221-226 | `G4`/`G04` add P/60 minutes (0 when absent) and move nothing |
| MillTime.AdvanceTurn | parser-mill.js:227-233 | any other code with B turns the axis to B, taking the turn as the source's truncated remainder computes it, at 30 degrees a second |
| MillTime.AdvanceOther | parser-mill.js:227-234 | any other code without B only sets the feed |
| MillTime.AdvanceFeed | parser-mill.js:182 | the feed is taken from `F` before the code is looked at, for every code |
| MillTime.NoFeedNoTime | parser-mill.js:195-220 | a feed move at a feed that is not positive takes no time |
| MillTime.AdvanceMonotone | parser-mill.js:184-235 | every line but a negative dwell adds a time that is not negative |
| MillTime.TimeGoesBack | parser-mill.js:221-224 | a line winds the clock back exactly when it is a dwell with a negative P |
| MillTime.IntegratePrefix | parser-mill.js:170-236 | without negative dwells the time only grows along the program |
| MillTime.IntegrateNonNegative | parser-mill.js:168-238 | without negative dwells the total is not negative |
| MillTime.TurnAsWritten | parser-mill.js:229-230 | the turn as written is never negative |
| MillTime.Turn | parser-mill.js:229-230 | the corrected turn lies in [0, 180] |
| MillTime.TurnShortest | parser-mill.js:229-230 | the corrected turn is the distance from the change of angle to the nearest whole number of full turns |
| MillTime.TurnAsWrittenOvershoots | parser-mill.js:229 | as written, a turn from 0 to -270 is timed as 270 degrees, not 90 |
| MillTime.AdvanceOvershoots | parser-mill.js:227-231 | the integrator times a `B-270` line from the start state as a 270-degree turn, as the source does |
| MillTime.TurnAsWrittenAgrees | parser-mill.js:229 | as written, the turn agrees with the corrected one when the change is at least -180, and is at least 180 below that |
| LatheParse.CleanLineCommand | parser-lathe.js:10-13 | a command with no comment character, no white space at its ends and no block number is what is left of its line, whatever comment follows |
| LatheParse.CleanLineNumbered | parser-lathe.js:10-13 | `N<digits>`, white space, a command and a comment leave exactly the command |
| LatheParse.Canonical | parser-lathe.js:17-20 | `G00`, `G01` and `M03` become `G0`, `G1` and `M3`, every other code stays, and no stored code is one of the three |
| LatheParse.ParseISO | parser-lathe.js:6-34 | the loop pushes the command of every line that keeps something, in order |
| LatheParse.ReadLine | parser-lathe.js:10-31 | one pass of the line loop gives the specified command, or none for a skipped line |
| LatheParse.ReadFields | parser-lathe.js:22-30 | the word loop sets X, Z, F and S to the specified fields |
| LatheParse.FieldStep | parser-lathe.js:23-30 | a word sets the field of its own upper-cased letter and leaves the others |
| LatheParse.CommentOnlyLine | parser-lathe.js:10-13 | a line with only white space before its comment gives no command |
| LatheParse.BlockNumberOnlyLine | parser-lathe.js:10-13 | a line whose trimmed text is a block number alone gives no command, even indented |
| LatheParse.IndentedBlockNumber | parser-lathe.js:10-13 | ` N<digits>` gives no command, because the lathe trims before removing the block number |
| LatheParse.PlainLine | parser-lathe.js:10-13 | a comment-free, non-blank line without a leading block number gives a command |
| LatheParse.CommandCount | parser-lathe.js:8-32 | the commands are as many as the lines less the dropped ones, so never more than the lines |
| LatheParse.ParsedCodes | parser-lathe.js:17-20 | no stored code is `G00`, `G01` or `M03` |
| LatheParse.FieldLast | parser-lathe.js:22-30 | a letter is `null` exactly when no word carries it; otherwise it holds the last such word's value |
| LatheParse.LetterWithoutNumber | parser-lathe.js:25-26 | a letter with no number after it is stored as NaN, not `null` |
| LatheTime.Hypot | parser-lathe.js:59-71 | `Math.hypot` is NaN exactly when a side is, and otherwise not negative |
| LatheTime.ComputeLatheTime | parser-lathe.js:39-85 | the result is the integrated total in minutes, times 60 |
| LatheTime.AdvanceCommand | parser-lathe.js:45-82 | one pass of the `switch` is one step of the specification |
| LatheTime.AdvancePosition | parser-lathe.js:58-79 | G0 and G1 move each axis to the given value or keep it when `null`; every other code keeps the position |
| LatheTime.AdvanceG96 | parser-lathe.js:46-52 | G96 takes S and F when given, and recomputes rpm = 1000·Vc/(π·X) only when X > 0 and Vc is truthy; position and time stay |
| LatheTime.AdvanceM3 | parser-lathe.js:54-56 | M3 sets the spindle speed from S when given, nothing else |
| LatheTime.AdvanceOther | parser-lathe.js:45-82 | any other code changes nothing |
| LatheTime.AdvanceG1 | parser-lathe.js:67-79 | G1 takes its F first, adds dist/(feedRev·rpm) only when that product is positive, and keeps rpm and Vc |
| LatheTime.NoSpindleNoTime | parser-lathe.js:72-75 | with the spindle stopped a G1 takes no time |
| LatheTime.RapidToNaN | parser-lathe.js:58-63 | a rapid to a NaN coordinate makes the total NaN, unlike a `null` one |
| LatheTime.AdvanceGrows | parser-lathe.js:44-83 | no command takes time back: a finite total grows or becomes NaN, and NaN stays NaN |
| LatheTime.IntegrateGrows | parser-lathe.js:44-83 | the total after a prefix is at most the total after all, and NaN once NaN |
| LatheTime.IntegrateNonNegative | parser-lathe.js:42-84 | the total, and the result in seconds, are never negative |
| LatheTime.IntegrateFinite | parser-lathe.js:39-84 | commands whose every number parsed give a finite state |
| LatheTime.SurfaceSpeedExample | parser-lathe.js:48-49 | after `G0 X20 Z0`, `G96 S200` gives rpm = 200000/(π·20): X is used as it stands |
| Options.FilterMapCount | parser-lathe.js:8-31 | a loop pushing at most one item per element pushes one per element not skipped |
| Options.CollectLast | parser-lathe.js:23-30 | a loop assigning at most one key per element leaves each key at the last element that gives it |

## Left out

- The Electron shell (`main.js`, `preload.js`, `renderer.js`) and all file, window and IPC handling are not part of this model.
- `eval` is a parameter. The model does not say what it computes. It does not model the text that a register's value becomes when it is substituted into an expression.
- `eval` can throw, and the model has no exception: `R2=R1-R3` with R3 = -1 becomes `5--1`, a `SyntaxError` that ends `expandProgram`. In the model the evaluator gives `None` there and the run goes on.
- A register holds a number or `None`. The source's `vars['R' + n] || 0` at parser-mill.js:79 also keeps a truthy value that is not a number (`true` from `R1=1<2`, a string) and substitutes its text. The model substitutes 0 for every value that is not a number.
- The drill-cycle moves are structured values (`MillExpand.Emitted`), not the template strings `G0 Z${…}`. `MillTime.Decode` reads them as the integrator would read their text. This takes JavaScript's number-to-text-to-number round trip as exact (`Numbers.ParseShowInt` proves it for integers).
- Floating-point rounding, overflow to `Infinity` and signed zero are not modelled: numbers are reals.
- ParseFloat: `parseFloat` reads `Infinity`, `+Infinity` and `-Infinity` (after leading white space) as the infinities; the model reads no number there, so the lathe stores NaN and the mill drops the word.
- `Math.hypot`, `Math.atan2` and `Math.PI` are abstract. The model knows only that hypot is not negative, that π is positive and that atan2 lies in [-π, π].
- MillTime.ComputeMillTime: requires every line to be readable. The source throws a `TypeError` on a line that ends in white space, which leaves an empty last word. `MillTime.ParsedReadable` shows that parsed programs always meet this.
- MillExpand.ExpandProgram: is bounded by a `fuel` count of loop passes, because an `IF … GOTOB` loop need not end. `halted` says whether the loop ended within the bound. A loop that never ends is not distinguished from one that needs more fuel.
- Spindle-speed ceilings are not modelled, because `computeLatheTime` has none.
- `toUpperCase` is modelled on ASCII letters, U+0131 (to `I`) and U+017F (to `S`), the only characters it turns into an ASCII letter. Every other character is kept as it is. JavaScript also upper-cases other letters (`é` to `É`) and expands some characters into two (`ß` to `SS`, `ﬀ` to `FF`, `ﬁ` to `FI`, `ﬂ` to `FL`, `ﬅ` and `ﬆ` to `ST`, `ŉ` to `ʼN`), which changes the length. A lathe code holding such a character is stored differently from the source (parser-lathe.js:17). A word's letter is compared only with `X`, `Z`, `F` and `S`, so the letter test is unaffected.
- The `i` flag of the patterns folds ASCII letters only, as JavaScript's non-Unicode case folding never maps a non-ASCII character to an ASCII one.
- Label and register names that collide with `Object.prototype` keys (`constructor`, `toString`, …) are not modelled. The model's tables hold only what the program stored.
- `G02` and `G03` are not arc codes in the mill integrator. They fall to the default branch, as in the source, and the model keeps that.
- The lathe uses X as it stands in its surface-speed formula, with no halving from diameter to radius. The model keeps this (`LatheTime.SurfaceSpeedExample`).
- The loop variables of each function are packed into one value: `MillExpand.State`, `MillTime.Machine` or `LatheTime.Lathe`. The source has no objects updated across calls, so there are no classes.

## Findings

| source | as written | input that shows it | evidently intended | confidence | as-written member | corrected member |
|---|---|---|---|---|---|---|
| parser-mill.js:12 | the comment cut at the first `(` also cuts the parameter list of a cycle call. The cycle-start pattern at parser-mill.js:115 then never matches, so drill cycles are never expanded. | the line `MCALL CYCLE81(10,0,2,-5)` becomes the command `MCALL CYCLE81`, and every later `X… Y…` line is emitted as written | the parameter list of `MCALL CYCLE8<d>(…)` is kept, so the call starts its cycle | not executed | MillExpand.ParsedNeverDrills | MillExpand.IntendedCycleStarts |
| parser-mill.js:229 | `((B - pos.B + 180) % 360) - 180` with JavaScript's `%`, which keeps the sign of a negative left operand | from B0 to `B-270` the turn is timed as 270 degrees | the shortest turn, 90 degrees, with the angle folded into [-180, 180) | not executed | MillTime.TurnAsWrittenOvershoots | MillTime.TurnShortest |

Both halves of the first finding are in the model:

- `MillParse.ParseISO` keeps the source's comment cutting.
- `MillParse.CycleCallCut` and `MillExpand.ParsedNeverDrills` show the
  consequence.
- `MillParse.CutCommentIntended` spares the list, and
  `MillExpand.IntendedCycleStarts` shows that the interpreter's drill
  expansion, which is modelled as written, then starts the cycle.

For the second finding, the integrator keeps the remainder as written:

- `MillTime.Advance` times a B turn with `MillTime.TurnAsWritten`, and
  `MillTime.AdvanceOvershoots` shows the 270-degree turn.
- `MillTime.Turn` is the corrected turn, and `MillTime.TurnShortest`
  proves that it is the shortest one.
