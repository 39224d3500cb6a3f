# Models and proofs for the local Workers runtime

This project models the parts of the runtime where a mistake would be hard to see, and proves what they are for.

* **Analytics Engine SQL** (`SqlTokens`, `SqlNumbers`, `SqlLexer`, `SqlSyntax`, `SqlGrammar`, `SqlParser`,
  `SqlParserComplete`, `SqlParserSound`, `SqlPrinter`, `SqlArguments`, `SqlPrecedence`, `SqlValues`, `SqlEmit`,
  `SqlMeaning`, `SqlMeaningProof`, `SqlCompiles`, `SqlBorders`, `SqlLiterals`, `SqlText`, `SqlReparse`, `SqlSigns`,
  `SqlQuantile`). `SqlSyntax` is the parser as
  functions on token lists, `SqlGrammar` an independent grammar of concrete trees, and the parser accepts exactly the
  latter. `SqlParser` and `SqlLexer` hold the cursor-moving methods, proved equal to the functions. `SqlPrecedence` and
  `SqlValues` say what operators and literals mean by their spelling. `SqlMeaning` gives ClickHouse expressions, their
  functions by name, and emitted SQLite expressions a value each; `SqlMeaningProof` shows they agree, `SqlBorders`
  and `SqlLiterals` where exactly they stop agreeing, and `SqlReparse` and `SqlSigns` that the emitted text says what
  the emitted tree does.
* **D1** (`D1Splitter`, `D1Database`, `D1Lock`). `D1Database` is a connection with BEGIN, COMMIT and ROLLBACK over an
  abstract engine; `D1Lock` lets the statements of queued calls interleave in any way the promise chain permits.
* **Routing** (`RouteMatch`, `StableSorting`, `RouteTable`).
* **Reload** (`ReloadQueue`, `Lifecycle`, `Generations`). `ReloadQueue` is the coalescing of callers, `Lifecycle` the
  states of generations, `Generations` the objects that take those steps on shared namespaces.
* **Durable Object alarms** (`Alarms`, `AlarmRetries`, `Namespace`): table, index and timers as a state machine, and
  the object whose methods take its steps.
* **Executor channel** (`Executor`), **RPC validation** (`RpcValidate`), **import graph** (`ImportGraph`).

Clocks are integers, promises and timers are entries of a state, and whatever the environment decides (which call moves,
when a timer fires, whether a handler throws, whether a generation is idle, whether a worker loads) is an event or a
parameter, so a statement about all event sequences is a statement about all schedules.

## What the code does that a reader might not expect

* The parser compares spellings, not kinds of tokens: a string literal `')'` or a name `")"` as the first item of a
  list closes it (`SqlPrinter.ListReadsBackIff` says exactly when), and a name `"distinct"` as the first argument of a
  call is taken for the keyword and lost (`SqlArguments.ArgsReadBackIff`). The word NOT is read as a column behind a
  minus sign and nowhere else: `-NOT` is the negated column `NOT`.
* A minus sign in front of an interval with negative seconds makes two in a row: `-INTERVAL '-1' DAY` is emitted as
  `(--86400)`, and the rest of the line is a comment (`SqlSigns.NegatedIntervalWitness`; `SqlSigns.NoCommentIff` says
  exactly when that happens).
* The type inference calls the sum of a DateTime and a number a number. A date literal compared with it stays text, and
  SQLite sorts every number before every text, so `timestamp - INTERVAL '1' DAY >= '2024-01-01'` is false on every row
  (`SqlLiterals.LiteralWitness`; `SqlLiterals.RightLiteralKeptIff` and its three companions say exactly when the
  meaning is kept).
* Integer casts truncate, so buckets of negative epochs are wrong unless they are exact multiples
  (`SqlBorders.BucketBorder`, `SqlBorders.BucketWitness`), and weeks in their last fractional second
  (`SqlBorders.WeekBorder`, `SqlBorders.WeekWitness`). The casts to the four integer types are one and the same, so
  `toUInt32(-1)` is -1 (`SqlBorders.CastWitness`).
* `toStartOfWeek` accepts any string in its second slot as if it were UTC, although the comment on its mode argument
  says that such a string is checked as a timezone (`SqlBorders.ZoneCheckedWhen`).
* An unterminated block comment in `exec` leaves its last character behind as text.
* When the old generation is idle at a reload, `finish` runs before the active id changes: what is resumed is the old
  generation, which has just stopped. With no grace window open, the new one is not told to resume for as long as it
  serves; only the next reload over it can tell it, once it has been stopped (`Lifecycle.ToldLateOrNever`,
  `Lifecycle.IdleReloadWitness`).
* Two bindings to one class make two namespaces on the first load and share one from the next load on. The first of the
  two is armed and in no list (`Generations.UnlistedWhen` says exactly when), and an alarm set through it leaves the
  shared one without a timer for the row (`Generations.DoubleBinding`; `Generations.GenerationManager.StrayAlarm` says
  exactly when).
* A retry overwrites an index entry without clearing a timer the handler had set, so a second timer for the same
  instance can stay live (`Alarms.SecondTimer`; `Alarms.SecondTimerWhen` says exactly when). Index and table agree all
  the same.

## Model

| member | source | states |
|---|---|---|
| SqlParserSound.ParserExact | src/bindings/analytics-engine-sql.ts:411-571 | `parseExpr` succeeds with a tree and a rest if and only if some well-formed concrete tree, placed as the precedence table demands, has exactly the tokens consumed, strips to that tree, and cannot be continued by the rest. For all tokens and minimum precedences. |
| SqlParserSound.Unambiguous | src/bindings/analytics-engine-sql.ts:263-278 | Two concrete trees that respect precedence, left associativity and the place of NOT and the predicates, and have the same tokens, are the same expression. |
| SqlParserSound.SoundExpr | src/bindings/analytics-engine-sql.ts:411-442 | Whatever `parseExpr` accepts is explained by a concrete tree that fits the minimum precedence. |
| SqlParserSound.SoundPredicate | src/bindings/analytics-engine-sql.ts:445-478 | Every tail IN / LIKE / BETWEEN / IS [NOT] NULL that is accepted is explained by a tree at comparison level. |
| SqlParserSound.SoundPrimary | src/bindings/analytics-engine-sql.ts:507-571 | Likewise for literals, names, calls with one or two argument lists, parentheses and intervals. |
| SqlParserComplete.ReadsFully | src/bindings/analytics-engine-sql.ts:411-571 | Conversely every such tree, followed by anything that cannot extend it, is read back whole and the parser stops right after it. |
| SqlParserComplete.ReadsItems | src/bindings/analytics-engine-sql.ts:562-569 | A comma list is read back item by item up to its closing parenthesis, unless its first item is spelled like the closer. |
| SqlPrinter.PrintThenParse | src/bindings/analytics-engine-sql.ts:263-278 | Printing any expression with parentheses placed by the table and parsing it, at every minimum precedence, gives back the same expression and the same following tokens, whatever follows that cannot continue it. |
| SqlPrinter.ListReadsBackIff | src/bindings/analytics-engine-sql.ts:449-457 | An IN list reads back as itself exactly when its first token does not carry the spelling of `)`; string literals and quoted names included. |
| SqlArguments.ArgsReadBackIff | src/bindings/analytics-engine-sql.ts:554-571 | An argument list reads back as itself exactly when its first token carries neither that spelling nor, as a name in quotes or without, the spelling of DISTINCT. |
| SqlArguments.NeedsAtLeast | src/bindings/analytics-engine-sql.ts:411-571 | However an expression is written, its tokens other than brackets and commas are at least as many as it has names, literals, operators and keywords. |
| SqlArguments.CloserWitness | src/bindings/analytics-engine-sql.ts:449-457 | The list of the one literal with that spelling is read as empty. |
| SqlArguments.DistinctWitness | src/bindings/analytics-engine-sql.ts:554-571 | A call with the one argument of a name so spelled is read as a call without arguments. |
| SqlParser.Parser.Expr | src/bindings/analytics-engine-sql.ts:411-442 | The cursor-moving method returns what the grammar function returns and leaves the cursor on what it leaves; errors included. |
| SqlParser.Parser.Turn | src/bindings/analytics-engine-sql.ts:413-440 | One turn of the Pratt loop, postfix predicates and prefix NOT of a predicate included. |
| SqlParser.Parser.Predicate | src/bindings/analytics-engine-sql.ts:445-478 | The predicate tails, with their error cases, by cursor. |
| SqlParser.Parser.Items | src/bindings/analytics-engine-sql.ts:449-457 | The list loop, by cursor. |
| SqlParser.Parser.Prefix | src/bindings/analytics-engine-sql.ts:487-496 | Prefix NOT, which reads its operand above AND. |
| SqlParser.Parser.Unary | src/bindings/analytics-engine-sql.ts:498-505 | Unary minus, binding tightest. |
| SqlParser.Parser.Primary | src/bindings/analytics-engine-sql.ts:507-531 | Literals, names, `*`, parentheses, intervals and calls, by cursor. |
| SqlParser.Parser.Args | src/bindings/analytics-engine-sql.ts:554-571 | The argument list with DISTINCT, by cursor. |
| SqlPrecedence.TwoOperators | src/bindings/analytics-engine-sql.ts:263-278 | Of any two operators, named by their spellings, the one of the tighter row of the table (OR, AND, comparison, sum, product) takes its operands first, and of one row the left one. |
| SqlPrecedence.NotThenOperator | src/bindings/analytics-engine-sql.ts:485-496 | Prefix NOT takes a comparison, a sum or a product for its operand and leaves AND and OR. |
| SqlPrecedence.OperatorThenLike | src/bindings/analytics-engine-sql.ts:411-471 | A comparison, sum or product to the left of LIKE comes first; AND and OR come after. |
| SqlPrecedence.LikeThenOperator | src/bindings/analytics-engine-sql.ts:411-471 | Of what follows the pattern of LIKE only sums and products belong to it. |
| SqlPrecedence.KeywordsInAnyCase | src/bindings/analytics-engine-sql.ts:159-166 | Keywords are recognised in any mixture of cases. |
| SqlNumbers.LiteralValue | src/bindings/analytics-engine-sql.ts:509-512 | A text of digits with or without a point and a sign is read as a number worth its digits over ten to the number of those behind the point, trailing zeros included. |
| SqlNumbers.NumberParts | src/bindings/analytics-engine-sql.ts:509-512 | Nothing else is read as a number, apart from blank text and white space around it. |
| SqlValues.NumberWorth | src/bindings/analytics-engine-sql.ts:509-512 | The number the parser returns for such a literal is worth that. |
| SqlValues.IntervalWorth | src/bindings/analytics-engine-sql.ts:533-541 | The interval it returns is worth its signed amount times the seconds of its unit, whatever kinds of token they are. |
| SqlValues.UnitWord | src/bindings/analytics-engine-sql.ts:244-260 | Which words are units, in any case, and of how many seconds: 60 for a minute, 30 days for a month, 365 for a year. |
| SqlLexer.Tokenize | src/bindings/analytics-engine-sql.ts:79-187 | The scanning loop over an index produces the token list of the recursive definition, or its error at the same place, for every text. |
| SqlLexer.ReadString | src/bindings/analytics-engine-sql.ts:101-121 | Reading a string literal, doubled quotes and a missing closing quote included, by index. |
| SqlLexer.ReadNumber | src/bindings/analytics-engine-sql.ts:136-158 | Digits with at most one point. |
| SqlLexer.CommentsSkipped | src/bindings/analytics-engine-sql.ts:86-100 | White space and both kinds of comment yield no token. |
| SqlLexer.NumberEnds | src/bindings/analytics-engine-sql.ts:136-158 | A number ends at its second point. |
| SqlLexer.WordEnds | src/bindings/analytics-engine-sql.ts:159-166 | A word goes on as far as letters, digits and underscores do. |
| SqlLexer.QuotedName | src/bindings/analytics-engine-sql.ts:122-135 | A name in backquotes or double quotes is what stands between them, or runs to the end. |
| SqlLexer.OperatorRead | src/bindings/analytics-engine-sql.ts:167-178 | Every operator is read by its spelling, those of two characters before those of one. |
| SqlLexer.PunctuationRead | src/bindings/analytics-engine-sql.ts:179-183 | The five marks are tokens. |
| SqlLexer.StuckWhen | src/bindings/analytics-engine-sql.ts:184-185 | Exactly which characters no token starts with. |
| SqlText.QuoteUndone | src/bindings/analytics-engine-sql.ts:596-598 | For every string the tokenizer undoes `quoteStr`, provided no quote follows the literal. |
| SqlText.OpenQuote | src/bindings/analytics-engine-sql.ts:101-121 | A string that is not closed runs to the end. |
| SqlText.NameUndoneIff | src/bindings/analytics-engine-sql.ts:122-135 | A name written by JSON.stringify is read back as itself exactly when it holds neither a double quote nor a backslash. |
| SqlText.ReadsLayout | src/bindings/analytics-engine-sql.ts:79-187 | Text laid out of pieces that do not run into one another is cut into exactly those tokens, whatever follows. |
| SqlNumbers.DecimalRoundTrip | src/bindings/analytics-engine-sql.ts:619-620 | A number literal written in decimal is read back as the same decimal. |
| SqlNumbers.SignedRoundTrip | src/bindings/analytics-engine-sql.ts:625-626 | The same with a sign, as interval amounts have it. |
| SqlMeaningProof.Preserved | src/bindings/analytics-engine-sql.ts:609-932 | Compilation preserves meaning: over every stored row, the emitted SQLite expression tree has the value that the source expression has over the row in seconds. Arithmetic with forced real division, comparisons, three-valued logic, IN, LIKE, BETWEEN, IS NULL, casts, intDiv, if, and time buckets. |
| SqlSigns.PreservedText | src/bindings/analytics-engine-sql.ts:617-663 | And the text of that tree, functions included, nowhere holds two minus signs in a row, which would start a comment. |
| SqlSigns.NoCommentIff | src/bindings/analytics-engine-sql.ts:625-637 | For every expression that is emitted: no minus sign of its text meets another exactly when the source puts none in front of a negative interval. |
| SqlSigns.MinusCutIff | src/bindings/analytics-engine-sql.ts:625-637 | The text of a minus sign in front of a plain expression is cut into the intended tokens exactly when that expression is no negative number. |
| SqlSigns.NegatedIntervalWitness | src/bindings/analytics-engine-sql.ts:625-637 | The expression `-INTERVAL '-1' DAY` parses, means 86400 seconds, and is emitted as a bracket and a comment. |
| SqlMeaningProof.PreservedOperand | src/bindings/analytics-engine-sql.ts:609-615 | A date literal facing a DateTime is turned into its epoch seconds and then compares as that instant. |
| SqlMeaningProof.PreservedInfix | src/bindings/analytics-engine-sql.ts:637-644 | Infix operators, the division that is made real among them. |
| SqlMeaningProof.PreservedBetween | src/bindings/analytics-engine-sql.ts:654-657 | BETWEEN and NOT BETWEEN with date literals as bounds. |
| SqlMeaningProof.PreservedTimeFn | src/bindings/analytics-engine-sql.ts:873-932 | toDateTime, toUnixTimestamp, the toStartOf family, toMonday and toDate on non-negative epochs. |
| SqlMeaningProof.NameStands | src/bindings/analytics-engine-sql.ts:865-990 | Every name of the fragment, in whatever case, is given the template of what the ClickHouse function of that name means, by a list of names and meanings of its own, and the numbers of arguments that function takes. |
| SqlMeaningProof.WeekModifiers | src/bindings/analytics-engine-sql.ts:858-860 | The three date modifiers, applied one after another, give the first midnight of that weekday that is not before the sixth last day. |
| SqlCompiles.EmitsIff | src/bindings/analytics-engine-sql.ts:609-663 | An expression compiles if and only if its columns are known or aliased, its strings are date literals wherever a DateTime is expected, and its calls are of known functions with the arguments they take. |
| SqlCompiles.ColumnIs | src/bindings/analytics-engine-sql.ts:587 | The columns are twenty blobs, twenty doubles and four by name. |
| SqlCompiles.ColumnsAreWords | src/bindings/analytics-engine-sql.ts:587 | Each of them is one word to the tokenizer. |
| SqlCompiles.NamesInAnyCase | src/bindings/analytics-engine-sql.ts:865-866 | Functions are known by their names in any mixture of cases. |
| SqlText.CastText | src/bindings/analytics-engine-sql.ts:892-899 | The text of a cast to an integer or a real. |
| SqlText.AbsText | src/bindings/analytics-engine-sql.ts:975-985 | The text of the absolute value. |
| SqlText.SecondsText | src/bindings/analytics-engine-sql.ts:627-629 | The stored milliseconds are read as seconds. |
| SqlText.DivisionText | src/bindings/analytics-engine-sql.ts:637-640 | The text of a division made real. |
| SqlText.CaseText | src/bindings/analytics-engine-sql.ts:988-989 | The text of `if`. |
| SqlText.TruncateText | src/bindings/analytics-engine-sql.ts:858-860 | The text of a truncation by date modifiers. |
| SqlText.WeekText | src/bindings/analytics-engine-sql.ts:921-932 | The modifiers of a week as text. |
| SqlMeaningProof.PreviousWeekdayIsLatest | src/bindings/analytics-engine-sql.ts:921-932 | The day meant by a start of week is the latest midnight of weekday w not after the instant. |
| SqlBorders.FloorBorder | src/bindings/analytics-engine-sql.ts:986-987 | What floor is emitted as evaluates to the floor exactly on non-negative and on whole numbers. |
| SqlBorders.FloorWitness | src/bindings/analytics-engine-sql.ts:986-987 | `floor(-0.5)` evaluates to 0. |
| SqlBorders.BucketBorder | src/bindings/analytics-engine-sql.ts:908-920 | What a toStartOf function with buckets of whole seconds is emitted as, over an expression or a date literal, evaluates to the greatest multiple not after the instant exactly when the epoch is non-negative or already a multiple. |
| SqlBorders.BucketByName | src/bindings/analytics-engine-sql.ts:914-920 | By name: toStartOfMinute, toStartOfHour, toStartOfDay and toDate evaluate to the greatest multiple of 60, 3600 and 86400 not after the instant, from the epoch on. |
| SqlBorders.BucketWitness | src/bindings/analytics-engine-sql.ts:916-917 | `toStartOfHour('1969-12-31 23:30:00')`, which names -1800, evaluates to 0, where no bucket that holds -1800 starts. |
| SqlBorders.WeekBorder | src/bindings/analytics-engine-sql.ts:921-932 | What toStartOfWeek and toMonday are emitted as, over an expression or a date literal, evaluates to the latest midnight of the weekday not after the instant, except exactly for fractional negative epochs in the last second before that midnight. |
| SqlBorders.WeekWitness | src/bindings/analytics-engine-sql.ts:931-932 | `toMonday(timestamp)` half a second before a Monday of 1969 evaluates to that Monday. |
| SqlBorders.CastWitness | src/bindings/analytics-engine-sql.ts:892-896 | `toUInt32(-1)` evaluates to -1, outside the type; the meaning of a cast is defined within the range of its type only. |
| SqlLiterals.ArithmeticIgnoresLiteral | src/bindings/analytics-engine-sql.ts:609-615 | A date literal facing DateTime arithmetic stays text, so the comparison does not depend on it. |
| SqlLiterals.HiddenIsArithmetic | src/bindings/analytics-engine-sql.ts:1021-1052 | The type inference misses a moved timestamp only where an addition or subtraction stands on top. |
| SqlLiterals.TypeSeen | src/bindings/analytics-engine-sql.ts:1021-1052 | The inference sees a DateTime exactly in the timestamp and in calls that yield one, behind minus signs and as the second argument of `if`. |
| SqlLiterals.RightLiteralKeptIff | src/bindings/analytics-engine-sql.ts:609-615 | For the timestamp moved by any constant, toDateTime around it or not, and any readable date literal on the right: the comparison keeps its meaning on every stored row if and only if the type inference sees a DateTime, or it asks for equality and the move is by no whole number of milliseconds. |
| SqlLiterals.LeftLiteralKeptIff | src/bindings/analytics-engine-sql.ts:609-615 | The same with the literal on the left. |
| SqlLiterals.InKeptIff | src/bindings/analytics-engine-sql.ts:645-648 | For IN and NOT IN lists of date literals: kept if and only if the inference sees a DateTime, the list is empty, or the move is by no whole number of milliseconds. |
| SqlLiterals.BetweenKeptIff | src/bindings/analytics-engine-sql.ts:654-657 | For BETWEEN and NOT BETWEEN with two date literals: kept if and only if the inference sees a DateTime or no stored millisecond lies between the bounds. |
| SqlLiterals.BucketRightKeptIff | src/bindings/analytics-engine-sql.ts:609-615 | For a time bucket of the timestamp moved by a constant and a date literal on the right: the comparison keeps its meaning on every stored row if and only if the type inference sees a DateTime, or it asks for equality and no bucket so moved starts at the literal. |
| SqlLiterals.BucketLeftKeptIff | src/bindings/analytics-engine-sql.ts:609-615 | The same with the literal on the left. |
| SqlLiterals.LiteralWitness | src/bindings/analytics-engine-sql.ts:609-615 | `timestamp - INTERVAL '1' DAY >=` a date literal is emitted as a comparison that is 0 on every row, and is true on the row a day later. |
| SqlBorders.ZoneCheckedWhen | src/bindings/analytics-engine-sql.ts:813-831 | With two arguments a zone is accepted exactly when it names UTC and the first argument can be read, except in the second slot of toStartOfWeek, where every string is. |
| SqlBorders.LastZoneChecked | src/bindings/analytics-engine-sql.ts:813-831 | With three the zone is accepted exactly when it names UTC and the mode or interval is one. |
| SqlReparse.EmitThenParse | src/bindings/analytics-engine-sql.ts:617-663 | On the fragment without timestamp, division and functions, and with no minus sign in front of a negative interval, tokenizing and parsing the emitted text gives the original tree with `<>` written `!=` and intervals as their seconds. |
| SqlReparse.TokensOfText | src/bindings/analytics-engine-sql.ts:617-663 | The emitted text is cut into the tokens of its concrete tree. |
| SqlReparse.EmitStands | src/bindings/analytics-engine-sql.ts:617-663 | The emitter brackets enough that its concrete tree means the source tree. |
| SqlText.FineExpr | src/bindings/analytics-engine-sql.ts:617-663 | On that fragment, negative numbers included, no two neighbouring pieces of emitted text run together into another token or a comment. |
| SqlQuantile.OrderIrrelevant | src/bindings/analytics-engine-sql.ts:1245-1247 | The quantile depends on the values as a bag, not on their order. |
| SqlQuantile.MonotoneInLevel | src/bindings/analytics-engine-sql.ts:1248-1257 | Both forms are monotone in the level, across interpolation cells too. |
| SqlQuantile.WithinExtremes | src/bindings/analytics-engine-sql.ts:1245-1258 | Every quantile lies between minimum and maximum, reached at levels 0 and 1. |
| SqlQuantile.InterpolatedIs | src/bindings/analytics-engine-sql.ts:1253-1257 | The interpolating form at position level times (n - 1) of the values in ascending order: the value there, or the same part of the way from one to the next. |
| SqlQuantile.MedianOfTwo | src/bindings/analytics-engine-sql.ts:1253-1257 | So the median of two values lies halfway. |
| SqlQuantile.ExactIsElement | src/bindings/analytics-engine-sql.ts:1249-1252 | The non-interpolating form is the value whose rank is nearest to that position, halves up. |
| D1Splitter.SplitStatements | src/bindings/d1.ts:47-136 | The loop over an index returns the list of the recursive definition, for every input. |
| D1Splitter.CopyQuoted | src/bindings/d1.ts:56-91 | The two quote loops: doubled quotes stay in the literal, a missing closing quote runs to the end. |
| D1Splitter.SkipBlock | src/bindings/d1.ts:104-113 | Block comments; one that is never closed leaves its last character to be read as text, as the code does. |
| D1Splitter.SplitRoundTrip | src/bindings/d1.ts:47-136 | Joining the output with `;` and splitting again returns the same list, for every input. |
| D1Splitter.StatementSplitsToItself | src/bindings/d1.ts:47-136 | Each returned statement splits to itself alone, for every input. |
| D1Splitter.CommentIsSpace | src/bindings/d1.ts:93-113 | A line or block comment reads as one space. |
| D1Splitter.LiteralKept | src/bindings/d1.ts:56-91 | A literal in single or double quotes is kept whole, whatever it holds. |
| D1Splitter.OpenLiteralKept | src/bindings/d1.ts:56-91 | So is one that is never closed. |
| D1Splitter.SeparatorCuts | src/bindings/d1.ts:115-135 | A semicolon and the end of the text cut off what has been collected, dropped when blank and trimmed otherwise; every other character is kept. |
| Basics.TrimIs | src/bindings/d1.ts:115-135 | Trimming takes white space off both ends and nothing else. |
| D1Splitter.SplitYieldsStatements | src/bindings/d1.ts:115-135 | Every returned piece is trimmed, non-empty and free of separators and comments outside literals; only the last may hold an open literal. |
| D1Database.Connection.RunBatch | src/bindings/d1.ts:193-220 | While it holds the lock: all statements and COMMIT, or nothing and the first error; inside an open transaction its BEGIN is refused and nothing is undone. |
| D1Database.Connection.RunExec | src/bindings/d1.ts:237-256 | Statements one after another until one fails; the loop equals its specification. |
| D1Database.BatchIsExecOrNothing | src/bindings/d1.ts:193-220 | For statements that act alike inside and outside a transaction: a batch is exec of the same statements when they succeed and COMMIT is accepted; else the database is untouched and the error is that of the refused statement or of COMMIT. |
| D1Database.ExecKeepsPrefix | src/bindings/d1.ts:237-256 | A failed exec leaves exactly the effect of the statements before the refused one. |
| D1Database.ExecCourse | src/bindings/d1.ts:237-256 | Each statement runs on what the one before it left, up to the first that the engine refuses; the answer is all their results or that error. |
| D1Database.SingleIs | src/bindings/d1.ts:304-384 | A single statement has the effect, result and error the engine gives it. |
| D1Lock.Serializable | src/bindings/d1.ts:180-220 | Under every interleaving of calls, waits and statements, finished calls have the outcomes of running one after another in order of arrival; when all are finished so is the database, and no transaction is open. |
| D1Lock.OneAtATime | src/bindings/d1.ts:180-191 | While a call is between lock and unlock every earlier call is over and every later one waits. |
| D1Lock.Progress | src/bindings/d1.ts:180-191 | Some call can always move until all are over, and every move brings the end nearer: no deadlock, every lock is released. |
| D1Lock.FinishKeeps | src/bindings/d1.ts:204-219 | Commit, rollback and unlock hand the next call exactly the serial database. |
| RouteMatch.ExtractedIsPath | src/route-matcher.ts:14-37 | Whatever is configured, the pattern is a path without query and fragment, and extracting again changes nothing. |
| RouteMatch.ExtractIgnoresHost | src/route-matcher.ts:14-37 | Scheme and host do not matter, unless the host itself is spelled `http:` or `https:`. |
| RouteMatch.PathIsKept | src/route-matcher.ts:14-37 | A path is its own pattern, up to its query or fragment. |
| RouteMatch.HostAlone | src/route-matcher.ts:14-37 | A host without a path stands for every path. |
| RouteMatch.HostMatches | src/route-matcher.ts:70-78 | A host pattern allows its own text, and with `*.` in front every subdomain of the domain but not the domain itself. |
| RouteMatch.MatchIsPrefix | src/route-matcher.ts:48-62 | For a path, a pattern matches its own text, or with a trailing star every path its stem begins; the four branches agree on that. |
| RouteMatch.StrictWeakOrder | src/route-matcher.ts:173-189 | The comparator is a strict weak order: antisymmetric, transitive, with transitive ties. |
| RouteMatch.SegmentsGrow | src/route-matcher.ts:87-91 | The number of non-empty pieces between slashes, which is what is counted once the trailing star is off, never drops when text is added and grows when something follows a slash. |
| RouteMatch.LongerFirst | src/route-matcher.ts:173-189 | Of two unscoped wild patterns, the one whose stem extends the other comes first. |
| RouteMatch.NarrowerFirst | src/route-matcher.ts:173-189 | The comparator extends strict inclusion of the sets of matched paths. |
| RouteMatch.ExactHostFirst | src/route-matcher.ts:173-189 | Of two routes with one pattern, that of exact hosts precedes that of a wildcard host. |
| StableSorting.StableSortIs | src/route-matcher.ts:171-192 | A stable sort has the same entries, in order, ties as they stood, for every weak order. |
| StableSorting.AlikeKeeps | src/route-matcher.ts:119-192 | Sorting now or later, appending and dropping entries in between, gives the same sorted view. |
| RouteTable.SortedIs | src/route-matcher.ts:171-192 | The sorted table has the same routes, none before a more specific one, ties in order of registration. |
| StableSorting.SortFiltered | src/route-matcher.ts:162-168 | Dropping entries and sorting commute. |
| RouteTable.RouteDispatcher.constructor | src/route-matcher.ts:110-117 | An empty table is valid for the empty history. |
| RouteTable.RouteDispatcher.AddRoutes | src/route-matcher.ts:119-157 | Re-registration, skipped custom domains, blank patterns and duplicates, and the `sorted` flag: the table stays alike to the unsorted registrations of its history. |
| RouteTable.RouteDispatcher.AddHostWorker | src/route-matcher.ts:160-165 | The same for host workers. |
| RouteTable.RouteDispatcher.RemoveWorkerRoutes | src/route-matcher.ts:167-169 | The same for removal, which leaves a sorted table sorted. |
| RouteTable.RouteDispatcher.Resolve | src/route-matcher.ts:194-206 | Lazy sorting is unobservable: the answer is that of a fresh stable sort of the surviving registrations, whatever was resolved before. |
| RouteTable.RegisteredIsClean | src/route-matcher.ts:146-155 | No two unscoped routes ever share a pattern. |
| RouteTable.OperationDoes | src/route-matcher.ts:119-169 | Every operation keeps exactly the entries of the other workers, in their order; a list of routes adds exactly its routes that are no custom domain, not blank and not taken, a host worker its one entry, a removal nothing. |
| RouteTable.SurvivesIff | src/route-matcher.ts:119-169 | An entry is registered if and only if some operation registered it and no later one named its worker. |
| RouteTable.EligibleWhen | src/route-matcher.ts:194-206 | An entry may answer exactly when one of its hosts, if it has any, allows the host of the request, and its pattern is the path or ends in a star and begins it. |
| RouteTable.MostSpecific | src/route-matcher.ts:194-206 | For any routes, scoped or not, the one that answers is eligible and no eligible route precedes it in the order. |
| RouteTable.LongestPrefix | src/route-matcher.ts:171-206 | With unscoped routes whose only star is trailing, the answer is the one exact route if there is one, else the one matching route with the longest stem, else the fallback. |
| ReloadQueue.NoOverlap | src/generation-manager.ts:91-111 | No two runs of the reload overlap, in every reachable state. |
| ReloadQueue.Freshness | src/generation-manager.ts:91-111 | Every caller's outcome is that of a run started no earlier than its call. |
| ReloadQueue.Joins | src/generation-manager.ts:97-104 | A caller during a run gets that run's follow-up; otherwise it leads a new run. |
| ReloadQueue.Shared | src/generation-manager.ts:97-102 | All callers during one run share one follow-up and one outcome. |
| ReloadQueue.FinallyClearsItsOwn | src/generation-manager.ts:104-110 | The `finally` finds its own run and its own follow-up in the two fields, never newer ones. |
| ReloadQueue.EveryCallerIsAnswered | src/generation-manager.ts:91-111 | When nobody calls any more every step brings the end nearer, and at the end every caller has the outcome of a run that is over. |
| Lifecycle.StepDoes | src/generation-manager.ts:137-205 | What each event does to phases, windows and who has been told: a reload leaves a busy active generation draining in a window of its own and tells nobody, stops an idle one and tells it if all older ones have stopped, and tells the new one only if it is the first; the end of a window, drain, stop and clean-up likewise. |
| Lifecycle.ReloadRetires | src/generation-manager.ts:190-196 | In every reachable life: a reload over a busy generation adds exactly that to the open windows; over an idle one it opens none. |
| Lifecycle.RememberedWhileListed | src/generation-manager.ts:244-253 | While a generation is listed, what is remembered of it is whether it has been told. |
| Lifecycle.ResumeSafety | src/generation-manager.ts:187-291 | In every reachable state, over overlapping grace windows and forced drains and stops: no generation is told to resume twice, and at most one that was told has not stopped. |
| Lifecycle.OldersGoneAtResume | src/generation-manager.ts:255-270 | At the step that tells a generation to resume, every smaller id has stopped. |
| Lifecycle.OneWay | src/generation.ts:241-278 | Generations only go from active to draining to stopped to forgotten. |
| Lifecycle.NewestToldWhen | src/generation-manager.ts:199-205 | In every reachable state a reload tells the generation it makes exactly when that is the first one and it has workflows. |
| Lifecycle.IdleReloadResumesTheOld | src/generation-manager.ts:187-205 | At a reload over an idle generation what is told, if anything, is the old one, which has just stopped. |
| Lifecycle.ToldBeforeReloadWhen | src/generation-manager.ts:255-279 | The active generation, untold so far, can be told in some continuation before another reload if and only if it is listed, has workflows, and a grace window is open. |
| Lifecycle.ToldLateOrNever | src/generation-manager.ts:255-279 | A generation that is active and untold with no grace window open is, in every continuation, reloads included, told only once it has itself stopped. |
| Lifecycle.IdleReloadWitness | src/generation-manager.ts:255-279 | Three loads, each over an idle predecessor: the second generation is told when it has stopped, and the active third one is not told, whatever follows, before it has stopped. |
| Generations.Generation.Drain | src/generation.ts:241-258 | Phase, cron and the timers of every namespace that is not shared; a stopped generation is left alone. |
| Generations.Generation.Stop | src/generation.ts:261-278 | The same and for good. |
| Generations.GenerationManager.ResumeWorkflows | src/generation-manager.ts:244-253 | One resume at most for each generation with workflows. |
| Generations.GenerationManager.StopGeneration | src/generation-manager.ts:281-291 | The object step equals the state machine step; alarms of shared namespaces keep their timers. |
| Generations.GenerationManager.Finish | src/generation-manager.ts:256-270 | Stop, and resume only after the loop over all listed generations finds every older one stopped. |
| Generations.GenerationManager.ForceDrain | src/generation-manager.ts:294-298 | Likewise for a forced drain. |
| Generations.GenerationManager.Forget | src/generation-manager.ts:285-290 | Likewise for the delayed clean-up. |
| Generations.GenerationManager.GraceEnds | src/generation-manager.ts:272-279 | Likewise for the end of a grace window that a reload has opened. |
| Generations.GenerationManager.BuildEnv | src/env.ts:179-189 | Shared namespaces are reused by class name, others are fresh and untouched; two bindings get one namespace exactly when they name one class that is shared already; a class first met gets a table of its own without a row. |
| Generations.GenerationManager.ReadyFails | src/generation-manager.ts:137-143 | A worker that fails to load drops the environment that was built and changes nothing else. |
| Generations.GenerationManager.ReadySucceeds | src/generation-manager.ts:155-207 | The new generation takes over as the state machine says and the shared namespaces are those of its registry. Whatever happened while the worker loaded: if the shared namespaces had a timer for every persisted alarm, they have them afterwards. |
| Generations.GenerationManager.Reload | src/generation-manager.ts:114-207 | A whole reload, with a worker that loads or one that fails: the shared namespaces keep a timer for every persisted alarm either way; afterwards exactly the declared classes are shared, old ones by the same namespace; and a failure leaves generations, shared namespaces and every timer as they were. |
| Generations.GenerationManager.TakeAlarm | src/bindings/durable-object.ts:951-1059 | An alarm set, deleted, due, triggered or ended on the shared namespace of one class takes the step of the alarm state machine there, and no shared namespace of any class is left without a timer for a persisted alarm. |
| Generations.GenerationManager.Tick | src/bindings/durable-object.ts:961-972 | Time that passes for all namespaces at once loses no timer. |
| Generations.GenerationManager.Move | src/generation-manager.ts:255-298 | The end of a grace window, a forced drain or stop, and forgetting are steps of the state machine of generations, taken when enabled, and lose no timer of a shared namespace. |
| Generations.GenerationManager.Live | src/generation-manager.ts:91-298 | Alarms survive any run: through every sequence of reloads begun, loaded or failed, ends of grace windows, drains, stops, alarms on the shared namespaces and time, in any order, every persisted alarm of every shared namespace has its timer, and the generations are in a state that a run of their state machine reaches. |
| Generations.GenerationManager.StrayAlarm | src/bindings/durable-object.ts:527-533 | After an alarm set on a namespace that is not the shared one of its class, every shared namespace still has its timers if and only if the class is not shared, or the shared namespace had a timer for that instance which is due then anyway. |
| Generations.DoubleBinding | src/generation-manager.ts:155-159 | A first load that declares a new class twice, and an alarm set on the first of the two namespaces: a persisted row of the shared one has no timer there. |
| Generations.Install | src/generation-manager.ts:155-172 | Rewiring then pruning: the result holds the declared classes, each with a timer for every alarm; undeclared ones lose every timer. |
| Generations.UnlistedWhen | src/generation-manager.ts:155-159 | A new environment arms a namespace that no list holds exactly when it declares a class twice that is not shared yet. |
| Alarms.IndexAgrees | src/bindings/durable-object.ts:876-1059 | From any persisted table, through any run of set, delete, fire, retry, trigger, swap, drain: every entry of the index is a live timer of a persisted row due at its time; and while a class is attached every row has an entry. |
| Alarms.RestoreAgrees | src/bindings/durable-object.ts:951-972 | Restoring gives every row its timer, whichever rows had one before, and keeps a sound index sound. |
| Alarms.SecondTimerWhen | src/bindings/durable-object.ts:997-1011 | For every step of the alarms: an instance whose live timers are all indexed stays so, exactly unless its handler fails, is to be retried, and has a timer set already. |
| Alarms.OneTimer | src/bindings/durable-object.ts:876-1059 | So along any run without such a step each instance has its one indexed timer at most. |
| Alarms.SecondTimer | src/bindings/durable-object.ts:1007-1011 | A run that has one: a handler sets an alarm and then fails, and two timers are live for one instance, one of them in no index, while index and table still agree. |
| AlarmRetries.RetryChain | src/bindings/durable-object.ts:975-1015 | What is seen of an always-failing alarm, whatever happens to other instances, is a beginning of the full chain, and it is the full chain when neither timer nor call is left, the row being gone too. |
| AlarmRetries.FullChainIs | src/bindings/durable-object.ts:999-1012 | The full chain: retry counts 0 to 6 in order, seven calls, 63000 ms of waiting. |
| AlarmRetries.SetStartsChain | src/bindings/durable-object.ts:527-533 | Setting an alarm with nothing else under way starts such a chain. |
| Namespace.DurableObjectNamespace.SetAlarm | src/bindings/durable-object.ts:527-533 | The row and the entry of the instance become the new time, its old timer is cleared, every other entry stays; index and table keep agreeing. |
| Namespace.DurableObjectNamespace.DeleteAlarm | src/bindings/durable-object.ts:535-540 | Row, entry and timer of the instance are gone, every other stays; index and table keep agreeing. |
| Namespace.DurableObjectNamespace.CancelAlarm | src/bindings/durable-object.ts:1281-1288 | The same, in the other order. |
| Namespace.DurableObjectNamespace.DeleteInstance | src/bindings/durable-object.ts:1291-1292 | Deleting an instance leaves neither row nor timer; index and table keep agreeing. |
| Namespace.DurableObjectNamespace.ScheduleAlarmTimer | src/bindings/durable-object.ts:961-972 | The entry of the instance is a first attempt due at the time or at once, every other entry stays, and the index stays sound if the row has that time. |
| Namespace.DurableObjectNamespace.TimerFires | src/bindings/durable-object.ts:967-970 | The timer and its entry go, then the row, then the handler is called as that attempt; without a class the row stays. Index and table keep agreeing. |
| Namespace.DurableObjectNamespace.HandlerEnds | src/bindings/durable-object.ts:997-1014 | A failure short of the seventh is persisted and set again after a backoff that doubles from one second, else nothing changes; index and table keep agreeing. |
| Namespace.DurableObjectNamespace.FireReadyAlarms | src/bindings/durable-object.ts:1262-1278 | The loop fires exactly the rows that are due, each once; index and table keep agreeing. |
| Namespace.OnlyLaterRowsRemain | src/bindings/durable-object.ts:1262-1278 | Afterwards exactly the rows that were not due are left. |
| Namespace.OneCallEach | src/bindings/durable-object.ts:1262-1278 | And exactly one more call is under way for each that was. |
| Namespace.DurableObjectNamespace.RestoreAlarms | src/bindings/durable-object.ts:951-958 | The loop over the rows arms each of them. |
| Namespace.DurableObjectNamespace.SetClass | src/bindings/durable-object.ts:876-934 | The namespace is attached afterwards: index and table agree. |
| Namespace.DurableObjectNamespace.ClearAlarmTimers | src/bindings/durable-object.ts:1155-1158 | The loop clears every indexed timer and no other. |
| Executor.ExactlyOnce | src/bindings/do-executor-worker.ts:309-359 | In every reachable state the counter is the number pending, and every posted command is pending and unsettled or settled exactly once, under an id no other command has. |
| Executor.NothingAfterTeardown | src/bindings/do-executor-worker.ts:559-576 | After teardown nothing is pending, no step makes anything pending, and nothing more is settled. |
| Executor.SettledByItsOwn | src/bindings/do-executor-worker.ts:203-219 | Each settlement was made by one event, and in the state that event came to either the command was pending and the event was a result with its id or a teardown with that error, or the event was its own post, which threw. |
| Executor.ResultSettles | src/bindings/do-executor-worker.ts:213-219 | A result settles the pending command whose id it carries with its value or error, and no other. |
| Executor.TeardownRejectsAll | src/bindings/do-executor-worker.ts:559-576 | A failed start, a crash or a disposal closes the executor and rejects every pending command with its error. |
| Executor.WorkerExecutor.SendCommand | src/bindings/do-executor-worker.ts:309-319 | A disposed executor refuses a command; otherwise it waits to be posted. |
| Executor.WorkerExecutor.Post | src/bindings/do-executor-worker.ts:321-358 | Refused when disposed, else a new id, which is pending and unsettled, or, when posting throws, settled once and not pending. |
| Executor.WorkerExecutor.OnResult | src/bindings/do-executor-worker.ts:171-219 | Late messages are dropped, id -1 tears down, unknown ids are ignored; a command whose id came is not pending afterwards and no other is touched. |
| Executor.WorkerExecutor.TearDown | src/bindings/do-executor-worker.ts:559-576 | The loop rejects each pending command once; afterwards nothing is pending or in flight. |
| RpcValidate.NoErrorsExactlyWhen | src/rpc-validate.ts:35-140 | No errors if and only if nothing unsupported can be reached through maps, sets, arrays and plain objects, on graphs with sharing and cycles. |
| RpcValidate.ReportedOnce | src/rpc-validate.ts:56-70 | Each unsupported object is reported exactly once if it can be reached, else never, whatever the path the walk starts with. |
| RpcValidate.SeenIsReached | src/rpc-validate.ts:56-58 | The walk sees exactly the objects that can be reached. |
| RpcValidate.ReportsLocate | src/rpc-validate.ts:90-129 | The path of every report spells a walk from the root to what is reported, through entries, items and fields. |
| RpcValidate.Validate | src/rpc-validate.ts:39-140 | The recursion over a mutable seen set terminates and does what the set-passing walk does. |
| RpcValidate.ValidateMap | src/rpc-validate.ts:90-99 | Keys and values alternate, with their paths. |
| RpcValidate.ValidateRpcValue | src/rpc-validate.ts:35-37 | The entry point is exact for every starting path, and every report spells the walk to what it is about. |
| ImportGraph.CollectImportGraph | src/import-graph.ts:33-72 | The worklist loop terminates and returns exactly the files a chain of followed imports leads to, the least closed set that holds the entry. Followed are the imports of scannable files that can be read and parsed, where they lead to files under the base directory outside node_modules; so all but the entry are such files. |
| ImportGraph.PushImports | src/import-graph.ts:58-69 | The inner loop pushes what is imported and not yet seen. |
| ImportGraph.ScannableIff | src/import-graph.ts:25-26 | Exactly the files with one of the six suffixes behind a name are scanned. |
| ImportGraph.LocalIff | src/import-graph.ts:36-66 | Exactly the files below the base directory with no directory node_modules on their path are followed. |

## Left out

- SqlMeaningProof.Preserved: speaks of the expressions whose ClickHouse meaning is defined in `SqlMeaning.Mean`: non-negative epochs, non-zero divisors, whole operands of `%`, comparisons of like with like. Its `Faithful` excludes three things. A minus sign in front of a negative interval: the code is wrong there (SqlSigns.NoCommentIff). Date literals facing DateTime arithmetic: for the timestamp moved by a constant SqlLiterals says exactly when the code is right, for a literal on either side of a comparison, for lists of literals and for two literal bounds, and for a time bucket of the timestamp moved by a constant, for a literal on either side of a comparison; any other DateTime in arithmetic, such as `now() - INTERVAL '1' DAY` or `timestamp + double1`, a literal bound or item beside others that are no literals, and DateTime arithmetic inside `if`, are only excluded. And `if` whose branches disagree on being a DateTime.
- SqlSigns.PreservedText: that SQLite reads the text as the tree is shown through the query tokenizer and parser on the fragment they share (SqlReparse.EmitThenParse), and for the rest only as to minus signs; CAST, CASE and strftime are templates.
- SqlMeaningProof.PreservedTimeFn: months, quarters, years and the calendar parts, which are `strftime` formats, are not modelled.
- SqlPrinter.PrintThenParse: columns named INTERVAL or `(` cannot be written so that they read back, and one named NOT only behind a minus sign; all three are excluded.
- SqlSigns.NoCommentIff: speaks of the functions of `SqlEmit`; the others the code emits are named below.
- SqlNumbers.DecimalRoundTrip: positional notation only, as the next line says.
- SqlNumbers.SignedRoundTrip: numbers are exact decimals; hexadecimal and exponent forms, Infinity, and the rounding and rendering of doubles are not modelled.
- SqlMeaning.Mean: SQLite integers are unbounded here, and integer casts have a meaning within the range of their type and of 64 bits only.
- SqlQuantile.ExactIsElement: values and levels are exact reals, so rounding of doubles is not modelled.
- SqlText.NameUndoneIff: control characters, which JSON quoting would escape as well, are not modelled.
- D1Database.BatchIsExecOrNothing: a statement is a function of the database, so one that SQLite refuses only inside a transaction, or only outside, is not modelled.
- Generations.GenerationManager.Live: alarms happen on shared namespaces; one that happens on a namespace no longer shared, or never shared, is `StrayAlarm`, stated for one that is set. A namespace is told of a handler that ends, not which handler had been called.
- Alarms.IndexAgrees: delays are unbounded integers, where `setTimeout` takes 32 bits, so "due at its time" speaks of alarms less than 2^31 milliseconds ahead.
- Generations.Generation.Stop: destroying a namespace is its effect on alarm timers; executors, sockets and the eviction timer are not modelled.
- ReloadQueue.NoOverlap: runs are opaque; that the leader's `finally` comes before the follow-up rests on the order in which promise reactions were registered.
- RpcValidate.Validate: which test an object passes first is part of the object; the wording of messages is not modelled, only path and culprit.
- ImportGraph.CollectImportGraph: reading, transpiling and resolving are functions of the file; the mtime watcher is not modelled.
- RouteTable.LongestPrefix: host-scoped routes follow the rule "first eligible in sorted order" of `Resolve` only, and patterns with a star in the middle are compared but not ranked.
- SELECT lists, clauses, ORDER BY, FORMAT, result metadata, aggregates and the JSON response of the SQL API: easy members around the expression core.
- Names that every JavaScript object inherits, such as `constructor`, as interval units or function names.
- Token positions and the default column names cut from the query text, the flag that LIKE was used, upper-casing outside ASCII.
- The reading of date literals, now, LIKE matching and SQLite's engine are parameters.
- SQLite arithmetic on text, the functions coalesce, min, max, round, length, lower, upper, toString and format conversions.
- D1: bind parameters, result metadata, `dump`, which takes no lock, and user statements that themselves control transactions.
- Assets-only workers, cron and queue consumers, container teardown, containers sharing a namespace, the dashboard listing.
- In-flight request counting: whether a generation is idle is the environment's choice; liveness of resume is not claimed.
- Durable Object storage other than alarms, WebSockets, blockConcurrencyWhile, alarms set in a constructor, failing constructors, alarm messages in transit from worker threads, and idle eviction, which touches no alarm.
- The executor's streams, WebSocket bridges, RPC channel, container cleanup command and ready promise beyond "a command waits until it is posted or refused".
- Networking, process, UI and library wrappers, tracing, CLI and plugins.
