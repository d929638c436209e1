# cpec front end in Dafny

cpec translates a small C-like language into C++ text. Its front end is a
hand-written lexer (`lex_string`) over a NUL-terminated buffer with a moving
cursor and a line counter, and three parsers that drive the cursor:
- `lex_var` reads a declaration type: `mut`, `let`, `<`…`>` pointers,
  `[`…`]` spans, and a base type such as `i32`;
- `lex_expr` cuts an expression into prefix, `(inside)` and tail capsules,
  leaves, and `mut`/`let` initialisations;
- `lex_function` reads a parameter list and a body made of `while` loops.

Two renderers print C++: `recurse_var` turns a type into text such as
`std::span<i32 const>*`, and `recurse_expr` turns an expression tree back
into text, printing a declaration line for each initialisation. Syntax
errors go through `print_error` and `print_expectation_error`, which walk
back from the cursor and write one report per line break they pass. The
entry point loops over a buffer and dispatches on the first token of each
declaration, function or `while`.

The model has the same structure as the source:
- `Text` holds buffer access (`At`, which reads NUL past the end),
  `buffer_string_ptr` and `next_line`.
- `Tables` holds the enums and spelling tables of `type_metagen.cpp`.
- `Diagnostics` holds the two report routines.
- `Lexer` and `LexerProps` hold `lex_string`. Pure functions state one
  call, and a `LexBuffer` class holds the cursor, the line counter and the
  output stream the source mutates.
- `TypeParser` holds `lex_var`, `ExprParser` and `ExprProps` hold
  `lex_expr`, and `FunctionParser` and `FunctionProps` hold `lex_function`.
- `Render` holds `recurse_var` and `recurse_expr`.
- `Driver` and `DriverProps` hold the loop of `wmain`.

Each loop of the source that moves the cursor is a `method` over the
`LexBuffer`. Each such method is proved equal to a recursive specification
function over the buffer and a state `St(pos, line)`. The other scans are
methods over the buffer or its parts (the report loops of `print_error` and
`print_expectation_error`, `exists_param_with_name`, the `for` of
`recurse_expr`, the signature printing) or, for `buffer_string_ptr` and
`next_line`, recursive functions. The properties are lemmas about the
specification functions.

Output (`printf`) is modelled as a sequence of `Emit` values:
- `Error(Report(line, column, message, shown))` for a diagnostic;
- `Code(text)` for generated C++.

The source does undefined or non-terminating things on some inputs. The
model reports these as `ParseError` values instead of hiding them:
- `Diverges` is a loop that would repeat forever from the state it reached;
- `Undefined` is rendering an uninitialised node, a span of negative
  length, or a type whose `is_mutable` stack is too short, where
  recurse_var's `assert` fails.

Syntax errors the source reports and parses past are modelled the same
way, not as failures.

Where cpec's own description differs from `main.cpp`, the model follows
the code:
- A second `mut` at one level only ends the type loop; it is not reported.
- Errors the parsers report do not stop translation. Status 1 is returned
  only by the top-level "name" and "(" or "=" expectations, and by a
  statement that starts with any other token.
- A closer mismatch after a name is reported as "unknown token".
- A character that starts no token lexes as a `Number` of size 0, and a
  `.` that is followed by a letter lexes as a `Name` of size 0.

## Model

| member | source | states |
|---|---|---|
| Text.NameLength | src/main.cpp:43-53 | The name stays inside the buffer and every character in it passes buffer_string_ptr's test. The character after it fails the test. The test is written `>= '0' && >= '9'`, so it accepts only '9' and the characters above it: letters and '9' pass, and the digits '0'-'8' end a name. |
| Text.NextLine | src/main.cpp:265-278 | The result lies between the start and the end of the buffer. No '\n' or NUL comes before it, except the '\n' just before it. It is either just past the first '\n', or at the terminator when no '\n' comes first. |
| Tables.VarTypeIndex | src/type_metagen.cpp:1-2 | The enum value of each base type is an index into var_types, and casting that index back gives the same base type. |
| Tables.KeywordIndex | src/type_metagen.cpp:4-5 | The same round trip for keywords; `while` is index 3. |
| Tables.VarTypeNamesPrefixFree | src/type_metagen.cpp:2 | No base-type spelling is a prefix of another, so the lexer's first prefix match is the only one. |
| Tables.KeywordNamesPrefixFree | src/type_metagen.cpp:5 | No keyword spelling is a prefix of another. |
| Tables.VarTypeNamesWellSpelled | src/type_metagen.cpp:2 | Each base-type spelling is alphanumeric and starts with a letter other than 'm' or 'l', so the `mut` and `let` tests before the tables never take it. |
| Tables.KeywordNamesWellSpelled | src/type_metagen.cpp:5 | Each keyword spelling is alphanumeric and starts with a letter other than 'm' or 'l'. |
| Tables.TablesDisjointPrefixes | src/type_metagen.cpp:1-5 | No keyword is a prefix of a base type and no base type is a prefix of a keyword, so the keyword scan running first does not hide a base type. |
| Lexer.SkipWs | src/main.cpp:75-89 | The whitespace skip never moves backwards or out of the buffer, and stops at a character that is neither ' ' nor '\n'. |
| Lexer.SkipWsBlanks | src/main.cpp:77-83 | Everything the skip passes over is a ' ' or a '\n'. |
| Lexer.DigitRun | src/main.cpp:212-213 | The `candidate` scan stops at the first character that is neither a digit nor '.'. |
| Lexer.DigitRunDigits | src/main.cpp:213 | Everything the `candidate` scan passes over is a digit or a '.'. |
| Lexer.AlnumRun | src/main.cpp:247-250 | The name scan stops at the first non-alphanumeric character. |
| Lexer.AlnumRunAlnum | src/main.cpp:247-250 | Everything the name scan passes over is alphanumeric. |
| Lexer.FirstMatch | src/main.cpp:223-244 | The table scan returns the index of an entry that is a prefix of the buffer at the cursor, or the table size when no entry is. |
| Lexer.FirstMatchSkips | src/main.cpp:223-244 | No entry before the returned index is a prefix at the cursor. |
| Lexer.LexBuffer.constructor | src/main.cpp:922-926 | A new cursor is at offset 0 on line 1, with nothing written. |
| Lexer.LexBuffer.Write | src/main.cpp:292-303 | Output is appended to what was already written. |
| Lexer.LexBuffer.LexString | src/main.cpp:73-258 | The token, the new cursor and the new line count are what the pure `Next` gives: whitespace is skipped and each '\n' counted, and the token is consumed unless `lookahead`. |
| Lexer.LexBuffer.LexWord | src/main.cpp:212-257 | After the fixed-spelling tokens: in turn a number, a keyword, a base type, then a name. A lookahead leaves the cursor at the token's start, and otherwise it moves past the token. |
| Lexer.LexBuffer.ScanDigits | src/main.cpp:212-213 | The `candidate` loop ends where DigitRun says. |
| Lexer.LexBuffer.ScanTable | src/main.cpp:223-244 | The table loops return the first prefix match. |
| LexerProps.TokenBounds | src/main.cpp:91-258 | A token starts at the cursor and stays inside the buffer. It is `Eof` exactly at the terminator. Only `Eof`, `Number` and a `Name` at '.' can be empty. |
| LexerProps.SkipWsIdempotent | src/main.cpp:75-89 | Skipping whitespace twice is the same as skipping it once. |
| LexerProps.NextMoves | src/main.cpp:73-258 | lex_string moves the cursor past the whitespace, and past the token unless `lookahead`. It adds one line per '\n' skipped, and the token is the classification at the first non-blank character. |
| LexerProps.LookaheadThenConsume | src/main.cpp:73-258 | A lookahead followed by a consuming call returns the same token and state as one consuming call, and counts each '\n' once. |
| LexerProps.LookaheadIdempotent | src/main.cpp:252-255 | Repeating a lookahead returns the same token and does not move. |
| LexerProps.PrefixOfPrefix | src/main.cpp:223-244 | Of two words that both match at the cursor, the shorter is a prefix of the longer. |
| LexerProps.OnlyOneMatch | src/main.cpp:223-244 | In a prefix-free table at most one entry matches at the cursor. |
| LexerProps.FirstMatchIsOnly | src/main.cpp:223-244 | In a prefix-free table, an entry that matches is the one the scan returns. |
| LexerProps.NoTableMatchAtNonLetter | src/main.cpp:223-244 | Where the cursor is not at a letter, neither table matches. |
| LexerProps.NoFixedWord | src/main.cpp:190-210 | Where the cursor character is not '/', 'm' or 'l', neither `//`, `mut` nor `let` matches. |
| LexerProps.WordPassesEarlierTests | src/main.cpp:94-221 | A word from either table at the cursor rules out every test lex_string makes before the tables. |
| LexerProps.KeywordSpellingLexes | src/main.cpp:223-233 | A keyword spelling at the cursor lexes as that keyword, and its size is the spelling's length. |
| LexerProps.VarTypeSpellingLexes | src/main.cpp:234-244 | A base-type spelling at the cursor lexes as that base type, and its size is the spelling's length. |
| LexerProps.NoKeywordAtVarType | src/main.cpp:223-244 | No keyword matches where a base-type spelling does. |
| LexerProps.MutIsAPrefixMatch | src/main.cpp:197-203 | `mut` is a prefix test, so "mutable" lexes as `Mut` of size 3. |
| LexerProps.StrayCharIsEmptyNumber | src/main.cpp:212-221 | A character that starts no token, such as ';' or a tab, lexes as a `Number` of size 0, so the cursor does not move. |
| LexerProps.DigitsThenLetterIsName | src/main.cpp:212-250 | Digits followed by a letter are not a number. The lexer reads them as a name covering the whole alphanumeric run. |
| Diagnostics.Anchor | src/main.cpp:284-286 | The backward scan stops at a '\n' or at the start of the buffer, at or before the given offset. |
| Diagnostics.AnchorSpan | src/main.cpp:284-286 | No '\n' lies between the anchor and the offset. |
| Diagnostics.ErrorEmits | src/main.cpp:281-307 | print_error writes something exactly when the cursor is not at the start of the buffer. |
| Diagnostics.ReportError | src/main.cpp:281-307 | The backward loop writes exactly ErrorEmits. |
| Diagnostics.ErrorEmitsShape | src/main.cpp:284-304 | Every output of print_error is a report with the given line, message and shown line. The first report has the token's column counted from the '\n' that starts its line. |
| Diagnostics.ErrorEmitsLast | src/main.cpp:284-292 | The last report counts the column from the start of the buffer. |
| Diagnostics.ErrorEmitsFirst | src/main.cpp:286-292 | The first report's column is cursor − anchor − size + 1. |
| Diagnostics.ScanShape | src/main.cpp:284-304 | From any point of the scan on, every output is a report with the given line, message and shown line. |
| Diagnostics.ScanLast | src/main.cpp:284-292 | From any point of the scan on, the last report is the one at the buffer's start. |
| Diagnostics.ScanFirst | src/main.cpp:284-292 | The first report of the scan is at the anchor of its starting offset. |
| Diagnostics.ScanCount | src/main.cpp:284-286 | The scan writes one report per '\n' it passes, plus one at the start of the buffer. |
| Diagnostics.ErrorEmitsCount | src/main.cpp:281-307 | print_error writes one report per '\n' before the cursor (after the first character), plus one. |
| Diagnostics.OneLineReport | src/main.cpp:281-307 | With no '\n' before the cursor, exactly one report is written, at the 1-based column of the token. |
| Diagnostics.SecondLineReportsTwice | src/main.cpp:284-292 | On the second line of "a\nb" two reports are written: column 2, counted from the '\n', then column 3, counted from the buffer start. |
| Diagnostics.ColumnOnFirstLine | src/main.cpp:291 | On the first line the column is the token's 1-based index. |
| Diagnostics.ColumnAfterNewline | src/main.cpp:291 | After a '\n' the column is counted from the character after it, plus one: the source's column is one too large. |
| Diagnostics.MissingNameColumn | src/main.cpp:291 | A zero-size token at the end of "i32 x = " gets column 9. |
| Diagnostics.ExpectationScan | src/main.cpp:311-341 | The outer scan of print_expectation_error writes something at every stop. |
| Diagnostics.ExpectationEmits | src/main.cpp:309-342 | print_expectation_error writes something exactly when the cursor is not at the start of the buffer. |
| Diagnostics.ExpectedMessage | src/main.cpp:317-321 | The message loop builds `expected "A" or "B" …`. |
| Diagnostics.SlashJoined | src/main.cpp:330-334 | The suggestion loop joins the alternatives with '/'. |
| Diagnostics.ExpectationError | src/main.cpp:309-342 | The nested loops write exactly ExpectationEmits. |
| Diagnostics.ExpectationStop | src/main.cpp:314-340 | One stop builds the message and, for a zero-size token, the suggestion line from CopiedLine, then calls print_error. |
| Diagnostics.CStringPrefix | src/main.cpp:336 | What `.c_str()` prints of a string is its prefix before the first NUL: it holds no NUL, and it is the whole string or is followed by a NUL. |
| Diagnostics.CopiedLineIsCString | src/main.cpp:336 | The shown line is what `.c_str()` prints of the `pos - a` characters copied from after the '\n' (or the buffer start), so the terminator the copy takes in at the end of the buffer is not shown. |
| Diagnostics.EndOfInputSuggestion | src/main.cpp:336 | A zero-size token at the end of "{\n" is shown as " }": nothing of the terminator appears. |
| Diagnostics.ExpectationScanShape | src/main.cpp:311-341 | Every output is a report carrying the token's line and the "expected" message. |
| Diagnostics.ExpectationEmitsShape | src/main.cpp:309-342 | The same for the whole call. The first report has the token's column and, for a zero-size token, the suggestion built for the token's own line. |
| Diagnostics.ExpectationFirst | src/main.cpp:314-339 | The first output of the scan is the report for the token's own line. |
| Diagnostics.ExpectationAtCount | src/main.cpp:314-340 | At a '\n' or at the buffer start, one stop writes a whole print_error. At every other offset it writes nothing. |
| Diagnostics.ExpectationScanCount | src/main.cpp:311-341 | The scan from any point writes (newlines passed + 1) × (newlines before the cursor + 1) reports. |
| Diagnostics.ExpectationEmitsCount | src/main.cpp:309-342 | With L the number of lines up to the cursor, the call writes L × L reports. |
| Diagnostics.OneLineExpectation | src/main.cpp:309-342 | On the first line, exactly one report is written, at the token's column, with the suggestion for the line. |
| Diagnostics.SecondLineExpectsFourTimes | src/main.cpp:309-342 | On the second line of "a\nb" four reports are written. |
| Diagnostics.MissingNameReport | src/main.cpp:309-342 | A name missing at the end of "i32 x = " is reported once, at line 1, column 9, as `expected "name"`, with the line "i32 x =  name". |
| Diagnostics.ExpectedTextQuotes | src/main.cpp:317-321 | When no alternative holds a '"', the message holds exactly two '"' per alternative. |
| Diagnostics.SlashJoinSeparators | src/main.cpp:330-334 | When no alternative holds a '/', the suggestion holds exactly one '/' between each pair of neighbours. |
| Diagnostics.CloseOrCommaMessage | src/main.cpp:823 | The parameter-list message reads `expected ")" or ","`. |
| TypeParser.PossiblyVarConsumes | src/main.cpp:518-521 | A token that possibly_var accepts is never empty, so taking it moves the cursor. |
| TypeParser.Collect | src/main.cpp:403-464 | The collecting loop never moves the cursor backwards or out of the buffer. |
| TypeParser.CollectStep | src/main.cpp:411-419 | The lookahead and the consuming call return the same token, and consuming a type token moves the cursor. |
| TypeParser.CollectEndsOnLookahead | src/main.cpp:411-460 | The loop stops either at a lookahead token that possibly_var rejects, with the cursor at that token's start, or after a repeated `mut` or a late `let`. |
| TypeParser.Close | src/main.cpp:480-513 | The closing loop never moves backwards, and its counts only grow. |
| TypeParser.CloseStep | src/main.cpp:482-512 | One closer is consumed, the count for its kind goes up by one, and the loop continues at the next lookahead. |
| TypeParser.CloseEnds | src/main.cpp:480-513 | The closing loop ends at the first token that is neither `]` nor `>`. After at least one closer that token is a lookahead, left at the cursor. |
| TypeParser.PushToken | src/main.cpp:422-461 | One iteration adds a flag, a modifier or a base type to the Var, and breaks on a second `mut` at one level or on a `let` after the first token. |
| TypeParser.CollectTypeTokens | src/main.cpp:400-464 | The collecting loop builds the Var, the token and the state that Collect gives, and writes the `let` report. |
| TypeParser.CollectRound | src/main.cpp:411-463 | One pass either ends the loop with its outcome or moves the cursor forward. |
| TypeParser.CountModifiers | src/main.cpp:466-474 | The counting loop gives the number of Array and of Ptr modifiers. |
| TypeParser.CountClosers | src/main.cpp:476-513 | The closing loop gives the counts, the final token and the state that Close gives. |
| TypeParser.CheckCounts | src/main.cpp:494-515 | A mismatch writes one of the three reports and fails, and a match returns the Var. |
| TypeParser.LexVar | src/main.cpp:398-516 | lex_var returns the result, leaves the state and writes the reports that the specification function LexVarSpec gives. |
| TypeParser.ApplyPushes | src/main.cpp:441-448 | `<` pushes a Ptr, `[` pushes an Array, and no other token pushes anything. |
| TypeParser.CollectKeepsShape | src/main.cpp:422-439 | The mutability stack never holds more than one entry more than the modifier stack. |
| TypeParser.CollectModifiers | src/main.cpp:441-448 | The modifier stack is the old one followed by one entry per `<` or `[` consumed, in order. |
| TypeParser.CollectVarType | src/main.cpp:449-452 | The last base-type token consumed sets the type. |
| TypeParser.CollectMonotone | src/main.cpp:422-461 | The mutability stack only grows and the loop never sets a name. |
| TypeParser.LexVarSuccess | src/main.cpp:398-516 | A successful Var is the collected one: it has at least one flag, the stack shape above and no name, and its only reports are from the collecting loop. |
| TypeParser.LexVarAdvances | src/main.cpp:398-516 | lex_var never moves the cursor backwards. |
| TypeParser.LexVarClosers | src/main.cpp:466-515 | lex_var succeeds exactly when the `]` and `>` counts equal the Array and Ptr counts. A failure carries the message the source chooses: "unknown token" after a name, otherwise the `]` message before the `>` one. On success the cursor is at the first token that is not a closer. |
| TypeParser.PointerVarExample | src/main.cpp:398-516 | `<i32> x`, after its `<`, gives a Ptr over i32 with neither level mutable, and the cursor is left before the name. |
| Render.RenderableIff | src/main.cpp:745-766 | recurse_var is defined exactly when the level has a flag and, for a non-`auto` type, each modifier level has the next flag. |
| Render.VarWithBaseRenders | src/main.cpp:745-766 | A Var with one flag more than its modifiers always renders. This is the shape lex_var leaves after a base type. |
| Render.ConstIffNotMutable | src/main.cpp:748 | A level's text ends in " const" exactly when that level is not mutable. |
| Render.RenderedModifiers | src/main.cpp:755-762 | From a level on, the text holds one '*' per Ptr and one '<' per Array, so no modifier is dropped or duplicated. |
| Render.RenderedLevel | src/main.cpp:755-762 | A modifier level adds exactly its own mark to the level below. |
| Render.RenderedBase | src/main.cpp:750-765 | The base level holds neither '*' nor '<'. |
| Render.ConstPointerSpelling | src/main.cpp:759-765 | A const pointer to a const i32 is "i32 const* const". |
| Render.MutablePointerSpelling | src/main.cpp:759-765 | With both levels mutable the text is "i32*". |
| Render.AnyDropsModifiers | src/main.cpp:750-753 | An unset base type prints "auto" and drops every modifier. |
| Render.MissingFlagFails | src/main.cpp:747 | `<i32<>>` reaches a level with no flag, where the assertion fails. |
| Render.SpanText | src/main.cpp:779-786 | A span has text exactly when its size is not negative and it lies inside the buffer. The text has that size. |
| Render.NameAt | src/main.cpp:788-791 | A printed name is made of characters that pass buffer_string_ptr's test. |
| Render.RenderExpr | src/main.cpp:769-792 | The capsule loop gives the text and the declarations that RecurseExpr gives. |
| Render.OneDeclPerVarInit | src/main.cpp:788-791 | Rendering prints one declaration per `mut`/`let` initialisation in the tree, at any depth. |
| Render.CapsuleDecls | src/main.cpp:774-781 | Over a capsule list, one declaration per initialisation inside the capsules. |
| Render.InsideDecls | src/main.cpp:780 | For one capsule, one declaration per initialisation inside it. |
| Render.NestedInitsInnermostFirst | src/main.cpp:788-791 | `mut a = let b = x` prints "auto const b;" before "auto a;" and returns "a = b = x". |
| Render.InitDeclSpelling | src/main.cpp:790 | The declaration of an initialisation is `auto`, then ` const` unless the keyword was `mut`, then the name. |
| ExprParser.SkipSpaces | src/main.cpp:611 | The skip passes only ' ' and stops at a character that is not ' '. It counts no lines. |
| ExprParser.OneCharToken | src/main.cpp:127-175 | `(`, `)`, `=` and `{` tokens are one character long. |
| ExprParser.ExprFrom | src/main.cpp:607-729 | lex_expr never moves the cursor backwards or out of the buffer. |
| ExprParser.ExprStep | src/main.cpp:614-726 | A pass either returns or moves the cursor forward. A pass that would leave the cursor where it was is reported as `Diverges`. |
| ExprParser.ExprTake | src/main.cpp:622-717 | The token-taking half of a pass never moves backwards. |
| ExprParser.CapsuleStep | src/main.cpp:640-677 | A capsule pass either returns or moves the cursor forward, or it is reported as `Diverges`. |
| ExprParser.CapsuleTake | src/main.cpp:648-667 | The token-taking half of a capsule pass never moves backwards. |
| ExprParser.LexExpr | src/main.cpp:607-729 | lex_expr returns the result, leaves the state and writes the reports that ExprFrom gives. |
| ExprParser.ExprPass | src/main.cpp:614-726 | One outer pass is ExprStep. |
| ExprParser.ExprTakePass | src/main.cpp:622-717 | The token-taking half is ExprTake. |
| ExprParser.LexParen | src/main.cpp:623-677 | The `(` branch is ParenFrom: the nested expression, then the capsule loop. |
| ExprParser.LexVarInit | src/main.cpp:679-709 | The `mut`/`let` branch is VarInitFrom, including its two expectation reports. |
| ExprParser.LexCapsules | src/main.cpp:640-677 | The capsule loop is CapsuleLoop. |
| ExprParser.CapsulePass | src/main.cpp:642-669 | One capsule pass is CapsuleStep. |
| ExprParser.CapsuleTakePass | src/main.cpp:648-667 | The token-taking half is CapsuleTake. |
| ExprProps.ExprFromShaped | src/main.cpp:607-729 | lex_expr fails only by divergence. A capsule list is never empty, and only its first capsule has a prefix, exactly in the outermost call. An initialisation's destination has no modifiers, one flag, a name and an unset type. |
| ExprProps.ExprLoopShaped | src/main.cpp:614-726 | The same for the outer loop. |
| ExprProps.ExprStepShaped | src/main.cpp:614-726 | The same for a pass that returns. |
| ExprProps.ExprTakeShaped | src/main.cpp:622-717 | The same for the token-taking half. |
| ExprProps.ParenShaped | src/main.cpp:623-677 | The `(` branch returns capsules of that shape. |
| ExprProps.VarInitShaped | src/main.cpp:679-709 | The `mut`/`let` branch returns an initialisation whose one flag says whether the keyword was `mut`, or leaves the node unset. |
| ExprProps.CapsuleLoopShaped | src/main.cpp:640-677 | The capsule loop returns the capsules closed so far, then the open one with its prefix, then capsules with no prefix. |
| ExprProps.CapsuleStepShaped | src/main.cpp:642-676 | A capsule pass either keeps building the open capsule or closes it and opens one with no prefix. |
| ExprProps.CapsuleTakeShaped | src/main.cpp:648-667 | The same for the token-taking half. |
| ExprProps.PrefixEndsAtParen | src/main.cpp:623-631 | In the outermost call the first capsule's prefix starts at `pre_paren` and ends just before the `(` that opened it. |
| ExprProps.ExprLeafEnds | src/main.cpp:611-724 | A leaf starts at the first non-space character. The outermost leaf ends at the cursor; a nested leaf ends just before the `)` it consumed. |
| ExprProps.ExprLoopLeafEnds | src/main.cpp:614-726 | The same for the outer loop. |
| ExprProps.ExprTakeLeafEnds | src/main.cpp:711-717 | The same for the token-taking half. |
| ExprProps.CapsuleLoopTails | src/main.cpp:640-677 | Each tail but the last ends just before the `(` of the next capsule. In a nested call the last tail ends at the cursor and so takes in the `)` that closed the call. |
| ExprProps.CapsuleStepTails | src/main.cpp:649-667 | A capsule pass that closes a capsule at `(` ends its tail just before that `(`. |
| ExprProps.CurlyRightAfterParen | src/main.cpp:670-675 | As written, a `{` right after an outermost `)` gives that capsule a tail of size −1. |
| FunctionParser.ExistsParamWithName | src/main.cpp:60-70 | The search loop returns true exactly when some stored parameter's name agrees with the lookup as strncmp compares, over the lookup's length. |
| FunctionParser.ParamLoop | src/main.cpp:800-851 | The parameter loop never moves backwards and stores only named parameters. |
| FunctionParser.ParamStep | src/main.cpp:802-850 | A pass either ends the loop or moves the cursor forward, and stores only named parameters. |
| FunctionParser.ParamNamed | src/main.cpp:808-837 | After a type: a fresh name is stored; a repeated name is reported and lex_function returns; then `)` ends the list and anything but `,` is reported. |
| FunctionParser.BodyLoop | src/main.cpp:856-895 | The body loop never moves the cursor backwards. |
| FunctionParser.BodyStep | src/main.cpp:858-894 | A body pass either ends the body or moves the cursor forward. |
| FunctionParser.BodyVarStep | src/main.cpp:859-874 | A declaration followed by a name that is not at the end of a line is reported as `Diverges`, because is_newline_next never advances its pointer. |
| FunctionParser.BodyOtherStep | src/main.cpp:875-894 | A `while`, a `}`, the end of input with its report, or any other token that is passed over. |
| FunctionParser.WhileSpec | src/main.cpp:877-884 | A `while` condition is lexed as an outermost expression, and its declarations are printed before the loop line. |
| FunctionParser.FunctionSpec | src/main.cpp:794-903 | lex_function never moves the cursor backwards. |
| FunctionParser.FunctionBody | src/main.cpp:853-902 | After the parameter list, either a `{` and the body or a "{" report. |
| FunctionParser.LexFunction | src/main.cpp:794-903 | lex_function returns the result, leaves the state and writes what FunctionSpec gives. |
| FunctionParser.LexFunctionBody | src/main.cpp:853-902 | The part after the list is FunctionBody. |
| FunctionParser.LexParams | src/main.cpp:800-851 | The parameter loop gives the parameters, state and reports of ParamLoop. |
| FunctionParser.ParamRound | src/main.cpp:800-851 | One pass either ends with the loop's outcome or moves the cursor forward. |
| FunctionParser.ParamPass | src/main.cpp:802-850 | One pass is ParamStep. |
| FunctionParser.ParamTypedPass | src/main.cpp:803-838 | A pass from a type token is ParamTyped. |
| FunctionParser.ParamNamedPass | src/main.cpp:808-837 | The rest of the pass is ParamNamed. |
| FunctionParser.LexBody | src/main.cpp:856-895 | The body loop is BodyLoop. |
| FunctionParser.BodyRound | src/main.cpp:856-895 | One pass either ends with the loop's outcome or moves forward. |
| FunctionParser.BodyPass | src/main.cpp:858-894 | One pass is BodyStep. |
| FunctionParser.BodyOtherPass | src/main.cpp:875-894 | A pass from a non-type token is BodyOtherStep. |
| FunctionParser.BodyVarPass | src/main.cpp:859-874 | The declaration branch is BodyVarStep. |
| FunctionParser.WhilePass | src/main.cpp:877-884 | The `while` branch is WhileSpec. |
| FunctionProps.ParamNamedDistinct | src/main.cpp:808-831 | A pass keeps the stored parameters and adds at most one whose name was not yet taken. |
| FunctionProps.ParamStepDistinct | src/main.cpp:802-850 | The same for a whole pass. |
| FunctionProps.ParamLoopDistinct | src/main.cpp:800-851 | The parameter loop only appends, and never stores a name that exists_param_with_name matches. |
| FunctionProps.FunctionDistinct | src/main.cpp:794-903 | Every Function returned has pairwise distinct parameter names, as exists_param_with_name compares them. It also has the return type and name it was entered with. |
| FunctionProps.ParamNamedReturnReported | src/main.cpp:821-836 | When a pass makes lex_function return early, the last thing written is a report. |
| FunctionProps.ParamStepReturnReported | src/main.cpp:802-850 | The same for a whole pass. |
| FunctionProps.ParamLoopReturnReported | src/main.cpp:800-851 | When the parameter loop returns before the body (a missing type, name or repeated name), the last output is that report, unless the cursor is at the buffer's start. |
| FunctionProps.BodyStepFailures | src/main.cpp:858-894 | A body pass fails only by divergence or undefined behaviour. |
| FunctionProps.WhileFailures | src/main.cpp:877-884 | A `while` fails only by divergence or undefined behaviour. |
| FunctionProps.BodyLoopFailures | src/main.cpp:856-895 | The body loop fails only by divergence or undefined behaviour. |
| FunctionProps.FunctionFailures | src/main.cpp:794-903 | lex_function reports syntax errors and goes on. It fails only where the source would hang or have undefined behaviour. |
| FunctionProps.DigitSuffixIsRepeat | src/main.cpp:43-64 | In `x1, x2` both names are the one-character `x`, so the second is reported as a repeat. |
| FunctionProps.PrefixIsRepeat | src/main.cpp:64 | `ab, a` reports `a` as a repeat of `ab`, but `a, ab` does not report `ab`. |
| FunctionProps.CloseWhereParameterStarts | src/main.cpp:839-849 | A `)` where a parameter should start ends an empty list. After a `,` it is a "variable type" report and lex_function returns, so `(i32 x,)` is rejected. |
| FunctionProps.ParamStepAppendsOne | src/main.cpp:811-825 | A pass that goes round again stores exactly one parameter more. |
| Driver.ParamTypes | src/main.cpp:949-953 | The parameter types are defined exactly when every parameter renders, and they are those renderings, in order. |
| Driver.RunLoop | src/main.cpp:928-1015 | The loop never moves the cursor backwards. |
| Driver.RunStep | src/main.cpp:930-1014 | A pass either ends the loop or moves the cursor forward. |
| Driver.OtherStep | src/main.cpp:986-1014 | A keyword, a comment, or any other token, which returns 1. |
| Driver.VarStep | src/main.cpp:931-985 | A declaration pass never moves backwards. A failing lex_var ends the loop. |
| Driver.DeclStep | src/main.cpp:937-984 | After a type: a name, then `(` or `=`. Anything else is reported and returns 1. |
| Driver.SignatureStep | src/main.cpp:942-960 | A function is lex_function followed by its signature line. |
| Driver.AssignStep | src/main.cpp:961-972 | An initialiser renders the type, lexes and renders the expression, and prints the line. |
| Driver.PrintSignature | src/main.cpp:945-959 | The printing code writes SignatureText. |
| Driver.PrintParams | src/main.cpp:949-958 | The parameter loop prints the types joined by ", ", and fails exactly when one does not render. |
| Driver.Transpile | src/main.cpp:928-1015 | The top-level loop returns the status, leaves the state and writes what RunLoop gives. |
| Driver.RunRound | src/main.cpp:928-1015 | One pass ends with the loop's outcome or moves forward. |
| Driver.RunPass | src/main.cpp:930-1014 | One pass is RunStep. |
| Driver.OtherPass | src/main.cpp:986-1014 | A pass from a non-type token is OtherStep. |
| Driver.VarPass | src/main.cpp:931-985 | A declaration pass is VarStep. |
| Driver.DeclPass | src/main.cpp:937-984 | The rest after the type is DeclStep. |
| Driver.SignaturePass | src/main.cpp:942-960 | The function branch is SignatureStep. |
| Driver.AssignPass | src/main.cpp:961-972 | The initialiser branch is AssignStep. |
| DriverProps.TypeHasNoComma | src/main.cpp:745-766 | No rendered type holds a comma. |
| DriverProps.JoinedCommas | src/main.cpp:949-958 | Joining comma-free items puts exactly one comma between neighbours. |
| DriverProps.SignatureCommas | src/main.cpp:945-959 | A signature line holds |params| − 1 commas, so it lists parameter types only. |
| DriverProps.SignatureExample | src/main.cpp:942-959 | `i32 f(mut i32 a, u8 b)` prints "i32 const f(i32, u8 const)". |
| DriverProps.EndOfInputExitsOne | src/main.cpp:1010-1013 | When only blanks remain, the loop returns 1 and writes nothing, so every buffer read to its end returns 1. |
| DriverProps.CommentKeepsLineCount | src/main.cpp:1006-1009 | A `//` comment moves the cursor to the next line or the end of input, without counting the '\n' it passes. |

## Left out

- The file reading, argument handling and usage text of `wmain` (main.cpp:905-927) are left out. The model translates one buffer, given as a parameter.
- Reports are modelled without their colour codes or file path. The underline line that print_error prints when no line is given (main.cpp:295-300) is left out; the model records only whether a line was passed.
- `DebugLog` is left out; only its control flow is kept.
- The model cannot express non-termination. `Diverges` marks each point where a loop of the source would repeat forever from the same state, and the model stops there:
  - lex_expr's outer and capsule loops at a token they do not consume;
  - is_newline_next;
  - the body loop of lex_function at a zero-size token.
- Undefined behaviour becomes `Undefined` (an uninitialised expression node, a negative span, or recurse_var's failing assert); the model does not say what the source would print.
- `Keyword::While` is read by main.cpp but not declared in type_metagen.cpp. The model adds it as keyword index 3, spelled "while".
- lex_vardecl, lex_vardecl_while and lex_while_inner (main.cpp:347-378, 540-606) are not called from the core or are commented out, so they are not modelled. The body branch that would call lex_vardecl does nothing.
- The `enum`, `struct` and `union` branches of the top-level loop are empty, and the model passes those keywords over in the same way.
- A NUL inside the buffer is left out: the buffer holds no NUL, and `At` reads NUL only past its end.
- The buffer is a `seq<char>` in which each character stands for one byte of the source's `char` buffer, so offsets, sizes and columns count bytes. A multi-byte UTF-8 character of the input spans several positions, and characters above 0xFF do not occur.
- Integer widths are left out: offsets, sizes and columns are unbounded integers. A buffer shorter than 2^31 characters never reaches the limit of the source's `int`.
- The first pass of lex_var's loop (`first_time`) is written before the loop rather than as a flag tested in it.
- The loop over one buffer leaving by `break` is modelled as the `Finished` status. What `wmain` does after that (the next file, then falling off its end) is left out.
- Only one file is modelled. The loop over several files (main.cpp:915-926) is left out.
- `is_newline_next` is modelled only through what it does to control flow. It is not a separate function.
