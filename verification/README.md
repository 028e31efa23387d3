# Verification of the workflow engine's core

A Dafny 4.11 model of the parts of the repository where a small slip would be expensive, with proofs of what they promise.
`dafny verify dfyconfig.toml` checks everything.

* **Workflow expressions** (`packages/workflow-nodes/src/expression`, `nodes/filter-conditions.ts`). The lexer, the
  recursive-descent parser and the template scanner are imperative: a cursor over a token array and scanning loops, each
  proved against a function. The parser is then proved to accept exactly the spellings of a declarative grammar of concrete
  syntax trees, a minimal-parenthesis printer is proved to be its inverse, the depth-bounded evaluator is characterised
  exactly by the unbounded one, the two scanners are proved to agree, and the per-item rewrite `$json.items[k]` to `$json`
  is proved to keep the meaning of a filter, from the source text of its operands to the items it keeps.
  What the tables of the language say is fixed apart from the code's own predicates: a grammar with one nonterminal for
  each level (`LevelGrammar`), tokens as sets of texts (`TokenLaws`), operators by lists of values (`OperatorLaws`), and
  filters from their raw conditions (`FilterLaws`).
* **Archive and synchronisation** (`workers/d1tor2-cron`, `workers/queue-worker`). Archiving is a class whose batches
  advance in any order, at any time the code waits, with any step failing before or after taking effect. The batched upsert
  is proved equal to upserting the records one by one.
* **Rate limits and caches over KV** (`workers/auth-worker/src/shared`). The cached, write-throttled IP counter is proved to
  give, in every run, the verdicts of one plain record; the support quotas are proved over every run; the read cache is
  proved under every interleaving.
* **OAuth state** (`oauth-state.ts`). The base64url codec (sections 4 and 5 of RFC 4648) and the framing are proved to
  lose nothing.

Numbers are `Finite` reals, `NaN` or an infinity, and number tokens keep their lexeme. Coercions, comparisons, arithmetic,
builtin bodies, `JSON.stringify`, the typed filter comparisons, the message authentication code and the JSON codec of the
OAuth state are parameters; those that can throw in JavaScript may fail. Clock readings are inputs.

## What the proofs found

Each of these is a theorem about the code as it is.

* The item rewrite works on text, so it also changes string literals and misses references spelled with spaces. It is the
  rewrite of the tokens exactly on sources without either (`ItemSourceExact.TextRewriteIsTokenRewrite`).
* A path that starts at a bare `$json` reads the item instead of the payload, unless it asks for a forbidden name
  (`ItemLimits.BareJsonIsKeptIff`); a reference that starts at a property of an item keeps its meaning exactly if the item
  has no such property (`ItemLimits.NestedReferenceIsKeptIff`); and `$json` is the item itself exactly if the item is an
  object: scalars are wrapped (`FilterTheorems.JsonOnItem`).
* Optional chaining never matters: plain property access already yields `undefined` on `null` and `undefined`
  (`EvaluatorLaws.OptionalChangesNothing`).
* A rate-limit record that an authentication failure creates has no window, so its requests are counted without end.
  Callers that stay more than a window apart always pass exactly if the first event was no failure
  (`IpRequestRate.FirstEventDecides`, and `IpRequestRate.SlowCallersPassIff` for any record).
* A check drops a block that neither the count of failures nor 600 requests account for: that of a smaller request limit,
  and that of failures which healing has let start over. Twice the limit per minute is enforced exactly for limits of at
  least 600 and up to four times the authentication limit of failures (`IpRequestRate.RateHoldsIff`).
* A check answers from a healed record but leaves an overlong block in a fresh memory entry, and steps that do not write
  leave one in KV (`IpRateLimitTheorems.StepsAreBounded`).
* A fetch that is under way when a cached value is set can overwrite it with an older one. A value that was set stays
  exactly if no such fetch is under way (`KvCache.SetStaysIff`). `invalidateKvCache("")` clears the whole cache.
* A batch of records with different columns is not always the simple upsert: columns that only other rows of the chunk
  have are written as null, and columns that only superseded records of a key have are lost. It is exactly under the
  conditions of `UpsertColumns.BatchIsSimpleIff` and, without explicit nulls, of `UpsertColumns.BatchIsSimpleIffCarried`.
  Records with nothing but their conflict columns give invalid SQL and can never be synchronised
  (`UpsertBatches.BatchSucceedsIff`).
* A concurrency limit that is not positive starts no pipeline and no batch, and the loops never end. A run gets one exactly
  if the stored limit is not positive or, without a stored one, the environment variable is a text, not empty, that does
  not spell a positive number, such as `0` or `abc` (`Concurrency.LimitStartsWork`, `Concurrency.LoopEndsIff`). The fallback
  behind the loaded settings (`pipeline-manager.ts:120-154`) is reached by no run, because every entry point loads first.
* A deletion trusts the marks it finds, so a row can be lost exactly if it was dated and marked without having been taken
  (`ArchiveHistory.RowIsSafeIff`, `ArchiveHistory.OnlyMarkedRowsAreLost`).

## Model

| member | source | states |
|---|---|---|
| Parser.Parser.constructor | packages/workflow-nodes/src/expression/parse.ts:15-18 | a new parser stands before the first token |
| Parser.Parser.Peek | packages/workflow-nodes/src/expression/parse.ts:20-22 | the token under the cursor, which is the end marker when no other is left |
| Parser.Parser.Eat | packages/workflow-nodes/src/expression/parse.ts:24-31 | consumes exactly one token, and stays on a token unless it consumed the end marker |
| Parser.Parser.Expect | packages/workflow-nodes/src/expression/parse.ts:214-216 | consumes the wanted kind or fails at the column of the token found instead |
| Parser.Parser.EatIdent | packages/workflow-nodes/src/expression/parse.ts:24-31 | consumes an identifier and gives its name, or fails at the token's column |
| Parser.Parser.ParseTernary | packages/workflow-nodes/src/expression/parse.ts:33-41 | same tree, tokens left and error as the specification; consumes at least one token and never passes the end marker |
| Parser.Parser.ParseNullishOr | packages/workflow-nodes/src/expression/parse.ts:43-56 | the loop over `\|\|` and `??` agrees with the specification, including the column of the mixing error, and makes progress |
| Parser.Parser.ParseAnd | packages/workflow-nodes/src/expression/parse.ts:58-65 | agrees with the specification at its level, consumes at least one token, stays before the end |
| Parser.Parser.ParseEquality | packages/workflow-nodes/src/expression/parse.ts:67-79 | agrees with the specification at its level, consumes at least one token, stays before the end |
| Parser.Parser.ParseRelational | packages/workflow-nodes/src/expression/parse.ts:81-93 | agrees with the specification at its level, consumes at least one token, stays before the end |
| Parser.Parser.ParseAdd | packages/workflow-nodes/src/expression/parse.ts:95-102 | agrees with the specification at its level, whose operators `LevelGrammar` lists; consumes at least one token, stays before the end |
| Parser.Parser.ParseMul | packages/workflow-nodes/src/expression/parse.ts:104-111 | agrees with the specification at its level, whose operators `LevelGrammar` lists; consumes at least one token, stays before the end |
| Parser.Parser.ParseUnary | packages/workflow-nodes/src/expression/parse.ts:113-124 | unary chains, `typeof` included, agree with the specification and make progress |
| Parser.Parser.ParsePostfix | packages/workflow-nodes/src/expression/parse.ts:126-170 | the postfix loop agrees with the specification and ends, because every round consumes a token |
| Parser.Parser.ParseSuffix | packages/workflow-nodes/src/expression/parse.ts:130-166 | one round: member, index or call, with the limit of eight arguments reported at the opening parenthesis |
| Parser.Parser.ParseCall | packages/workflow-nodes/src/expression/parse.ts:151-166 | the arguments of a call, and the limit of eight reported at the opening parenthesis |
| Parser.Parser.ParseEnclosed | packages/workflow-nodes/src/expression/parse.ts:191-196 | a ternary and its closing token, or the first error |
| Parser.Parser.ParsePrimary | packages/workflow-nodes/src/expression/parse.ts:172-212 | literals, names, parentheses and arrays agree with the specification; anything else is the error at that token |
| Parser.Parser.ParseList | packages/workflow-nodes/src/expression/parse.ts:197-210 | items between commas with an optional trailing comma, as specified, up to but not past the closing token |
| Parser.Parser.ParseMoreItems | packages/workflow-nodes/src/expression/parse.ts:202-206 | the loop behind the first item: every round consumes a comma, and a comma before the closing token ends it |
| Parser.ParseTokens | packages/workflow-nodes/src/expression/parse.ts:7-13 | the whole parse of a token list that ends in the end marker: the tree, or the reason with its column |
| ParserTheorems.Complete | packages/workflow-nodes/src/expression/parse.ts:33-212 | every spelling of every well-formed tree is parsed back to that tree at every level that may hold it, leaving what follows |
| ParserSoundness.Sound | packages/workflow-nodes/src/expression/parse.ts:33-212 | whatever a level accepts is a derivation of exactly the consumed tokens, in the declarative grammar |
| ParserSoundness.ParserIsExact | packages/workflow-nodes/src/expression/parse.ts:7-13 | the parser returns a tree if and only if the tokens before the end marker spell it; `LevelGrammar.ParserFollowsLevels` says the same with a grammar that lists the operators of each level |
| ParserSoundness.SpellingsAreUnambiguous | packages/workflow-nodes/src/expression/parse.ts:33-212 | no token sequence spells two trees |
| LevelGrammar.LevelsAreTrees | packages/workflow-nodes/src/expression/parse.ts:33-212 | the grammar with one nonterminal for each level, which lists the tokens of every level, derives exactly what the concrete trees derive |
| LevelGrammar.ParserFollowsLevels | packages/workflow-nodes/src/expression/parse.ts:43-124 | so products bind tighter than sums, these tighter than comparisons, equality, `&&`, and `\|\|` or `??`: the parser returns a tree if and only if the tokens spell it in that grammar |
| ParserErrors.ExpectLaw | packages/workflow-nodes/src/expression/parse.ts:214-216 | a token other than the one that must follow is the error |
| ParserErrors.MixingLaw | packages/workflow-nodes/src/expression/parse.ts:46-50 | `\|\|` behind a chain of `??`, or the reverse, is the error at that token |
| ParserErrors.ArgumentsLaw | packages/workflow-nodes/src/expression/parse.ts:151-164 | too many arguments are an error of the opening parenthesis, a missing closing one of the token found |
| ParserErrors.MemberLaw | packages/workflow-nodes/src/expression/parse.ts:130-150 | behind a dot anything but a name is the error |
| ParserErrors.OperandLaw | packages/workflow-nodes/src/expression/parse.ts:172-212 | a token that starts no operand is the error at every level |
| ParserErrors.ProgramLaw | packages/workflow-nodes/src/expression/parse.ts:7-13 | tokens behind a whole expression are the error |
| Printer.ParsePrinted | packages/workflow-nodes/src/expression/parse.ts:33-212 | parsing the printed tokens of any well-formed tree returns it: associativity, unary chains, postfix chains and the mixing rule included |
| Printer.ParserRange | packages/workflow-nodes/src/expression/parse.ts:33-212 | the parser can return a tree if and only if no name in it is reserved and no call has more than eight arguments |
| Printer.PrintIsShortest | packages/workflow-nodes/src/expression/parse.ts:33-212 | no spelling of a tree has fewer tokens than the printed one, so the printer sets only parentheses the parser needs |
| Tokenizer.ReadString | packages/workflow-nodes/src/expression/tokenize.ts:67-89 | the text with its escapes resolved and the column behind the closing quote, or the unterminated-string error at its start |
| Tokenizer.SkipDigits | packages/workflow-nodes/src/expression/tokenize.ts:97-97 | stops behind the last digit of the run |
| Tokenizer.SkipFraction | packages/workflow-nodes/src/expression/tokenize.ts:98-101 | passes a dot only with a digit behind it, and then that dot and all digits behind it; `TokenLaws.NumberLaw` says which numbers result |
| Tokenizer.SkipExponent | packages/workflow-nodes/src/expression/tokenize.ts:102-107 | passes an exponent with at least one digit, or reports it as invalid |
| Tokenizer.ReadNumber | packages/workflow-nodes/src/expression/tokenize.ts:91-110 | the longest number at the column in the sense of `TokenLaws.NumberLaw`, or the error of the specification |
| Tokenizer.SkipIdent | packages/workflow-nodes/src/expression/tokenize.ts:134-139 | stops behind the last identifier character |
| Tokenizer.ReadToken | packages/workflow-nodes/src/expression/tokenize.ts:122-158 | one round of the lexer reads the same token as the specification, longest operators first |
| Tokenizer.Tokenize | packages/workflow-nodes/src/expression/tokenize.ts:112-163 | the tokens of the specification with the end marker, or its first error; both limits enforced |
| LexerTheorems.LexRendered | packages/workflow-nodes/src/expression/tokenize.ts:112-163 | any legal token list, rendered with spaces and escaped strings, is read back with the same kinds and values |
| LexerTheorems.LexerRoundTrip | packages/workflow-nodes/src/expression/tokenize.ts:112-163 | the same through the whole lexer, within its length and count limits |
| LexerTheorems.LexIsLegal | packages/workflow-nodes/src/expression/tokenize.ts:67-163 | everything the lexer returns is legal: numbers are whole numbers, names are whole names |
| LexerTheorems.RelexIsStable | packages/workflow-nodes/src/expression/tokenize.ts:112-163 | rendering the tokens of any accepted source and reading them again changes nothing but the layout |
| LexerTheorems.TokensFillSpans | packages/workflow-nodes/src/expression/tokenize.ts:112-163 | every token starts at its span and is exactly what one step reads there |
| LexerTheorems.SpansTile | packages/workflow-nodes/src/expression/tokenize.ts:112-163 | on accepted input the spans increase, are disjoint, and only white space lies outside of them |
| TokenLaws.NumberLaw | packages/workflow-nodes/src/expression/tokenize.ts:91-110 | a text that starts like a number is read as its longest prefix of the form digits or a dot and digits, perhaps a dot and digits, perhaps an exponent; an exponent without digits is the error |
| TokenLaws.StringLaw | packages/workflow-nodes/src/expression/tokenize.ts:67-89 | a string is the characters and escapes before the closing quote, with line feed, tab and carriage return for the letters n, t and r; without a closing quote it is the error |
| TokenLaws.NameLaw | packages/workflow-nodes/src/expression/tokenize.ts:134-139 | a name is the longest run of letters, digits and underscores behind a letter, underscore or dollar |
| TokenLaws.OperatorLaw | packages/workflow-nodes/src/expression/tokenize.ts:140-157 | anything else is the longest operator of the table that the text starts with, or the error at its first character |
| TokenLaws.SpaceLaw | packages/workflow-nodes/src/expression/tokenize.ts:118-121 | exactly blanks, tabs, line feeds and carriage returns are skipped |
| TokenLaws.LimitLaw | packages/workflow-nodes/src/expression/tokenize.ts:112-163 | more than 8000 characters, or more than 500 tokens with the end marker, are refused |
| Frontend.ParseExpression | packages/workflow-nodes/src/expression/parse.ts:7-13 | lexer and parser together give the tree or the located error of the specification |
| SourceRoundTrip.ParseRendered | packages/workflow-nodes/src/expression/parse.ts:7-13 | printing a tree as text and parsing that text returns the tree, within the lexer's limits |
| EvaluatorTheorems.BoundedEvaluation | packages/workflow-nodes/src/expression/evaluate.ts:87-177 | at every depth the evaluator gives the nesting error exactly if the visited depth exceeds 64, and else the unbounded value or error |
| EvaluatorTheorems.BoundedRefinesUnbounded | packages/workflow-nodes/src/expression/evaluate.ts:87-129 | any outcome but the nesting error is the unbounded one, and the outcome at every smaller depth |
| EvaluatorTheorems.UnboundedNeverTooDeep | packages/workflow-nodes/src/expression/evaluate.ts:87-88 | the nesting error comes from the limit alone |
| EvaluatorTheorems.ShallowTreesEvaluate | packages/workflow-nodes/src/expression/evaluate.ts:87-129 | a tree with no node deeper than 64 never raises the nesting error |
| OperatorLaws.LogicLaws | packages/workflow-nodes/src/expression/evaluate.ts:131-143 | `&&`, `\|\|` and `??` return the left value by a list of falsy values, or by `null` and `undefined`, and else the outcome of the right side, which is not evaluated before |
| OperatorLaws.ConditionalLaws | packages/workflow-nodes/src/expression/evaluate.ts:120-123 | a conditional gives the outcome of one branch, by the same list |
| OperatorLaws.BothSidesLaws | packages/workflow-nodes/src/expression/evaluate.ts:144-177 | what the other operators compute from both values, left side first: equality and its negation, comparison, joined texts, arithmetic |
| OperatorLaws.PrefixLaws | packages/workflow-nodes/src/expression/evaluate.ts:111-117 | `!`, `typeof`, `+` and `-` |
| OperatorLaws.AccessLaws | packages/workflow-nodes/src/expression/evaluate.ts:94-103 | what `.name` and `[key]` give on every kind of value, and `undefined` behind `null` and `undefined` |
| OperatorLaws.PropertyLaws | packages/workflow-nodes/src/expression/evaluate.ts:179-229 | own fields of objects, elements and length of arrays, length of texts, the listed methods, and `undefined` for the rest |
| OperatorLaws.ListLaws | packages/workflow-nodes/src/expression/evaluate.ts:108-125 | lists are evaluated in order: all values, or the first failure |
| OperatorLaws.ListLawsWithin | packages/workflow-nodes/src/expression/evaluate.ts:108-125 | the same at every depth |
| OperatorLaws.CallLaws | packages/workflow-nodes/src/expression/evaluate.ts:104-110 | calls, errors on values that are no functions, and arrays |
| OperatorLaws.LeafLaws | packages/workflow-nodes/src/expression/evaluate.ts:90-93 | the values of literals and names |
| OperatorLaws.TooDeepLaw | packages/workflow-nodes/src/expression/evaluate.ts:88-88 | deeper than 64 levels everything is the nesting error |
| EvaluatorLaws.PropertiesAreSafe | packages/workflow-nodes/src/expression/evaluate.ts:179-229 | property access reaches own parts and listed methods only, and forbidden names give `undefined` on every target |
| EvaluatorLaws.OptionalChangesNothing | packages/workflow-nodes/src/expression/evaluate.ts:94-103 | writing every `?.` as plain access leaves value, error and depth behaviour of every expression unchanged |
| EvaluatorLaws.OnlyFreeNamesMatter | packages/workflow-nodes/src/expression/evaluate.ts:87-177 | environments that agree on the names an expression looks up give the same outcome |
| FilterTheorems.EnvLookup | packages/workflow-nodes/src/expression/evaluate.ts:57-78 | what every name means: `$json`, `json`, context names with their fallbacks, globals, and then the scope |
| Templates.FindTemplateBlocks | packages/workflow-nodes/src/expression/interpolate.ts:11-50 | the loops find the blocks of the specification; an unclosed block ends the scan |
| Templates.FindClose | packages/workflow-nodes/src/expression/interpolate.ts:20-47 | the position of the braces that close a block, with quotes and escapes hiding braces |
| Templates.Interpolate | packages/workflow-nodes/src/expression/interpolate.ts:63-80 | plain text, the raw value of a lone block, or the spliced text; the first error wins |
| Templates.SpliceBlocks | packages/workflow-nodes/src/expression/interpolate.ts:72-79 | the loop over the blocks gives gaps and values in order |
| TemplateTheorems.BlocksLoseNothing | packages/workflow-nodes/src/expression/interpolate.ts:11-50 | blocks are ordered, disjoint and in bounds, and with the gaps they spell the template again |
| TemplateTheorems.TemplatesCompose | packages/workflow-nodes/src/expression/interpolate.ts:11-50 | if the first scan ends outside a block and no brace pair straddles the join, the blocks of two texts are those of the first and the shifted ones of the second |
| TemplateTheorems.StringsAgree | packages/workflow-nodes/src/expression/interpolate.ts:25-36 | inside a string the lexer and the block scanner stop at the same quote |
| TemplateTheorems.SourceIsOneBlock | packages/workflow-nodes/src/expression/interpolate.ts:11-50 | a source the lexer accepts, between braces, is exactly one block whatever follows |
| TemplateTheorems.LoneBlockIsRaw | packages/workflow-nodes/src/expression/interpolate.ts:68-70 | interpolating it gives the raw value of the source |
| TemplatePieces.InterpolatedIsMeaning | packages/workflow-nodes/src/expression/interpolate.ts:52-80 | interpolation by positions equals reading the template piece by piece, for every template and scope |
| TemplateLaws.ShownLaw | packages/workflow-nodes/src/expression/interpolate.ts:57-60 | the text of a value inside a template |
| TemplateLaws.EvaluateLaw | packages/workflow-nodes/src/expression/evaluate.ts:80-85 | what evaluating a source gives: `undefined` for blank ones, the located error of the parser, or the outcome of the tree |
| ItemRewrite.RewriteCommutesWithParsing | packages/workflow-nodes/src/nodes/filter-conditions.ts:319-322 | rewriting the tokens of any expression and parsing them gives the rewritten syntax tree, for both targets of the rewrite |
| ItemReferences.NothingLoose | packages/workflow-nodes/src/nodes/filter-conditions.ts:313-322 | if every `$json` token starts a reference and none is a property, the tree holds no `$json` outside references |
| ItemMeaning.TreeOnItem | packages/workflow-nodes/src/nodes/filter-conditions.ts:319-322 | such a tree, rewritten, evaluates on the item as the tree reindexed to that item does on the payload, and needs no more depth |
| ItemSource.CleanRewrite | packages/workflow-nodes/src/nodes/filter-conditions.ts:319-322 | without references in strings or with spaces, the text rewrite is the token rewrite |
| ItemSourceExact.TextRewriteIsTokenRewrite | packages/workflow-nodes/src/nodes/filter-conditions.ts:319-322 | and only then: the rewritten text still lexes, and to the rewritten tokens if and only if the source is clean |
| ItemTheorem.TokenRewriteKeepsMeaning | packages/workflow-nodes/src/nodes/filter-conditions.ts:319-322 | the token rewrite parses and keeps the meaning of every expression whose `$json` tokens are references |
| ItemTheorem.SameWithinDepth | packages/workflow-nodes/src/expression/evaluate.ts:87-88 | the bounded outcomes agree too, unless the payload hits the depth limit |
| SourceRewrite.SourceRewriteParses | packages/workflow-nodes/src/nodes/filter-conditions.ts:319-322 | the same from source text: the rewritten text parses within the limits and means the same |
| TemplateRewrite.TrimCommutes | packages/workflow-nodes/src/expression/evaluate.ts:80-82 | trimming and rewriting commute |
| TemplateRewrite.TemplateRewriteIsPiecewise | packages/workflow-nodes/src/nodes/filter-conditions.ts:319-322 | rewriting a whole template rewrites its expressions and nothing else, if references stand in blocks only |
| FilterTheorems.JsonOnItem | packages/workflow-nodes/src/nodes/filter-conditions.ts:371-374 | `$json` is the record of the item, and the item itself if and only if it is an object |
| FilterTheorems.ExpressionOnItem | packages/workflow-nodes/src/nodes/filter-conditions.ts:371-374 | a block of a rewritten operand has on any item the value of the reindexed block in any scope whose payload holds the record of the item at the index, unless a size limit is hit there |
| FilterTheorems.OperandOnItem | packages/workflow-nodes/src/nodes/filter-conditions.ts:136-144 | so has every operand, plain, lone or mixed, errors becoming `undefined` alike |
| FilterTheorems.FilterOnItem | packages/workflow-nodes/src/nodes/filter-conditions.ts:286-297 | an item passes the rewritten filter if and only if such a scope passes the filter reindexed to it |
| FilterTheorems.FilterKeepsByIndex | packages/workflow-nodes/src/nodes/filter-conditions.ts:348-379 | a per-item filter keeps, in order, exactly the items at whose index the conditions hold in the scope of the item on the payload with its items as records, whatever the items are and whatever names they shadow |
| FilterTheorems.FilterKeepsOnPayload | packages/workflow-nodes/src/nodes/filter-conditions.ts:348-379 | if the items are objects that shadow no name the operands use, exactly the items at whose index the conditions hold on the payload itself |
| FilterTheorems.FilteringTwiceIsOnce | packages/workflow-nodes/src/nodes/filter-conditions.ts:334-376 | in a fixed scope, filtering the output again changes neither output nor verdict |
| FilterLaws.FilterLaw | packages/workflow-nodes/src/nodes/filter-conditions.ts:286-379 | from the raw conditions of a node: it keeps, in order, exactly the items for which some row holds (combinator "or") or all of at least one row hold (any other), or tests the payload alike; rows hold by the presence of the resolved left operand or the typed comparison |
| FilterLaws.RewriteLaw | packages/workflow-nodes/src/nodes/filter-conditions.ts:313-322 | the item rewrite replaces every reference from left to right, and nothing else |
| ItemLimits.BareJsonIsKeptIff | packages/workflow-nodes/src/nodes/filter-conditions.ts:371-374 | a path `$json.a.b…` without reference keeps its meaning on every item of every payload if and only if it asks for a forbidden name |
| ItemLimits.NestedReferenceIsKeptIff | packages/workflow-nodes/src/nodes/filter-conditions.ts:319-322 | `$json.items[0].$json.items[1]`, for every item and payload: the item gives the property `$json` of the item, the payload that property's element; for data these agree if and only if the item has no such property |
| Archive.Archiver.constructor | workers/d1tor2-cron/src/pipelines/pipeline-manager.ts:395-411 | a fresh archiver has nothing accepted and nothing in flight |
| Archive.Archiver.Send | workers/d1tor2-cron/src/pipelines/pipeline-manager.ts:514-529 | posting a batch: the endpoint takes its rows or not, whatever it reports, and no row of the table changes |
| Archive.Archiver.MarkRows | workers/d1tor2-cron/src/pipelines/pipeline-manager.ts:551-563 | marking touches rows the endpoint took and nothing else, whether or not the statement reports success |
| Archive.Archiver.Advance | workers/d1tor2-cron/src/pipelines/pipeline-manager.ts:497-546 | one step of a batch never loses a row, marks only what was taken, and counts every acceptance |
| Archive.Archiver.Background | workers/d1tor2-cron/src/pipelines/pipeline-manager.ts:413-464 | any number of steps of any batches, and rows added that are not due, keep all of that |
| Archive.Archiver.Race | workers/d1tor2-cron/src/pipelines/pipeline-manager.ts:455-465 | some batch has settled, and meanwhile all batches may have advanced |
| Archive.Archiver.AwaitBatch | workers/d1tor2-cron/src/pipelines/pipeline-manager.ts:465-476 | a settled batch leaves the queue with its rows taken once and marked, or the run is over |
| Archive.Archiver.QueryPage | workers/d1tor2-cron/src/pipelines/pipeline-manager.ts:419-451 | a page is the next stretch of the rows due, although other batches went on meanwhile |
| Archive.Archiver.FillQueue | workers/d1tor2-cron/src/pipelines/pipeline-manager.ts:417-452 | pages are started as long as the limit allows it, in order and without overlap; without a positive limit nothing is started |
| Archive.Archiver.RunBatches | workers/d1tor2-cron/src/pipelines/pipeline-manager.ts:411-480 | the outer loop keeps the books of the run; with a positive limit it ends within two rounds for each row due and one more, without one no number of rounds ends it |
| Archive.Archiver.Delete | workers/d1tor2-cron/src/pipelines/pipeline-manager.ts:568-581 | the deletion removes exactly the rows due, all of them taken and marked, or nothing |
| Archive.Archiver.Run | workers/d1tor2-cron/src/pipelines/pipeline-manager.ts:395-489 | whatever the limit, the order of completion, the failures and the marks found at the start: a row leaves only if it was due and taken in this run, rows not due are untouched, a run that finishes has posted every row due exactly once and left none, and given enough rounds a run gets out of its loop if and only if the limit is positive |
| Archive.Archiver.RunDaily | workers/d1tor2-cron/src/pipelines/pipeline-manager.ts:395-489 | over any number of runs, cut off anywhere, with what they left in flight going on for any number of steps, no row leaves the table that the endpoint has not taken |
| ArchiveLaws.PageLaw | workers/d1tor2-cron/src/pipelines/pipeline-manager.ts:417-419 | a page holds, in ascending order, the selected rows with 10000 ranks from the offset on |
| ArchiveLaws.MarkLaw | workers/d1tor2-cron/src/pipelines/pipeline-manager.ts:551-563 | marking sets the time of the given rows and nothing else |
| ArchiveLaws.DeleteLaw | workers/d1tor2-cron/src/pipelines/pipeline-manager.ts:568-581 | the deletion removes exactly the marked rows created at or before the cut-off |
| ArchiveLaws.ArchivedLaw | workers/d1tor2-cron/src/pipelines/pipeline-manager.ts:395-489 | a finished run has each row created at or before the cut-off taken once more, no other, and leaves none |
| ArchiveHistory.RowIsSafeIff | workers/d1tor2-cron/src/pipelines/pipeline-manager.ts:551-581 | under overlapping runs, deletions at any time and other writers, a row is safe in every continuation if and only if it was taken, is out of reach of deletions, or is not marked |
| ArchiveHistory.RunsAreHonest | workers/d1tor2-cron/src/pipelines/pipeline-manager.ts:514-537 | in every history a batch reaches its marking only after the endpoint has taken it |
| ArchiveHistory.OnlyMarkedRowsAreLost | workers/d1tor2-cron/src/pipelines/pipeline-manager.ts:551-581 | from a table with nothing in flight, some history loses a row if and only if it is dated and marked to begin with |
| ArchiveHistory.AddedRowIsSafe | workers/d1tor2-cron/src/pipelines/pipeline-manager.ts:568-581 | a row that is added unmarked at any point of any history is never lost |
| Concurrency.ParseIntPositive | workers/d1tor2-cron/src/pipelines/pipeline-manager.ts:66-71 | `parseInt` of a text is positive if and only if white space and perhaps a plus are followed by digits that are not all zero |
| Concurrency.LimitStartsWork | workers/d1tor2-cron/src/pipelines/pipeline-manager.ts:66-118 | the limit of a run never exceeds 20, and it lets work start if and only if the stored limit is positive or, without a stored one, the environment variable is unset, empty or spells a positive number |
| Concurrency.ParseIntLaw | workers/d1tor2-cron/src/pipelines/pipeline-manager.ts:66-71 | `parseInt` skips white space, reads a sign and digits, and ignores the rest |
| Concurrency.LimitLaw | workers/d1tor2-cron/src/pipelines/pipeline-manager.ts:66-118 | the limit of a run is the stored number, the one the variable starts with, or 5 pipelines and 3 batches, and 20 at most |
| Concurrency.KindsApart | workers/d1tor2-cron/src/pipelines/pipeline-manager.ts:112-118 | pipelines and batches have limits of their own |
| Concurrency.LoopEndsIff | workers/d1tor2-cron/src/pipelines/pipeline-manager.ts:175-240 | over every run of the loop: it can reach its end, and never takes more than two steps for each piece of work, if and only if the limit is positive or there is nothing to do |
| Pool.Race | workers/d1tor2-cron/src/pipelines/pipeline-manager.ts:201-226 | some running pipeline gives a result under its own name, failed if it rejected |
| Pool.RunAllPipelines | workers/d1tor2-cron/src/pipelines/pipeline-manager.ts:163-250 | if the settings let work start, one round for each pipeline is enough, every pipeline gives exactly one result, successes and failures add up to the total, and the peak is as high as limit and number allow; otherwise no number of rounds is enough |
| IpRateLimit.Limiter.constructor | workers/auth-worker/src/shared/ip-rate-limit.ts:40-43 | memory and KV start empty |
| IpRateLimit.Limiter.Remember | workers/auth-worker/src/shared/ip-rate-limit.ts:91-104 | the entry of one address changes, and its two time stamps only if touched |
| IpRateLimit.Limiter.PersistRecord | workers/auth-worker/src/shared/ip-rate-limit.ts:212-224 | memory always gets the record, KV at most once a second unless forced; no other address changes |
| IpRateLimit.Limiter.ReadHealed | workers/auth-worker/src/shared/ip-rate-limit.ts:250-264 | the healed KV record, which is written back or deleted as the healing says |
| IpRateLimit.Limiter.SyncRecord | workers/auth-worker/src/shared/ip-rate-limit.ts:279-291 | KV and memory are merged, healed and remembered, or forgotten |
| IpRateLimit.Limiter.LoadRecord | workers/auth-worker/src/shared/ip-rate-limit.ts:266-292 | the record found, from memory while it is fresh, and what becomes of memory and KV |
| IpRateLimit.Limiter.CountOrReject | workers/auth-worker/src/shared/ip-rate-limit.ts:347-380 | the field-by-field update of a record is one counted request, a block, or a rejection |
| IpRateLimit.Limiter.TrackRequest | workers/auth-worker/src/shared/ip-rate-limit.ts:335-381 | one request changes its own address only, with the verdict of the step function |
| IpRateLimit.Limiter.OneMoreFailure | workers/auth-worker/src/shared/ip-rate-limit.ts:389-406 | the record after one more authentication failure, with its escalating block |
| IpRateLimit.Limiter.AuthFailure | workers/auth-worker/src/shared/ip-rate-limit.ts:383-409 | a failure is written to memory and KV at once, for its own address only |
| IpRateLimit.Limiter.CheckIp | workers/auth-worker/src/shared/ip-rate-limit.ts:294-329 | the verdict of a check, which `IpBlocks` fixes over runs, and the drop of a block that neither failures nor requests account for |
| IpRateLimitTheorems.CacheIsInvisible | workers/auth-worker/src/shared/ip-rate-limit.ts:266-409 | in every run with a clock that does not run backwards, each verdict is that of one plain record without cache and throttling |
| IpRateLimitTheorems.RunAgrees | workers/auth-worker/src/shared/ip-rate-limit.ts:266-409 | the same from any state in which KV lags behind memory by requests at most |
| IpRateLimitTheorems.StepAgrees | workers/auth-worker/src/shared/ip-rate-limit.ts:294-409 | one request, failure or check keeps that relation and gives the plain verdict |
| IpRateLimitTheorems.LoadWell | workers/auth-worker/src/shared/ip-rate-limit.ts:266-292 | loading through memory, KV, merge and healing finds what the plain record shows |
| IpRateLimitTheorems.MergeLaws | workers/auth-worker/src/shared/ip-rate-limit.ts:106-133 | merging is commutative, associative and idempotent, a missing window or count taken as zero |
| IpRateLimitTheorems.MergeInAnyOrder | workers/auth-worker/src/shared/ip-rate-limit.ts:106-133 | any permutation of isolates' records merges to the same record |
| IpRateLimitTheorems.LoadIsBounded | workers/auth-worker/src/shared/ip-rate-limit.ts:156-181 | whatever is stored, the record loaded is blocked for fifteen minutes at most |
| IpRateLimitTheorems.StepsAreBounded | workers/auth-worker/src/shared/ip-rate-limit.ts:294-409 | whatever is stored, every retry time lies in 1 to 900 seconds; a block of more than fifteen minutes stays in memory exactly over a check that finds it in a fresh entry, and in KV exactly over a step that finds a fresh entry and does not write |
| IpRateLimitTheorems.MergeTakesMost | workers/auth-worker/src/shared/ip-rate-limit.ts:106-133 | a merged record has the most failures, the longest block, and the later window with its count |
| IpRateLimitTheorems.PersistLaw | workers/auth-worker/src/shared/ip-rate-limit.ts:212-224 | KV gets a record when forced, or a second or more after the last write; memory always |
| IpRateLimitTheorems.FreshLaw | workers/auth-worker/src/shared/ip-rate-limit.ts:266-270 | memory answers for less than a second after the last read or write of KV |
| IpRateLimitTheorems.HealLaw | workers/auth-worker/src/shared/ip-rate-limit.ts:156-181 | what healing drops, keeps and changes |
| IpRateLimitTheorems.AttemptLaw | workers/auth-worker/src/shared/ip-rate-limit.ts:373-405 | every record that is written carries the time of the step |
| IpRequestRate.RequestRateHolds | workers/auth-worker/src/shared/ip-rate-limit.ts:335-409 | in every run of the cached counter with limits from 600 to L and at most four times the authentication limit of failures, no minute holds more than 2·L allowed requests |
| IpRequestRate.RateHoldsIff | workers/auth-worker/src/shared/ip-rate-limit.ts:294-409 | with one limit and a bound on the failures, that holds in every such run if and only if the limit is at least 600 and the failures are at most four times the authentication limit |
| IpRequestRate.SlowCallersPassIff | workers/auth-worker/src/shared/ip-rate-limit.ts:357-364 | callers more than a window apart always pass if and only if the record has a window and no block, or a block that is over before the first of them can come |
| IpRequestRate.FirstEventDecides | workers/auth-worker/src/shared/ip-rate-limit.ts:383-409 | from an empty counter they always pass if and only if the first event was not an authentication failure |
| IpBlocks.FailuresBlock | workers/auth-worker/src/shared/ip-rate-limit.ts:383-409 | after enough failures every request and every check on either path is rejected until the block ends, with the seconds left, and the first one after that passes; it ends 5, 10 or 15 minutes after the last failure by their number, or after the window of the authentication module if that is longer, and after 15 minutes at most |
| IpBlocks.LoginNeedsFailures | workers/auth-worker/src/shared/ip-rate-limit.ts:306-314 | with fewer failures than the limit no check on a login path is rejected, whatever the requests |
| IpBlocks.FloodBlocks | workers/auth-worker/src/shared/ip-rate-limit.ts:347-380 | up to the limit the requests of a window pass; the one after it is rejected for five minutes, and for limits of at least 600 so is everything but logins until then |
| SiteSupport.Quota.constructor | workers/auth-worker/src/shared/site-support-rate-limit.ts:64-74 | an unused quota |
| SiteSupport.Quota.RollWindow | workers/auth-worker/src/shared/site-support-rate-limit.ts:115-120 | a window that is over becomes a fresh one without block; day and lifetime stay |
| SiteSupport.Quota.RollDay | workers/auth-worker/src/shared/site-support-rate-limit.ts:122-127 | a new UTC day starts at zero; window and lifetime stay |
| SiteSupport.Quota.Track | workers/auth-worker/src/shared/site-support-rate-limit.ts:134-195 | the counts and the decision of one post |
| SiteSupport.Quota.TrackAll | workers/auth-worker/src/shared/site-support-rate-limit.ts:134-195 | the counts and the accepted posts of a run |
| SiteSupport.QuotasHold | workers/auth-worker/src/shared/site-support-rate-limit.ts:4-11 | over every run: lifetime is the number of accepted posts and at most 100, at most 30 on any UTC day, at most 20 in any half-open ten minutes |
| SiteSupport.RunTracks | workers/auth-worker/src/shared/site-support-rate-limit.ts:115-195 | the counts of a run count its accepted posts: at most ten in the current window and in the one before |
| SiteSupport.BlockOpensWindow | workers/auth-worker/src/shared/site-support-rate-limit.ts:115-120 | the first post after a window block opens a fresh window, and is accepted unless day or lifetime are spent |
| SiteSupport.RunsWaitBriefly | workers/auth-worker/src/shared/site-support-rate-limit.ts:56-62 | in every run a window block asks to wait 1 to 600 seconds, a daily one 1 to 86400 |
| SupportRuns.PostsAreDecided | workers/auth-worker/src/shared/site-support-rate-limit.ts:134-195 | without a window block in the last ten minutes, a post is gated by 100 accepted posts, blocked for the day by 30, accepted with fewer than 10 in the last ten minutes, and otherwise accepted or blocked for ten minutes |
| SupportRuns.BlockLasts | workers/auth-worker/src/shared/site-support-rate-limit.ts:156-187 | every post in the ten minutes behind a window block is blocked with the seconds left, and the first one after them is not blocked for its window |
| KvCache.Module.constructor | workers/auth-worker/src/shared/kv-ttl-cache.ts:12-13 | an empty cache with nothing in flight |
| KvCache.Module.GetKvTextCached | workers/auth-worker/src/shared/kv-ttl-cache.ts:15-37 | an entry is returned if and only if it has not expired; otherwise the caller waits for the one fetch of the key, started only if none runs |
| KvCache.Module.ThenStore | workers/auth-worker/src/shared/kv-ttl-cache.ts:27-30 | an arriving value is stored with its time to live |
| KvCache.Module.FinallyForget | workers/auth-worker/src/shared/kv-ttl-cache.ts:31-33 | a settled fetch leaves the list of its key |
| KvCache.Module.SetKvTextCached | workers/auth-worker/src/shared/kv-ttl-cache.ts:39-45 | a value set replaces the entry, and fetches go on |
| KvCache.Module.InvalidateKvCache | workers/auth-worker/src/shared/kv-ttl-cache.ts:47-53 | one key or, without a key or with the empty one, everything is dropped, and fetches go on |
| KvCache.RunsCoalesce | workers/auth-worker/src/shared/kv-ttl-cache.ts:23-36 | in every interleaving the list of fetches is exact |
| KvCache.OneReadPerKey | workers/auth-worker/src/shared/kv-ttl-cache.ts:23-36 | so at most one KV read is outstanding for a key |
| KvCache.ReadsAreRecent | workers/auth-worker/src/shared/kv-ttl-cache.ts:25-30 | in every interleaving a value a fetch brings was the content of KV at a time since the fetch started |
| KvCache.EntriesAreReal | workers/auth-worker/src/shared/kv-ttl-cache.ts:25-45 | in every interleaving every stored entry was set, or was the content of KV at a time during the fetch that stored it |
| KvCache.SetStaysIff | workers/auth-worker/src/shared/kv-ttl-cache.ts:25-45 | a value that is set stays until it expires, in every continuation, if and only if no fetch of the key is under way that could store something else or something shorter-lived |
| KvCache.StoreLaw | workers/auth-worker/src/shared/kv-ttl-cache.ts:15-45 | a value that is set or fetched is given out until its time to live is over, and no other key changes |
| KvCache.InvalidateLaw | workers/auth-worker/src/shared/kv-ttl-cache.ts:47-53 | one key, or without a key or with the empty one every key, is forgotten; fetches go on |
| KvCache.FetchLaw | workers/auth-worker/src/shared/kv-ttl-cache.ts:20-36 | a caller who finds nothing waits for the one fetch of the key; a fetch reads the content of KV, and a rejected one stores nothing |
| Upsert.DedupeSyncRecords | workers/queue-worker/src/database/index.ts:787-806 | one record for each key in the order of first occurrence: the last of those with the highest queue number |
| Upsert.MaxRows | workers/queue-worker/src/database/index.ts:67-72 | as many rows as the bind limit allows for the number of columns, and at least one |
| Upsert.Chunks | workers/queue-worker/src/database/index.ts:837-838 | no chunk is empty or longer than the chunk size |
| Upsert.Database.constructor | workers/queue-worker/src/database/index.ts:809-816 | a database with a table |
| Upsert.Database.Execute | workers/queue-worker/src/database/index.ts:839-854 | one statement: skipped without binds, refused with more than 100, and otherwise applied as a whole or not at all |
| Upsert.Database.BatchUpsert | workers/queue-worker/src/database/index.ts:809-856 | the table after a batch is that of a prefix of its statements, and of all of them if it succeeds |
| UpsertTheorems.KeysAgree | workers/queue-worker/src/database/index.ts:792-793 | records share a map key if and only if they share their conflict values |
| UpsertTheorems.StableSortSorts | workers/queue-worker/src/database/index.ts:787-806 | the order of the simple upsert: the same records, ascending by queue number |
| UpsertTheorems.SortedLastIsBest | workers/queue-worker/src/database/index.ts:787-806 | in that order the last record of a key is the last of those with the highest queue number |
| UpsertBatches.DedupedIsDistinct | workers/queue-worker/src/database/index.ts:787-806 | no two deduplicated records share their conflict values |
| UpsertBatches.DedupedLastIsBest | workers/queue-worker/src/database/index.ts:787-806 | every conflict key keeps its best record and no key is dropped |
| UpsertBatches.StatementsKeepLimit | workers/queue-worker/src/database/index.ts:832-846 | with at most 100 columns in all every statement has at most 100 binds |
| UpsertBatches.ChunkRowsAreRows | workers/queue-worker/src/database/index.ts:837-838 | the chunks concatenate to exactly the deduplicated list |
| UpsertBatches.ChunkedIsSimple | workers/queue-worker/src/database/index.ts:126-151 | any chunk size within the bind limit gives the table of upserting the records one by one in stable ascending queue order |
| UpsertBatches.BatchIsSimple | workers/queue-worker/src/database/index.ts:809-856 | the same for the chunks the code forms |
| UpsertBatches.RedeliveryIsHarmless | workers/queue-worker/src/database/index.ts:809-856 | running any prefix of the statements and then the whole batch gives the table of one run |
| UpsertBatches.BatchSucceedsIff | workers/queue-worker/src/database/index.ts:134-150 | records that share their columns can be synchronised if and only if there is a column to update and at most 100 in all |
| UpsertBatches.WideningErases | workers/queue-worker/src/database/index.ts:134-142 | in one statement, columns of other rows change a row if and only if it exists and holds something in one of them; the whole batch is the next two rows |
| UpsertColumns.BatchIsSimpleIff | workers/queue-worker/src/database/index.ts:126-151 | records with any columns, chunks of any size: the batch gives the table of the simple upsert on every table if and only if every chunk is a valid statement within the bind limit and every column of every key is kept |
| UpsertColumns.BatchIsSimpleIffCarried | workers/queue-worker/src/database/index.ts:787-856 | without explicit nulls that means: every kept row carries the columns of its chunk, and the kept row of every record carries the columns of the record |
| UpsertLaws.QueueLaw | workers/queue-worker/src/database/index.ts:799-800 | the queue number of a record |
| UpsertLaws.TextLaw | workers/queue-worker/src/database/index.ts:793-793 | the text of a conflict value |
| UpsertLaws.KeyLaw | workers/queue-worker/src/database/index.ts:793-793 | the map key of one or two conflict values |
| UpsertLaws.ColumnsLaw | workers/queue-worker/src/database/index.ts:134-134 | the columns of a chunk are those of its records, without the surrogate key |
| UpsertLaws.DedupedOrder | workers/queue-worker/src/database/index.ts:787-806 | the kept records stand in the order in which their keys first occur |
| UpsertLaws.ChunksLaw | workers/queue-worker/src/database/index.ts:837-838 | which rows each chunk holds, all but the last of them full |
| UpsertLaws.RowLaw | workers/queue-worker/src/database/index.ts:126-151 | what one upsert does to its row, column by column, and to no other |
| UpsertLaws.StatementLaw | workers/queue-worker/src/database/index.ts:844-854 | a statement needs a column to update and at most 100 parameters |
| OAuthState.EncodeBytes | workers/auth-worker/src/shared/oauth-state.ts:5-9 | the loop and the replacements give the url text of the bytes |
| OAuthState.DecodeText | workers/auth-worker/src/shared/oauth-state.ts:11-18 | the array holds the decoded bytes, or decoding fails |
| OAuthState.FillBytes | workers/auth-worker/src/shared/oauth-state.ts:15-17 | the array holds the character codes in order |
| OAuthStateTheorems.Base64UrlRoundTrip | workers/auth-worker/src/shared/oauth-state.ts:5-18 | every byte sequence survives encoding and decoding, padding removed and restored |
| OAuthStateTheorems.EncodingLaw | workers/auth-worker/src/shared/oauth-state.ts:5-9 | an encoding has one character for each six bits, from the alphabet of section 5 of RFC 4648 |
| OAuthStateTheorems.DecodingLaw | workers/auth-worker/src/shared/oauth-state.ts:11-18 | a text without padding and white space decodes if and only if its length is not one above a multiple of four and all its characters are of one of the two alphabets |
| OAuthStateTheorems.StateRoundTrip | workers/auth-worker/src/shared/oauth-state.ts:34-69 | decoding an encoded state returns both parts if and only if neither is empty |
| OAuthStateTheorems.WrongSignatureIsRefused | workers/auth-worker/src/shared/oauth-state.ts:45-61 | a state whose signature is not that of its payload is refused, whatever it holds |
| OAuthStateTheorems.CaseIsIgnored | workers/auth-worker/src/shared/oauth-state.ts:57-58 | a signature in other letter cases is as good |

## Left out

- `interpolateDeep`: which of several errors inside an object comes first depends on the order of its keys, which the model's values do not have.
- The typed filter comparisons (strings, numbers, dates, arrays, regular expressions) are one parameter; the presence operators and the order of the tests are modelled.
- Object identity in `===`, symbols, getters and prototypes: values are trees, and objects are maps of own properties without order.
- Strings are sequences of characters, not of UTF-16 code units; number literals that are not plain digits get their value from a parameter.
- Rounding: arithmetic on numbers is a parameter, and the index of an array access is an integer-valued real.
- `FilterTheorems.FilterKeepsByIndex`: asks that the operands parse, that every `$json` in them is a reference in a block, and that they use the name `json` only if scope or item define it, because it stands for `$json` otherwise; references outside of blocks and `$json` in strings are changed by the rewrite and not covered.
- The archive's validation, endpoint setup and date arithmetic: a page may fail for any reason, and the cut-off is an input.
- The bind limit of the statement that marks a page, which lists one parameter for each row: the model lets marking fail.
- `Archive.Archiver.Run`: assumes that no other worker adds rows at or before the cut-off during the run; `ArchiveHistory` drops that assumption and the exactness with it.
- KV errors, expiry, eventual consistency, legacy keys, eviction from memory and other isolates' writes between steps: the cached counter is one isolate with room in memory, and the merge is proved order-independent for what other isolates write.
- `UpsertBatches.BatchIsSimple`: conflict values are texts without NUL (one conflict column may hold anything), queue numbers are numbers or missing, and the surrogate key is left aside.
- Schema filtering and the user column of synchronised records: records come with the columns they keep. Column defaults are null.
- Support quotas: KV copies and the memory map; the quota is one address that is never evicted.
- HMAC, SHA-256, UTF-8 and JSON: a parameter with an assumed inverse pair. Only ASCII letters change case in the signature comparison.
- The middleware, the scanner path lists, node catalogues, HTTP clients and the user interface.
