# Verified model of Autorix components

This project models the stateful and algebraic components of the Autorix identity suite in Dafny and
proves properties of the model. It covers the permission language of Nexus, the audit chain,
enrollment, heartbeats and lifecycle of Argus, the rule stores and request pipeline of Aegis, the
consistency tokens shared by all engines, the attenuable tokens of Vulcan, and the notification
worker of Ego.

To check the whole project, run `dafny verify dfyconfig.toml` with Dafny 4.11.

## Layout

| module | component |
|---|---|
| Bytes, Sets, GoTime, Hex, Numerals, Base64 | byte strings, 64-bit durations and the text encodings the components rest on |
| AplLexer, AplParser, AplMachine | the lexer and parser: what they compute, and the source's own classes and loops proved to compute it |
| AplLeaf, AplGrammar, AplSource, AplText | the language as tokens of leaves, as a grammar, as whole source files, as laid-out text, with its bytes and words listed |
| AplErrors | what each reported failure says about the token it was met at |
| AplImport, AplImportExample, AplTermination | when a printed schema comes back and what is lost otherwise, with a witness; when parsing halts |
| AuditChain | the hash chain of the audit table: append and verification |
| ArgusRepository, Enrollment, Heartbeat | the registry tables, bounded enrollment, replay protection |
| Lifecycle, LifecycleSteps, LifecycleRaces | status decay with one call at a time; the calls taken apart; what overlapping calls do |
| RuleMatcher, RuleIds, RuleStore, RuleReplicas, ProxyPipeline | first-match routing, generated ids, the file store with its pages, replicas of the database store, live and simulated pipeline |
| Zookie, Macaroon, Backoff, Outbox | consistency tokens, caveat chains, retry delays, the notification worker |

Code that changes objects is modelled by classes and methods with loops, each proved against functions
on values; the theorems are about those functions. Protocols are state machines whose runs are
arbitrary sequences of enabled actions. Hashes, keyed hashes, regular expressions, URL and time
parsing, Unicode tables, random numbers and the clock are parameters. A digest may collide: where a
claim needs it not to, the conclusion names the two strings that would.

## Where the code does not do what one would expect

Each of these is proved as an exact condition or with a witness.

- `class N { related` followed by anything but a colon makes the parser loop for ever
  (nexus/internal/apl/parser.go:312-335); on every other input it halts. See `AplTermination`.
- An identifier `import` anywhere swallows the tokens up to the next semicolon
  (nexus/internal/apl/parser.go:245-255). A printed schema comes back if and only if neither its class
  nor a permission nor a relation in a tree is called `import`. Otherwise the outcome is an error or,
  without any error, fewer permissions, the last of which may hold a relation without a name. See
  `AplImport.RoundTripIff`, `AplImport.PrintedOutcome` and, for a text, `AplImportExample`.
- The head of the audit chain pins ids, order, links and the concatenation of the hashed fields. It
  pins neither the unhashed columns nor where one hashed field ends and the next begins
  (argus/internal/core/governance.go:46). `RecordAudit` fixes the time, reads the last hash and inserts,
  each in a statement of its own. Of two appends that read the same head verification reports the one
  with the larger key, which may be the one that landed first, or the one with the smaller key if that
  sorts in among the old rows. See `AuditChain.StaleReadBreaksChain`.
- Verification of the audit chain does not ask whether the rows ended early
  (argus/internal/storage/postgres/governance.go:205-268). A read cut short before the first broken link,
  or anywhere in an intact table, is reported as verified, with the length and head it got to. See
  `AuditChain.TruncatedVerdict`.
- argus/internal/core/instance.go:134-136 says a nonce cannot be replayed even at the edge of the
  window. A heartbeat recorded at t1 and stamped t1 + 30 s is accepted again at exactly t1 + 60 s.
  And a timestamp at least 2^63 ns ahead passes the drift test, because the saturated difference is
  the one 64-bit duration whose negation is negative (argus/internal/transport/grpc/server.go:163-167).
- A sweep and a heartbeat read rows and write later, without looking at the row again
  (argus/internal/core/evaluator.go:65-84, argus/internal/transport/grpc/server.go:191-214,
  argus/internal/storage/postgres/repository.go:443-452 and 645-665). `LifecycleRaces` has the exact
  conditions:
  - An evicted or deregistered instance comes back without enrolling, if and only if a call that is
    still open read it before as one to write another, live status to: a sweep that saw less than 24 h
    of silence and reaches the row, or a heartbeat (`TerminalIsFinalIff`, `LateSweepExactly`,
    `LateBeatExactly`; a run that does it: `EvictedComesBack`).
  - That an unreachable instance has been silent for 60 s holds throughout a run if and only if no
    step misjudges: no sweep writes unreachable over a heartbeat within the minute, no heartbeat fails
    between its two writes, and none finds the instance in the status it would write and so leaves
    the unreachable that a sweep has written meanwhile (`InterleavedFleet`).
  - An instance left alone moves back in rank exactly when a sweep writes a status of lower rank than
    stands there; that takes two sweeps at a time (`QuietStepExactly`, `QuietDecaysUnlessSweepsOverlap`).
- Re-registration keeps the old heartbeat time (argus/internal/storage/postgres/repository.go:347-355),
  so a sweep before the first new heartbeat puts a long-silent instance straight back.
- `Reorder` stores a rule twice when its list names it twice (aegis/internal/rule/store.go:231-237).
- aegis/internal/storage/postgres/store.go:49-53 says that only an empty table is seeded. The check does
  not keep the table empty until the seed commits, so the seed may join rules created in between. And a
  seed does not notify (store.go:86-127), so running replicas go on serving the table before it.
- A reload does not ask whether the rows ended early (store.go:679-725). A connection lost in the middle
  of a read leaves a replica settled on the first part of the table. See `RuleReplicas.TruncatedReadIsServed`.
- The anchors of a rule's pattern are put around the template without a group
  (aegis/internal/rule/matcher.go:44-54). The template `l|r` becomes the pattern `^l|r$`, of which each
  alternative is anchored at one end only, and a template that ends in an escaped dollar sign gets no
  anchor there. See `RuleMatcher.AlternationIsHalfAnchored` and `RuleMatcher.EscapedDollarIsNoAnchor`.
- A write of the rules file that fails may leave anything there, while the running rules stay as they
  were (aegis/internal/rule/store.go:284-303), until the next mutation that succeeds.
- The dry run passes over an unregistered authenticator that makes the live pipeline answer 500
  (aegis/internal/proxy/dryrun.go:171-180 against aegis/internal/proxy/handler.go:125-131).
- The live pipeline makes the target of the URL that the mutators leave, the dry run of the URL as it came
  in (aegis/internal/proxy/handler.go:175-185 against aegis/internal/proxy/dryrun.go:251-287). See
  `ProxyPipeline.ProxiedExactly` and `ProxyPipeline.TraceIs`.
- A consistency token of any version but `v2` is read as an instant (platform/zookie/zookie.go:104-130).
- A notification claimed by a worker that is then cancelled, or whose outcome is not recorded, stays in
  `processing` and is never sent again (ego/internal/worker/worker.go:128-133).
- A token with an LSN loses its instant when it is written (platform/zookie/zookie.go:80-89 and 109-116).
  Compared with a token without LSN it then counts as fresh whatever the instants were. See
  `Zookie.FreshnessSurvivesTripIff` for the exact condition over all pairs, and `Zookie.OlderBecomesFresh`.
- The comments at ego/internal/worker/worker.go:165 and 175 promise `base * 2^attempt` and a jitter of
  10 to 25 percent. The code, and the model, use `2^(attempt-1)` seconds and a jitter of 0 to 25 percent.

## Model

| member | source | states |
|---|---|---|
| `AplLexer.Lexer.ReadChar` | nexus/internal/apl/parser.go:61-69 | moves one byte on and keeps position, read position and current byte in step; past the end the byte is NUL |
| `AplLexer.Lexer.PeekChar` | nexus/internal/apl/parser.go:71-76 | the byte after the current one, NUL past the end |
| `AplLexer.Lexer.SkipWhitespace` | nexus/internal/apl/parser.go:167-190 | stops at the first byte after all blanks, line comments and block comments |
| `AplLexer.Lexer.ReadIdentifier` | nexus/internal/apl/parser.go:148-154 | returns the longest run of letters and digits from the cursor, in bounds on every input |
| `AplLexer.Lexer.ReadString` | nexus/internal/apl/parser.go:156-165 | returns the bytes up to the closing quote, NUL or the end, in bounds on every input |
| `AplLexer.Lexer.NextToken` | nexus/internal/apl/parser.go:78-146 | returns the token and position that the lexical function gives, for every input and position |
| `AplLexer.Lex` | nexus/internal/apl/parser.go:78-146 | every token moves the position forward, and a token other than EOF starts inside the input |
| `AplParser.Next` | nexus/internal/apl/parser.go:241-256 | no advance raises the termination measure, and one from a token other than EOF lowers it, import skipping included |
| `AplParser.NextIs` | nexus/internal/apl/parser.go:241-256 | the parser moves on by one token; if that is the identifier import, to the token behind the first semicolon from there, or to the end when there is none |
| `AplParser.ImportsAreSkipped` | nexus/internal/apl/parser.go:282-286 | any number of import statements before the class header are passed over, and nothing else |
| `AplParser.ParseOr` | nexus/internal/apl/parser.go:413-436 | a parsed expression has consumed input |
| `AplParser.PermitsLoop` | nexus/internal/apl/parser.go:358-401 | the loop over permissions never goes back in the input |
| `AplParser.ParseRelated` | nexus/internal/apl/parser.go:332-347 | consumes input when a colon follows; otherwise moves nothing and records one error |
| `AplGrammar.BuildKeepsMeaning` | nexus/internal/apl/parser.go:413-461 | appending operands to the left node of a chain keeps the boolean function of the expression |
| `AplGrammar.BuildIsNormal` | nexus/internal/apl/parser.go:426-433 | every union or intersection built has at least two children, the first never of its own type |
| `AplLeaf.LeafIsParsed` | nexus/internal/apl/parser.go:477-575 | tokens of any form of a leaf, the tolerant ones included, are parsed to the tree of that form and to their end |
| `AplLeaf.LeafHasForm` | nexus/internal/apl/parser.go:477-575 | whatever the parser accepts as a leaf has one of those forms |
| `AplGrammar.ParserIsGrammar` | nexus/internal/apl/parser.go:413-578 | the expression parser returns a tree and stops at a token exactly when some derivation, with `and` binding tighter and with leaves given token by token, covers the tokens up to there, no operator follows, and the tree is the derivation's |
| `AplGrammar.ParsedTreeIsRight` | nexus/internal/apl/parser.go:409-461 | a returned tree is in normal form and means what the source expression means, whichever derivation is taken |
| `AplGrammar.SchemaIsNormal` | nexus/internal/apl/parser.go:272-407 | no schema returned by Parse holds a tree outside the normal form |
| `AplErrors.OrErrors` | nexus/internal/apl/parser.go:413-578 | an expression is given up only for a token that is not what the failure says it should be, and the failure names it |
| `AplErrors.EntryErrors` | nexus/internal/apl/parser.go:359-397 | so is a permission; one without an arrow is named, with what stands in its place |
| `AplErrors.PermitsErrors` | nexus/internal/apl/parser.go:349-407 | so is a block of permissions |
| `AplErrors.HeaderErrors` | nexus/internal/apl/parser.go:287-310 | so is a class header, by the first token of it that is missing |
| `AplErrors.HeaderOpens` | nexus/internal/apl/parser.go:287-310 | the class header is accepted exactly when its tokens stand in order, and the second names the class |
| `AplErrors.PermitsOpen` | nexus/internal/apl/parser.go:349-357 | a block of permissions is opened by `=` and `{` and by nothing else |
| `AplErrors.RelatedOpen` | nexus/internal/apl/parser.go:332-347 | a related block takes `:` and `{`; one error is recorded for the first of them that is missing |
| `AplErrors.BodyEnds` | nexus/internal/apl/parser.go:312-330 | at its brace or the end a class body gives its relations, or the errors recorded if there are any |
| `AplSource.ExprIsParsed` | nexus/internal/apl/parser.go:413-578 | a text with the tokens of an expression, its leaves in any form, parses to that expression's tree |
| `AplSource.EntryIsRead` | nexus/internal/apl/parser.go:359-397 | a permission, with or without colon, argument, parentheses, answer type and separator, defines exactly its name, with exactly its tree |
| `AplSource.RelatedIsRead` | nexus/internal/apl/parser.go:332-347 | a related block with any tokens inside but its closing brace is skipped whole, with its separator and without error |
| `AplSource.HeaderIsRead` | nexus/internal/apl/parser.go:287-310 | the class header with or without `implements Namespace` yields the class name |
| `AplSource.SourceIsParsed` | nexus/internal/apl/parser.go:282-407 | any text with the tokens of a source file parses without error to that file's relations, later permissions of a name replacing earlier ones |
| `AplText.GapIsSkipped` | nexus/internal/apl/parser.go:167-190 | any sequence of the four blanks, line comments and block comments is skipped to its last byte and no further |
| `AplText.SkipsExactly` | nexus/internal/apl/parser.go:167-190 | the lexer moves on from a byte without making a token exactly when it is 0x20, 0x09, 0x0A or 0x0D or opens a comment |
| `AplText.CommentIs` | nexus/internal/apl/parser.go:167-190 | a line comment runs up to its line end and a block comment past the first `*/`, either to the first NUL if that comes before |
| `AplText.ClassesAre` | nexus/internal/apl/parser.go:83-198 | blanks, letters with the underscore, digits, quotes and single-byte tokens are exactly the bytes listed |
| `AplText.ByteStringIs` | nexus/internal/apl/parser.go:200-202 | the literal of a token of one byte is that byte, or from 0x80 on the UTF-8 of its code point |
| `AplText.EndIs` | nexus/internal/apl/parser.go:131-146 | the end of the text, or a NUL byte in it, gives the end token and moves one byte on |
| `AplText.WordsAre` | nexus/internal/apl/parser.go:204-222 | the ten keywords and their tokens; every other word is an identifier |
| `AplText.StringIs` | nexus/internal/apl/parser.go:128-165 | a string is everything up to the first byte equal to its own opening quote, or NUL |
| `AplText.TextIsLexed` | nexus/internal/apl/parser.go:78-222 | tokens laid out with any gaps between them, string literals and stray bytes included, are read back as exactly those tokens, or as those before an import that no semicolon ends |
| `AplText.LaidOutSourceIsParsed` | nexus/internal/apl/parser.go:282-407 | layout, redundant parentheses and bytes after the closing brace do not change what a source file parses to |
| `AplText.CanonicalPrints` | nexus/internal/apl/parser.go:413-461 | the printed expression of a normal-form tree is in the grammar and builds that tree again |
| `AplText.RoundTrip` | nexus/internal/apl/parser.go:282-407 | a schema of normal-form trees in which nothing is called import, its relations listed in any order, its tokens laid out in any way, with any bytes behind it, parses back to exactly that schema |
| `AplText.PreambleIsCut` | nexus/internal/apl/parser.go:273-276 | what stands before the first `class ` is dropped and nothing else |
| `AplText.ParseIsRoundTrip` | nexus/internal/apl/parser.go:272-407 | the round trip through Parse, also behind a preamble that does not contain `class ` |
| `AplImport.PrintedOutcome` | nexus/internal/apl/parser.go:245-255 | what comes back of any printed schema, its tokens laid out in any way: an error, all of its relations, or those in front of the first import with what that leaves of the last |
| `AplImport.RoundTripIff` | nexus/internal/apl/parser.go:245-407 | a printed schema comes back exactly if and only if no class, permission or relation in it is called import |
| `AplImport.ParseUndoesPrintIff` | nexus/internal/apl/parser.go:245-407 | the same for Parse on the text that the printer writes |
| `AplImportExample.ImportIsLostSilently` | nexus/internal/apl/parser.go:245-255 | a text with two permissions of which one comes back, with a relation without a name and no error |
| `AplTermination.StuckTurn` | nexus/internal/apl/parser.go:312-335 | a turn of the class loop at `related` without a colon leaves both tokens and the position as they were |
| `AplTermination.TurnConsumes` | nexus/internal/apl/parser.go:312-323 | every other turn lowers the termination measure |
| `AplTermination.StuckRunsForever` | nexus/internal/apl/parser.go:312-323 | from a class body that meets the stuck state no number of turns gives a result |
| `AplTermination.ResultIsStable` | nexus/internal/apl/parser.go:312-330 | a result once reached does not depend on the turns allowed |
| `AplTermination.HaltsIffNotStuck` | nexus/internal/apl/parser.go:272-347 | Parse returns if and only if its input never brings the class loop to `related` without a colon, and then within a linear number of turns |
| `AplTermination.RelatedWithoutColonHangs` | nexus/internal/apl/parser.go:312-335 | every text that begins `class N { related` and goes on with another token than a colon hangs |
| `AplTermination.HangExample` | nexus/internal/apl/parser.go:312-335 | a concrete input of that family |
| `AplMachine.RewriteRule.Append` | nexus/internal/apl/parser.go:426-427 | extends the node in place: the old children, then the new one |
| `AplMachine.RewriteRule.Pair` | nexus/internal/apl/parser.go:429-432 | a fresh node whose two children are left and right, in that order |
| `AplMachine.NamespaceSchema.Define` | nexus/internal/apl/parser.go:391-393 | sets one relation of the schema and leaves the others |
| `AplMachine.Parser.NextToken` | nexus/internal/apl/parser.go:241-256 | the window moves by one token, or past a whole import statement |
| `AplMachine.Parser.ExpectPeek` | nexus/internal/apl/parser.go:258-270 | advances when the next token has the type wanted; otherwise records one error and moves nothing |
| `AplMachine.Parser.ParseOrExpr` | nexus/internal/apl/parser.go:413-436 | the loop that extends the left node in place delivers the tree, state and error of the specification |
| `AplMachine.Parser.ParseAndExpr` | nexus/internal/apl/parser.go:438-461 | the same for chains of `and` |
| `AplMachine.Parser.ParsePrimaryExpr` | nexus/internal/apl/parser.go:463-578 | the same for parentheses and `this.related` leaves |
| `AplMachine.Parser.ParseUse` | nexus/internal/apl/parser.go:490-574 | from the relation name on: alone, with `includes`, or with `traverse` |
| `AplMachine.Parser.ParseTraverseCall` | nexus/internal/apl/parser.go:509-566 | the argument of `traverse` in each of its forms, with the error of each missing token |
| `AplMachine.Parser.ParsePermission` | nexus/internal/apl/parser.go:359-397 | one permission defines one relation of the schema or fails with the specified error |
| `AplMachine.Parser.ParsePermitsBlock` | nexus/internal/apl/parser.go:349-407 | the whole block: every permission in order, later ones replacing earlier ones |
| `AplMachine.Parser.ParseRelatedBlock` | nexus/internal/apl/parser.go:332-347 | the new window and exactly the errors recorded |
| `AplMachine.Parser.ParseClassHeader` | nexus/internal/apl/parser.go:287-310 | the class name or the specified error |
| `AplMachine.Parser.ParseNamespaceIn` | nexus/internal/apl/parser.go:282-330 | the schema, the failure, or no result within the turns allowed, as specified |
| `AplMachine.Parser.ParseNamespaceToEnd` | nexus/internal/apl/parser.go:282-330 | on inputs that never bring it to the stuck state the source's own unbounded loop ends, with the specified schema or failure |
| `AplMachine.ParseTextToEnd` | nexus/internal/apl/parser.go:272-280 | the same for the whole of Parse |
| `AplMachine.ParseText` | nexus/internal/apl/parser.go:272-280 | the whole of Parse on a byte string |
| `AuditChain.RecordHash` | argus/internal/core/governance.go:43-49 | every record hash is 64 lower-case hexadecimal digits |
| `AuditChain.RawIs` | argus/internal/core/governance.go:43-49 | the hashed string is previous hash, id, action, resource type, resource id, outcome and the time cut to a whole number of 1000 ns, in that order |
| `AuditChain.UuidStringInjective` | argus/internal/core/governance.go:46 | the text of an id determines the id |
| `AuditChain.DashTellsFirstRow` | argus/internal/core/governance.go:44-48 | the ninth hashed byte is a dash exactly for a row without a previous hash |
| `AuditChain.RawDetermines` | argus/internal/core/governance.go:44-48 | the hashed string determines previous hash, id and concatenated payload |
| `AuditChain.ReplacedVerdict` | argus/internal/storage/postgres/governance.go:205-268 | whatever row k of an intact table is replaced with, verification reports that row for its link or its hash, or the next one for its link, or succeeds, by which of them differ |
| `AuditChain.TamperedRowIsReported` | argus/internal/core/governance.go:43-49 | change one of action, resource type, resource id, outcome or time of row k of an intact table, and verification reports exactly row k, with the hash it should have and the one it has, or the old and the new hashed string collide |
| `AuditChain.IntactChainsAgree` | argus/internal/storage/postgres/governance.go:205-268 | two intact chains with the same last hash agree row by row, or walking back finds two distinct strings with equal digest |
| `AuditChain.HeadPinsChain` | argus/internal/storage/postgres/governance.go:187-269 | two tables that both verify with the same head hash have equal length, ids, order, links and concatenations of the hashed columns, or the proof exhibits a collision |
| `AuditChain.VerdictSeesOnlyChain` | argus/internal/storage/postgres/governance.go:187-269 | tables that agree in ids, links, hashes and payloads get the same answer, whatever else differs |
| `AuditChain.InsertKeepsOrder` | argus/internal/storage/postgres/governance.go:188-193 | a row with a new id goes into the table in (created_at, id) order |
| `AuditChain.InsertVerdict` | argus/internal/storage/postgres/governance.go:205-268 | after any row is inserted into an intact table, verification succeeds or names precisely the new row or its successor, by where the row went, what it links to and what it hashes to |
| `AuditChain.RepeatedLinkCollides` | argus/internal/storage/postgres/governance.go:45-54 | the head hash also stands before an earlier row only if two rows collide |
| `AuditChain.AppendVerdict` | argus/internal/storage/postgres/governance.go:22-84 | an append with the largest key extends the verified chain; with any other key verification reports precisely that row, or two rows collide |
| `AuditChain.AscendingAppendsVerify` | argus/internal/storage/postgres/governance.go:22-84 | over every run of appends with strictly increasing keys, defaults included, verification succeeds with one row per append in order and the last returned hash as head |
| `AuditChain.CompleteSays` | argus/internal/storage/postgres/governance.go:26-43 | the row stored is the draft with a fresh id for sixteen zero bytes, the clock for a missing time, "success" for a missing outcome, and the time cut to microseconds |
| `AuditChain.StaleReadBreaksChain` | argus/internal/storage/postgres/governance.go:26-78 | of two appends that read the same head, in whichever order they land, the one with the larger key is reported, with the other's hash expected, or the one with the smaller key if it sorts in among the old rows, or the two rows that collide are named |
| `AuditChain.AuditLog.RecordAudit` | argus/internal/storage/postgres/governance.go:22-84 | fills in the defaults, links to the last row, inserts in key order; nothing changes when the id is taken |
| `AuditChain.AuditLog.VerifyAuditChainDetailed` | argus/internal/storage/postgres/governance.go:187-269 | of the rows the read delivers, all or the first ones, the loop reports the first out of order with expected and actual hash, or success with length, head and genesis |
| `AuditChain.TruncatedVerdict` | argus/internal/storage/postgres/governance.go:205-268 | for every point at which the read may end: behind the first broken link the answer is that for the whole table, before it success with the length and head read so far |
| `ArgusRepository.Repository.GetEnrollmentTokenByHash` | argus/internal/storage/postgres/repository.go:211-227 | a token with this hash, or the certainty that there is none |
| `ArgusRepository.Repository.ConsumeEnrollmentToken` | argus/internal/storage/postgres/repository.go:258-274 | one more use exactly when the token exists, is unrevoked, unexpired and has a use left; otherwise nothing changes |
| `ArgusRepository.Repository.RevokeEnrollmentToken` | argus/internal/storage/postgres/repository.go:276-285 | sets the revocation time once |
| `ArgusRepository.Repository.RegisterInstance` | argus/internal/storage/postgres/repository.go:675-709 | writes the row that has the key or a new one, back to registering, with one event; keys stay unique |
| `ArgusRepository.Repository.UpsertInstance` | argus/internal/storage/postgres/repository.go:328-369 | writes a pending row or only changes who brought the old one in; keys stay unique |
| `ArgusRepository.Repository.SetInstanceStatus` | argus/internal/storage/postgres/repository.go:443-452 | changes one status and nothing else |
| `ArgusRepository.Repository.SetInstanceStatusWithEvent` | argus/internal/storage/postgres/repository.go:645-665 | status and event together, or neither |
| `ArgusRepository.Repository.RecordHeartbeat` | argus/internal/storage/postgres/repository.go:454-467 | changes one heartbeat time and nothing else |
| `ArgusRepository.Repository.ListStaleInstances` | argus/internal/storage/postgres/repository.go:484-505 | exactly the non-terminal rows whose heartbeat is older, each once |
| `Enrollment.UseKeepsInv` | argus/internal/transport/grpc/server.go:74-80 | consuming a use keeps the count exact and every earlier use in order |
| `Enrollment.LookUpAnswers` | argus/internal/storage/postgres/repository.go:211-227 | a look-up finds a token with the hash, and none only when there is no such token |
| `Enrollment.LookUpWrites` | argus/internal/transport/grpc/server.go:57-72 | a look-up leaves the tables as they are and is refused for an unknown hash, another engine type or another environment |
| `Enrollment.UseWrites` | argus/internal/transport/grpc/server.go:74-80 | a use is consumed exactly while the token is there, unrevoked, unexpired and has one left; that adds one to its counter and nothing else |
| `Enrollment.EnrollWrites` | argus/internal/storage/postgres/repository.go:675-709 | enrollment writes a registering row with the old heartbeat time and the token that brought it in, and one event |
| `Enrollment.RevokeWrites` | argus/internal/storage/postgres/repository.go:276-285 | revocation stamps an unrevoked token and changes nothing else |
| `Enrollment.RunKeepsInv` | argus/internal/transport/grpc/server.go:57-111 | so does every interleaving of look-ups, uses, registrations, failures, revocations, minting and clock ticks |
| `Enrollment.EnrollmentIsBounded` | argus/internal/transport/grpc/server.go:57-111 | registrations on a token never exceed uses_allowed, each has a consumed use of its own in the right scope, before expiry and before revocation, and uses_consumed is exactly the number of consuming calls |
| `Enrollment.SpentTokenStaysSpent` | argus/internal/storage/postgres/repository.go:258-285 | a revoked, expired or used-up token gains no use in any run from there |
| `Enrollment.Server.Register` | argus/internal/transport/grpc/server.go:44-124 | the call as written is the three protocol steps in a row, with its refusals, the look-up of the environment, and each failure; one after the consume loses the use |
| `Heartbeat.NonceStore.CheckAndRecord` | argus/internal/transport/grpc/server.go:429-449 | refuses exactly a recorded nonce that has not expired, prunes the instance's expired nonces and records the rest |
| `Heartbeat.PrunedStoreIsUnboundedLog` | argus/internal/transport/grpc/server.go:411-449 | with a clock that does not run backwards the pruned map answers every sequence of calls as an unbounded log would |
| `Heartbeat.NothingExpiredKept` | argus/internal/transport/grpc/server.go:438-448 | after a call the instance holds no expired nonce, and every nonce held before that has not expired |
| `Heartbeat.DriftOkExactly` | argus/internal/transport/grpc/server.go:161-169 | the drift test accepts exactly timestamps within 30 s and those at least 2^63 ns ahead |
| `Heartbeat.SentAtIs` | argus/internal/transport/grpc/server.go:161-163 | the instant a timestamp stands for, with the wrap-around of its seconds |
| `Heartbeat.GateIs` | argus/internal/transport/grpc/server.go:157-173 | which of the four answers is given, by missing field, 30 s either way and recorded nonce; an accepted nonce is kept for 60 s |
| `Heartbeat.EnterHeartbeat` | argus/internal/transport/grpc/server.go:157-173 | the gate as written: missing fields, drift, nonce, in that order |
| `Heartbeat.ReplayIsRefused` | argus/internal/transport/grpc/server.go:161-173 | a heartbeat recorded at t1 is refused later whatever arrives in between, except at t1 + 60 s when stamped t1 + 30 s, and from then on when stamped so far ahead that the drift test passes it |
| `Heartbeat.ReplayEntersExactly` | argus/internal/transport/grpc/server.go:161-173 | at exactly those instants a second copy is accepted, whatever arrives in between with other nonces |
| `Lifecycle.Thresholds` | argus/internal/core/status.go:39-63 | a live instance is degraded from 30 s, unreachable from 60 s and evicted from 24 h of silence, for all instants, 64-bit saturation included |
| `Lifecycle.ApplyStatusTransition` | argus/internal/core/evaluator.go:18-32 | writes the status with the event named for it, or without event when there is none |
| `Lifecycle.TransitionWrites` | argus/internal/core/evaluator.go:18-32 | degraded, unreachable, evicted and deregistered each come with one event of that name, the other statuses with none; nothing else is written |
| `Lifecycle.Evaluator.Sweep` | argus/internal/core/evaluator.go:65-84 | handles every stale row once and returns the number of events written |
| `Lifecycle.SweepTouchesEveryRow` | argus/internal/core/evaluator.go:65-84 | the result of a sweep does not depend on the order of its list: each row gets its evaluated status, no other field changes |
| `Lifecycle.OneEventPerTransition` | argus/internal/core/evaluator.go:72-82 | a row whose status changes gets exactly one event, of the type its new status has in TransitionWrites; no other row gets any |
| `Lifecycle.SweepWrites` | argus/internal/core/evaluator.go:65-84 | for every row by its silence alone: up to 30 s, or terminal, it stays and gets no event; below 60 s it becomes degraded, below 24 h unreachable, then evicted, with exactly one event of that name if its status changed and none of any other |
| `Lifecycle.SweepIsIdempotent` | argus/internal/core/evaluator.go:65-84 | a second sweep at the same instant changes nothing and writes nothing |
| `Lifecycle.SweepIsUpToDate` | argus/internal/core/evaluator.go:34-84 | after a sweep every silent instance is exactly where the thresholds put it |
| `Lifecycle.RecordAuthenticatedHeartbeat` | argus/internal/transport/grpc/server.go:191-217 | records the beat and applies the transition it leads to |
| `Lifecycle.BeatWrites` | argus/internal/transport/grpc/server.go:191-217 | a terminal row keeps its status, any other becomes healthy when ready and degraded when not; an event is written for a change to degraded and for nothing else |
| `Lifecycle.OperatorWrites` | argus/internal/core/admin.go:19-29 | deregistering and force-removing an instance write that status and the event of that name, for a known instance only |
| `Lifecycle.ByHandWrites` | argus/internal/transport/http/server.go:486-503 | registration by hand writes a pending row or only who brought the old one in, and an event if that did not fail |
| `Lifecycle.PruneWrites` | argus/internal/storage/postgres/repository.go:829-839 | pruning deletes evicted rows with all their events, and events given by their places; every other row and event stays |
| `Lifecycle.ReachableFleetIsInOrder` | argus/internal/core/status.go:39-63 | in every run of uninterrupted calls from an empty registry there is one row per key, no heartbeat lies in the future, a status that speaks of heartbeats has one behind it, and an unreachable instance has been silent for 60 s |
| `Lifecycle.TerminalLeftOnlyByRegister` | argus/internal/core/status.go:36-42 | of all uninterrupted calls, administrative ones included, enrollment alone leaves evicted and deregistered |
| `Lifecycle.TerminalUntilRegistered` | argus/internal/core/status.go:36-42 | over every run of uninterrupted calls such an instance stays so until it enrolls or its row is pruned |
| `Lifecycle.RegistrationKeepsSilence` | argus/internal/storage/postgres/repository.go:675-709 | registration resets the status but not the silence, so the next sweep puts an instance silent for more than 30 s back and leaves any other registering |
| `Lifecycle.QuietInstanceDecays` | argus/internal/core/evaluator.go:34-84 | over any run of uninterrupted calls that leaves an instance alone its status only moves along degraded, unreachable, evicted, each backed by that much silence, and nothing else of it changes |
| `LifecycleSteps.UninterruptedSweep` | argus/internal/core/evaluator.go:65-84 | listing and the writes one by one, with nothing in between, are the atomic sweep |
| `LifecycleSteps.UninterruptedBeat` | argus/internal/transport/grpc/server.go:191-214 | read, record and write, with nothing in between, are the atomic heartbeat |
| `LifecycleSteps.StepKeepsSane` | argus/internal/core/evaluator.go:65-84 | whatever overlaps, every step keeps keys unique, heartbeats out of the future, a heartbeat behind every status that speaks of one, and what open calls know of rows that are still there |
| `LifecycleRaces.LateSweepExactly` | argus/internal/core/evaluator.go:65-84 | what a sweep writes to a row that may have changed since it was listed, and exactly when that misjudges a row in order or brings back a terminal one |
| `LifecycleRaces.LateBeatExactly` | argus/internal/transport/grpc/server.go:191-214 | the same for the last write of a heartbeat: it brings back exactly the rows that became terminal after it read them as live in another status |
| `LifecycleRaces.StepInOrderIff` | argus/internal/core/status.go:39-63 | from a state in which every unreachable instance has been silent for 60 s, or a heartbeat is about to say otherwise, a step leads to another if and only if it does not misjudge |
| `LifecycleRaces.InterleavedFleet` | argus/internal/core/status.go:39-63 | over every run from an empty registry with calls overlapping in any way: unique keys and sane rows always, and that order throughout if and only if no step misjudges |
| `LifecycleRaces.TerminalIsFinalIff` | argus/internal/core/status.go:36-42 | an evicted or deregistered instance stays so in every run without its enrollment or pruning if and only if no open call has yet to write to it on the strength of what it was |
| `LifecycleRaces.EvictedComesBack` | argus/internal/core/admin.go:19-29 | a run from an empty registry in which an evicted instance becomes degraded without enrolling |
| `LifecycleRaces.QuietStepExactly` | argus/internal/core/evaluator.go:65-84 | an instance left alone is touched by sweeps alone, in its status alone, and moves back exactly when one writes a status of lower rank than stands there |
| `LifecycleRaces.QuietDecaysUnlessSweepsOverlap` | argus/internal/core/evaluator.go:34-84 | as long as sweeps do not overlap each other it decays as with calls one at a time, whatever else overlaps |
| `RuleMatcher.PatternIsFramed` | aegis/internal/rule/matcher.go:43-54 | the pattern of a template begins with `^`, ends with `$` and holds no angle bracket |
| `RuleMatcher.PatternAddsAnchors` | aegis/internal/rule/matcher.go:43-54 | a template without anchors is put between the two, its angle brackets turned into parentheses |
| `RuleMatcher.AlternationIsHalfAnchored` | aegis/internal/rule/matcher.go:43-54 | a template that is an alternation becomes an alternation whose first part is anchored at its start only and whose last part at its end only |
| `RuleMatcher.EscapedDollarIsNoAnchor` | aegis/internal/rule/matcher.go:43-54 | a template that ends with an escaped dollar sign gets no anchor at its end |
| `RuleMatcher.CompileRules` | aegis/internal/rule/matcher.go:40-74 | one entry per rule in order, or failure exactly when some pattern does not compile |
| `RuleMatcher.Match` | aegis/internal/rule/matcher.go:77-95 | the first rule that accepts the request, and none before it does |
| `RuleMatcher.ChoiceIsFirstFit` | aegis/internal/rule/matcher.go:40-95 | the rule chosen is the first in list order whose own compiled form accepts the request |
| `RuleMatcher.AcceptsExactly` | aegis/internal/rule/matcher.go:40-95 | it accepts exactly when one of its methods is `*` or the one asked for, case aside, and its pattern matches the path |
| `RuleMatcher.CompilesIffPatternsDo` | aegis/internal/rule/matcher.go:40-74 | a list compiles exactly when the pattern of every rule does |
| `RuleMatcher.AppendKeepsChoice` | aegis/internal/rule/matcher.go:81-91 | rules added at the end never change a choice already made |
| `RuleIds.SlugifyLoop` | aegis/internal/rule/store.go:322-339 | the loop with its last-dash flag computes the slug |
| `RuleIds.SlugifyIsSlug` | aegis/internal/rule/store.go:320-339 | only a-z, 0-9 and dash, no leading, trailing or doubled dash |
| `RuleIds.SlugIsItsWords` | aegis/internal/rule/store.go:320-339 | the slug is the words of letters a-z and digits of the text in lower case, joined by single dashes |
| `RuleIds.SlugifyKeepsSlugs` | aegis/internal/rule/store.go:320-339 | a slug is its own slug |
| `RuleIds.SlugifyIsIdempotent` | aegis/internal/rule/store.go:320-339 | slugify after slugify changes nothing |
| `RuleIds.CandidatesAre` | aegis/internal/rule/store.go:311-317 | the base itself, then the base followed by a dash and 2, 3 and so on in decimal |
| `RuleIds.CandidatesDistinct` | aegis/internal/rule/store.go:311-316 | the ids tried are pairwise distinct |
| `RuleIds.FirstFreeIsNear` | aegis/internal/rule/store.go:311-317 | the loop without a bound ends within n + 1 tries for n ids |
| `RuleIds.BaseIs` | aegis/internal/rule/store.go:305-310 | the candidates start from that slug, or from "rule" when there are no words |
| `RuleIds.GenerateId` | aegis/internal/rule/store.go:305-318 | returns an unused id, the first free candidate |
| `RuleStore.FileStore.Load` | aegis/internal/rule/store.go:58-75 | a store on these rules, or none exactly when they do not compile |
| `RuleStore.FileStore.ApplyLocked` | aegis/internal/rule/store.go:284-303 | rules, matcher and file are replaced together; rules that do not compile change nothing, and a failed write changes the file alone |
| `RuleStore.OperationWrites` | aegis/internal/rule/store.go:164-303 | for every operation: rules and file change together if all patterns of the new list compile and the file is written, the file alone if its write fails, and neither otherwise |
| `RuleStore.FileStore.CreateRule` | aegis/internal/rule/store.go:164-182 | the new list or the specified error; the matcher stays in step, and so does the file unless its write fails |
| `RuleStore.FileStore.UpdateRule` | aegis/internal/rule/store.go:186-202 | the same for a replacement in place |
| `RuleStore.FileStore.DeleteRule` | aegis/internal/rule/store.go:205-217 | the same for a removal |
| `RuleStore.FileStore.ReorderRules` | aegis/internal/rule/store.go:220-248 | the two loops over map and seen-set compute the reordered list |
| `RuleStore.FileStore.ImportRules` | aegis/internal/rule/store.go:260-265 | the given list replaces all rules, or the specified error |
| `RuleStore.FileStore.MatchRequest` | aegis/internal/rule/store.go:80-84 | the first match among the current rules |
| `RuleStore.FileStore.ListPage` | aegis/internal/rule/store.go:113-148 | the page after the cursor's rule, or an error for an undecodable or unknown cursor |
| `RuleStore.ProposalPlaces` | aegis/internal/rule/store.go:164-217 | create appends, update puts the new rule at the first place of its id and delete takes that place out, place by place; without such a place both fail |
| `RuleStore.StoredRuleIs` | aegis/internal/rule/store.go:164-182 | a rule with an id is stored as it is, one without gets the first candidate that is no other rule's id |
| `RuleStore.CursorIsChecked` | aegis/internal/rule/store.go:113-148 | without cursor the page is the first one; a cursor is refused exactly when it does not decode or decodes to no rule's id |
| `RuleStore.CreateAddsOne` | aegis/internal/rule/store.go:164-182 | read as a map from ids to rules, create adds one entry; a generated id is never refused |
| `RuleStore.UpdateReplacesOne` | aegis/internal/rule/store.go:186-202 | update changes the entry of its own id and no other, and fails exactly when there is none |
| `RuleStore.DeleteRemovesOne` | aegis/internal/rule/store.go:205-217 | delete removes the entry of its id and no other, and fails exactly when there is none |
| `RuleStore.ReorderDistinctIffNoRepeats` | aegis/internal/rule/store.go:220-248 | reorder keeps ids distinct if and only if its list names no existing rule twice |
| `RuleStore.ReorderPermutes` | aegis/internal/rule/store.go:220-248 | then it is a permutation: listed rules first in list order, the others after in their old order, each numbered by its new position |
| `RuleStore.StepKeepsDistinct` | aegis/internal/rule/store.go:164-303 | every mutation keeps ids distinct, a reorder without repeats and an import of distinct ids included |
| `RuleStore.RunsKeepRulesSound` | aegis/internal/rule/store.go:164-303 | so does every run of mutations; no id becomes empty, and the stored rules always compile |
| `RuleStore.CreateKeepsChoices` | aegis/internal/rule/store.go:162-182 | create never changes the rule chosen for a request that already matched |
| `RuleStore.CursorLeadsOn` | aegis/internal/transport/http/server.go:101-114 | the cursor handed out after a rule leads to the page that starts with the next one |
| `RuleStore.PageCountIsCeiling` | aegis/internal/rule/store.go:139-143 | the page count used below is max(1, ceil(n / limit)) |
| `RuleStore.PaginationIsComplete` | aegis/internal/rule/store.go:105-148 | following cursors visits every rule once in list order and ends after exactly that many pages |
| `RuleStore.ReachablePagesAreComplete` | aegis/internal/rule/store.go:105-303 | and it does so on every store that a run of mutations leads to |
| `Base64.DecodeEncode` | platform/paging/paging.go:75-87 | decoding a cursor gives back the encoded text, for all bytes |
| `Base64.EncodeIs` | platform/paging/paging.go:75-77 | the length of the text and every character of it: six bits of the input in the alphabet of RFC 4648 section 5, or padding |
| `Base64.DecodesExactly` | platform/paging/paging.go:81-87 | exactly the texts of whole groups over that alphabet, with padding or its absence where due, are decoded |
| `Base64.LineEndsAreSkipped` | platform/paging/paging.go:81-87 | a line end anywhere in a cursor makes no difference |
| `RuleReplicas.CommitKeepsInv` | aegis/internal/storage/postgres/store.go:353-389 | a commit with its notification keeps every replica sound and covered |
| `RuleReplicas.StepKeepsInv` | aegis/internal/storage/postgres/store.go:183-229 | so does every other action |
| `RuleReplicas.NeverGoesBack` | aegis/internal/storage/postgres/store.go:672-725 | no step takes a replica to an older commit |
| `RuleReplicas.RunKeepsInv` | aegis/internal/storage/postgres/store.go:183-229 | both over every run |
| `RuleReplicas.ReplicasAreCoherent` | aegis/internal/storage/postgres/store.go:179-229 | in every interleaving each replica serves the first rows of a committed table, and they compile; one past its reload with nothing pending serves the current table if and only if its last read was whole, unless a seed came after it |
| `RuleReplicas.SeedLeavesReplicasBehind` | aegis/internal/storage/postgres/store.go:86-127 | the last exception is real: a seed leaves settled replicas on another table |
| `RuleReplicas.SeedMixesIn` | aegis/internal/storage/postgres/store.go:86-127 | between the check and the commit of a seed a mutation may commit, and the seed joins it |
| `RuleReplicas.TruncatedReadIsServed` | aegis/internal/storage/postgres/store.go:679-725 | whatever part of a table that compiles a reload got, the replica serves it and is settled there |
| `RuleReplicas.ReloadCatchesUpIffCompiles` | aegis/internal/storage/postgres/store.go:204-229 | a replica that needs a reload and reads to the end reaches the current table in two steps of its own exactly when that table compiles |
| `RuleReplicas.EveryReplicaCanCatchUp` | aegis/internal/storage/postgres/store.go:183-229 | no state is a dead end: while nothing else happens and the table compiles, at most six steps of its own lead a replica from any reachable state to serving the whole current table |
| `RuleReplicas.ReadsOwnWrite` | aegis/internal/storage/postgres/store.go:315-389 | whatever happens between the commit of a mutation and the end of its reload, the rows it reads are of a table no older than its commit, and its replica serves them if they compile |
| `RuleReplicas.CommitWrites` | aegis/internal/storage/postgres/store.go:353-389 | a commit adds one table and queues one notification for every replica that listens |
| `RuleReplicas.ListenerSteps` | aegis/internal/storage/postgres/store.go:183-229 | when the listener may connect, reload, fail, receive, lose its session and notice, and what each leaves of replica and world |
| `RuleReplicas.WriterSteps` | aegis/internal/storage/postgres/store.go:315-389 | when a mutation may take the lock, give up, read and fail to read, and what each leaves |
| `RuleReplicas.ReloadWrites` | aegis/internal/storage/postgres/store.go:679-725 | the end of a reload, by listener or mutation: the rows read go in if they compile; if not, the listener reconnects and the mutation leaves the cache |
| `RuleReplicas.BootWrites` | aegis/internal/storage/postgres/store.go:38-46 | a start serves the rows it read, which compile, without a session yet |
| `RuleReplicas.SeedSteps` | aegis/internal/storage/postgres/store.go:86-127 | a seed looks for an empty table once and later commits its rules behind whatever stands there then, or gives up |
| `RuleReplicas.PostgresStore.ReloadLocked` | aegis/internal/storage/postgres/store.go:679-725 | swaps rules and matcher together, or keeps both |
| `RuleReplicas.PostgresStore.MatchRequest` | aegis/internal/storage/postgres/store.go:237-244 | an error before the first matcher, afterwards the first match among cached rules |
| `ProxyPipeline.BuildUpstreamURL` | aegis/internal/proxy/handler.go:61-106 | scheme and host of the upstream, the query of the request, and the stripped or rewritten path on the upstream's base |
| `ProxyPipeline.StripLosesOnlyPrefix` | aegis/internal/proxy/handler.go:67-101 | without rewriting, the target path starts with the upstream's base and ends with all of the request path but the prefix |
| `ProxyPipeline.TargetPathIs` | aegis/internal/proxy/handler.go:61-106 | for every upstream and request path: the prefix cut with its slash put back, or the rewritten path, joined to the base with one slash |
| `ProxyPipeline.Authenticate` | aegis/internal/proxy/handler.go:119-144 | the session left by the loop: the first success, else what the last authenticator returned; a hard stop at an unregistered one |
| `ProxyPipeline.ServeHTTP` | aegis/internal/proxy/handler.go:108-207 | the status code, or the mutated request and its target |
| `ProxyPipeline.LoginIs` | aegis/internal/proxy/handler.go:119-138 | the authenticators up to the first that is unregistered or gives a session without failing decide; if there is none the last one's session does |
| `ProxyPipeline.MutateIs` | aegis/internal/proxy/handler.go:164-181 | the requests form a chain: first the one given, then what each mutator of the list makes of the one before; it ends at the first that is unregistered or fails |
| `ProxyPipeline.ChainIsMutate` | aegis/internal/proxy/handler.go:164-181 | conversely the end of every such chain through the whole list is the mutated request |
| `ProxyPipeline.LiveStatusIs` | aegis/internal/proxy/handler.go:111-190 | 404, 500, 401, 500, 403, 500 and 502, each for its stage |
| `ProxyPipeline.ProxiedExactly` | aegis/internal/proxy/handler.go:108-207 | if authentication, authorization and the chain of mutators succeed, what is sent is the last request of the chain, to the target made of its URL |
| `ProxyPipeline.ProxiedOnlySo` | aegis/internal/proxy/handler.go:108-207 | and nothing is ever sent otherwise: for every proxied request the proof gives rule, session and chain |
| `ProxyPipeline.DryAuthenticate` | aegis/internal/proxy/dryrun.go:166-209 | the same loop passing over unregistered authenticators, with its trace steps |
| `ProxyPipeline.DryRun` | aegis/internal/proxy/dryrun.go:140-307 | matched rule, trace steps and verdict |
| `ProxyPipeline.DryLoginSkipsUnknown` | aegis/internal/proxy/dryrun.go:170-203 | the dry run logs in as the live pipeline would with the registered authenticators alone |
| `ProxyPipeline.LoginStepsAre` | aegis/internal/proxy/dryrun.go:170-203 | one step per authenticator up to the first that succeeds, unregistered ones included, and that one alone is marked as a success |
| `ProxyPipeline.MutateStepsAre` | aegis/internal/proxy/dryrun.go:250-284 | one step per mutator up to the first that is unregistered or fails, and that one alone is marked as a failure |
| `ProxyPipeline.TraceIs` | aegis/internal/proxy/dryrun.go:140-307 | the whole trace and its verdict, stage by stage; the target is made of the URL as it came in, whatever the mutators make of it |
| `ProxyPipeline.LoginsAgree` | aegis/internal/proxy/dryrun.go:166-209 | the two authenticator loops end with the same session unless the live one meets an unregistered handler |
| `ProxyPipeline.DryRunPredictsLive` | aegis/internal/proxy/dryrun.go:139-307 | allow, unauthorized, deny and error correspond to proxied, 401, 403 and 404, 500 or 502 if and only if no unregistered authenticator is met, or else the others find a session and the authorizer is unregistered or, allowed, a mutator or the upstream URL fails |
| `ProxyPipeline.RegisteredIsKnown` | aegis/internal/proxy/handler.go:124-131 | registering every authenticator a rule names is enough |
| `ProxyPipeline.DryRunPredictsTarget` | aegis/internal/proxy/dryrun.go:286-306 | when mutators leave the URL alone an allowed dry run ends with the live target |
| `ProxyPipeline.UnknownAuthenticatorMisleads` | aegis/internal/proxy/dryrun.go:170-180 | a family of rules for which the dry run allows what the live pipeline answers with 500 |
| `Zookie.LSNRoundTrip` | platform/zookie/zookie.go:33-54 | ParseLSN undoes FormatLSN for every 64-bit value |
| `Zookie.UpperHexIs` | platform/zookie/zookie.go:49-54 | each word is its numeral of base 16 without leading zeros, in upper case |
| `Zookie.LSNTextIs` | platform/zookie/zookie.go:49-54 | the word above the 32nd bit stands first, then a slash, then the other |
| `Zookie.EncodedNumeralHasNoUnderscore` | platform/zookie/zookie.go:82-89 | base64url of hexadecimal or decimal text never contains an underscore |
| `Zookie.TokenParts` | platform/zookie/zookie.go:94-109 | so a token splits into exactly prefix, version and payload, and the payload decodes to the numeral |
| `Zookie.ThreePartsAre` | platform/zookie/zookie.go:94-131 | a text of three parts is read exactly when the first is "zk", the third is base64url and holds a number: an LSN for version "v2", an instant for any other version |
| `Zookie.OtherPartsAreRefused` | platform/zookie/zookie.go:94-102 | every text of fewer or more parts is refused |
| `Numerals.ParseInt64FormatInt` | platform/zookie/zookie.go:87-122 | decimal text gives back exactly the 64-bit integers |
| `Numerals.EvalIs` | platform/zookie/zookie.go:111-124 | a numeral is read exactly when it consists of digits of the base, in either case, and spells zeros and then the value's own numeral |
| `Numerals.SignsAre` | platform/zookie/zookie.go:121-124 | a decimal is read with and without sign up to 2^63 - 1, with a minus sign down to -2^63 |
| `Zookie.LSNTokenRoundTrip` | platform/zookie/zookie.go:80-119 | every token with an LSN comes back with that LSN |
| `Zookie.TimeTokenParses` | platform/zookie/zookie.go:87-130 | a v1 token comes back with its instant reduced to 64-bit nanoseconds |
| `Zookie.TimeTokenRoundTripIff` | platform/zookie/zookie.go:87-130 | the instant is recovered if and only if it fits 64-bit nanoseconds |
| `Zookie.FreshnessSurvivesTrip` | platform/zookie/zookie.go:134-146 | comparing two LSN tokens gives the same answer after the trip |
| `Zookie.TimeFreshnessSurvivesTrip` | platform/zookie/zookie.go:134-146 | and so does comparing two instants in range |
| `Zookie.FreshnessSurvivesTripIff` | platform/zookie/zookie.go:80-146 | for any two tokens the answer is the same after the trip if and only if both have an LSN; or one is written with its LSN and the instants, lost then, would not have failed; or neither is, and reduction to 64 bits keeps their order |
| `Zookie.OlderBecomesFresh` | platform/zookie/zookie.go:109-116 | a token with an LSN and an instant is not met by a v1 token one nanosecond older, and is after both were sent |
| `Macaroon.TokenObject.AttenuateObject` | vulcan/internal/macaroon/macaroon.go:36-57 | leaves its parent as it was and returns a child that shares no memory with it |
| `Macaroon.Verify` | vulcan/internal/macaroon/macaroon.go:60-89 | signature first, then the first caveat in list order that does not hold |
| `Macaroon.MintedIsChain` | vulcan/internal/macaroon/macaroon.go:22-57 | a token minted and attenuated in turn carries the chained signature over its caveats |
| `Macaroon.SignatureOfTwo` | vulcan/internal/macaroon/macaroon.go:61-77 | the signature over two caveats, spelled out: key id, first and second caveat, each keyed with the digest before |
| `Hex.EncodeIs` | vulcan/internal/macaroon/macaroon.go:22-33 | byte i of a digest is written as digits 2i and 2i + 1 of the signature, high half first, in lower case |
| `Hex.DecodeIs` | vulcan/internal/macaroon/macaroon.go:36-40 | exactly an even number of digits of either case is decoded, to the bytes that they spell |
| `Macaroon.SignatureOkIffMinted` | vulcan/internal/macaroon/macaroon.go:61-77 | the signature check accepts exactly the tokens obtainable from New by Attenuate over the same caveats |
| `Macaroon.AttenuateExtends` | vulcan/internal/macaroon/macaroon.go:36-57 | a child keeps the parent's caveats in front, and its signature is in order |
| `Macaroon.ChildVerifiesIff` | vulcan/internal/macaroon/macaroon.go:36-57 | exactly when a child of any token with a hexadecimal signature passes the signature check |
| `Macaroon.ValidIffAllHold` | vulcan/internal/macaroon/macaroon.go:79-88 | with a context the verdict is the signature and the conjunction of all caveats |
| `Macaroon.CaveatAdmits` | vulcan/internal/macaroon/macaroon.go:91-127 | the verdict on a token with a caveat `key=value`: time_before admits up to and including its instant and never after; ip, method and path_prefix admit exactly an absent or fitting field; any other key admits all |
| `Macaroon.CaveatWithoutEquals` | vulcan/internal/macaroon/macaroon.go:91-95 | a caveat without an equals sign is never admitted in a context |
| `Macaroon.OrderDoesNotMatter` | vulcan/internal/macaroon/macaroon.go:79-88 | the same caveats in another order accept the same contexts |
| `Macaroon.AttenuateOnlyRestricts` | vulcan/internal/macaroon/macaroon.go:36-89 | a child is valid exactly where its parent is and the new caveat holds |
| `Backoff.ComputeBackoff` | ego/internal/worker/worker.go:166-178 | the delay is b plus what the random call gives for the bound b/4, which is positive, so it lies in [b, b + b/4) |
| `Backoff.WrappedProductIsLarge` | ego/internal/worker/worker.go:170-173 | a multiple of 2^43 that wraps is not positive or above the cap |
| `Backoff.LateProduct` | ego/internal/worker/worker.go:170 | from the 35th attempt on the product is such a multiple |
| `Backoff.DelayIsSaturatedDoubling` | ego/internal/worker/worker.go:166-173 | for every attempt from the first on the delay is min(2^(attempt-1) s, 300 s) despite wrap-around |
| `Backoff.DelayBelowOne` | ego/internal/worker/worker.go:170-173 | an attempt number below one gets the cap |
| `Backoff.DelaysGrow` | ego/internal/worker/worker.go:166-173 | delays never shrink and reach the cap at the tenth attempt |
| `Outbox.Worker.ProcessBatch` | ego/internal/worker/worker.go:122-163 | handled rows are settled once with a retry within the jittered backoff; rows whose outcome is not written and rows not handled stay in processing; no other row changes |
| `Outbox.DueRowsAreClaimed` | ego/internal/storage/postgres/repository.go:1232-1250 | a row may be claimed exactly when it is pending and due |
| `Outbox.HandledIs` | ego/internal/worker/worker.go:135-159 | a sent row is delivered; a failed one has one attempt more, is a dead letter exactly when that reaches its allowance and else pending again, after 2^(attempts-1) s or 300 s and the jitter drawn |
| `Outbox.OutcomeIs` | ego/internal/worker/worker.go:135-159 | that is what is stored if it can be, and else the row stays in processing |
| `Outbox.SendWrites` | ego/internal/worker/worker.go:135-159 | with many workers: what one send leaves of row, claims and counters, recorded or not, sent or not |
| `Outbox.OthersWrite` | ego/internal/storage/postgres/repository.go:1232-1281 | a new row is pending at once; a claim takes pending and due rows, none twice and no more than asked for; a worker may stop with any row it holds |
| `Outbox.StepKeepsInv` | ego/internal/storage/postgres/repository.go:1232-1308 | with any number of workers every step keeps the send counters right for the row's status |
| `Outbox.SendsAreBounded` | ego/internal/worker/worker.go:122-163 | no notification is sent more than max(1, max_attempts) times or succeeds twice, and a dead letter used exactly its allowance |
| `Outbox.DroppedRowIsStuck` | ego/internal/worker/worker.go:128-133 | a claimed row that was dropped stays in processing and is never sent in any run from there |

## Left out

- AplMachine.Parser.ParseNamespaceIn: the class-body loop is cut off after a given number of turns, because on some inputs the source's loop never ends. AplTermination says for which inputs; for all others AplMachine.Parser.ParseNamespaceToEnd has the loop without a bound.
- AplImport.RoundTripIff: bytes behind the closing brace may be any but a semicolon and NUL. A semicolon there would end the skipping of an import; AplText.RoundTrip, for schemas without the name import, has no such condition.
- Parser error messages: the texts are not modelled, only which error is reported and with which tokens.
- The graph resolver of Nexus: it is not part of this model; the meaning of a tree is its boolean function of the leaves.
- AuditChain.AuditLog.RecordAudit: one call is atomic; AuditChain.StaleReadBreaksChain treats two calls that read the same head. SQL failures, JSON columns and times before year 1 are not modelled.
- Audit listing, export, tenancy, change requests and compliance evidence: single queries without a loop or state argument.
- Enrollment.Server.Register: the secret, its encryption and the enrollment audit entries are not modelled, only that making the secret may fail; a commit whose answer is lost is not told from one that did not happen.
- Heartbeat.EnterHeartbeat: the signature is a field that is present; its check against current and previous secret comes after the gate and is not modelled.
- Lifecycle.ReachableFleetIsInOrder: a sweep is one step in Lifecycle, and each RPC too; LifecycleSteps takes sweep and heartbeat apart, and LifecycleRaces says what then still holds. The other calls are one statement or one transaction on the row.
- PruneOlderThan: the model has no update times, so which evicted rows and which events are old enough is left open; credentials and their revocation are not modelled.
- Instance columns other than key, status, heartbeat time and origin; dependencies, topology, operators and sessions.
- RuleStore.FileStore.ApplyLocked: YAML encoding does not fail; what a failed write leaves in the file is a parameter.
- Rollback and the version history of rules; what each Postgres mutation writes, beyond that it commits a new table.
- RuleReplicas.ReplicasAreCoherent: no liveness without RuleReplicas.ReloadCatchesUpIffCompiles; backoff times between reconnects are not modelled.
- ProxyPipeline.ServeHTTP: handlers are functions, so an authenticator or authorizer that changes the request it is given is not captured; timings, metrics, response bodies and the upstream exchange are not modelled.
- ProxyPipeline.DryRun: texts, headers and sessions attached to trace steps are not modelled.
- Regular expressions, CEL, SHA-256, HMAC, Unicode tables, net/url, strings.TrimSpace, strings.EqualFold and time parsing and formatting are functions given from outside.
- Clamping of the page limit to 1..100 (platform/paging/paging.go:44-70): pages are proved for every limit of at least one.
- Outbox.Worker.ProcessBatch: the order in which due rows are claimed is left open.
- HTTP, gRPC and TLS plumbing, metrics, logging, configuration, consoles and client libraries.
