# Dialect-aware SQL rewriting in Dafny

This project models the store layer of the Go backend
(`go-backend/internal/store/db.go`). The layer wraps a `database/sql`
connection with a dialect, SQLite or PostgreSQL. Call sites write every query once,
in SQLite's form: `?` placeholders, `INSERT OR IGNORE INTO`, and a bare
`user` identifier. For PostgreSQL, `rewriteQuery` turns that text into
PostgreSQL's form in three passes, applied in this order:

1. `rewriteUserIdentifier` quotes every token `user` (in any letter case)
   that lies outside string literals and quoted identifiers. It becomes
   `"user"`.
2. `rewriteInsertOrIgnore` replaces the first `INSERT OR IGNORE INTO` (in any
   letter case) with `INSERT INTO`. It then trims trailing `;`, space, tab and
   newline characters and appends ` ON CONFLICT DO NOTHING`.
3. `rewritePlaceholders` numbers the `?` placeholders outside single-quoted
   literals: `$1`, `$2`, ... from left to right.

Every other dialect gets the query unchanged. The `DB` and `Tx` wrappers
send the rewritten text to the driver. For PostgreSQL, `ExecReturningID`
appends ` RETURNING id` and scans the id. For SQLite it reads
`LastInsertId`.

Files and modules:

| file | module | contents |
|---|---|---|
| `wrappers.dfy` | `Wrappers` | `Option`, standing for Go's `error` (`None` is `nil`) |
| `sqltext.dfy` | `SqlText` | the identifier-character class, ASCII `ToUpper`/`EqualFold`, `strings.Index`, `strings.TrimRight`, and the `%d` rendering |
| `useridentifier.dfy` | `UserIdentifier` | pass 1: a reference function, the source loop as a method proved equal to it, and its properties |
| `insertorignore.dfy` | `InsertOrIgnore` | pass 2 and its properties |
| `placeholders.dfy` | `Placeholders` | pass 3: a reference function, the source loop as a method proved equal to it, and its properties |
| `rewrite.dfy` | `Rewrite` | `Dialect`, `Dialect.String`, `rewriteQuery`, and the end-to-end placeholder property |
| `store.dfy` | `Store` | the driver connection, the `DB` and `Tx` classes, and the nil-safe `Dialect`, `RawDB` and `Close` |
| `worked.dfy` | `Worked` | two whole queries taken through the three passes |

Passes 1 and 3 are specified by reference functions that read the query one
character at a time. These references have no doubled-quote rule: each quote
character is read on its own (in pass 1, a `'` inside `"…"` and a `"` inside
`'…'` leave the state alone). The source also has an explicit branch that copies a
doubled `''` inside a single-quoted literal as a pair. The methods
`RewriteUserIdentifier` and `RewritePlaceholders` keep that branch, as the
source loops do. Their contracts prove that both readings produce the same
text.

Strings are `seq<char>` and the model reads ASCII text. A non-ASCII character
goes through passes 1 and 3 as its UTF-8 bytes would, since none of those
bytes is a quote, a `?` or an identifier byte; the case mapping of pass 2 is
the only place where the model is narrower than the Go code (see "Left out").

The driver is one `Database` reached through connections (`Conn`): the
`*sql.DB`, and one more for each transaction. Every call sent on any
connection is appended to the database's single history, tagged with the
session of the connection that sent it. Each answer is a fixed function
of that whole history. So a transaction's calls reach every later
answer, on the `DB` as well as on other transactions. How they are seen
(commit, isolation, conflicts) is left to the database. The wrappers'
contracts say which text reaches the database, on which session, and
how its answers are passed back.

## Model

| member | source | states |
|---|---|---|
| `SqlText.IsIdentifierChar` | go-backend/internal/store/db.go:227-238 | letters, digits and `_` are identifier characters; none of them is a quote, `?` or `$` |
| `SqlText.ToUpper` | go-backend/internal/store/db.go:241 | upper-casing keeps the length and maps each ASCII letter to its capital, leaving every other character alone |
| `SqlText.EqualFold` | go-backend/internal/store/db.go:212 | two texts are equal ignoring case exactly when they have the same length and agree letter by letter after upper-casing |
| `SqlText.EqualFoldUpper` | go-backend/internal/store/db.go:212 | two texts are equal ignoring case exactly when their upper-cased forms are equal |
| `SqlText.Index` | go-backend/internal/store/db.go:242 | the result is -1 or an index where the pattern occurs, and the pattern occurs nowhere before it (nowhere at all when -1) |
| `SqlText.TrimRight` | go-backend/internal/store/db.go:250 | the result is a prefix of the input; every removed character is in the cutset; the last kept character is not |
| `SqlText.Decimal` | go-backend/internal/store/db.go:273 | the rendering of `n` is a non-empty string of digits with no leading zero unless `n` is 0 |
| `SqlText.DecimalRoundTrip` | go-backend/internal/store/db.go:273 | reading the rendered digits back gives `n` |
| `UserIdentifier.RewriteUserIdentifier` | go-backend/internal/store/db.go:174-225 | the loop, with its `''` branch, produces exactly the reference text `UserQuoted(query)` |
| `UserIdentifier.ScanIdentifier` | go-backend/internal/store/db.go:207-210 | the inner loop stops at the end of the maximal identifier run that starts at `i` |
| `UserIdentifier.WordLengthMaximal` | go-backend/internal/store/db.go:207-210 | a token is a maximal run: every character in it is an identifier character and the next one is not |
| `UserIdentifier.QuoteUserConcat` | go-backend/internal/store/db.go:174-225 | at a token boundary, rewriting `x + y` rewrites `x`, then rewrites `y` from the literal state `x` ends in |
| `UserIdentifier.WordRewritten` | go-backend/internal/store/db.go:206-219 | a maximal run outside literals becomes exactly `"user"` if it spells `user` in any case, and is copied otherwise |
| `UserIdentifier.LiteralCopied` | go-backend/internal/store/db.go:182-204 | a complete '...' literal (with `''` escapes) or "..." identifier is copied verbatim, including a `"` inside '...' and a `'` inside "...", and the text after it is read from outside |
| `UserIdentifier.UserQuotedUnchanged` | go-backend/internal/store/db.go:206-222 | the query is unchanged exactly when no token outside literals spells `user` |
| `UserIdentifier.UserExample` | go-backend/internal/store/db.go:212-213 | `UsEr` becomes `"user"` |
| `UserIdentifier.UsernameExample` | go-backend/internal/store/db.go:212-216 | `username` is copied unchanged |
| `UserIdentifier.UserIdExample` | go-backend/internal/store/db.go:212-216 | `user_id` is copied unchanged |
| `UserIdentifier.LiteralExample` | go-backend/internal/store/db.go:182-193 | `'user'` is copied unchanged |
| `InsertOrIgnore.FindClause` | go-backend/internal/store/db.go:241-242 | the index search in the upper-cased query finds the first case-insensitive occurrence of `INSERT OR IGNORE INTO`, or -1 when there is none |
| `InsertOrIgnore.RewriteInsertOrIgnore` | go-backend/internal/store/db.go:240-252 | without the clause the query comes back as it is; otherwise the text before the first clause is kept, the clause becomes `INSERT INTO`, the rest is kept up to a trailing run of `;`, space, tab and newline that is removed, and ` ON CONFLICT DO NOTHING` ends the result |
| `InsertOrIgnore.ClauseAbsentUnchanged` | go-backend/internal/store/db.go:243-245 | without the clause the query is returned unchanged |
| `InsertOrIgnore.ClauseRewritten` | go-backend/internal/store/db.go:246-251 | with the clause first at `k`: the text before `k` is kept; `INSERT INTO` follows; then the rest of the text, kept except for a removed tail of `;`, space, tab and newline characters; then ` ON CONFLICT DO NOTHING`. The kept part does not end in a trimmed character, and later occurrences stay untouched |
| `InsertOrIgnore.InsertOrIgnoreUnchanged` | go-backend/internal/store/db.go:240-252 | the query is unchanged exactly when the clause does not occur in it |
| `Placeholders.RewritePlaceholders` | go-backend/internal/store/db.go:254-280 | the loop, with its `''` branch, produces exactly the reference text `Numbered(query)` |
| `Placeholders.Parameter` | go-backend/internal/store/db.go:273 | the `n`-th parameter reference is `$` followed by decimal digits that read back as `n` |
| `Placeholders.NumberConcat` | go-backend/internal/store/db.go:257-279 | numbering `x + y` numbers `x`, then numbers `y` from the literal state and the counter that `x` leaves |
| `Placeholders.MarkNumbered` | go-backend/internal/store/db.go:271-275 | a `?` outside literals, preceded by `k - 1` placeholders, becomes `$k`, and numbering goes on from `k + 1` |
| `Placeholders.MarkInLiteralCopied` | go-backend/internal/store/db.go:262-270 | a `?` inside a single-quoted literal is copied and takes no number |
| `Placeholders.NumberedUnchanged` | go-backend/internal/store/db.go:257-279 | the query is unchanged exactly when it has no `?` outside literals |
| `Placeholders.NumberedHasNoMarks` | go-backend/internal/store/db.go:257-279 | the numbered text has no `?` left outside literals and ends in the same literal state as the input |
| `Placeholders.NumberedIdempotent` | go-backend/internal/store/db.go:254-280 | numbering an already numbered query changes nothing |
| `Placeholders.ParameterCount` | go-backend/internal/store/db.go:271-275 | the output has exactly one more `$` than the input per placeholder |
| `Rewrite.Name` | go-backend/internal/store/db.go:20-29 | `sqlite` exactly for SQLite, `postgres` exactly for PostgreSQL, `unknown` exactly for any other value |
| `Rewrite.RewriteQuery` | go-backend/internal/store/db.go:164-172 | any dialect other than PostgreSQL gets the query unchanged; for PostgreSQL no `?` placeholder is left |
| `Rewrite.RunRewrite` | go-backend/internal/store/db.go:164-172 | running the two loops and the clause rewrite, in that order, gives `RewriteQuery` |
| `Rewrite.QuotingAgrees` | go-backend/internal/store/db.go:174-225 | pass 1 keeps the placeholders, the single-quote literal state at the end of the text and the `$` characters of the query |
| `Rewrite.InsertOrIgnoreAgrees` | go-backend/internal/store/db.go:240-252 | pass 2 keeps the placeholders, the single-quote literal state at the end of the text and the `$` characters of the query |
| `Rewrite.PostgresParameters` | go-backend/internal/store/db.go:164-172 | for PostgreSQL, the first two passes keep every placeholder; the final text has one more `$` per placeholder of the original query and no placeholder left |
| `Worked.SelectUserRewritten` | go-backend/internal/store/db.go:164-172 | `SELECT * FROM user WHERE user = ?` becomes `SELECT * FROM "user" WHERE "user" = $1` for PostgreSQL |
| `Worked.LiteralUserRewritten` | go-backend/internal/store/db.go:164-172 | `SELECT 'it''s a user' AS note WHERE user = ?` becomes `SELECT 'it''s a user' AS note WHERE "user" = $1`: the literal, its `''` escape and the `user` inside it are kept |
| `Worked.SelectUserQuoted` | go-backend/internal/store/db.go:174-225 | pass 1 on the first query quotes both `user` tokens and copies everything else |
| `Worked.LiteralUserQuoted` | go-backend/internal/store/db.go:174-225 | pass 1 on the second query copies the string literal and quotes only the `user` token after it |
| `Worked.NoClauseWithoutG` | go-backend/internal/store/db.go:240-252 | a text with no `G` in either case cannot hold `INSERT OR IGNORE INTO`, so pass 2 returns it unchanged |
| `Worked.SingleQuotedSettled` | go-backend/internal/store/db.go:259-270 | a complete single-quoted literal, with `''` escapes, leaves pass 3 outside every literal and holds no placeholder |
| `Worked.LastPlaceholder` | go-backend/internal/store/db.go:240-280 | a text with no `G` in either case and no `?` outside literals, which closes its literals, followed by one `?`, comes out of passes 2 and 3 ending in `$1` and otherwise unchanged |
| `Store.Conn.Send` | go-backend/internal/store/db.go:73 | one call, tagged with this connection's session, is appended to the database's shared history, and its answer is the database's answer to that history |
| `Store.Conn.BeginTx` | go-backend/internal/store/db.go:88 | on success, a fresh transaction connection to the same database with a new session, so one other than this opened connection's; the connection stays opened; on failure, none and no new session |
| `Store.DB.Wrap` | go-backend/internal/store/db.go:38-40 | the wrapper holds the given connection and dialect |
| `Store.DialectOf` | go-backend/internal/store/db.go:43-48 | a nil `DB` reports SQLite; any other reports its dialect |
| `Store.RawOf` | go-backend/internal/store/db.go:51-56 | a nil `DB` gives no connection; any other gives its own |
| `Store.Close` | go-backend/internal/store/db.go:59-64 | with no `DB` or no connection, nothing is sent and the result is no error; otherwise one close is sent and its error returned |
| `Store.DB.Ping` | go-backend/internal/store/db.go:67-69 | one ping is sent and its error returned |
| `Store.DB.Exec` | go-backend/internal/store/db.go:72-74 | the driver receives one exec of `RewriteQuery(dialect, query)` with the arguments untouched, and its answer is returned |
| `Store.DB.Query` | go-backend/internal/store/db.go:77-79 | the driver receives one query of the rewritten text with the arguments untouched |
| `Store.DB.QueryRow` | go-backend/internal/store/db.go:82-84 | the driver receives one single-row query of the rewritten text with the arguments untouched |
| `Store.DB.Begin` | go-backend/internal/store/db.go:87-93 | on success, a fresh `Tx` with the same dialect whose connection reaches the same database under a new session, other than the opened `DB` connection's; the `DB` connection stays opened; on failure, no `Tx` and the driver's error |
| `Store.DB.ExecReturningID` | go-backend/internal/store/db.go:98-113 | PostgreSQL: one single-row query of `ReturningIdText(query)`; a scan error gives `(0, err)`, otherwise the scanned id. Other dialects: one exec of the unchanged query; an error gives `(0, err)`, otherwise `LastInsertId`'s result |
| `Store.ExecReturningIdOn` | go-backend/internal/store/db.go:98-113 | the shared body of both `ExecReturningID` methods has the outcome above |
| `Store.Tx.constructor` | go-backend/internal/store/db.go:92 | the transaction holds the given connection and dialect |
| `Store.Tx.Exec` | go-backend/internal/store/db.go:122-124 | the driver receives one exec of `RewriteQuery(dialect, query)` with the arguments untouched |
| `Store.Tx.Query` | go-backend/internal/store/db.go:127-129 | the driver receives one query of the rewritten text |
| `Store.Tx.QueryRow` | go-backend/internal/store/db.go:132-134 | the driver receives one single-row query of the rewritten text |
| `Store.Tx.Commit` | go-backend/internal/store/db.go:137 | one commit is sent and its error returned |
| `Store.Tx.Rollback` | go-backend/internal/store/db.go:140 | one rollback is sent and its error returned |
| `Store.Tx.ExecReturningID` | go-backend/internal/store/db.go:143-158 | the same outcome as `DB.ExecReturningID`, on the transaction's connection |
| `Store.ReturningIdShape` | go-backend/internal/store/db.go:101 | the PostgreSQL insert text is the rewritten query without its trailing `;`, space, tab and newline characters, followed by ` RETURNING id`; it has no placeholder left and one more `$` per placeholder of the original query |

## Left out

- Driver I/O: `database/sql` itself is not modelled. The database is a shared history of calls, each tagged with its session, plus an arbitrary fixed function from that history to an answer. Opening the `*sql.DB` (`sql.Open`) is a `Conn` constructed on a `Database`. Result rows (`*sql.Rows`, `*sql.Row`) are reduced to an error, an id and the error of `LastInsertId`.
- Non-ASCII text: `strings.ToUpper` and `strings.EqualFold` are modelled on ASCII only. Go's Unicode case mapping can change byte lengths, which would misalign the index found in the upper-cased copy with the original query.
- `fmt.Sprintf("$%d", n)` is modelled by the decimal rendering `Decimal` of the natural number `n`. Go's `int` counter cannot overflow for any query that fits in memory.
- The buffer pre-sizing `buf.Grow` has no visible effect and is not modelled.
- A nil `DB` receiver for `Ping`, `Exec`, `Query`, `QueryRow`, `Begin` and `ExecReturningID`, and a nil connection inside a `DB`, would panic in Go. These methods require a connection instead.
- Concurrency: a `*sql.DB` is safe for concurrent use. The model sends one call at a time.
- The rest of the repository is not part of this model. That covers the GORM models and JSON structs in `model/model.go`, the GORM repositories, the background jobs in `jobs.go` (goroutines, timers and locks), the HTTP wiring in `app.go`, and the Spring Boot DTO. None of them holds rewrite logic.
