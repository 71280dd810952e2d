/**
 * The dialect-aware wrappers `DB` and `Tx` around the `database/sql` driver.
 *
 * The driver is modelled as one `Database` reached through connections
 * (`Conn`): the `*sql.DB` itself, and one per transaction. Every call any
 * connection sends is appended to the database's single history, tagged
 * with the session of the connection that sent it, and each answer is a
 * fixed function of that whole history. A transaction's calls are thus
 * visible to every later answer, on any connection, in whatever way the
 * database chooses (commit, isolation and conflicts are the database's
 * business). The wrappers' contracts say which text reaches the driver (the
 * rewritten query), how the driver's answers are passed back, and that
 * `Begin` hands its dialect on to the transaction.
 */
module Store {
  import opened Wrappers
  import opened SqlText
  import opened InsertOrIgnore
  import opened Placeholders
  import opened Rewrite

  /** Go's `int64`. */
  newtype int64 = x: int | -0x8000_0000_0000_0000 <= x < 0x8000_0000_0000_0000

  /** A bind argument, passed through to the driver untouched. */
  datatype Value = Int(i: int64) | Text(s: string) | Bool(b: bool) | Null

  datatype Error = Error(message: string)

  datatype CallKind = ExecCall | QueryCall | QueryRowCall | BeginCall | CommitCall | RollbackCall | PingCall | CloseCall

  /** One call received by the driver: what it was asked to do, with which text and arguments. */
  datatype Call = Call(kind: CallKind, text: string, args: seq<Value>)

  /** A call as the database sees it: with the session of the connection that sent it. */
  datatype Sent = Sent(session: nat, call: Call)

  /**
   * The driver's answer to a call: its error, and for an insert the id (the
   * `LastInsertId` of an `Exec`, or the value scanned from a `QueryRow`)
   * with the error of `LastInsertId`. Result rows are not modelled.
   */
  datatype Reply = Reply(err: Option<Error>, id: int64, idErr: Option<Error>)

  /** The database behind every connection. */
  class Database {
    /** Every call received on any connection, oldest first. */
    var history: seq<Sent>
    /** The number of connections opened so far; the next one gets this session. */
    var sessions: nat
    /** The database's answer to the latest call of a history. */
    const server: seq<Sent> -> Reply

    constructor (server: seq<Sent> -> Reply)
      ensures this.server == server && history == [] && sessions == 0
    {
      this.server := server;
      history := [];
      sessions := 0;
    }
  }

  /** A driver connection (`*sql.DB`, or the `*sql.Tx` of a transaction) to a database. */
  class Conn {
    const db: Database
    /**
     * This connection's session. Sessions are handed out in order, so every
     * connection opened on a database has its own.
     */
    const session: nat

    /**
     * The connection was opened on `db`: its session lies below the
     * database's counter, so every connection opened later gets another.
     */
    ghost predicate Opened()
      reads db
    {
      session < db.sessions
    }

    /** Opens a connection with a new session. */
    constructor (db: Database)
      modifies db
      ensures this.db == db && session == old(db.sessions)
      ensures db.sessions == old(db.sessions) + 1 && db.history == old(db.history)
      ensures Opened()
    {
      this.db := db;
      session := db.sessions;
      db.sessions := db.sessions + 1;
    }

    /** Sends one call and returns the database's answer to it. */
    method Send(kind: CallKind, text: string, args: seq<Value>) returns (reply: Reply)
      modifies db
      ensures db.history == old(db.history) + [Sent(session, Call(kind, text, args))]
      ensures db.sessions == old(db.sessions)
      ensures reply == db.server(db.history)
    {
      db.history := db.history + [Sent(session, Call(kind, text, args))];
      reply := db.server(db.history);
    }

    /**
     * `Begin` on the driver: on success, a fresh transaction connection to
     * the same database, with a session no connection had before (so, from
     * an opened connection, a session other than this one's).
     */
    method BeginTx() returns (reply: Reply, tx: Conn?)
      modifies db
      ensures db.history == old(db.history) + [Sent(session, Call(BeginCall, [], []))]
      ensures reply == db.server(db.history)
      ensures reply.err.Some? ==> tx == null && db.sessions == old(db.sessions)
      ensures reply.err.None? ==>
        && tx != null && fresh(tx) && tx.db == db
        && tx.session == old(db.sessions) && db.sessions == old(db.sessions) + 1
        && tx.Opened()
      ensures old(Opened()) ==> Opened()
      ensures old(Opened()) && tx != null ==> tx.session != session
    {
      reply := Send(BeginCall, [], []);
      if reply.err.Some? {
        tx := null;
      } else {
        tx := new Conn(db);
      }
    }
  }

  /** The tail `ExecReturningID` appends for PostgreSQL. */
  const ReturningSuffix := " RETURNING id"

  /** The text `ExecReturningID` sends to PostgreSQL. */
  function ReturningIdText(query: string): string
  {
    TrimRight(RewriteQuery(Postgres, query), TrailingCutset) + ReturningSuffix
  }

  /**
   * The outcome of `ExecReturningID` sent on `session`, with the database's
   * history going from `before` to `after`. PostgreSQL: one `QueryRow` with the rewritten text,
   * trimmed, plus ` RETURNING id`; a scan error gives `(0, err)`, otherwise the
   * scanned id. Any other dialect: one `Exec` with the query unchanged; an
   * error gives `(0, err)`, otherwise the result of `LastInsertId`.
   */
  predicate ReturningIdOutcome(before: seq<Sent>, after: seq<Sent>, server: seq<Sent> -> Reply, session: nat,
                               d: Dialect, query: string, args: seq<Value>, id: int64, err: Option<Error>)
  {
    var reply := server(after);
    if d == Postgres then
      && after == before + [Sent(session, Call(QueryRowCall, ReturningIdText(query), args))]
      && (if reply.err.Some? then id == 0 && err == reply.err else id == reply.id && err == None)
    else
      && after == before + [Sent(session, Call(ExecCall, query, args))]
      && (if reply.err.Some? then id == 0 && err == reply.err else id == reply.id && err == reply.idErr)
  }

  /** The body `DB.ExecReturningID` and `Tx.ExecReturningID` share. */
  method ExecReturningIdOn(raw: Conn, dialect: Dialect, query: string, args: seq<Value>)
    returns (id: int64, err: Option<Error>)
    modifies raw.db
    ensures ReturningIdOutcome(old(raw.db.history), raw.db.history, raw.db.server, raw.session, dialect, query, args, id, err)
    ensures raw.db.sessions == old(raw.db.sessions)
  {
    var q := RunRewrite(dialect, query);
    if dialect == Postgres {
      q := TrimRight(q, TrailingCutset) + ReturningSuffix;
      var reply := raw.Send(QueryRowCall, q, args);
      if reply.err.Some? {
        return 0, reply.err;
      }
      return reply.id, None;
    }
    var reply := raw.Send(ExecCall, q, args);
    if reply.err.Some? {
      return 0, reply.err;
    }
    return reply.id, reply.idErr;
  }

  /** `DB`: a driver connection with the dialect its queries are rewritten for. */
  class DB {
    const raw: Conn?
    const dialect: Dialect

    /** `Wrap` */
    constructor Wrap(raw: Conn?, dialect: Dialect)
      ensures this.raw == raw && this.dialect == dialect
    {
      this.raw := raw;
      this.dialect := dialect;
    }

    /** `Ping`: the driver's answer to a ping. */
    method Ping() returns (err: Option<Error>)
      requires raw != null
      modifies raw.db
      ensures raw.db.history == old(raw.db.history) + [Sent(raw.session, Call(PingCall, [], []))]
      ensures raw.db.sessions == old(raw.db.sessions)
      ensures err == raw.db.server(raw.db.history).err
    {
      var reply := raw.Send(PingCall, [], []);
      err := reply.err;
    }

    /** `Exec`: the driver runs the rewritten query. */
    method Exec(query: string, args: seq<Value>) returns (reply: Reply)
      requires raw != null
      modifies raw.db
      ensures raw.db.history == old(raw.db.history) + [Sent(raw.session, Call(ExecCall, RewriteQuery(dialect, query), args))]
      ensures raw.db.sessions == old(raw.db.sessions)
      ensures reply == raw.db.server(raw.db.history)
    {
      var q := RunRewrite(dialect, query);
      reply := raw.Send(ExecCall, q, args);
    }

    /** `Query`: the driver runs the rewritten query. */
    method Query(query: string, args: seq<Value>) returns (reply: Reply)
      requires raw != null
      modifies raw.db
      ensures raw.db.history == old(raw.db.history) + [Sent(raw.session, Call(QueryCall, RewriteQuery(dialect, query), args))]
      ensures raw.db.sessions == old(raw.db.sessions)
      ensures reply == raw.db.server(raw.db.history)
    {
      var q := RunRewrite(dialect, query);
      reply := raw.Send(QueryCall, q, args);
    }

    /** `QueryRow`: the driver runs the rewritten query. */
    method QueryRow(query: string, args: seq<Value>) returns (reply: Reply)
      requires raw != null
      modifies raw.db
      ensures raw.db.history == old(raw.db.history) + [Sent(raw.session, Call(QueryRowCall, RewriteQuery(dialect, query), args))]
      ensures raw.db.sessions == old(raw.db.sessions)
      ensures reply == raw.db.server(raw.db.history)
    {
      var q := RunRewrite(dialect, query);
      reply := raw.Send(QueryRowCall, q, args);
    }

    /**
     * `Begin`: on success, a transaction with this database's dialect whose
     * calls reach the same database; on failure, no transaction and the
     * driver's error.
     */
    method Begin() returns (tx: Tx?, err: Option<Error>)
      requires raw != null
      modifies raw.db
      ensures raw.db.history == old(raw.db.history) + [Sent(raw.session, Call(BeginCall, [], []))]
      ensures raw.db.server(raw.db.history).err.Some? ==>
        && tx == null && err == raw.db.server(raw.db.history).err
        && raw.db.sessions == old(raw.db.sessions)
      ensures raw.db.server(raw.db.history).err.None? ==>
        && tx != null && fresh(tx) && fresh(tx.raw) && err == None
        && tx.dialect == dialect
        && tx.raw.db == raw.db
        && tx.raw.session == old(raw.db.sessions) && raw.db.sessions == old(raw.db.sessions) + 1
        && tx.raw.Opened()
      ensures old(raw.Opened()) ==> raw.Opened()
      ensures old(raw.Opened()) && tx != null ==> tx.raw.session != raw.session
    {
      var reply, conn := raw.BeginTx();
      if reply.err.Some? {
        return null, reply.err;
      }
      tx := new Tx(conn, dialect);
      err := None;
    }

    /** `ExecReturningID` */
    method ExecReturningID(query: string, args: seq<Value>) returns (id: int64, err: Option<Error>)
      requires raw != null
      modifies raw.db
      ensures ReturningIdOutcome(old(raw.db.history), raw.db.history, raw.db.server, raw.session, dialect, query, args, id, err)
      ensures raw.db.sessions == old(raw.db.sessions)
    {
      id, err := ExecReturningIdOn(raw, dialect, query, args);
    }
  }

  /** `Dialect`, which a nil `DB` answers with SQLite. */
  function DialectOf(db: DB?): (d: Dialect)
    ensures db == null ==> d == SQLite
    ensures db != null ==> d == db.dialect
  {
    if db == null then SQLite else db.dialect
  }

  /** `RawDB`, which a nil `DB` answers with nil. */
  function RawOf(db: DB?): (raw: Conn?)
    ensures db == null ==> raw == null
    ensures db != null ==> raw == db.raw
  {
    if db == null then null else db.raw
  }

  /** `Close`: a no-op without a database or a connection. */
  method Close(db: DB?) returns (err: Option<Error>)
    modifies if db != null && db.raw != null then {db.raw.db} else {}
    ensures db == null || db.raw == null ==> err == None
    ensures db != null && db.raw != null ==>
      && db.raw.db.history == old(db.raw.db.history) + [Sent(db.raw.session, Call(CloseCall, [], []))]
      && db.raw.db.sessions == old(db.raw.db.sessions)
      && err == db.raw.db.server(db.raw.db.history).err
  {
    if db == null || db.raw == null {
      return None;
    }
    var reply := db.raw.Send(CloseCall, [], []);
    err := reply.err;
  }

  /** `Tx`: a transaction with the dialect its queries are rewritten for. */
  class Tx {
    const raw: Conn
    const dialect: Dialect

    constructor (raw: Conn, dialect: Dialect)
      ensures this.raw == raw && this.dialect == dialect
    {
      this.raw := raw;
      this.dialect := dialect;
    }

    /** `Exec`: the driver runs the rewritten query. */
    method Exec(query: string, args: seq<Value>) returns (reply: Reply)
      modifies raw.db
      ensures raw.db.history == old(raw.db.history) + [Sent(raw.session, Call(ExecCall, RewriteQuery(dialect, query), args))]
      ensures raw.db.sessions == old(raw.db.sessions)
      ensures reply == raw.db.server(raw.db.history)
    {
      var q := RunRewrite(dialect, query);
      reply := raw.Send(ExecCall, q, args);
    }

    /** `Query`: the driver runs the rewritten query. */
    method Query(query: string, args: seq<Value>) returns (reply: Reply)
      modifies raw.db
      ensures raw.db.history == old(raw.db.history) + [Sent(raw.session, Call(QueryCall, RewriteQuery(dialect, query), args))]
      ensures raw.db.sessions == old(raw.db.sessions)
      ensures reply == raw.db.server(raw.db.history)
    {
      var q := RunRewrite(dialect, query);
      reply := raw.Send(QueryCall, q, args);
    }

    /** `QueryRow`: the driver runs the rewritten query. */
    method QueryRow(query: string, args: seq<Value>) returns (reply: Reply)
      modifies raw.db
      ensures raw.db.history == old(raw.db.history) + [Sent(raw.session, Call(QueryRowCall, RewriteQuery(dialect, query), args))]
      ensures raw.db.sessions == old(raw.db.sessions)
      ensures reply == raw.db.server(raw.db.history)
    {
      var q := RunRewrite(dialect, query);
      reply := raw.Send(QueryRowCall, q, args);
    }

    /** `Commit`: the driver's answer to a commit. */
    method Commit() returns (err: Option<Error>)
      modifies raw.db
      ensures raw.db.history == old(raw.db.history) + [Sent(raw.session, Call(CommitCall, [], []))]
      ensures raw.db.sessions == old(raw.db.sessions)
      ensures err == raw.db.server(raw.db.history).err
    {
      var reply := raw.Send(CommitCall, [], []);
      err := reply.err;
    }

    /** `Rollback`: the driver's answer to a rollback. */
    method Rollback() returns (err: Option<Error>)
      modifies raw.db
      ensures raw.db.history == old(raw.db.history) + [Sent(raw.session, Call(RollbackCall, [], []))]
      ensures raw.db.sessions == old(raw.db.sessions)
      ensures err == raw.db.server(raw.db.history).err
    {
      var reply := raw.Send(RollbackCall, [], []);
      err := reply.err;
    }

    /** `ExecReturningID` */
    method ExecReturningID(query: string, args: seq<Value>) returns (id: int64, err: Option<Error>)
      modifies raw.db
      ensures ReturningIdOutcome(old(raw.db.history), raw.db.history, raw.db.server, raw.session, dialect, query, args, id, err)
      ensures raw.db.sessions == old(raw.db.sessions)
    {
      id, err := ExecReturningIdOn(raw, dialect, query, args);
    }
  }

  // ---------------------------------------------------------------------
  // The PostgreSQL insert text.

  /**
   * The text `ExecReturningID` sends to PostgreSQL is the rewritten query
   * without its trailing `;`, space, tab and newline characters, followed by
   * ` RETURNING id`; like the rewritten query it carries one more `$` per
   * placeholder of the canonical query and no placeholder.
   */
  lemma ReturningIdShape(query: string)
    ensures var r, rq := ReturningIdText(query), RewriteQuery(Postgres, query);
            var m := |r| - |ReturningSuffix|;
            && m <= |rq|
            && r[..m] == rq[..m]
            && (forall i :: m <= i < |rq| ==> rq[i] in TrailingCutset)
            && (m == 0 || r[m - 1] !in TrailingCutset)
            && r[m..] == ReturningSuffix
    ensures Marks(ReturningIdText(query)) == 0
    ensures Count('$', ReturningIdText(query)) == Count('$', query) + Marks(query)
  {
    var rq := RewriteQuery(Postgres, query);
    var t := TrimRight(rq, TrailingCutset);
    PostgresParameters(query);
    ReturningSuffixPlain();
    TrimAgrees(rq, ReturningSuffix, false);
    assert ReturningIdText(query) == t + ReturningSuffix;
  }

  lemma ReturningSuffixPlain()
    ensures Plain(ReturningSuffix)
  {
    forall k | 0 <= k < |ReturningSuffix|
      ensures ReturningSuffix[k] != '\'' && ReturningSuffix[k] != '?' && ReturningSuffix[k] != '$'
    {
      assert ReturningSuffix[k] in " RETURNING id";
    }
  }
}
