/**
 * The dialect and `rewriteQuery`: the three passes applied in order for
 * PostgreSQL, and no change for any other dialect.
 *
 * The end-to-end property is about placeholders: the first two passes keep
 * every `?` that the third pass numbers, so the PostgreSQL text carries one
 * `$n` parameter reference per `?` of the canonical query, numbered
 * `$1`, `$2`, ... in order, and no `?` placeholder is left.
 */
module Rewrite {
  import opened SqlText
  import opened UserIdentifier
  import opened InsertOrIgnore
  import opened Placeholders

  /** `Dialect`, a Go `int`: a signed 64-bit integer. */
  newtype Dialect = x: int | -0x8000_0000_0000_0000 <= x < 0x8000_0000_0000_0000

  const SQLite: Dialect := 0
  const Postgres: Dialect := 1

  /** `Dialect.String`: the dialect's name, `unknown` for any other value. */
  function Name(d: Dialect): (s: string)
    ensures s == "sqlite" <==> d == SQLite
    ensures s == "postgres" <==> d == Postgres
    ensures s == "unknown" <==> d != SQLite && d != Postgres
  {
    if d == SQLite then "sqlite" else if d == Postgres then "postgres" else "unknown"
  }

  /**
   * `rewriteQuery`. Any dialect other than PostgreSQL gets the query as it
   * is; PostgreSQL gets the query with no `?` placeholder left.
   */
  function RewriteQuery(d: Dialect, q: string): (r: string)
    ensures d != Postgres ==> r == q
    ensures d == Postgres ==> Marks(r) == 0
  {
    if d != Postgres then q
    else
      var r := Numbered(RewriteInsertOrIgnore(UserQuoted(q)));
      NumberedHasNoMarks(RewriteInsertOrIgnore(UserQuoted(q)), false, 1);
      r
  }

  /** `rewriteQuery` with the two loops run as the source runs them. */
  method RunRewrite(d: Dialect, q: string) returns (r: string)
    ensures r == RewriteQuery(d, q)
  {
    if d != Postgres {
      return q;
    }
    var quoted := RewriteUserIdentifier(q);
    r := RewritePlaceholders(RewriteInsertOrIgnore(quoted));
  }

  // ---------------------------------------------------------------------
  // Placeholders survive the first two passes.

  /**
   * `x` and `y`, both read from literal state `b`, hold the same number of
   * placeholders, end in the same literal state and hold the same number
   * of `$` characters.
   */
  predicate Agree(x: string, y: string, b: bool)
  {
    && MarksFrom(x, b) == MarksFrom(y, b)
    && InStringAfter(b, x) == InStringAfter(b, y)
    && Count('$', x) == Count('$', y)
  }

  /** Text with no quote, no `?` and no `$`: invisible to placeholder numbering. */
  predicate Plain(s: string)
  {
    forall k :: 0 <= k < |s| ==> s[k] != '\'' && s[k] != '?' && s[k] != '$'
  }

  lemma PlainFacts(s: string, b: bool)
    requires Plain(s)
    ensures InStringAfter(b, s) == b && MarksFrom(s, b) == 0 && Count('$', s) == 0
  {
    InertText(s, b);
    CountAbsent('$', s);
  }

  /** Plain text in front of agreeing texts keeps them agreeing. */
  lemma PlainFront(a: string, y: string, c: string, z: string, b: bool)
    requires Plain(a) && Plain(c) && Agree(y, z, b)
    ensures Agree(a + y, c + z, b)
  {
    PlainFacts(a, b);
    PlainFacts(c, b);
    MarksConcat(a, y, b);
    MarksConcat(c, z, b);
    InStringAfterConcat(b, a, y);
    InStringAfterConcat(b, c, z);
    CountConcat('$', a, y);
    CountConcat('$', c, z);
  }

  /** A common prefix keeps agreeing texts agreeing. */
  lemma SameFront(p: string, y: string, z: string, b: bool)
    requires Agree(y, z, InStringAfter(b, p))
    ensures Agree(p + y, p + z, b)
  {
    MarksConcat(p, y, b);
    MarksConcat(p, z, b);
    InStringAfterConcat(b, p, y);
    InStringAfterConcat(b, p, z);
    CountConcat('$', p, y);
    CountConcat('$', p, z);
  }

  /** A plain tail changes nothing. */
  lemma PlainTail(t: string, e: string, b: bool)
    requires Plain(e)
    ensures Agree(t + e, t, b)
  {
    PlainFacts(e, InStringAfter(b, t));
    MarksConcat(t, e, b);
    InStringAfterConcat(b, t, e);
    CountConcat('$', t, e);
  }

  /** One common character in front of texts that agree after it. */
  lemma SameChar(c: char, y: string, z: string, b: bool)
    requires Agree(y, z, Flip(b, c))
    ensures Agree([c] + y, [c] + z, b)
  {
    assert ([c] + y)[1..] == y && ([c] + z)[1..] == z;
    CountConcat('$', [c], y);
    CountConcat('$', [c], z);
  }

  /** Pass 1 keeps the placeholders, the literal structure and the `$` characters. */
  lemma {:induction false} QuotingAgrees(q: string, st: QuoteState, b: bool)
    ensures Agree(QuoteUserFrom(q, st), q, b)
    decreases |q|, 1
  {
    if q == [] {
    } else if st == Outside && IsIdentifierChar(q[0]) {
      QuotingAgreesWord(q, b);
    } else {
      QuotingAgrees(q[1..], Step(st, q[0]), Flip(b, q[0]));
      SameChar(q[0], QuoteUserFrom(q[1..], Step(st, q[0])), q[1..], b);
      assert q == [q[0]] + q[1..];
    }
  }

  /** `QuotingAgrees` when the text starts with a word outside the literals. */
  lemma {:induction false} QuotingAgreesWord(q: string, b: bool)
    requires q != [] && IsIdentifierChar(q[0])
    ensures Agree(QuoteUserFrom(q, Outside), q, b)
    decreases |q|, 0
  {
    var n := WordLength(q);
    var w := q[..n];
    WordLengthMaximal(q);
    assert Plain(w);
    QuotedUserPlain();
    QuotingAgrees(q[n..], Outside, b);
    PlainFront(TokenText(w), QuoteUserFrom(q[n..], Outside), w, q[n..], b);
    assert q == w + q[n..];
  }

  lemma QuotedUserPlain()
    ensures Plain(QuotedUser)
  {
    forall k | 0 <= k < |QuotedUser|
      ensures QuotedUser[k] != '\'' && QuotedUser[k] != '?' && QuotedUser[k] != '$'
    {
      assert QuotedUser[k] in "\"user\"";
    }
  }

  /** Pass 2 keeps the placeholders, the literal structure and the `$` characters. */
  lemma InsertOrIgnoreAgrees(q: string, b: bool)
    ensures Agree(RewriteInsertOrIgnore(q), q, b)
  {
    var k := FindClause(q);
    if k >= 0 {
      var p, occ, rest := q[..k], q[k..k + |IgnoreClause|], q[k + |IgnoreClause|..];
      assert q == p + occ + rest;
      ClauseTextPlain(occ);
      ConstantsPlain();
      SpliceAgrees(p, InsertClause, occ, rest, b);
      TrimAgrees(p + InsertClause + rest, ConflictSuffix, b);
    }
  }

  /** Replacing plain text by plain text. */
  lemma SpliceAgrees(p: string, c: string, occ: string, rest: string, b: bool)
    requires Plain(c) && Plain(occ)
    ensures Agree(p + c + rest, p + occ + rest, b)
  {
    PlainFront(c, rest, occ, rest, InStringAfter(b, p));
    SameFront(p, c + rest, occ + rest, b);
    assert p + c + rest == p + (c + rest) && p + occ + rest == p + (occ + rest);
  }

  /** Trimming the trailing cutset and appending a plain suffix. */
  lemma TrimAgrees(s: string, suffix: string, b: bool)
    requires Plain(suffix)
    ensures Agree(TrimRight(s, TrailingCutset) + suffix, s, b)
  {
    var t := TrimRight(s, TrailingCutset);
    TrimmedPlain(s, t);
    assert s == t + s[|t|..];
    PlainTail(t, s[|t|..], b);
    PlainTail(t, suffix, b);
  }

  /** What `TrimRight` removes is plain. */
  lemma TrimmedPlain(s: string, t: string)
    requires |t| <= |s| && forall i :: |t| <= i < |s| ==> s[i] in TrailingCutset
    ensures Plain(s[|t|..])
  {
    forall k | 0 <= k < |s[|t|..]|
      ensures s[|t|..][k] != '\'' && s[|t|..][k] != '?' && s[|t|..][k] != '$'
    {
      assert s[|t|..][k] == s[|t| + k];
    }
  }

  /** Text that matches the clause in any case is plain. */
  lemma ClauseTextPlain(occ: string)
    requires EqualFold(occ, IgnoreClause)
    ensures Plain(occ)
  {
    EqualFoldUpper(occ, IgnoreClause);
    ClauseIsUpper();
    ConstantsPlain();
    forall k | 0 <= k < |occ|
      ensures occ[k] != '\'' && occ[k] != '?' && occ[k] != '$'
    {
      assert ToUpper(occ)[k] == IgnoreClause[k];
    }
  }

  lemma ConstantsPlain()
    ensures Plain(IgnoreClause) && Plain(InsertClause) && Plain(ConflictSuffix)
  {
    forall k | 0 <= k < |IgnoreClause|
      ensures IgnoreClause[k] != '\'' && IgnoreClause[k] != '?' && IgnoreClause[k] != '$'
    {
      assert IgnoreClause[k] in "INSERT OR IGNORE INTO";
    }
    forall k | 0 <= k < |InsertClause|
      ensures InsertClause[k] != '\'' && InsertClause[k] != '?' && InsertClause[k] != '$'
    {
      assert InsertClause[k] in "INSERT INTO";
    }
    forall k | 0 <= k < |ConflictSuffix|
      ensures ConflictSuffix[k] != '\'' && ConflictSuffix[k] != '?' && ConflictSuffix[k] != '$'
    {
      assert ConflictSuffix[k] in " ON CONFLICT DO NOTHING";
    }
  }

  /**
   * For PostgreSQL, the first two passes keep the placeholders of the
   * canonical query, so the rewritten text holds exactly one more `$` per
   * placeholder than the query did, and no placeholder is left.
   */
  lemma PostgresParameters(q: string)
    ensures Marks(RewriteInsertOrIgnore(UserQuoted(q))) == Marks(q)
    ensures Count('$', RewriteQuery(Postgres, q)) == Count('$', q) + Marks(q)
    ensures Marks(RewriteQuery(Postgres, q)) == 0
  {
    var m := RewriteInsertOrIgnore(UserQuoted(q));
    QuotingAgrees(q, Outside, false);
    InsertOrIgnoreAgrees(UserQuoted(q), false);
    ParameterCount(m, false, 1);
  }
}
