/**
 * Pass 2 of the PostgreSQL rewrite: SQLite's `INSERT OR IGNORE INTO`
 * becomes PostgreSQL's `INSERT INTO ... ON CONFLICT DO NOTHING`.
 *
 * The clause is looked up case-insensitively (in the upper-cased copy of
 * the query). Only its first occurrence is replaced; the text is then
 * stripped of trailing `;`, space, tab and newline characters and the
 * conflict clause is appended. Literals are not consulted: a clause inside
 * a quoted string is rewritten like any other.
 */
module InsertOrIgnore {
  import opened SqlText

  const IgnoreClause := "INSERT OR IGNORE INTO"
  const InsertClause := "INSERT INTO"
  const ConflictSuffix := " ON CONFLICT DO NOTHING"
  /** The characters `strings.TrimRight` removes before the suffix is appended. */
  const TrailingCutset := "; \t\n"

  /** The clause, in any letter case, starts at index `k` of `q`. */
  predicate ClauseAt(q: string, k: nat)
  {
    k + |IgnoreClause| <= |q| && EqualFold(q[k..k + |IgnoreClause|], IgnoreClause)
  }

  /**
   * The index of the first clause, found with `strings.Index` in the
   * upper-cased query, or -1 when there is none.
   */
  function FindClause(q: string): (r: int)
    ensures r == -1 || (0 <= r && ClauseAt(q, r))
    ensures forall k: nat :: (r == -1 || k < r) ==> !ClauseAt(q, k)
  {
    ClauseUpper(q);
    Index(ToUpper(q), IgnoreClause)
  }

  /**
   * `rewriteInsertOrIgnore`. Without the clause the query comes back as it
   * is; otherwise its first occurrence becomes `INSERT INTO`, the trailing
   * `;`, space, tab and newline characters go, and the conflict clause is
   * appended.
   */
  function RewriteInsertOrIgnore(q: string): (r: string)
    ensures FindClause(q) < 0 ==> r == q
    ensures FindClause(q) >= 0 ==>
      ReplacedAndTrimmed(r, q[..FindClause(q)], InsertClause, q[FindClause(q) + |IgnoreClause|..], ConflictSuffix)
  {
    var idx := FindClause(q);
    if idx < 0 then q
    else
      var r := TrimRight(q[..idx] + InsertClause + q[idx + |IgnoreClause|..], TrailingCutset) + ConflictSuffix;
      InsertClauseLast();
      TrimmedShape(q[..idx], InsertClause, q[idx + |IgnoreClause|..], ConflictSuffix, r);
      r
  }

  /** `INSERT INTO` ends in a letter, which trimming keeps. */
  lemma InsertClauseLast()
    ensures InsertClause != [] && InsertClause[|InsertClause| - 1] !in TrailingCutset
  {
    assert InsertClause[|InsertClause| - 1] == 'O';
  }

  // ---------------------------------------------------------------------
  // Properties.

  /** Without the clause, the query is returned as it is. */
  lemma ClauseAbsentUnchanged(q: string)
    requires forall k: nat :: !ClauseAt(q, k)
    ensures RewriteInsertOrIgnore(q) == q
  {
  }

  /**
   * With the clause first occurring at `k`: the text before it is kept, the
   * clause becomes `INSERT INTO`, the text after it is kept up to a tail of
   * `;`, space, tab and newline characters that is removed, and the result
   * ends with ` ON CONFLICT DO NOTHING`. Later occurrences of the clause lie
   * in the kept text and are not rewritten.
   */
  lemma ClauseRewritten(q: string, k: nat)
    requires ClauseAt(q, k)
    requires forall j: nat :: j < k ==> !ClauseAt(q, j)
    ensures ReplacedAndTrimmed(RewriteInsertOrIgnore(q), q[..k], InsertClause, q[k + |IgnoreClause|..], ConflictSuffix)
  {
    assert FindClause(q) == k;
  }

  /**
   * `r` is `p`, then `c`, then `rest` without a tail of trimmed characters,
   * then `suffix`; the kept part does not end in a trimmed character.
   */
  predicate ReplacedAndTrimmed(r: string, p: string, c: string, rest: string, suffix: string)
  {
    var m := |r| - |suffix|;
    && c != []
    && |p| + |c| <= m <= |p| + |c| + |rest|
    && r[..|p|] == p
    && r[|p|..|p| + |c|] == c
    && r[|p| + |c|..m] == rest[..m - |p| - |c|]
    && (forall i :: m - |p| - |c| <= i < |rest| ==> rest[i] in TrailingCutset)
    && r[m - 1] !in TrailingCutset
    && r[m..] == suffix
  }

  /**
   * The shape of `TrimRight(p + c + rest) + suffix` when `c` ends in a
   * character that is not trimmed.
   */
  lemma TrimmedShape(p: string, c: string, rest: string, suffix: string, r: string)
    requires c != [] && c[|c| - 1] !in TrailingCutset
    requires r == TrimRight(p + c + rest, TrailingCutset) + suffix
    ensures ReplacedAndTrimmed(r, p, c, rest, suffix)
  {
    var s := p + c + rest;
    var t := TrimRight(s, TrailingCutset);
    assert s[|p| + |c| - 1] == c[|c| - 1];
    assert |t| >= |p| + |c|;
    TrimmedParts(p, c, rest, t);
    assert r[..|t|] == t && r[|t|..] == suffix;
  }

  /** How a prefix `t` of `p + c + rest` that covers `p + c` splits up. */
  lemma TrimmedParts(p: string, c: string, rest: string, t: string)
    requires |p| + |c| <= |t| <= |p + c + rest|
    requires t == (p + c + rest)[..|t|]
    requires forall i :: |t| <= i < |p + c + rest| ==> (p + c + rest)[i] in TrailingCutset
    ensures t[..|p|] == p
    ensures t[|p|..|p| + |c|] == c
    ensures t[|p| + |c|..] == rest[..|t| - |p| - |c|]
    ensures forall i :: |t| - |p| - |c| <= i < |rest| ==> rest[i] in TrailingCutset
  {
    var s := p + c + rest;
    forall i | |t| - |p| - |c| <= i < |rest|
      ensures rest[i] in TrailingCutset
    {
      assert rest[i] == s[|p| + |c| + i];
    }
  }

  /** The query changes exactly when it contains the clause. */
  lemma InsertOrIgnoreUnchanged(q: string)
    ensures RewriteInsertOrIgnore(q) == q <==> forall k: nat :: !ClauseAt(q, k)
  {
    var k := FindClause(q);
    if k >= 0 {
      ClausePresentChanged(q, k);
    }
  }

  /** Where the clause occurs, the rewrite differs from the query at its eighth letter. */
  lemma ClausePresentChanged(q: string, k: nat)
    requires ClauseAt(q, k)
    requires forall j: nat :: j < k ==> !ClauseAt(q, j)
    ensures RewriteInsertOrIgnore(q) != q
  {
    ClauseRewritten(q, k);
    var r := RewriteInsertOrIgnore(q);
    var w := q[k..k + |IgnoreClause|];
    EqualFoldAt(w, IgnoreClause, 7);
    EighthLetters();
    assert r[k..k + |InsertClause|][7] == r[k + 7];
    assert w[7] == q[k + 7];
  }

  /** The eighth letters of the two clauses: `O` of `OR`, and `I` of `INTO`. */
  lemma EighthLetters()
    ensures UpperChar(IgnoreClause[7]) == 'O'
    ensures InsertClause[7] == 'I' && UpperChar('I') == 'I'
  {
  }

  // ---------------------------------------------------------------------
  // Helpers about case-insensitive matching.

  /** Matching the upper-cased query is matching the clause in any case. */
  lemma ClauseUpper(q: string)
    ensures forall k: nat :: OccursAt(ToUpper(q), IgnoreClause, k) <==> ClauseAt(q, k)
  {
    forall k: nat ensures OccursAt(ToUpper(q), IgnoreClause, k) <==> ClauseAt(q, k) {
      if k + |IgnoreClause| <= |q| {
        var w := q[k..k + |IgnoreClause|];
        ToUpperSlice(q, k, k + |IgnoreClause|);
        ClauseIsUpper();
        EqualFoldUpper(w, IgnoreClause);
      }
    }
  }

  /** The clause is already upper case. */
  lemma ClauseIsUpper()
    ensures ToUpper(IgnoreClause) == IgnoreClause
  {
    forall i | 0 <= i < |IgnoreClause|
      ensures UpperChar(IgnoreClause[i]) == IgnoreClause[i]
    {
      assert IgnoreClause[i] in "INSERT OR IGNORE INTO";
    }
  }

  /** Case-insensitive equality holds character by character. */
  lemma EqualFoldAt(a: string, b: string, i: nat)
    requires EqualFold(a, b) && i < |a|
    ensures UpperChar(a[i]) == UpperChar(b[i])
  {
    EqualFoldUpper(a, b);
    assert ToUpper(a)[i] == ToUpper(b)[i];
  }
}
