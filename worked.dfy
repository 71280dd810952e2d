/**
 * Two whole queries run through the three PostgreSQL passes: one where
 * `user` appears as a table and a column, and one where it also appears
 * inside a string literal with a `''` escape.
 *
 * Each query is spelled out of its words and its literal, which are
 * parameters fixed by the precondition, so that the proof goes piece by
 * piece: pass 1 is taken across token boundaries with `Extend`, and
 * passes 2 and 3 see a text without a `G` (so without the clause) that
 * closes its literals and ends in the one placeholder.
 */
module Worked {
  import opened SqlText
  import opened UserIdentifier
  import opened InsertOrIgnore
  import opened Placeholders
  import opened Rewrite

  // ---------------------------------------------------------------------
  // Pass 1 on a text cut into pieces.

  /** Appending `p` to `x + y`, which ends outside every literal, at a token boundary. */
  lemma Extend(x: string, y: string, p: string)
    requires StateAfter(Outside, x + y) == Outside && StateAfter(Outside, p) == Outside
    requires y != [] && Boundary(y, p)
    ensures UserQuoted(x + y + p) == UserQuoted(x + y) + QuoteUserFrom(p, Outside)
    ensures StateAfter(Outside, x + y + p) == Outside
  {
    assert (x + y)[|x + y| - 1] == y[|y| - 1];
    QuoteUserConcat(x + y, p, Outside);
    StateAfterConcat(Outside, x + y, p);
  }

  // ---------------------------------------------------------------------
  // Passes 2 and 3 on text that cannot hold the clause or a placeholder.

  /** No `G` in either case: the twelfth letter of `INSERT OR IGNORE INTO` is missing. */
  predicate LacksG(s: string)
  {
    forall i :: 0 <= i < |s| ==> s[i] != 'G' && s[i] != 'g'
  }

  /** Read from outside every literal, `s` holds no placeholder and closes every literal it opens. */
  predicate Settled(s: string)
  {
    !InStringAfter(false, s) && MarksFrom(s, false) == 0
  }

  /** Both properties carry over to a concatenation. */
  lemma Grow(x: string, y: string)
    requires LacksG(x) && LacksG(y) && Settled(x) && Settled(y)
    ensures LacksG(x + y) && Settled(x + y)
  {
    InStringAfterConcat(false, x, y);
    MarksConcat(x, y, false);
    forall i | 0 <= i < |x + y|
      ensures (x + y)[i] != 'G' && (x + y)[i] != 'g'
    {
      if i >= |x| {
        assert (x + y)[i] == y[i - |x|];
      }
    }
  }

  /** The twelfth letter of `INSERT OR IGNORE INTO` is the `G` of `IGNORE`. */
  lemma TwelfthLetter()
    ensures UpperChar(IgnoreClause[11]) == 'G'
  {
  }

  /** Texts that differ at one letter in any case are not equal under case folding. */
  lemma FoldMismatch(a: string, b: string, i: nat)
    requires i < |a| && i < |b| && UpperChar(a[i]) != UpperChar(b[i])
    ensures !EqualFold(a, b)
  {
    EqualFoldUpper(a, b);
    assert ToUpper(a)[i] != ToUpper(b)[i];
  }

  /** Text without a `G` in any case never holds the clause, so pass 2 leaves it alone. */
  lemma NoClauseWithoutG(s: string)
    requires LacksG(s)
    ensures RewriteInsertOrIgnore(s) == s
  {
    forall k: nat ensures !ClauseAt(s, k) {
      if k + |IgnoreClause| <= |s| {
        var w := s[k..k + |IgnoreClause|];
        assert w[11] == s[k + 11];
        TwelfthLetter();
        FoldMismatch(w, IgnoreClause, 11);
      }
    }
    ClauseAbsentUnchanged(s);
  }

  /** A settled text without a `G` followed by one placeholder: the whole of passes 2 and 3. */
  lemma LastPlaceholder(x: string)
    requires LacksG(x) && Settled(x)
    ensures Numbered(RewriteInsertOrIgnore(x + "?")) == x + "$1"
  {
    assert LacksG(x + "?") by {
      forall i | 0 <= i < |x + "?"|
        ensures (x + "?")[i] != 'G' && (x + "?")[i] != 'g'
      {
        if i < |x| {
          assert (x + "?")[i] == x[i];
        }
      }
    }
    NoClauseWithoutG(x + "?");
    MarkNumbered(x, "");
    assert x + "?" + "" == x + "?";
    NoMarksIdentity(x, false, 1);
    assert Parameter(1) == "$1";
  }

  // ---------------------------------------------------------------------
  // The pieces.

  /** A word other than `user` and without a `G`: copied, outside every literal. */
  lemma PlainWord(w: string)
    requires w != [] && forall k :: 0 <= k < |w| ==> IsIdentifierChar(w[k])
    requires LacksG(w) && !IsUserWord(w)
    ensures QuoteUserFrom(w, Outside) == w && StateAfter(Outside, w) == Outside && Settled(w)
  {
    WordLengthAll(w);
    assert w[..|w|] == w && w[|w|..] == [];
    StateAfterIdentifiers(Outside, w);
    InertText(w, false);
  }

  /** Punctuation and spaces: copied, outside every literal. */
  lemma {:induction false} Punctuation(s: string)
    requires forall k :: 0 <= k < |s| ==> !IsIdentifierChar(s[k]) && s[k] != '\'' && s[k] != '"' && s[k] != '?'
    ensures QuoteUserFrom(s, Outside) == s && StateAfter(Outside, s) == Outside
    ensures LacksG(s) && Settled(s)
    decreases |s|
  {
    InertText(s, false);
    if s != [] {
      Punctuation(s[1..]);
      assert s == [s[0]] + s[1..];
    }
  }

  /** A single-quoted body without quotes. */
  lemma {:induction false} UnquotedBody(b: string)
    requires forall k :: 0 <= k < |b| ==> b[k] != '\''
    ensures EscapedBody(b)
    decreases |b|
  {
    if b != [] {
      UnquotedBody(b[1..]);
    }
  }

  /** Text without quotes, then an escaped body. */
  lemma {:induction false} EscapedAfter(a: string, b: string)
    requires forall k :: 0 <= k < |a| ==> a[k] != '\''
    requires EscapedBody(b)
    ensures EscapedBody(a + b)
    decreases |a|
  {
    if a != [] {
      EscapedAfter(a[1..], b);
      assert (a + b)[1..] == a[1..] + b;
    } else {
      assert a + b == b;
    }
  }

  /** A `''` escape in front of an escaped body. */
  lemma EscapedPair(p: string, b: string)
    requires |p| == 2 && p[0] == '\'' && p[1] == '\''
    requires EscapedBody(b)
    ensures EscapedBody(p + b)
  {
    assert (p + b)[2..] == b;
  }

  /** A single-quoted body is read inside the literal and holds no placeholder. */
  lemma {:induction false} EscapedBodyInert(b: string)
    requires EscapedBody(b)
    ensures InStringAfter(true, b) && MarksFrom(b, true) == 0
    decreases |b|
  {
    if b != [] {
      if b[0] != '\'' && EscapedBody(b[1..]) {
        EscapedBodyInert(b[1..]);
      } else {
        EscapedBodyInert(b[2..]);
        assert b[1..][1..] == b[2..];
      }
    }
  }

  /** A complete single-quoted literal is settled. */
  lemma SingleQuotedSettled(lit: string)
    requires QuotedLiteral(lit) && lit[0] == '\''
    ensures Settled(lit)
  {
    var b := lit[1..|lit| - 1];
    EscapedBodyInert(b);
    assert lit == [lit[0]] + b + [lit[|lit| - 1]];
    assert lit[1..] == b + [lit[|lit| - 1]];
    InStringAfterConcat(true, b, [lit[|lit| - 1]]);
    MarksConcat(b, [lit[|lit| - 1]], true);
  }

  /** `'it''s a user'` is a complete single-quoted literal with one `''` escape. */
  lemma LiteralShape(t: string)
    requires t == "'it''s a user'"
    ensures QuotedLiteral(t) && t[0] == '\'' && LacksG(t)
  {
    var it, pair, rest := t[1..3], t[3..5], t[5..13];
    assert t[1..|t| - 1] == it + (pair + rest);
    UnquotedBody(rest);
    EscapedPair(pair, rest);
    EscapedAfter(it, pair + rest);
  }

  lemma Literal(t: string)
    requires t == "'it''s a user'"
    ensures QuoteUserFrom(t, Outside) == t && StateAfter(Outside, t) == Outside
    ensures t != [] && !IsIdentifierChar(t[0]) && !IsIdentifierChar(t[|t| - 1])
    ensures LacksG(t) && Settled(t)
  {
    LiteralShape(t);
    QuotedLiteralCopied(t);
    SingleQuotedSettled(t);
  }

  lemma Word(w: string)
    requires w == "SELECT" || w == "FROM" || w == "WHERE" || w == "AS" || w == "note"
    ensures QuoteUserFrom(w, Outside) == w && StateAfter(Outside, w) == Outside && w != []
    ensures LacksG(w) && Settled(w)
  {
    PlainWord(w);
  }

  lemma Spacing(t: string)
    requires t == " " || t == " * " || t == " = "
    ensures QuoteUserFrom(t, Outside) == t && StateAfter(Outside, t) == Outside
    ensures t != [] && !IsIdentifierChar(t[0]) && !IsIdentifierChar(t[|t| - 1])
    ensures LacksG(t) && Settled(t)
  {
    Punctuation(t);
  }

  lemma UserPiece(w: string)
    requires w == "user"
    ensures QuoteUserFrom(w, Outside) == QuotedUser && StateAfter(Outside, w) == Outside && w != []
    ensures LacksG(QuotedUser) && Settled(QuotedUser)
  {
    WordLengthAll(w);
    assert w[..|w|] == w && w[|w|..] == [];
    StateAfterIdentifiers(Outside, w);
    InertText(QuotedUser, false);
  }

  lemma MarkPiece()
    ensures QuoteUserFrom("?", Outside) == "?" && StateAfter(Outside, "?") == Outside
  {
  }

  // ---------------------------------------------------------------------
  // SELECT * FROM user WHERE user = ?

  lemma SelectUserQuoted(select: string, from: string, where: string, user: string)
    requires select == "SELECT" && from == "FROM" && where == "WHERE" && user == "user"
    ensures UserQuoted(select + " * " + from + " " + user + " " + where + " " + user + " = " + "?")
         == select + " * " + from + " " + QuotedUser + " " + where + " " + QuotedUser + " = " + "?"
  {
    Word(select); Word(from); Word(where); UserPiece(user);
    Spacing(" * "); Spacing(" "); Spacing(" = "); MarkPiece();
    QuoteUserConcat(select, " * ", Outside);
    StateAfterConcat(Outside, select, " * ");
    Extend(select, " * ", from);
    Extend(select + " * ", from, " ");
    Extend(select + " * " + from, " ", user);
    Extend(select + " * " + from + " ", user, " ");
    Extend(select + " * " + from + " " + user, " ", where);
    Extend(select + " * " + from + " " + user + " ", where, " ");
    Extend(select + " * " + from + " " + user + " " + where, " ", user);
    Extend(select + " * " + from + " " + user + " " + where + " ", user, " = ");
    Extend(select + " * " + from + " " + user + " " + where + " " + user, " = ", "?");
  }

  lemma SelectUserSettled(select: string, from: string, where: string)
    requires select == "SELECT" && from == "FROM" && where == "WHERE"
    ensures var x := select + " * " + from + " " + QuotedUser + " " + where + " " + QuotedUser + " = ";
            LacksG(x) && Settled(x)
  {
    Word(select); Word(from); Word(where); UserPiece("user");
    Spacing(" * "); Spacing(" "); Spacing(" = ");
    Grow(select, " * ");
    Grow(select + " * ", from);
    Grow(select + " * " + from, " ");
    Grow(select + " * " + from + " ", QuotedUser);
    Grow(select + " * " + from + " " + QuotedUser, " ");
    Grow(select + " * " + from + " " + QuotedUser + " ", where);
    Grow(select + " * " + from + " " + QuotedUser + " " + where, " ");
    Grow(select + " * " + from + " " + QuotedUser + " " + where + " ", QuotedUser);
    Grow(select + " * " + from + " " + QuotedUser + " " + where + " " + QuotedUser, " = ");
  }

  /** The first query: both `user` tokens are quoted and the placeholder becomes `$1`. */
  lemma SelectUserRewritten(select: string, from: string, where: string, user: string)
    requires select == "SELECT" && from == "FROM" && where == "WHERE" && user == "user"
    ensures RewriteQuery(Postgres, select + " * " + from + " " + user + " " + where + " " + user + " = ?")
         == select + " * " + from + " " + QuotedUser + " " + where + " " + QuotedUser + " = $1"
  {
    var q := select + " * " + from + " " + user + " " + where + " " + user + " = ";
    var x := select + " * " + from + " " + QuotedUser + " " + where + " " + QuotedUser + " = ";
    SelectUserQuoted(select, from, where, user);
    SelectUserSettled(select, from, where);
    LastPlaceholder(x);
    assert q + "?" == select + " * " + from + " " + user + " " + where + " " + user + " = ?";
    assert x + "$1" == select + " * " + from + " " + QuotedUser + " " + where + " " + QuotedUser + " = $1";
  }

  // ---------------------------------------------------------------------
  // SELECT 'it''s a user' AS note WHERE user = ?

  lemma LiteralUserQuoted(select: string, lit: string, alias: string, note: string, where: string, user: string)
    requires select == "SELECT" && lit == "'it''s a user'" && alias == "AS" && note == "note"
    requires where == "WHERE" && user == "user"
    ensures UserQuoted(select + " " + lit + " " + alias + " " + note + " " + where + " " + user + " = " + "?")
         == select + " " + lit + " " + alias + " " + note + " " + where + " " + QuotedUser + " = " + "?"
  {
    Word(select); Literal(lit); Word(alias); Word(note); Word(where); UserPiece(user);
    Spacing(" "); Spacing(" = "); MarkPiece();
    QuoteUserConcat(select, " ", Outside);
    StateAfterConcat(Outside, select, " ");
    Extend(select, " ", lit);
    Extend(select + " ", lit, " ");
    Extend(select + " " + lit, " ", alias);
    Extend(select + " " + lit + " ", alias, " ");
    Extend(select + " " + lit + " " + alias, " ", note);
    Extend(select + " " + lit + " " + alias + " ", note, " ");
    Extend(select + " " + lit + " " + alias + " " + note, " ", where);
    Extend(select + " " + lit + " " + alias + " " + note + " ", where, " ");
    Extend(select + " " + lit + " " + alias + " " + note + " " + where, " ", user);
    Extend(select + " " + lit + " " + alias + " " + note + " " + where + " ", user, " = ");
    Extend(select + " " + lit + " " + alias + " " + note + " " + where + " " + user, " = ", "?");
  }

  lemma LiteralUserSettled(select: string, lit: string, alias: string, note: string, where: string)
    requires select == "SELECT" && lit == "'it''s a user'" && alias == "AS" && note == "note"
    requires where == "WHERE"
    ensures var x := select + " " + lit + " " + alias + " " + note + " " + where + " " + QuotedUser + " = ";
            LacksG(x) && Settled(x)
  {
    Word(select); Literal(lit); Word(alias); Word(note); Word(where); UserPiece("user");
    Spacing(" "); Spacing(" = ");
    Grow(select, " ");
    Grow(select + " ", lit);
    Grow(select + " " + lit, " ");
    Grow(select + " " + lit + " ", alias);
    Grow(select + " " + lit + " " + alias, " ");
    Grow(select + " " + lit + " " + alias + " ", note);
    Grow(select + " " + lit + " " + alias + " " + note, " ");
    Grow(select + " " + lit + " " + alias + " " + note + " ", where);
    Grow(select + " " + lit + " " + alias + " " + note + " " + where, " ");
    Grow(select + " " + lit + " " + alias + " " + note + " " + where + " ", QuotedUser);
    Grow(select + " " + lit + " " + alias + " " + note + " " + where + " " + QuotedUser, " = ");
  }

  /**
   * The second query: the `user` inside the string literal is
   * kept, along with its `''` escape; the `user` token after it is quoted
   * and the placeholder becomes `$1`.
   */
  lemma LiteralUserRewritten(select: string, lit: string, alias: string, note: string, where: string, user: string)
    requires select == "SELECT" && lit == "'it''s a user'" && alias == "AS" && note == "note"
    requires where == "WHERE" && user == "user"
    ensures RewriteQuery(Postgres, select + " " + lit + " " + alias + " " + note + " " + where + " " + user + " = ?")
         == select + " " + lit + " " + alias + " " + note + " " + where + " " + QuotedUser + " = $1"
  {
    var q := select + " " + lit + " " + alias + " " + note + " " + where + " " + user + " = ";
    var x := select + " " + lit + " " + alias + " " + note + " " + where + " " + QuotedUser + " = ";
    LiteralUserQuoted(select, lit, alias, note, where, user);
    LiteralUserSettled(select, lit, alias, note, where);
    LastPlaceholder(x);
    assert q + "?" == select + " " + lit + " " + alias + " " + note + " " + where + " " + user + " = ?";
    assert x + "$1" == select + " " + lit + " " + alias + " " + note + " " + where + " " + QuotedUser + " = $1";
  }
}
