/**
 * Pass 1 of the PostgreSQL rewrite: quoting the reserved identifier `user`.
 *
 * The reference below reads the query one character at a time through a
 * three-state automaton (outside, inside '...', inside "..."); outside both
 * literals, a maximal run of identifier characters is one token, and a token
 * that spells `user` in any case is emitted as `"user"`. In the reference
 * every quote character simply switches the state; the source's extra rule
 * for a doubled `''` inside a single-quoted literal is proved by the method
 * `RewriteUserIdentifier` to produce the same text.
 */
module UserIdentifier {
  import opened SqlText

  datatype QuoteState = Outside | InSingle | InDouble

  /** The state after reading one character. */
  function Step(st: QuoteState, c: char): QuoteState
  {
    match st
    case Outside => if c == '\'' then InSingle else if c == '"' then InDouble else Outside
    case InSingle => if c == '\'' then Outside else InSingle
    case InDouble => if c == '"' then Outside else InDouble
  }

  /** The state after reading `s`, starting in `st`. */
  function StateAfter(st: QuoteState, s: string): QuoteState
    decreases |s|
  {
    if s == [] then st else StateAfter(Step(st, s[0]), s[1..])
  }

  /** The length of the maximal run of identifier characters that starts `s`. */
  function WordLength(s: string): (n: nat)
    ensures n <= |s|
    decreases |s|
  {
    if s == [] || !IsIdentifierChar(s[0]) then 0 else 1 + WordLength(s[1..])
  }

  /** The token is the maximal run: identifier characters up to a non-identifier or the end. */
  lemma {:induction false} WordLengthMaximal(s: string)
    ensures forall k :: 0 <= k < WordLength(s) ==> IsIdentifierChar(s[k])
    ensures WordLength(s) < |s| ==> !IsIdentifierChar(s[WordLength(s)])
    decreases |s|
  {
    if s != [] && IsIdentifierChar(s[0]) {
      WordLengthMaximal(s[1..]);
      forall k | 1 <= k < WordLength(s) ensures IsIdentifierChar(s[k]) {
        assert s[k] == s[1..][k - 1];
      }
    }
  }

  /** Appending text across a token boundary does not lengthen the leading token. */
  lemma {:induction false} WordLengthConcat(x: string, y: string)
    requires x != [] && Boundary(x, y)
    ensures WordLength(x + y) == WordLength(x)
    decreases |x|
  {
    if y == [] {
      assert x + y == x;
    } else if IsIdentifierChar(x[0]) {
      assert (x + y)[1..] == x[1..] + y;
      if x[1..] == [] {
        assert x[1..] + y == y;
      } else {
        assert x[1..][|x[1..]| - 1] == x[|x| - 1];
        WordLengthConcat(x[1..], y);
      }
    }
  }

  /** A run made only of identifier characters is one whole token. */
  lemma {:induction false} WordLengthAll(w: string)
    requires forall k :: 0 <= k < |w| ==> IsIdentifierChar(w[k])
    ensures WordLength(w) == |w|
    decreases |w|
  {
    if w != [] {
      assert forall k :: 0 <= k < |w[1..]| ==> w[1..][k] == w[k + 1];
      WordLengthAll(w[1..]);
    }
  }

  const QuotedUser: string := "\"user\""

  /** `strings.EqualFold(tok, "user")` */
  predicate IsUserWord(w: string)
  {
    EqualFold(w, "user")
  }

  /** The text a token outside literals is emitted as. */
  function TokenText(w: string): string
  {
    if IsUserWord(w) then QuotedUser else w
  }

  /** Pass 1 read from state `st`. */
  function QuoteUserFrom(q: string, st: QuoteState): string
    decreases |q|
  {
    if q == [] then []
    else if st == Outside && IsIdentifierChar(q[0]) then
      var n := WordLength(q);
      TokenText(q[..n]) + QuoteUserFrom(q[n..], Outside)
    else [q[0]] + QuoteUserFrom(q[1..], Step(st, q[0]))
  }

  /** Pass 1 on a whole query. */
  function UserQuoted(q: string): string
  {
    QuoteUserFrom(q, Outside)
  }

  /** `x` and `y` can be joined without two identifier runs merging. */
  predicate Boundary(x: string, y: string)
  {
    x == [] || y == [] || !IsIdentifierChar(x[|x| - 1]) || !IsIdentifierChar(y[0])
  }

  /**
   * A user token of `q` read from `st`: the maximal identifier run `q[a..b]`
   * starts outside every literal and spells `user`.
   */
  ghost predicate UserTokenFrom(q: string, st: QuoteState, a: nat, b: nat)
  {
    a < b <= |q|
    && StateAfter(st, q[..a]) == Outside
    && (a == 0 || !IsIdentifierChar(q[a - 1]))
    && WordLength(q[a..]) == b - a
    && IsUserWord(q[a..b])
  }

  ghost predicate UserTokenAt(q: string, a: nat, b: nat)
  {
    UserTokenFrom(q, Outside, a, b)
  }

  // ---------------------------------------------------------------------
  // The loop of the source, proved against the reference.

  function StateOf(inSingle: bool, inDouble: bool): QuoteState
  {
    if inSingle then InSingle else if inDouble then InDouble else Outside
  }

  /** `rewriteUserIdentifier` */
  method RewriteUserIdentifier(query: string) returns (out: string)
    ensures out == UserQuoted(query)
  {
    out := [];
    var inSingle, inDouble := false, false;
    var i := 0;
    while i < |query|
      invariant 0 <= i <= |query|
      invariant !(inSingle && inDouble)
      invariant out + QuoteUserFrom(query[i..], StateOf(inSingle, inDouble)) == UserQuoted(query)
      decreases |query| - i
    {
      var ch := query[i];
      if ch == '\'' && !inDouble && inSingle && i + 1 < |query| && query[i + 1] == '\'' {
        // a doubled quote inside a single-quoted literal
        UnfoldEscape(query, i, out);
        out := out + [ch] + [query[i + 1]];
        i := i + 2;
      } else if (ch == '\'' && !inDouble) || (ch == '"' && !inSingle) || inSingle || inDouble {
        // a quote that opens or closes a literal, or a character inside one
        ghost var st := StateOf(inSingle, inDouble);
        UnfoldChar(query, i, st, out);
        if ch == '\'' && !inDouble {
          inSingle := !inSingle;
        } else if ch == '"' && !inSingle {
          inDouble := !inDouble;
        }
        assert StateOf(inSingle, inDouble) == Step(st, ch);
        out := out + [ch];
        i := i + 1;
      } else if IsIdentifierChar(ch) {
        var j := ScanIdentifier(query, i);
        var tok := query[i..j];
        UnfoldWord(query, i, j, out);
        if IsUserWord(tok) {
          out := out + QuotedUser;
        } else {
          out := out + tok;
        }
        i := j;
      } else {
        UnfoldChar(query, i, Outside, out);
        out := out + [ch];
        i := i + 1;
      }
    }
  }

  /** The inner loop of `rewriteUserIdentifier`: the end of the token that starts at `i`. */
  method ScanIdentifier(query: string, i: nat) returns (j: nat)
    requires i < |query| && IsIdentifierChar(query[i])
    ensures j == i + WordLength(query[i..])
  {
    j := i + 1;
    while j < |query| && IsIdentifierChar(query[j])
      invariant i < j <= |query|
      invariant forall k :: i <= k < j ==> IsIdentifierChar(query[k])
      decreases |query| - j
    {
      j := j + 1;
    }
    WordLengthIs(query[i..], j - i);
  }

  /** One character that is not the start of a token outside literals. */
  lemma UnfoldChar(q: string, i: nat, st: QuoteState, acc: string)
    requires i < |q|
    requires !(st == Outside && IsIdentifierChar(q[i]))
    ensures acc + QuoteUserFrom(q[i..], st) == (acc + [q[i]]) + QuoteUserFrom(q[i + 1..], Step(st, q[i]))
  {
    assert q[i..][1..] == q[i + 1..];
  }

  /** A doubled quote inside a single-quoted literal is copied as a pair. */
  lemma UnfoldEscape(q: string, i: nat, acc: string)
    requires i + 1 < |q| && q[i] == '\'' && q[i + 1] == '\''
    ensures acc + QuoteUserFrom(q[i..], InSingle)
         == (acc + [q[i]] + [q[i + 1]]) + QuoteUserFrom(q[i + 2..], InSingle)
  {
    UnfoldChar(q, i, InSingle, acc);
    UnfoldChar(q, i + 1, Outside, acc + [q[i]]);
  }

  /** A token outside literals is the maximal run `q[i..j]`. */
  lemma UnfoldWord(q: string, i: nat, j: nat, acc: string)
    requires i < |q| && IsIdentifierChar(q[i])
    requires j == i + WordLength(q[i..])
    ensures acc + QuoteUserFrom(q[i..], Outside)
         == (acc + TokenText(q[i..j])) + QuoteUserFrom(q[j..], Outside)
  {
    var s := q[i..];
    assert s[..j - i] == q[i..j] && s[j - i..] == q[j..];
  }

  /** A run of `n` identifier characters followed by a non-identifier is the word. */
  lemma WordLengthIs(s: string, n: nat)
    requires n <= |s|
    requires forall k :: 0 <= k < n ==> IsIdentifierChar(s[k])
    requires n < |s| ==> !IsIdentifierChar(s[n])
    ensures WordLength(s) == n
  {
    WordLengthMaximal(s);
  }

  // ---------------------------------------------------------------------
  // Properties of the reference.

  lemma {:induction false} StateAfterConcat(st: QuoteState, x: string, y: string)
    ensures StateAfter(st, x + y) == StateAfter(StateAfter(st, x), y)
    decreases |x|
  {
    if x == [] {
      assert x + y == y;
    } else {
      assert (x + y)[1..] == x[1..] + y;
      StateAfterConcat(Step(st, x[0]), x[1..], y);
    }
  }

  /** Identifier characters never change the quote state. */
  lemma {:induction false} StateAfterIdentifiers(st: QuoteState, w: string)
    requires forall k :: 0 <= k < |w| ==> IsIdentifierChar(w[k])
    ensures StateAfter(st, w) == st
    decreases |w|
  {
    if w != [] {
      StateAfterIdentifiers(st, w[1..]);
    }
  }

  /**
   * Pass 1 distributes over a concatenation whose seam does not split an
   * identifier run: the second part is read from the state the first part
   * leaves.
   */
  lemma {:induction false} QuoteUserConcat(x: string, y: string, st: QuoteState)
    requires Boundary(x, y)
    ensures QuoteUserFrom(x + y, st) == QuoteUserFrom(x, st) + QuoteUserFrom(y, StateAfter(st, x))
    decreases |x|
  {
    if x == [] {
      assert x + y == y;
    } else if y == [] {
      assert x + y == x;
    } else if st == Outside && IsIdentifierChar(x[0]) {
      QuoteUserConcatWord(x, y);
    } else {
      assert (x + y)[1..] == x[1..] + y;
      QuoteUserConcat(x[1..], y, Step(st, x[0]));
    }
  }

  /** The case of `QuoteUserConcat` where `x` starts with a token outside literals. */
  lemma {:induction false} QuoteUserConcatWord(x: string, y: string)
    requires Boundary(x, y) && x != [] && y != []
    requires IsIdentifierChar(x[0])
    ensures QuoteUserFrom(x + y, Outside) == QuoteUserFrom(x, Outside) + QuoteUserFrom(y, StateAfter(Outside, x))
    decreases |x|, 0
  {
    var n := WordLength(x);
    var xs := x[n..];
    var t, a, b := TokenText(x[..n]), QuoteUserFrom(xs, Outside), QuoteUserFrom(y, StateAfter(Outside, xs));
    assert t + (a + b) == (t + a) + b;
    UnfoldLeadingWord(x, y);
    LeadingWordState(x);
    assert |xs| < |x|;
    QuoteUserConcat(xs, y, Outside);
  }

  /** Reading `x + y` from outside, where `x` starts with a token that ends inside `x`. */
  lemma UnfoldLeadingWord(x: string, y: string)
    requires Boundary(x, y) && x != [] && y != []
    requires IsIdentifierChar(x[0])
    ensures var n := WordLength(x);
      QuoteUserFrom(x + y, Outside) == TokenText(x[..n]) + QuoteUserFrom(x[n..] + y, Outside)
      && QuoteUserFrom(x, Outside) == TokenText(x[..n]) + QuoteUserFrom(x[n..], Outside)
      && Boundary(x[n..], y)
  {
    var n := WordLength(x);
    var xy := x + y;
    WordLengthConcat(x, y);
    assert xy[..n] == x[..n];
    assert xy[n..] == x[n..] + y;
    assert x[n..] != [] ==> x[n..][|x[n..]| - 1] == x[|x| - 1];
  }

  /** The leading token of `x`, read from outside, leaves the state outside. */
  lemma LeadingWordState(x: string)
    ensures StateAfter(Outside, x) == StateAfter(Outside, x[WordLength(x)..])
  {
    var n := WordLength(x);
    var w := x[..n];
    assert x == w + x[n..];
    WordLengthMaximal(x);
    assert forall k :: 0 <= k < |w| ==> w[k] == x[k];
    StateAfterConcat(Outside, w, x[n..]);
    StateAfterIdentifiers(Outside, w);
  }

  /** A single-quoted body: no quote except inside `''` pairs. */
  predicate EscapedBody(b: string)
    decreases |b|
  {
    b == []
    || (b[0] != '\'' && EscapedBody(b[1..]))
    || (|b| >= 2 && b[0] == '\'' && b[1] == '\'' && EscapedBody(b[2..]))
  }

  /** A complete SQL string literal `'...'` (with `''` escapes) or a quoted identifier `"..."`. */
  predicate QuotedLiteral(lit: string)
  {
    |lit| >= 2
    && ((lit[0] == '\'' && lit[|lit| - 1] == '\'' && EscapedBody(lit[1..|lit| - 1]))
        || (lit[0] == '"' && lit[|lit| - 1] == '"' && '"' !in lit[1..|lit| - 1]))
  }

  lemma {:induction false} EscapedBodyCopied(b: string)
    requires EscapedBody(b)
    ensures QuoteUserFrom(b, InSingle) == b && StateAfter(InSingle, b) == InSingle
    decreases |b|
  {
    if b == [] {
    } else if b[0] != '\'' && EscapedBody(b[1..]) {
      EscapedBodyCopied(b[1..]);
    } else {
      var t := b[1..];
      assert t[1..] == b[2..];
      EscapedBodyCopied(b[2..]);
      assert QuoteUserFrom(t, Outside) == [t[0]] + QuoteUserFrom(b[2..], InSingle);
    }
  }

  lemma {:induction false} DoubleBodyCopied(b: string)
    requires '"' !in b
    ensures QuoteUserFrom(b, InDouble) == b && StateAfter(InDouble, b) == InDouble
    decreases |b|
  {
    if b != [] {
      assert '"' !in b[1..] by {
        forall k | 0 <= k < |b[1..]| ensures b[1..][k] != '"' { assert b[1..][k] == b[k + 1]; }
      }
      DoubleBodyCopied(b[1..]);
    }
  }

  /** A literal read from outside is copied verbatim and ends outside again. */
  lemma QuotedLiteralCopied(lit: string)
    requires QuotedLiteral(lit)
    ensures QuoteUserFrom(lit, Outside) == lit && StateAfter(Outside, lit) == Outside
  {
    var b := lit[1..|lit| - 1];
    var close := [lit[|lit| - 1]];
    assert lit[1..] == b + close;
    var inner := if lit[0] == '\'' then InSingle else InDouble;
    if lit[0] == '\'' {
      EscapedBodyCopied(b);
    } else {
      DoubleBodyCopied(b);
    }
    QuoteUserConcat(b, close, inner);
    StateAfterConcat(inner, b, close);
  }

  /**
   * Literal opacity: a string literal or quoted identifier that starts
   * outside every literal is copied character for character, `''` escapes,
   * a `"` inside '...' and a `'` inside "..." included, and the text after it
   * is read from outside.
   */
  lemma LiteralCopied(p: string, lit: string, r: string)
    requires StateAfter(Outside, p) == Outside
    requires QuotedLiteral(lit)
    ensures UserQuoted(p + lit + r) == UserQuoted(p) + lit + QuoteUserFrom(r, Outside)
  {
    assert p + lit + r == p + (lit + r);
    QuoteUserConcat(p, lit + r, Outside);
    QuoteUserConcat(lit, r, Outside);
    QuotedLiteralCopied(lit);
  }

  /**
   * Token boundaries: a maximal identifier run `w` outside every literal
   * becomes exactly `"user"` when it spells `user` in any case and is copied
   * unchanged otherwise (`username`, `user_id`, `users`).
   */
  lemma WordRewritten(p: string, w: string, r: string)
    requires StateAfter(Outside, p) == Outside
    requires w != [] && forall k :: 0 <= k < |w| ==> IsIdentifierChar(w[k])
    requires p == [] || !IsIdentifierChar(p[|p| - 1])
    requires r == [] || !IsIdentifierChar(r[0])
    ensures UserQuoted(p + w + r) == UserQuoted(p) + TokenText(w) + QuoteUserFrom(r, Outside)
  {
    assert p + w + r == p + (w + r);
    QuoteUserConcat(p, w + r, Outside);
    var wr := w + r;
    WordLengthAll(w);
    WordLengthConcat(w, r);
    assert wr[..|w|] == w && wr[|w|..] == r;
    assert QuoteUserFrom(wr, Outside) == TokenText(w) + QuoteUserFrom(r, Outside);
  }

  /** A token of the suffix `q[k..]` is a token of `q`, `k` characters further on. */
  lemma TokenShift(q: string, st: QuoteState, k: nat, a: nat, b: nat)
    requires k <= |q|
    requires UserTokenFrom(q[k..], StateAfter(st, q[..k]), a, b)
    requires a > 0 || k == 0 || !IsIdentifierChar(q[k - 1])
    ensures UserTokenFrom(q, st, k + a, k + b)
  {
    var s := q[k..];
    assert q[..k + a] == q[..k] + s[..a];
    StateAfterConcat(st, q[..k], s[..a]);
    assert q[k + a..] == s[a..];
    assert q[k + a..k + b] == s[a..b];
    if a > 0 {
      assert q[k + a - 1] == s[a - 1];
    }
  }

  /** A token of `q` at or after `k` is a token of the suffix `q[k..]`. */
  lemma TokenUnshift(q: string, st: QuoteState, k: nat, a: nat, b: nat)
    requires k <= a
    requires UserTokenFrom(q, st, a, b)
    ensures UserTokenFrom(q[k..], StateAfter(st, q[..k]), a - k, b - k)
  {
    var s := q[k..];
    assert q[..a] == q[..k] + s[..a - k];
    StateAfterConcat(st, q[..k], s[..a - k]);
    assert q[a..] == s[a - k..];
    assert q[a..b] == s[a - k..b - k];
    if a > k {
      assert q[a - 1] == s[a - k - 1];
    }
  }

  /** With no user token to quote, pass 1 copies its input. */
  lemma {:induction false} NoTokenIdentity(q: string, st: QuoteState)
    requires forall a: nat, b: nat :: !UserTokenFrom(q, st, a, b)
    ensures QuoteUserFrom(q, st) == q
    decreases |q|, 1
  {
    if q == [] {
    } else if st == Outside && IsIdentifierChar(q[0]) {
      NoTokenIdentityWord(q);
    } else {
      forall a: nat, b: nat ensures !UserTokenFrom(q[1..], Step(st, q[0]), a, b) {
        if UserTokenFrom(q[1..], Step(st, q[0]), a, b) {
          assert q[..1] == [q[0]] && q[..1][1..] == [];
          TokenShift(q, st, 1, a, b);
          assert false;
        }
      }
      NoTokenIdentity(q[1..], Step(st, q[0]));
    }
  }

  /** `NoTokenIdentity` when the text starts with a word outside the literals. */
  lemma {:induction false} NoTokenIdentityWord(q: string)
    requires q != [] && IsIdentifierChar(q[0])
    requires forall a: nat, b: nat :: !UserTokenFrom(q, Outside, a, b)
    ensures QuoteUserFrom(q, Outside) == q
    decreases |q|, 0
  {
    var n := WordLength(q);
    var w := q[..n];
    WordLengthMaximal(q);
    assert q[0..] == q && q[..0] == [] && q[0..n] == w;
    assert !UserTokenFrom(q, Outside, 0, n);
    assert !IsUserWord(w);
    assert StateAfter(Outside, w) == Outside by {
      assert forall k :: 0 <= k < |w| ==> w[k] == q[k];
      StateAfterIdentifiers(Outside, w);
    }
    forall a: nat, b: nat ensures !UserTokenFrom(q[n..], Outside, a, b) {
      if UserTokenFrom(q[n..], Outside, a, b) {
        TokenShift(q, Outside, n, a, b);
        assert false;
      }
    }
    NoTokenIdentity(q[n..], Outside);
    assert q == w + q[n..];
  }

  /** Pass 1 never shortens the text. */
  lemma {:induction false} QuoteUserLength(q: string, st: QuoteState)
    ensures |QuoteUserFrom(q, st)| >= |q|
    decreases |q|
  {
    if q == [] {
    } else if st == Outside && IsIdentifierChar(q[0]) {
      var n := WordLength(q);
      QuoteUserLength(q[n..], Outside);
    } else {
      QuoteUserLength(q[1..], Step(st, q[0]));
    }
  }

  /** Each user token grows the text by the two quotes it gains. */
  lemma {:induction false} TokenGrows(q: string, st: QuoteState, a: nat, b: nat)
    requires UserTokenFrom(q, st, a, b)
    ensures |QuoteUserFrom(q, st)| > |q|
    decreases |q|, 1
  {
    if st == Outside && IsIdentifierChar(q[0]) {
      TokenGrowsWord(q, a, b);
    } else {
      if a == 0 {
        assert false;
      }
      assert q[..1] == [q[0]] && q[..1][1..] == [];
      assert StateAfter(st, q[..1]) == Step(st, q[0]);
      TokenUnshift(q, st, 1, a, b);
      TokenGrows(q[1..], Step(st, q[0]), a - 1, b - 1);
    }
  }

  /** `TokenGrows` when the text starts with a word outside the literals. */
  lemma {:induction false} TokenGrowsWord(q: string, a: nat, b: nat)
    requires UserTokenFrom(q, Outside, a, b)
    requires IsIdentifierChar(q[0])
    ensures |QuoteUserFrom(q, Outside)| > |q|
    decreases |q|, 0
  {
    var n := WordLength(q);
    var w := q[..n];
    QuoteUserLength(q[n..], Outside);
    WordLengthMaximal(q);
    if a == 0 {
      assert q[0..] == q && w == q[a..b];
      assert |w| == 4;
    } else {
      if a < n {
        assert false;
      }
      assert StateAfter(Outside, w) == Outside by {
        assert forall k :: 0 <= k < |w| ==> w[k] == q[k];
        StateAfterIdentifiers(Outside, w);
      }
      TokenUnshift(q, Outside, n, a, b);
      TokenGrows(q[n..], Outside, a - n, b - n);
    }
  }

  /**
   * Pass 1 leaves a query unchanged exactly when no token outside the
   * literals spells `user`.
   */
  lemma UserQuotedUnchanged(q: string)
    ensures UserQuoted(q) == q <==> forall a: nat, b: nat :: !UserTokenAt(q, a, b)
  {
    if forall a: nat, b: nat :: !UserTokenAt(q, a, b) {
      forall a: nat, b: nat ensures !UserTokenFrom(q, Outside, a, b) {
        assert !UserTokenAt(q, a, b);
      }
      NoTokenIdentity(q, Outside);
    } else {
      var a: nat, b: nat :| UserTokenAt(q, a, b);
      TokenGrows(q, Outside, a, b);
    }
  }

  /** Token boundaries on small inputs: `user` in any case is quoted, longer runs are not. */
  lemma UserExample()
    ensures UserQuoted("UsEr") == "\"user\""
  {
    WordExample("UsEr");
    EqualFoldUpper("UsEr", "user");
    assert ToUpper("UsEr") == "USER";
  }

  lemma UsernameExample()
    ensures UserQuoted("username") == "username"
  {
    WordExample("username");
  }

  lemma UserIdExample()
    ensures UserQuoted("user_id") == "user_id"
  {
    WordExample("user_id");
  }

  lemma WordExample(w: string)
    requires w != [] && forall k :: 0 <= k < |w| ==> IsIdentifierChar(w[k])
    ensures UserQuoted(w) == TokenText(w)
  {
    WordRewritten([], w, []);
    assert [] + w + [] == w;
    assert UserQuoted([]) == [] && QuoteUserFrom([], Outside) == [];
  }

  /** The word inside a string literal is not touched. */
  lemma LiteralExample()
    ensures UserQuoted("'user'") == "'user'"
  {
    assert EscapedBody("user") by {
      assert "user"[1..] == "ser" && "ser"[1..] == "er" && "er"[1..] == "r" && "r"[1..] == [];
    }
    assert "'user'"[1..|"'user'"| - 1] == "user";
    QuotedLiteralCopied("'user'");
  }
}
