/**
 * Pass 3 of the PostgreSQL rewrite: numbering the `?` placeholders.
 *
 * Only single-quoted literals are tracked here: every `'` switches between
 * outside and inside a literal, and a `?` read outside one is replaced by
 * `$n`, where `n` counts the placeholders from 1. Double quotes are ordinary
 * characters to this pass, so a `?` between `"` characters is numbered too.
 * The source's extra rule for a doubled `''` inside a literal is proved by
 * `RewritePlaceholders` to produce the same text as this reference.
 */
module Placeholders {
  import opened SqlText

  /** Whether a literal is open after reading `c`, given whether one was open before. */
  function Flip(inString: bool, c: char): bool
  {
    if c == '\'' then !inString else inString
  }

  /** Whether a literal is open after reading `s`. */
  function InStringAfter(inString: bool, s: string): bool
    decreases |s|
  {
    if s == [] then inString else InStringAfter(Flip(inString, s[0]), s[1..])
  }

  /** Whether `c`, read with `inString` as the literal state, is a placeholder. */
  predicate IsMark(inString: bool, c: char)
  {
    c == '?' && !inString
  }

  /** The number of placeholders in `s`: `?` characters read outside a literal. */
  function MarksFrom(s: string, inString: bool): nat
    decreases |s|
  {
    if s == [] then 0
    else (if IsMark(inString, s[0]) then 1 else 0) + MarksFrom(s[1..], Flip(inString, s[0]))
  }

  function Marks(q: string): nat
  {
    MarksFrom(q, false)
  }

  /** The text of the `n`-th parameter reference: `$` and the digits of `n`, which read back as `n`. */
  function Parameter(n: nat): (r: string)
    ensures |r| >= 2 && r[0] == '$'
    ensures forall k :: 1 <= k < |r| ==> IsDigit(r[k])
    ensures DecimalValue(r[1..]) == n
  {
    DecimalRoundTrip(n);
    assert ("$" + Decimal(n))[1..] == Decimal(n);
    "$" + Decimal(n)
  }

  /**
   * The reference: `s` read from literal state `inString`, with its
   * placeholders numbered from `n` on.
   */
  function NumberFrom(s: string, inString: bool, n: nat): string
    decreases |s|
  {
    if s == [] then []
    else if IsMark(inString, s[0]) then Parameter(n) + NumberFrom(s[1..], inString, n + 1)
    else [s[0]] + NumberFrom(s[1..], Flip(inString, s[0]), n)
  }

  /** The whole pass: placeholders numbered from 1, outside any literal. */
  function Numbered(q: string): string
  {
    NumberFrom(q, false, 1)
  }

  /**
   * The loop of `rewritePlaceholders`. Go's `for` loop, whose body can
   * advance `i` a second time, is the `while` loop below.
   */
  method RewritePlaceholders(query: string) returns (out: string)
    ensures out == Numbered(query)
  {
    out := [];
    var n: nat := 1;
    var inString := false;
    var i := 0;
    while i < |query|
      invariant 0 <= i <= |query|
      invariant out + NumberFrom(query[i..], inString, n) == Numbered(query)
      decreases |query| - i
    {
      var ch := query[i];
      if ch == '\'' && inString && i + 1 < |query| && query[i + 1] == '\'' {
        // a doubled quote inside a literal
        UnfoldEscape(query, i, n, out);
        out := out + [ch] + [query[i + 1]];
        i := i + 2;
      } else if ch == '?' && !inString {
        UnfoldMark(query, i, n, out);
        out := out + Parameter(n);
        n := n + 1;
        i := i + 1;
      } else {
        UnfoldChar(query, i, inString, n, out);
        if ch == '\'' {
          inString := !inString;
        }
        out := out + [ch];
        i := i + 1;
      }
    }
  }

  /** A character that is not a placeholder is copied. */
  lemma UnfoldChar(q: string, i: nat, inString: bool, n: nat, acc: string)
    requires i < |q| && !IsMark(inString, q[i])
    ensures acc + NumberFrom(q[i..], inString, n)
         == (acc + [q[i]]) + NumberFrom(q[i + 1..], Flip(inString, q[i]), n)
  {
    assert q[i..][1..] == q[i + 1..];
  }

  /** A placeholder becomes the next parameter reference. */
  lemma UnfoldMark(q: string, i: nat, n: nat, acc: string)
    requires i < |q| && q[i] == '?'
    ensures acc + NumberFrom(q[i..], false, n)
         == (acc + Parameter(n)) + NumberFrom(q[i + 1..], false, n + 1)
  {
    assert q[i..][1..] == q[i + 1..];
  }

  /** A doubled quote inside a literal is copied as a pair, and the literal stays open. */
  lemma UnfoldEscape(q: string, i: nat, n: nat, acc: string)
    requires i + 1 < |q| && q[i] == '\'' && q[i + 1] == '\''
    ensures acc + NumberFrom(q[i..], true, n)
         == (acc + [q[i]] + [q[i + 1]]) + NumberFrom(q[i + 2..], true, n)
  {
    UnfoldChar(q, i, true, n, acc);
    UnfoldChar(q, i + 1, false, n, acc + [q[i]]);
  }

  // ---------------------------------------------------------------------
  // Properties of the reference.

  lemma {:induction false} InStringAfterConcat(b: bool, x: string, y: string)
    ensures InStringAfter(b, x + y) == InStringAfter(InStringAfter(b, x), y)
    decreases |x|
  {
    if x == [] {
      assert x + y == y;
    } else {
      assert (x + y)[1..] == x[1..] + y;
      InStringAfterConcat(Flip(b, x[0]), x[1..], y);
    }
  }

  lemma {:induction false} MarksConcat(x: string, y: string, b: bool)
    ensures MarksFrom(x + y, b) == MarksFrom(x, b) + MarksFrom(y, InStringAfter(b, x))
    decreases |x|
  {
    if x == [] {
      assert x + y == y;
    } else {
      assert (x + y)[1..] == x[1..] + y;
      MarksConcat(x[1..], y, Flip(b, x[0]));
    }
  }

  /**
   * Numbering `x + y` numbers `x`, then numbers `y` from where `x` left the
   * literal state and the counter.
   */
  lemma {:induction false} NumberConcat(x: string, y: string, b: bool, n: nat)
    ensures NumberFrom(x + y, b, n)
         == NumberFrom(x, b, n) + NumberFrom(y, InStringAfter(b, x), n + MarksFrom(x, b))
    decreases |x|, 1
  {
    if x == [] {
      assert x + y == y;
    } else if IsMark(b, x[0]) {
      NumberConcatMark(x, y, n);
    } else {
      NumberConcatChar(x, y, b, n);
    }
  }

  /** `NumberConcat` when `x` starts with a character that is copied. */
  lemma {:induction false} NumberConcatChar(x: string, y: string, b: bool, n: nat)
    requires x != [] && !IsMark(b, x[0])
    ensures NumberFrom(x + y, b, n)
         == NumberFrom(x, b, n) + NumberFrom(y, InStringAfter(b, x), n + MarksFrom(x, b))
    decreases |x|, 0
  {
    var b' := Flip(b, x[0]);
    assert (x + y)[1..] == x[1..] + y;
    NumberConcat(x[1..], y, b', n);
    var r, t := NumberFrom(x[1..], b', n), NumberFrom(y, InStringAfter(b', x[1..]), n + MarksFrom(x[1..], b'));
    assert [x[0]] + (r + t) == ([x[0]] + r) + t;
  }

  /** `NumberConcat` when `x` starts with a placeholder. */
  lemma {:induction false} NumberConcatMark(x: string, y: string, n: nat)
    requires x != [] && x[0] == '?'
    ensures NumberFrom(x + y, false, n)
         == NumberFrom(x, false, n) + NumberFrom(y, InStringAfter(false, x), n + MarksFrom(x, false))
    decreases |x|, 0
  {
    assert (x + y)[1..] == x[1..] + y;
    NumberConcat(x[1..], y, false, n + 1);
    var p, r, t := Parameter(n), NumberFrom(x[1..], false, n + 1),
      NumberFrom(y, InStringAfter(false, x[1..]), n + 1 + MarksFrom(x[1..], false));
    assert NumberFrom(x + y, false, n) == p + NumberFrom(x[1..] + y, false, n + 1);
    assert NumberFrom(x, false, n) == p + r;
    assert InStringAfter(false, x) == InStringAfter(false, x[1..]);
    assert MarksFrom(x, false) == 1 + MarksFrom(x[1..], false);
    assert p + (r + t) == (p + r) + t;
  }

  /**
   * The `k`-th placeholder of the query, counting from 1, becomes `$k`:
   * a `?` read outside a literal after `Marks(x)` earlier placeholders is
   * replaced by the parameter `1 + Marks(x)`, and numbering resumes at the
   * next number after it.
   */
  lemma MarkNumbered(x: string, y: string)
    requires !InStringAfter(false, x)
    ensures Numbered(x + "?" + y)
         == Numbered(x) + Parameter(1 + Marks(x)) + NumberFrom(y, false, 2 + Marks(x))
  {
    assert x + "?" + y == x + ("?" + y);
    NumberConcat(x, "?" + y, false, 1);
    assert ("?" + y)[1..] == y;
  }

  /** A `?` inside a literal is copied and does not consume a number. */
  lemma MarkInLiteralCopied(x: string, y: string)
    requires InStringAfter(false, x)
    ensures Numbered(x + "?" + y)
         == Numbered(x) + "?" + NumberFrom(y, true, 1 + Marks(x))
  {
    assert x + "?" + y == x + ("?" + y);
    NumberConcat(x, "?" + y, false, 1);
    assert ("?" + y)[1..] == y;
  }

  /** Numbering never shortens the text, and every placeholder lengthens it. */
  lemma {:induction false} NumberLength(s: string, b: bool, n: nat)
    ensures |NumberFrom(s, b, n)| >= |s| + MarksFrom(s, b)
    decreases |s|
  {
    if s != [] {
      if IsMark(b, s[0]) {
        NumberLength(s[1..], b, n + 1);
      } else {
        NumberLength(s[1..], Flip(b, s[0]), n);
      }
    }
  }

  /** Without placeholders, the text is copied. */
  lemma {:induction false} NoMarksIdentity(s: string, b: bool, n: nat)
    requires MarksFrom(s, b) == 0
    ensures NumberFrom(s, b, n) == s
    decreases |s|
  {
    if s != [] {
      NoMarksIdentity(s[1..], Flip(b, s[0]), n);
    }
  }

  /** Pass 3 leaves a query unchanged exactly when it has no placeholder. */
  lemma NumberedUnchanged(q: string)
    ensures Numbered(q) == q <==> Marks(q) == 0
  {
    if Marks(q) == 0 {
      NoMarksIdentity(q, false, 1);
    } else {
      NumberLength(q, false, 1);
    }
  }

  /** A parameter reference holds no quote and no `?`. */
  lemma ParameterInert(n: nat, b: bool)
    ensures InStringAfter(b, Parameter(n)) == b
    ensures MarksFrom(Parameter(n), b) == 0
  {
    InertText(Parameter(n), b);
  }

  /** Text without `'` and `?` neither changes the literal state nor holds a placeholder. */
  lemma {:induction false} InertText(s: string, b: bool)
    requires forall k :: 0 <= k < |s| ==> s[k] != '\'' && s[k] != '?'
    ensures InStringAfter(b, s) == b
    ensures MarksFrom(s, b) == 0
    decreases |s|
  {
    if s != [] {
      InertText(s[1..], b);
    }
  }

  /**
   * The numbered text has the same literal structure as the original and no
   * placeholder is left in it.
   */
  lemma {:induction false} NumberedHasNoMarks(s: string, b: bool, n: nat)
    ensures InStringAfter(b, NumberFrom(s, b, n)) == InStringAfter(b, s)
    ensures MarksFrom(NumberFrom(s, b, n), b) == 0
    decreases |s|
  {
    if s != [] {
      var b' := Flip(b, s[0]);
      if IsMark(b, s[0]) {
        NumberedHasNoMarks(s[1..], b, n + 1);
        ParameterInert(n, b);
        InStringAfterConcat(b, Parameter(n), NumberFrom(s[1..], b, n + 1));
        MarksConcat(Parameter(n), NumberFrom(s[1..], b, n + 1), b);
      } else {
        NumberedHasNoMarks(s[1..], b', n);
        assert ([s[0]] + NumberFrom(s[1..], b', n))[1..] == NumberFrom(s[1..], b', n);
      }
    }
  }

  /** Rewriting an already rewritten query changes nothing. */
  lemma NumberedIdempotent(q: string)
    ensures Numbered(Numbered(q)) == Numbered(q)
  {
    NumberedHasNoMarks(q, false, 1);
    NumberedUnchanged(Numbered(q));
  }

  /**
   * Each placeholder adds exactly one `$`: the number of parameter
   * references emitted is the number of placeholders.
   */
  lemma {:induction false} ParameterCount(s: string, b: bool, n: nat)
    ensures Count('$', NumberFrom(s, b, n)) == Count('$', s) + MarksFrom(s, b)
    decreases |s|
  {
    if s != [] {
      assert s == [s[0]] + s[1..];
      CountConcat('$', [s[0]], s[1..]);
      if IsMark(b, s[0]) {
        ParameterCount(s[1..], b, n + 1);
        CountConcat('$', Parameter(n), NumberFrom(s[1..], b, n + 1));
        assert Parameter(n) == "$" + Decimal(n);
        CountConcat('$', "$", Decimal(n));
        CountAbsent('$', Decimal(n));
      } else {
        ParameterCount(s[1..], Flip(b, s[0]), n);
        CountConcat('$', [s[0]], NumberFrom(s[1..], Flip(b, s[0]), n));
      }
    }
  }
}
