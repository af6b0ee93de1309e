/** `sanitizeText`: drops control characters, replaces CR LF by LF, then trims
    JavaScript whitespace from both ends. A `char` is a Unicode scalar value;
    no control or whitespace character lies above U+FFFF, so the steps treat
    a character outside the Basic Multilingual Plane exactly as they treat its
    two UTF-16 code units. */
module Sanitizer {

  /** The regular-expression class [\x00-\x1F\x7F-\x9F]. */
  predicate IsControl(c: char)
  {
    (0x00 <= c as int <= 0x1F) || (0x7F <= c as int <= 0x9F)
  }

  /** What `String.prototype.trim` removes: the WhiteSpace code points of
      section 12.2 of ECMA-262 (TAB, VT, FF, SP, NBSP, ZWNBSP and the
      Unicode space separators) and its LineTerminator code points of
      section 12.3 (LF, CR, LS, PS). */
  predicate IsJsWhitespace(c: char)
  {
    var k := c as int;
    k == 0x09 || k == 0x0B || k == 0x0C || k == 0x20 || k == 0xA0 || k == 0xFEFF
    || k == 0x1680 || (0x2000 <= k <= 0x200A) || k == 0x202F || k == 0x205F || k == 0x3000
    || k == 0x0A || k == 0x0D || k == 0x2028 || k == 0x2029
  }

  /** `a` can be obtained from `b` by deleting characters. */
  predicate IsSubsequence(a: string, b: string)
    decreases |b|
  {
    if b == [] then a == []
    else (a != [] && a[0] == b[0] && IsSubsequence(a[1..], b[1..])) || IsSubsequence(a, b[1..])
  }

  /** The empty string is a subsequence of every string. */
  lemma {:induction false} EmptySubsequence(b: string)
    ensures IsSubsequence([], b)
  {
    if b != [] {
      EmptySubsequence(b[1..]);
    }
  }

  /** Every string is a subsequence of itself. */
  lemma {:induction false} SubsequenceReflexive(b: string)
    ensures IsSubsequence(b, b)
  {
    if b != [] {
      SubsequenceReflexive(b[1..]);
    }
  }

  /** Deleting characters twice is deleting characters. */
  lemma {:induction false} SubsequenceTransitive(a: string, b: string, c: string)
    requires IsSubsequence(a, b) && IsSubsequence(b, c)
    ensures IsSubsequence(a, c)
    decreases |c|
  {
    if c == [] {
    } else if b != [] && b[0] == c[0] && IsSubsequence(b[1..], c[1..]) {
      if a != [] && a[0] == b[0] && IsSubsequence(a[1..], b[1..]) {
        SubsequenceTransitive(a[1..], b[1..], c[1..]);
      } else {
        SubsequenceTransitive(a, b[1..], c[1..]);
      }
    } else {
      SubsequenceTransitive(a, b, c[1..]);
    }
  }

  /** A prefix of a string is a subsequence of it. */
  lemma {:induction false} PrefixSubsequence(b: string, k: nat)
    requires k <= |b|
    ensures IsSubsequence(b[..k], b)
  {
    if k == 0 {
      EmptySubsequence(b);
    } else {
      PrefixSubsequence(b[1..], k - 1);
      assert b[..k][1..] == b[1..][..k - 1];
    }
  }

  /** A suffix of a string is a subsequence of it. */
  lemma {:induction false} SuffixSubsequence(b: string, k: nat)
    requires k <= |b|
    ensures IsSubsequence(b[k..], b)
  {
    if k == 0 {
      SubsequenceReflexive(b);
    } else {
      SuffixSubsequence(b[1..], k - 1);
      assert b[1..][k - 1..] == b[k..];
    }
  }

  /** Every character of a subsequence occurs in the original. */
  lemma {:induction false} SubsequenceChars(a: string, b: string, i: nat)
    requires IsSubsequence(a, b)
    requires i < |a|
    ensures a[i] in b
    decreases |b|
  {
    if a != [] && b != [] && a[0] == b[0] && IsSubsequence(a[1..], b[1..]) {
      if i > 0 {
        SubsequenceChars(a[1..], b[1..], i - 1);
      }
    } else {
      SubsequenceChars(a, b[1..], i);
    }
  }

  /** The first `replace`: every control character removed, the rest kept in
      order. */
  function StripControls(s: string): (r: string)
    ensures forall i :: 0 <= i < |r| ==> !IsControl(r[i])
    ensures (forall i :: 0 <= i < |s| ==> !IsControl(s[i])) ==> r == s
  {
    if s == [] then []
    else if IsControl(s[0]) then StripControls(s[1..])
    else [s[0]] + StripControls(s[1..])
  }

  /** The second `replace`: each CR LF pair, found left to right without
      overlap, becomes a single LF. */
  function ReplaceCrLf(s: string): (r: string)
    ensures !HasCrLf(s) ==> r == s
  {
    if s == [] then []
    else if |s| >= 2 && s[0] == '\r' && s[1] == '\n' then ['\n'] + ReplaceCrLf(s[2..])
    else
      assert !HasCrLf(s) ==> !HasCrLf(s[1..]) by {
        if HasCrLf(s[1..]) {
          var i :| 0 <= i < |s[1..]| - 1 && s[1..][i] == '\r' && s[1..][i + 1] == '\n';
          assert s[i + 1] == '\r' && s[i + 2] == '\n';
        }
      }
      [s[0]] + ReplaceCrLf(s[1..])
  }

  /** The replacement only deletes characters: each pair loses its CR. */
  lemma {:induction false} ReplaceCrLfSubsequence(s: string)
    ensures IsSubsequence(ReplaceCrLf(s), s)
  {
    if s == [] {
    } else if |s| >= 2 && s[0] == '\r' && s[1] == '\n' {
      var t := ReplaceCrLf(s[2..]);
      ReplaceCrLfSubsequence(s[2..]);
      assert s[1..][1..] == s[2..];
      assert IsSubsequence(['\n'] + t, s[1..]) by {
        assert (['\n'] + t)[1..] == t;
      }
    } else {
      ReplaceCrLfSubsequence(s[1..]);
      assert ([s[0]] + ReplaceCrLf(s[1..]))[1..] == ReplaceCrLf(s[1..]);
    }
  }

  /** Whether a CR is directly followed by an LF somewhere in `s`. */
  predicate HasCrLf(s: string)
  {
    exists i :: 0 <= i < |s| - 1 && s[i] == '\r' && s[i + 1] == '\n'
  }

  /** A CR LF pair at the front becomes one LF. */
  lemma PairAtFront(t: string)
    ensures ReplaceCrLf("\r\n" + t) == "\n" + ReplaceCrLf(t)
  {
    assert ("\r\n" + t)[2..] == t;
  }

  /** A front character that does not start a pair is kept. */
  lemma NoPairAtFront(c: char, t: string)
    requires c != '\r' || t == [] || t[0] != '\n'
    ensures ReplaceCrLf([c] + t) == [c] + ReplaceCrLf(t)
  {
    assert ([c] + t)[1..] == t;
  }

  /** Regrouping a string with a line feed between two parts. */
  lemma Regroup(p: string, x: string, y: string)
    ensures p + (x + "\n" + y) == (p + x) + "\n" + y
  {
  }

  /** The splitting step when `a` starts with a pair. */
  lemma SplitsAfterPair(rest: string, b: string)
    requires ReplaceCrLf(rest + "\r\n" + b) == ReplaceCrLf(rest) + "\n" + ReplaceCrLf(b)
    ensures ReplaceCrLf("\r\n" + rest + "\r\n" + b) == ReplaceCrLf("\r\n" + rest) + "\n" + ReplaceCrLf(b)
  {
    var t := rest + "\r\n" + b;
    assert ReplaceCrLf("\r\n" + rest + "\r\n" + b) == "\n" + ReplaceCrLf(t) by {
      assert "\r\n" + rest + "\r\n" + b == "\r\n" + t;
      PairAtFront(t);
    }
    PairAtFront(rest);
    Regroup("\n", ReplaceCrLf(rest), ReplaceCrLf(b));
  }

  /** The splitting step when the first character of `a` is kept. */
  lemma SplitsAfterKept(c: char, rest: string, b: string)
    requires c != '\r' || rest == [] || rest[0] != '\n'
    requires ReplaceCrLf(rest + "\r\n" + b) == ReplaceCrLf(rest) + "\n" + ReplaceCrLf(b)
    ensures ReplaceCrLf([c] + rest + "\r\n" + b) == ReplaceCrLf([c] + rest) + "\n" + ReplaceCrLf(b)
  {
    var t := rest + "\r\n" + b;
    assert ReplaceCrLf([c] + rest + "\r\n" + b) == [c] + ReplaceCrLf(t) by {
      assert [c] + rest + "\r\n" + b == [c] + t;
      assert t[0] == (if rest == [] then '\r' else rest[0]);
      NoPairAtFront(c, t);
    }
    NoPairAtFront(c, rest);
    Regroup([c], ReplaceCrLf(rest), ReplaceCrLf(b));
  }

  /** Each CR LF pair becomes one LF, and what lies on either side is
      replaced on its own: a CR at the end of `a` cannot pair with the CR
      that follows it. With the identity on strings without a pair, this
      determines the replacement on every string. */
  lemma {:induction false} ReplaceCrLfSplits(a: string, b: string)
    ensures ReplaceCrLf(a + "\r\n" + b) == ReplaceCrLf(a) + "\n" + ReplaceCrLf(b)
  {
    if a == [] {
      assert a + "\r\n" + b == "\r\n" + b;
      PairAtFront(b);
    } else if |a| >= 2 && a[0] == '\r' && a[1] == '\n' {
      var rest := a[2..];
      assert a == "\r\n" + rest;
      ReplaceCrLfSplits(rest, b);
      SplitsAfterPair(rest, b);
    } else {
      var rest := a[1..];
      assert a == [a[0]] + rest;
      ReplaceCrLfSplits(rest, b);
      SplitsAfterKept(a[0], rest, b);
    }
  }

  /** The control characters are deleted, nothing else is. */
  lemma {:induction false} StripControlsSubsequence(s: string)
    ensures IsSubsequence(StripControls(s), s)
  {
    if s != [] {
      StripControlsSubsequence(s[1..]);
      if !IsControl(s[0]) {
        assert ([s[0]] + StripControls(s[1..]))[1..] == StripControls(s[1..]);
      }
    }
  }

  /** How many whitespace characters lead the string. */
  function LeadingWhitespace(s: string): (k: nat)
    ensures k <= |s|
    ensures forall i :: 0 <= i < k ==> IsJsWhitespace(s[i])
    ensures k < |s| ==> !IsJsWhitespace(s[k])
  {
    if s != [] && IsJsWhitespace(s[0]) then 1 + LeadingWhitespace(s[1..]) else 0
  }

  /** How many whitespace characters end the string. */
  function TrailingWhitespace(s: string): (k: nat)
    ensures k <= |s|
    ensures forall i :: |s| - k <= i < |s| ==> IsJsWhitespace(s[i])
    ensures k < |s| ==> !IsJsWhitespace(s[|s| - k - 1])
  {
    if s != [] && IsJsWhitespace(s[|s| - 1]) then 1 + TrailingWhitespace(s[..|s| - 1]) else 0
  }

  /** `String.prototype.trim`: the middle part of the string between its
      leading and its trailing whitespace. */
  function Trim(s: string): (r: string)
    ensures r == [] || (!IsJsWhitespace(r[0]) && !IsJsWhitespace(r[|r| - 1]))
    ensures var a := LeadingWhitespace(s);
            && a + |r| <= |s| && r == s[a..a + |r|]
            && (forall i :: 0 <= i < a ==> IsJsWhitespace(s[i]))
            && (forall i :: a + |r| <= i < |s| ==> IsJsWhitespace(s[i]))
    ensures (s == [] || (!IsJsWhitespace(s[0]) && !IsJsWhitespace(s[|s| - 1]))) ==> r == s
  {
    var a := LeadingWhitespace(s);
    var t := s[a..];
    var r := t[..|t| - TrailingWhitespace(t)];
    assert r == s[a..a + |r|];
    r
  }

  /** Control characters are removed from each part of a string alike. */
  lemma {:induction false} StripControlsAppend(a: string, b: string)
    ensures StripControls(a + b) == StripControls(a) + StripControls(b)
  {
    if a != [] {
      assert (a + b)[1..] == a[1..] + b;
      StripControlsAppend(a[1..], b);
    } else {
      assert a + b == b;
    }
  }

  /** `sanitizeText`. */
  function Sanitize(s: string): string
  {
    Trim(ReplaceCrLf(StripControls(s)))
  }

  /** Removing the control characters also removes every CR, so the CR LF
      replacement never changes anything. */
  lemma CrLfReplacementIsNoOp(s: string)
    ensures ReplaceCrLf(StripControls(s)) == StripControls(s)
    ensures Sanitize(s) == Trim(StripControls(s))
  {
  }

  /** The trimmed string is a slice of its input, hence a subsequence of it. */
  lemma TrimSubsequence(s: string)
    ensures IsSubsequence(Trim(s), s)
  {
    var r := Trim(s);
    var a := LeadingWhitespace(s);
    PrefixSubsequence(s[a..], |r|);
    assert s[a..][..|r|] == r;
    SuffixSubsequence(s, a);
    SubsequenceTransitive(r, s[a..], s);
  }

  /** What the sanitised text is: free of control characters (so of every LF
      and CR, though not of the line terminators LS and PS, which are not
      control characters), without leading or trailing whitespace, and
      obtained from the input by deleting characters. */
  lemma SanitizeProperties(s: string)
    ensures var r := Sanitize(s);
            && (forall i :: 0 <= i < |r| ==> !IsControl(r[i]))
            && '\n' !in r && '\r' !in r
            && (r == [] || (!IsJsWhitespace(r[0]) && !IsJsWhitespace(r[|r| - 1])))
            && IsSubsequence(r, s)
  {
    var t := StripControls(s);
    var r := Sanitize(s);
    CrLfReplacementIsNoOp(s);
    StripControlsSubsequence(s);
    TrimSubsequence(t);
    SubsequenceTransitive(r, t, s);
    forall i | 0 <= i < |r|
      ensures !IsControl(r[i])
    {
      SubsequenceChars(r, t, i);
    }
    assert IsControl('\n') && IsControl('\r');
  }

  /** Sanitising twice is sanitising once. */
  lemma SanitizeIdempotent(s: string)
    ensures Sanitize(Sanitize(s)) == Sanitize(s)
  {
    var r := Sanitize(s);
    SanitizeProperties(s);
    CrLfReplacementIsNoOp(r);
  }

  /** No control character and no whitespace at either end: the form of every
      sanitised text. */
  predicate IsClean(t: string)
  {
    && (forall i :: 0 <= i < |t| ==> !IsControl(t[i]))
    && (t == [] || (!IsJsWhitespace(t[0]) && !IsJsWhitespace(t[|t| - 1])))
  }

  /** Text that is already clean passes through unchanged. */
  lemma SanitizeKeepsCleanText(s: string)
    requires IsClean(s)
    ensures Sanitize(s) == s
  {
    CrLfReplacementIsNoOp(s);
  }

  /** LINE SEPARATOR and PARAGRAPH SEPARATOR end a line for JavaScript but are
      not control characters: between two clean texts they survive. */
  lemma SanitizeKeepsInnerSeparators(a: string, c: char, b: string)
    requires c as int == 0x2028 || c as int == 0x2029
    requires IsClean(a) && IsClean(b) && a != [] && b != []
    ensures Sanitize(a + [c] + b) == a + [c] + b
  {
    var s := a + [c] + b;
    forall i | 0 <= i < |s|
      ensures !IsControl(s[i])
    {
      if i < |a| {
        assert s[i] == a[i];
      } else if |a| < i {
        assert s[i] == b[i - |a| - 1];
      }
    }
    assert s[0] == a[0] && s[|s| - 1] == b[|b| - 1];
    SanitizeKeepsCleanText(s);
  }

  /** The double line break that separates two layers' texts is removed: the
      two texts run together. */
  lemma SanitizeDropsSeparator(a: string, b: string)
    requires forall i :: 0 <= i < |a| ==> !IsControl(a[i])
    requires forall i :: 0 <= i < |b| ==> !IsControl(b[i])
    requires a != [] && !IsJsWhitespace(a[0])
    requires b != [] && !IsJsWhitespace(b[|b| - 1])
    ensures Sanitize(a + "\n\n" + b) == a + b
  {
    var breaks := "\n\n";
    var joined := a + b;
    assert StripControls(a + breaks + b) == joined by {
      assert StripControls(breaks) == "" by {
        assert breaks[1..] == "\n";
        assert "\n"[1..] == "";
      }
      StripControlsAppend(a, breaks);
      StripControlsAppend(a + breaks, b);
    }
    assert Trim(joined) == joined by {
      assert joined[0] == a[0] && joined[|joined| - 1] == b[|b| - 1];
    }
    CrLfReplacementIsNoOp(a + breaks + b);
  }
}
