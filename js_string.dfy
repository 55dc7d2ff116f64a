/**
 * The JavaScript string built-ins that the query builder relies on:
 * `toLowerCase`, `trim`, `split` on one character, `Array.prototype.join`,
 * and the decimal text that a template literal gives an integer.
 */
module JsString {
  import opened Wrappers

  /** The WhiteSpace and LineTerminator code points that `trim` removes. */
  predicate IsWhitespace(c: char)
  {
    || c == '\t' || c == '\n' || c == '\U{000B}' || c == '\U{000C}' || c == '\r'
    || c == ' ' || c == '\U{00A0}' || c == '\U{1680}'
    || ('\U{2000}' <= c <= '\U{200A}')
    || c == '\U{2028}' || c == '\U{2029}' || c == '\U{202F}' || c == '\U{205F}'
    || c == '\U{3000}' || c == '\U{FEFF}'
  }

  predicate AllWhitespace(s: string)
  {
    forall i :: 0 <= i < |s| ==> IsWhitespace(s[i])
  }

  predicate IsAsciiUpper(c: char)
  {
    'A' <= c <= 'Z'
  }

  /** `toLowerCase` on one character, restricted to the ASCII letters. */
  function LowerChar(c: char): (r: char)
    ensures !IsAsciiUpper(r)
    ensures !IsAsciiUpper(c) ==> r == c
    ensures IsAsciiUpper(c) ==> 'a' <= r <= 'z' && r as int - 'a' as int == c as int - 'A' as int
  {
    if IsAsciiUpper(c) then (c as int - 'A' as int + 'a' as int) as char else c
  }

  /**
   * `String.prototype.toLowerCase`: no upper-case letter is left, every other
   * character stays where it is, and each upper-case letter becomes its
   * lower-case partner.
   */
  function ToLower(s: string): (r: string)
    ensures |r| == |s|
    ensures forall i :: 0 <= i < |r| ==> !IsAsciiUpper(r[i])
    ensures forall i :: 0 <= i < |s| && !IsAsciiUpper(s[i]) ==> r[i] == s[i]
    ensures forall i :: 0 <= i < |s| && IsAsciiUpper(s[i]) ==> r[i] as int - 'a' as int == s[i] as int - 'A' as int
  {
    seq(|s|, i requires 0 <= i < |s| => LowerChar(s[i]))
  }

  /** Lowering a string that holds no upper-case letter leaves it as it is. */
  lemma ToLowerOfLower(s: string)
    requires forall i :: 0 <= i < |s| ==> !IsAsciiUpper(s[i])
    ensures ToLower(s) == s
  {
  }

  /** Lowering twice is lowering once. */
  lemma ToLowerIdempotent(s: string)
    ensures ToLower(ToLower(s)) == ToLower(s)
  {
    ToLowerOfLower(ToLower(s));
  }

  /** The number of white-space characters `s` starts with. */
  function LeadingWhitespace(s: string): (n: nat)
    ensures n <= |s|
    ensures forall i :: 0 <= i < n ==> IsWhitespace(s[i])
    ensures n < |s| ==> !IsWhitespace(s[n])
  {
    if s != [] && IsWhitespace(s[0]) then 1 + LeadingWhitespace(s[1..]) else 0
  }

  /** The number of white-space characters `s` ends with. */
  function TrailingWhitespace(s: string): (n: nat)
    ensures n <= |s|
    ensures forall i :: |s| - n <= i < |s| ==> IsWhitespace(s[i])
    ensures n < |s| ==> !IsWhitespace(s[|s| - n - 1])
  {
    if s != [] && IsWhitespace(s[|s| - 1]) then 1 + TrailingWhitespace(s[..|s| - 1]) else 0
  }

  /** `String.prototype.trimStart`: drops the leading white space. */
  function TrimStart(s: string): string
  {
    s[LeadingWhitespace(s)..]
  }

  /** `String.prototype.trimEnd`: drops the trailing white space. */
  function TrimEnd(s: string): string
  {
    s[..|s| - TrailingWhitespace(s)]
  }

  /**
   * `String.prototype.trim`: white space is removed from both ends, so what
   * is left neither starts nor ends with white space.
   */
  function Trim(s: string): (r: string)
    ensures |r| <= |s|
    ensures r == [] || (!IsWhitespace(r[0]) && !IsWhitespace(r[|r| - 1]))
  {
    var t := TrimStart(s);
    var r := TrimEnd(t);
    assert r != [] ==> r[0] == t[0] == s[LeadingWhitespace(s)];
    assert r != [] ==> r[|r| - 1] == t[|t| - TrailingWhitespace(t) - 1];
    r
  }

  /**
   * What `trim` gives is the piece `s[i..i + |Trim(s)|]` of its input, with
   * only white space before and after it.
   */
  lemma TrimPiece(s: string) returns (i: nat)
    ensures i + |Trim(s)| <= |s| && Trim(s) == s[i..i + |Trim(s)|]
    ensures AllWhitespace(s[..i]) && AllWhitespace(s[i + |Trim(s)|..])
  {
    var t := TrimStart(s);
    var r := Trim(s);
    i := LeadingWhitespace(s);
    assert s[i + |r|..] == t[|r|..];
    var b := TrailingWhitespace(t);
    forall k | 0 <= k < |t[|r|..]| ensures IsWhitespace(t[|r|..][k]) {
      assert t[|r|..][k] == t[|t| - b + k];
    }
  }

  /** `trim` gives the empty string exactly when its input is all white space. */
  lemma TrimBlank(s: string)
    ensures Trim(s) == [] <==> AllWhitespace(s)
  {
    var i := TrimPiece(s);
    if Trim(s) == [] {
      forall k | 0 <= k < |s| ensures IsWhitespace(s[k]) {
        if k < i {
          assert s[..i][k] == s[k];
        } else {
          assert s[i..][k - i] == s[k];
        }
      }
    } else {
      assert Trim(s)[0] == s[i];
    }
  }

  lemma {:induction false} LeadingWhitespaceOf(pre: string, t: string)
    requires AllWhitespace(pre)
    requires t == [] || !IsWhitespace(t[0])
    ensures LeadingWhitespace(pre + t) == |pre|
    decreases |pre|
  {
    if pre == [] {
      assert pre + t == t;
    } else {
      assert (pre + t)[1..] == pre[1..] + t;
      LeadingWhitespaceOf(pre[1..], t);
    }
  }

  lemma {:induction false} TrailingWhitespaceOf(t: string, post: string)
    requires AllWhitespace(post)
    requires t == [] || !IsWhitespace(t[|t| - 1])
    ensures TrailingWhitespace(t + post) == |post|
    decreases |post|
  {
    if post == [] {
      assert t + post == t;
    } else {
      var n := |post| - 1;
      assert (t + post)[..|t + post| - 1] == t + post[..n];
      TrailingWhitespaceOf(t, post[..n]);
    }
  }

  /**
   * `trim` ignores white space around a string: padding a string with white
   * space on either side does not change what `trim` gives.
   */
  lemma TrimIgnoresPadding(pre: string, s: string, post: string)
    requires AllWhitespace(pre) && AllWhitespace(post)
    ensures Trim(pre + s + post) == Trim(s)
  {
    if AllWhitespace(s) {
      TrimBlank(s);
      AllWhitespaceConcat(pre, s);
      AllWhitespaceConcat(pre + s, post);
      TrimBlank(pre + s + post);
    } else {
      TrimBlank(s);
      var i := TrimPiece(s);
      TrimOfPiece(pre, s, post, i, Trim(s));
    }
  }

  /** A string with no white space at its ends, padded with white space, trims to itself. */
  lemma TrimOfPiece(pre: string, s: string, post: string, i: nat, r: string)
    requires AllWhitespace(pre) && AllWhitespace(post)
    requires i + |r| <= |s| && r == s[i..i + |r|]
    requires AllWhitespace(s[..i]) && AllWhitespace(s[i + |r|..])
    requires r != [] && !IsWhitespace(r[0]) && !IsWhitespace(r[|r| - 1])
    ensures Trim(pre + s + post) == r
  {
    var a := pre + s[..i];
    var b := s[i + |r|..] + post;
    AllWhitespaceConcat(pre, s[..i]);
    AllWhitespaceConcat(s[i + |r|..], post);
    assert s == s[..i] + r + s[i + |r|..];
    assert pre + s + post == a + (r + b);
    TrimAround(a, r, b);
  }

  /** White space around a string with no white space at its ends is what `trim` removes. */
  lemma TrimAround(a: string, r: string, b: string)
    requires AllWhitespace(a) && AllWhitespace(b)
    requires r == [] || (!IsWhitespace(r[0]) && !IsWhitespace(r[|r| - 1]))
    requires r != [] || b == []
    ensures Trim(a + (r + b)) == r
  {
    LeadingWhitespaceOf(a, r + b);
    assert (a + (r + b))[|a|..] == r + b;
    TrailingWhitespaceOf(r, b);
    assert (r + b)[..|r|] == r;
  }

  lemma AllWhitespaceConcat(x: string, y: string)
    requires AllWhitespace(x) && AllWhitespace(y)
    ensures AllWhitespace(x + y)
  {
    forall k | 0 <= k < |x + y| ensures IsWhitespace((x + y)[k]) {
      if k >= |x| {
        assert (x + y)[k] == y[k - |x|];
      }
    }
  }

  /** A string that neither starts nor ends with white space is its own trim. */
  lemma TrimOfTrimmed(s: string)
    requires s == [] || (!IsWhitespace(s[0]) && !IsWhitespace(s[|s| - 1]))
    ensures Trim(s) == s
  {
    TrimAround([], s, []);
    assert [] + (s + []) == s;
  }

  /** `trim` keeps only characters of its input. */
  lemma TrimAllChars(s: string, P: char -> bool)
    requires AllChars(s, P)
    ensures AllChars(Trim(s), P)
  {
    var i := TrimPiece(s);
    forall k | 0 <= k < |Trim(s)| ensures P(Trim(s)[k]) {
      assert Trim(s)[k] == s[i + k];
    }
  }

  /** Trimming twice is trimming once. */
  lemma TrimIdempotent(s: string)
    ensures Trim(Trim(s)) == Trim(s)
  {
    TrimOfTrimmed(Trim(s));
  }

  /**
   * `Array.prototype.join`: the parts with `sep` between neighbours; no parts
   * give the empty string.
   */
  function Join(parts: seq<string>, sep: string): (r: string)
    ensures parts == [] ==> r == []
    ensures |parts| == 1 ==> r == parts[0]
    ensures parts != [] ==> parts[0] <= r
  {
    if |parts| == 0 then []
    else if |parts| == 1 then parts[0]
    else parts[0] + sep + Join(parts[1..], sep)
  }

  /** Every character of `s` has the property `P`. */
  predicate AllChars(s: string, P: char -> bool)
  {
    forall i :: 0 <= i < |s| ==> P(s[i])
  }

  lemma AllCharsConcat(x: string, y: string, P: char -> bool)
    requires AllChars(x, P) && AllChars(y, P)
    ensures AllChars(x + y, P)
  {
    forall i | 0 <= i < |x + y| ensures P((x + y)[i]) {
      if i >= |x| {
        assert (x + y)[i] == y[i - |x|];
      }
    }
  }

  /** A join holds only characters of its parts and of the separator. */
  lemma {:induction false} JoinAllChars(parts: seq<string>, sep: string, P: char -> bool)
    requires forall i :: 0 <= i < |parts| ==> AllChars(parts[i], P)
    requires AllChars(sep, P)
    ensures AllChars(Join(parts, sep), P)
    decreases |parts|
  {
    if |parts| > 1 {
      JoinAllChars(parts[1..], sep, P);
      AllCharsConcat(parts[0], sep, P);
      AllCharsConcat(parts[0] + sep, Join(parts[1..], sep), P);
    }
  }

  /** Every part of a join holds only characters the join holds. */
  lemma {:induction false} PartsOfJoinAllChars(parts: seq<string>, sep: string, P: char -> bool)
    requires AllChars(Join(parts, sep), P)
    ensures forall i :: 0 <= i < |parts| ==> AllChars(parts[i], P)
    decreases |parts|
  {
    if |parts| > 1 {
      var r := Join(parts, sep);
      var rest := Join(parts[1..], sep);
      assert r == parts[0] + sep + rest;
      forall k | 0 <= k < |parts[0]| ensures P(parts[0][k]) {
        assert r[k] == parts[0][k];
      }
      forall k | 0 <= k < |rest| ensures P(rest[k]) {
        assert r[|parts[0] + sep| + k] == rest[k];
      }
      PartsOfJoinAllChars(parts[1..], sep, P);
      forall i | 1 <= i < |parts| ensures AllChars(parts[i], P) {
        assert parts[i] == parts[1..][i - 1];
      }
    }
  }

  /** Splitting keeps only characters of the input. */
  lemma SplitAllChars(s: string, sep: char, P: char -> bool)
    requires AllChars(s, P)
    ensures forall i :: 0 <= i < |Split(s, sep)| ==> AllChars(Split(s, sep)[i], P)
  {
    PartsOfJoinAllChars(Split(s, sep), [sep], P);
  }

  /** A join ends with its last part. */
  lemma {:induction false} JoinEndsWithLast(parts: seq<string>, sep: string)
    requires parts != []
    ensures var r := Join(parts, sep); var last := parts[|parts| - 1];
      |last| <= |r| && r[|r| - |last|..] == last
    decreases |parts|
  {
    if |parts| > 1 {
      JoinEndsWithLast(parts[1..], sep);
      var r := Join(parts, sep);
      var rest := Join(parts[1..], sep);
      assert r == (parts[0] + sep) + rest;
      assert r[|r| - |rest|..] == rest;
    }
  }

  /** Concatenation regroups freely. */
  lemma ConcatAssoc(a: string, b: string, c: string)
    ensures a + (b + c) == a + b + c
  {
  }

  /** Joining one more part appends the separator and that part. */
  lemma {:induction false} JoinAppend(parts: seq<string>, sep: string, last: string)
    requires parts != []
    ensures Join(parts + [last], sep) == Join(parts, sep) + sep + last
    decreases |parts|
  {
    if |parts| == 1 {
      assert (parts + [last])[1..] == [last];
    } else {
      assert (parts + [last])[1..] == parts[1..] + [last];
      JoinAppend(parts[1..], sep, last);
    }
  }

  /**
   * `String.prototype.split` with a one-character separator: the pieces
   * between separators, one more than there are separators; joining them back
   * with the separator gives the input.
   */
  function Split(s: string, sep: char): (parts: seq<string>)
    ensures |parts| >= 1
    ensures forall i :: 0 <= i < |parts| ==> sep !in parts[i]
    ensures Join(parts, [sep]) == s
  {
    if s == [] then [[]]
    else
      var rest := Split(s[1..], sep);
      if s[0] == sep then
        assert ([[]] + rest)[1..] == rest;
        [[]] + rest
      else
        var parts := [[s[0]] + rest[0]] + rest[1..];
        assert parts[1..] == rest[1..];
        assert |rest| > 1 ==> Join(rest, [sep]) == rest[0] + [sep] + Join(rest[1..], [sep]);
        parts
  }

  /** The position of the first `c` in `s`, or `|s|` when there is none. */
  function IndexOfChar(s: string, c: char): (k: nat)
    ensures k <= |s|
  {
    if s == [] || s[0] == c then 0 else 1 + IndexOfChar(s[1..], c)
  }

  lemma {:induction false} IndexOfCharAfter(a: string, rest: string, c: char)
    requires c !in a
    requires rest == [] || rest[0] == c
    ensures IndexOfChar(a + rest, c) == |a|
    decreases |a|
  {
    if a == [] {
      assert a + rest == rest;
    } else {
      assert (a + rest)[1..] == a[1..] + rest;
      IndexOfCharAfter(a[1..], rest, c);
    }
  }

  /** The first piece of a join ends where the first separator stands. */
  lemma JoinFirstPiece(p: seq<string>, sep: char)
    requires |p| >= 1
    requires forall i :: 0 <= i < |p| ==> sep !in p[i]
    ensures IndexOfChar(Join(p, [sep]), sep) == |p[0]|
  {
    if |p| == 1 {
      IndexOfCharAfter(p[0], [], sep);
      assert p[0] + [] == p[0];
    } else {
      assert Join(p, [sep]) == p[0] + ([sep] + Join(p[1..], [sep]));
      IndexOfCharAfter(p[0], [sep] + Join(p[1..], [sep]), sep);
    }
  }

  /**
   * Joining is one-to-one on lists of pieces free of the separator: the two
   * lists are equal when their joins are.
   */
  lemma {:induction false} JoinInjective(p: seq<string>, q: seq<string>, sep: char)
    requires |p| >= 1 && |q| >= 1
    requires forall i :: 0 <= i < |p| ==> sep !in p[i]
    requires forall i :: 0 <= i < |q| ==> sep !in q[i]
    requires Join(p, [sep]) == Join(q, [sep])
    ensures p == q
    decreases |p|
  {
    var s := Join(p, [sep]);
    var a, b := p[0], q[0];
    JoinFirstPiece(p, sep);
    JoinFirstPiece(q, sep);
    assert a == s[..|a|] == b;
    assert |p| == 1 <==> |q| == 1;
    if |p| > 1 {
      var tail := s[|a| + 1..];
      assert Join(p[1..], [sep]) == tail;
      assert Join(q[1..], [sep]) == tail;
      JoinInjective(p[1..], q[1..], sep);
      assert p == [a] + p[1..];
      assert q == [b] + q[1..];
    }
  }

  /** Splitting undoes joining, for pieces that do not hold the separator. */
  lemma SplitJoin(parts: seq<string>, sep: char)
    requires |parts| >= 1
    requires forall i :: 0 <= i < |parts| ==> sep !in parts[i]
    ensures Split(Join(parts, [sep]), sep) == parts
  {
    var s := Join(parts, [sep]);
    JoinInjective(Split(s, sep), parts, sep);
  }

  predicate IsDigit(c: char)
  {
    '0' <= c <= '9'
  }

  predicate AllDigits(s: string)
  {
    forall i :: 0 <= i < |s| ==> IsDigit(s[i])
  }

  function DigitChar(d: nat): (c: char)
    requires d < 10
    ensures IsDigit(c) && c as int - '0' as int == d
  {
    ('0' as int + d) as char
  }

  /**
   * The text `${n}` gives a non-negative integer below 10^21: its decimal
   * digits, without leading zeros.
   */
  function NatToDecimal(n: nat): (r: string)
    ensures |r| >= 1 && AllDigits(r)
    ensures n == 0 ==> r == "0"
    ensures r[0] == '0' ==> n == 0
  {
    if n < 10 then [DigitChar(n)]
    else NatToDecimal(n / 10) + [DigitChar(n % 10)]
  }

  /** The number a string of decimal digits denotes. */
  function DecimalValue(s: string): nat
    requires AllDigits(s)
  {
    if s == [] then 0
    else DecimalValue(s[..|s| - 1]) * 10 + (s[|s| - 1] as int - '0' as int)
  }

  /** Reads a non-empty run of decimal digits back as a number. */
  function ParseDecimal(s: string): Option<nat>
  {
    if |s| >= 1 && AllDigits(s) then Some(DecimalValue(s)) else None
  }

  /** Reading back the decimal text of a number gives that number. */
  lemma {:induction false} DecimalRoundTrip(n: nat)
    ensures ParseDecimal(NatToDecimal(n)) == Some(n)
  {
    if n >= 10 {
      var s := NatToDecimal(n / 10);
      var t := s + [DigitChar(n % 10)];
      assert t[..|t| - 1] == s;
      DecimalRoundTrip(n / 10);
      assert AllDigits(t);
      assert DecimalValue(s) == n / 10;
      assert DecimalValue(t) == DecimalValue(s) * 10 + (t[|t| - 1] as int - '0' as int);
      assert DecimalValue(t) == (n / 10) * 10 + n % 10;
    } else {
      var t := [DigitChar(n)];
      assert t[..0] == [];
      assert DecimalValue(t) == DecimalValue(t[..0]) * 10 + (t[0] as int - '0' as int);
    }
  }
}
