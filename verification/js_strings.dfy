/** The JavaScript string built-ins the application relies on, over strings
    of characters: `trim`, `split(' ')`/`join`, `parseInt(_, 10)`, the
    decimal rendering of an integer, ASCII case mapping, character-class
    replacement and `substring(0, n)`. */
module JsStrings {
  import opened JsValues

  /** WhiteSpace and LineTerminator characters of ECMA-262 (sections 12.2
      and 12.3): what `trim` removes and `parseInt` skips. */
  predicate IsSpace(c: char) {
    var n := c as int;
    n == 0x09 || n == 0x0A || n == 0x0B || n == 0x0C || n == 0x0D || n == 0x20
    || n == 0xA0 || n == 0x1680 || (0x2000 <= n <= 0x200A) || n == 0x2028
    || n == 0x2029 || n == 0x202F || n == 0x205F || n == 0x3000 || n == 0xFEFF
  }

  predicate AllSpace(s: string) {
    forall i :: 0 <= i < |s| ==> IsSpace(s[i])
  }

  /** `s.trimStart()`: the suffix left after the leading white space. */
  function TrimStart(s: string): (r: string)
    ensures |r| <= |s| && r == s[|s| - |r|..]
    ensures AllSpace(s[..|s| - |r|])
    ensures |r| > 0 ==> !IsSpace(r[0])
    decreases |s|
  {
    if |s| > 0 && IsSpace(s[0]) then TrimStart(s[1..]) else s
  }

  /** `s.trimEnd()`: the prefix left before the trailing white space. */
  function TrimEnd(s: string): (r: string)
    ensures |r| <= |s| && r == s[..|r|]
    ensures AllSpace(s[|r|..])
    ensures |r| > 0 ==> !IsSpace(r[|r| - 1])
    decreases |s|
  {
    if |s| > 0 && IsSpace(s[|s| - 1]) then TrimEnd(s[..|s| - 1]) else s
  }

  /** `r` is `s` with only white space cut off either side. */
  predicate MiddlePiece(r: string, s: string) {
    exists i, j :: 0 <= i <= j <= |s| && r == s[i..j] && AllSpace(s[..i]) && AllSpace(s[j..])
  }

  /** `s.trim()`: the piece of `s` left between its leading and its
      trailing white space; it neither starts nor ends with white space, and
      is empty exactly when `s` is all white space. */
  function Trim(s: string): (r: string)
    ensures |r| <= |s|
    ensures r == "" <==> AllSpace(s)
    ensures |r| > 0 ==> !IsSpace(r[0]) && !IsSpace(r[|r| - 1])
    ensures MiddlePiece(r, s)
  {
    TrimBothEnds(s);
    TrimEnd(TrimStart(s))
  }

  /** Trimming the start and then the end leaves the middle of `s`, with
      white space only around it. */
  lemma TrimBothEnds(s: string)
    ensures var r := TrimEnd(TrimStart(s));
      && |r| <= |s|
      && (r == "" <==> AllSpace(s))
      && (|r| > 0 ==> !IsSpace(r[0]) && !IsSpace(r[|r| - 1]))
      && MiddlePiece(r, s)
  {
    var t := TrimStart(s);
    TrimStartEmpty(s);
    TrimEndEmpty(t);
    TrimMiddle(s);
  }

  lemma TrimMiddle(s: string)
    ensures MiddlePiece(TrimEnd(TrimStart(s)), s)
  {
    var t := TrimStart(s);
    SpaceAround(s, t, TrimEnd(t));
  }

  /** A prefix `r` of a suffix `t` of `s`, with only white space cut off
      either side, is a middle piece of `s`. */
  lemma SpaceAround(s: string, t: string, r: string)
    requires |t| <= |s| && t == s[|s| - |t|..] && AllSpace(s[..|s| - |t|])
    requires |r| <= |t| && r == t[..|r|] && AllSpace(t[|r|..])
    ensures MiddlePiece(r, s)
  {
    var i := |s| - |t|;
    var j := i + |r|;
    assert r == s[i..j];
    assert s[j..] == t[|r|..];
  }

  lemma TrimStartEmpty(s: string)
    ensures TrimStart(s) == "" <==> AllSpace(s)
  {
    var t := TrimStart(s);
    if t == "" {
      assert s[..|s|] == s;
    } else {
      assert s[|s| - |t|] == t[0];
    }
  }

  lemma TrimEndEmpty(t: string)
    ensures TrimEnd(t) == "" <==> AllSpace(t)
    ensures |TrimEnd(t)| > 0 ==> TrimEnd(t)[0] == t[0]
  {
    var r := TrimEnd(t);
    if r == "" {
      assert t[0..] == t;
    } else {
      assert t[|r| - 1] == r[|r| - 1];
    }
  }

  /** How many times `c` occurs in `s`. */
  function Occurrences(s: string, c: char): nat
    decreases |s|
  {
    if |s| == 0 then 0 else (if s[0] == c then 1 else 0) + Occurrences(s[1..], c)
  }

  /** `s.split(sep)`: the pieces between separators, keeping empty pieces;
      one piece more than there are separators, and none holding one. */
  function Split(s: string, sep: char): (r: seq<string>)
    ensures |r| == Occurrences(s, sep) + 1
    ensures forall k :: 0 <= k < |r| ==> sep !in r[k]
    decreases |s|
  {
    if |s| == 0 then [""]
    else
      var rest := Split(s[1..], sep);
      assert s == [s[0]] + s[1..];
      if s[0] == sep then [""] + rest
      else [[s[0]] + rest[0]] + rest[1..]
  }

  /** `parts.join(sep)` */
  function Join(parts: seq<string>, sep: char): string
    decreases |parts|
  {
    if |parts| == 0 then ""
    else if |parts| == 1 then parts[0]
    else parts[0] + [sep] + Join(parts[1..], sep)
  }

  /** The pieces one after the other, as a template literal or a chain of
      `+` builds a message. */
  function Concat(parts: seq<string>): (r: string)
    ensures |parts| > 0 ==> parts[0] <= r
    decreases |parts|
  {
    if |parts| == 0 then "" else parts[0] + Concat(parts[1..])
  }

  /** `a.slice(0, n)` for n >= 0 */
  function Take<T>(a: seq<T>, n: nat): (r: seq<T>)
    ensures |r| <= n && r <= a
    ensures |a| >= n ==> |r| == n
  {
    if |a| <= n then a else a[..n]
  }

  lemma JoinConsChar(c: char, parts: seq<string>, sep: char)
    requires |parts| > 0
    ensures Join([[c] + parts[0]] + parts[1..], sep) == [c] + Join(parts, sep)
  {
    var q := [[c] + parts[0]] + parts[1..];
    if |parts| > 1 {
      assert q[1..] == parts[1..];
    }
  }

  /** Joining the pieces of a split with the same separator gives the
      string back. */
  lemma {:induction false} JoinSplit(s: string, sep: char)
    ensures Join(Split(s, sep), sep) == s
    decreases |s|
  {
    if |s| > 0 {
      JoinSplit(s[1..], sep);
      var rest := Split(s[1..], sep);
      if s[0] == sep {
        assert ([""] + rest)[1..] == rest;
        assert s == [sep] + s[1..];
      } else {
        JoinConsChar(s[0], rest, sep);
        assert s == [s[0]] + s[1..];
      }
    }
  }

  /** Splitting at a separator splits the two sides independently. */
  lemma {:induction false} SplitAppend(p: string, q: string, sep: char)
    ensures Split(p + [sep] + q, sep) == Split(p, sep) + Split(q, sep)
    decreases |p|
  {
    if |p| == 0 {
      assert p + [sep] + q == [sep] + q;
      SplitCons(sep, q, sep);
    } else {
      SplitAppend(p[1..], q, sep);
      SplitAppendStep(p[0], p[1..], q, sep);
      assert p == [p[0]] + p[1..];
    }
  }

  lemma SplitAppendStep(c: char, p: string, q: string, sep: char)
    requires Split(p + [sep] + q, sep) == Split(p, sep) + Split(q, sep)
    ensures Split([c] + p + [sep] + q, sep) == Split([c] + p, sep) + Split(q, sep)
  {
    var w := p + [sep] + q;
    assert [c] + p + [sep] + q == [c] + w;
    SplitCons(c, w, sep);
    SplitCons(c, p, sep);
    ConsPieceAppend(c, Split(p, sep), Split(q, sep), sep);
  }

  /** Adding a character in front of the pieces commutes with appending
      more pieces behind them. */
  lemma ConsPieceAppend(c: char, a: seq<string>, b: seq<string>, sep: char)
    requires |a| > 0
    ensures (if c == sep then [""] + (a + b) else [[c] + (a + b)[0]] + (a + b)[1..])
         == (if c == sep then [""] + a else [[c] + a[0]] + a[1..]) + b
  {
    if c != sep {
      assert (a + b)[0] == a[0];
      assert (a + b)[1..] == a[1..] + b;
    }
  }

  /** One step of `Split`: the first character either starts a new piece
      or joins the first piece of the rest. */
  lemma SplitCons(c: char, s: string, sep: char)
    ensures Split([c] + s, sep) ==
      if c == sep then [""] + Split(s, sep) else [[c] + Split(s, sep)[0]] + Split(s, sep)[1..]
  {
    assert ([c] + s)[0] == c && ([c] + s)[1..] == s;
  }

  lemma {:induction false} SplitWithoutSep(w: string, sep: char)
    requires sep !in w
    ensures Split(w, sep) == [w]
    decreases |w|
  {
    if |w| > 0 {
      SplitWithoutSep(w[1..], sep);
      assert [w[0]] + w[1..] == w;
    }
  }

  /** Splitting a join of separator-free pieces gives the pieces back. */
  lemma {:induction false} SplitJoin(parts: seq<string>, sep: char)
    requires |parts| > 0
    requires forall i :: 0 <= i < |parts| ==> sep !in parts[i]
    ensures Split(Join(parts, sep), sep) == parts
    decreases |parts|
  {
    SplitWithoutSep(parts[0], sep);
    if |parts| > 1 {
      SplitJoin(parts[1..], sep);
      SplitAppend(parts[0], Join(parts[1..], sep), sep);
      assert [parts[0]] + parts[1..] == parts;
    }
  }

  /** Replaces every character by its image under `f`. */
  function MapChars(s: string, f: char -> char): (r: string)
    ensures |r| == |s|
    ensures forall i :: 0 <= i < |s| ==> r[i] == f(s[i])
  {
    seq(|s|, i requires 0 <= i < |s| => f(s[i]))
  }

  lemma MapCharsAppend(a: string, b: string, f: char -> char)
    ensures MapChars(a + b, f) == MapChars(a, f) + MapChars(b, f)
  {
  }

  /** Keeps the characters `keep` accepts, in order (a global regular
      expression replacement by ''). */
  function Filter(s: string, keep: char -> bool): (r: string)
    ensures |r| <= |s|
    ensures forall i :: 0 <= i < |r| ==> keep(r[i])
    decreases |s|
  {
    if |s| == 0 then ""
    else (if keep(s[0]) then [s[0]] else "") + Filter(s[1..], keep)
  }

  lemma {:induction false} FilterAppend(a: string, b: string, keep: char -> bool)
    ensures Filter(a + b, keep) == Filter(a, keep) + Filter(b, keep)
    decreases |a|
  {
    if |a| > 0 {
      var head: string := if keep(a[0]) then [a[0]] else "";
      assert (a + b)[0] == a[0] && (a + b)[1..] == a[1..] + b;
      FilterAppend(a[1..], b, keep);
      assert Filter(a + b, keep) == head + (Filter(a[1..], keep) + Filter(b, keep));
      assert Filter(a, keep) == head + Filter(a[1..], keep);
    } else {
      assert a + b == b;
    }
  }

  /** A string whose every character `keep` accepts is its own filter. */
  lemma {:induction false} FilterKeepsAll(s: string, keep: char -> bool)
    requires forall i :: 0 <= i < |s| ==> keep(s[i])
    ensures Filter(s, keep) == s
    decreases |s|
  {
    if |s| > 0 {
      FilterKeepsAll(s[1..], keep);
      assert [s[0]] + s[1..] == s;
    }
  }

  /** The UTF-16 code units of a character: two for a character outside
      the Basic Multilingual Plane (a surrogate pair), one otherwise. */
  function Units(c: char): (r: nat)
    ensures 1 <= r <= 2
  {
    if c as int >= 0x1_0000 then 2 else 1
  }

  /** Every character is a single UTF-16 code unit. */
  predicate InBmp(s: string) {
    forall i :: 0 <= i < |s| ==> Units(s[i]) == 1
  }

  /** `s.length`: the number of UTF-16 code units, which is the number of
      characters exactly for text of the Basic Multilingual Plane. */
  function Length(s: string): (r: nat)
    ensures |s| <= r <= 2 * |s|
    ensures InBmp(s) ==> r == |s|
    decreases |s|
  {
    if |s| == 0 then 0 else Units(s[0]) + Length(s[1..])
  }

  lemma {:induction false} LengthAppend(a: string, b: string)
    ensures Length(a + b) == Length(a) + Length(b)
    decreases |a|
  {
    if |a| == 0 {
      assert a + b == b;
    } else {
      assert (a + b)[0] == a[0] && (a + b)[1..] == a[1..] + b;
      LengthAppend(a[1..], b);
    }
  }

  /** `s.substring(0, n)` on whole characters: the longest prefix of `s`
      that is at most `n` code units long (`n` clamped at 0). Where the cut
      falls between the two halves of a surrogate pair, the whole pair is
      left out. */
  function Prefix(s: string, n: int): (r: string)
    ensures r <= s
    ensures Length(r) <= (if n <= 0 then 0 else n)
    ensures r != s ==> Length(r) + Units(s[|r|]) > n
    ensures Length(s) <= n ==> r == s
    ensures InBmp(s) ==> |r| == if n <= 0 then 0 else if n >= |s| then |s| else n
    decreases |s|
  {
    if |s| == 0 || Units(s[0]) > n then ""
    else
      var rest := Prefix(s[1..], n - Units(s[0]));
      assert ([s[0]] + rest)[1..] == rest;
      assert InBmp(s) ==> InBmp(s[1..]);
      [s[0]] + rest
  }

  /** A cut that leaves anything out is at most one code unit short: only
      a surrogate pair straddling the cut is dropped. */
  lemma PrefixShortByAtMostOne(s: string, n: int)
    requires Length(s) > n >= 0
    ensures n - 1 <= Length(Prefix(s, n)) <= n
  {
  }

  function ToLowerChar(c: char): char {
    if 'A' <= c <= 'Z' then (c as int + 32) as char else c
  }

  function ToUpperChar(c: char): char {
    if 'a' <= c <= 'z' then (c as int - 32) as char else c
  }

  predicate IsDigit(c: char) {
    '0' <= c <= '9'
  }

  predicate AllDigits(s: string) {
    forall i :: 0 <= i < |s| ==> IsDigit(s[i])
  }

  function DigitChar(d: nat): (c: char)
    requires d < 10
    ensures IsDigit(c)
  {
    ('0' as int + d) as char
  }

  function DigitValue(c: char): nat
    requires IsDigit(c)
  {
    c as int - '0' as int
  }

  /** The decimal digits of a natural number, without leading zeros. */
  function NatToString(n: nat): (r: string)
    ensures |r| > 0 && AllDigits(r)
    decreases n
  {
    if n < 10 then [DigitChar(n)] else NatToString(n / 10) + [DigitChar(n % 10)]
  }

  /** `String(n)` for an integer n (below 10^21 in magnitude, where
      JavaScript switches to exponent notation). */
  function IntToString(n: int): (r: string)
    ensures |r| > 0
    ensures n >= 0 ==> AllDigits(r)
    ensures n < 0 ==> r[0] == '-' && AllDigits(r[1..])
  {
    if n < 0 then "-" + NatToString(-n) else NatToString(n)
  }

  /** The number a string of decimal digits denotes. */
  function DigitsValue(s: string): nat
    requires AllDigits(s)
    decreases |s|
  {
    if |s| == 0 then 0 else DigitsValue(s[..|s| - 1]) * 10 + DigitValue(s[|s| - 1])
  }

  lemma {:induction false} DigitsValueOfNat(n: nat)
    ensures DigitsValue(NatToString(n)) == n
    decreases n
  {
    if n >= 10 {
      DigitsValueOfNat(n / 10);
      var s := NatToString(n);
      assert s[..|s| - 1] == NatToString(n / 10);
    }
  }

  /** The longest prefix of decimal digits. */
  function LeadingDigits(s: string): (r: string)
    ensures AllDigits(r) && r <= s
    ensures |r| < |s| ==> !IsDigit(s[|r|])
    decreases |s|
  {
    if |s| > 0 && IsDigit(s[0]) then [s[0]] + LeadingDigits(s[1..]) else ""
  }

  lemma {:induction false} LeadingDigitsOfDigits(d: string, rest: string)
    requires AllDigits(d)
    requires |rest| == 0 || !IsDigit(rest[0])
    ensures LeadingDigits(d + rest) == d
    decreases |d|
  {
    if |d| > 0 {
      assert (d + rest)[1..] == d[1..] + rest;
      LeadingDigitsOfDigits(d[1..], rest);
      assert [d[0]] + d[1..] == d;
    } else {
      assert d + rest == rest;
    }
  }

  /** `parseInt(s, 10)`: skips leading white space, reads an optional sign
      and the longest run of decimal digits; NaN (None) when there is no
      digit there. */
  function ParseInt(s: string): Option<int>
  {
    ParseSigned(TrimStart(s))
  }

  /** The sign-and-digits part of `parseInt`, after the white space. */
  function ParseSigned(t: string): Option<int>
  {
    if |t| > 0 && t[0] == '-' then
      match ParseDigits(t[1..])
      case None => None
      case Some(v) => Some(-v)
    else if |t| > 0 && t[0] == '+' then ParseDigits(t[1..])
    else ParseDigits(t)
  }

  /** The value of the leading run of digits, NaN (None) when it is empty. */
  function ParseDigits(u: string): Option<int>
  {
    var d := LeadingDigits(u);
    if |d| == 0 then None else Some(DigitsValue(d))
  }

  lemma ParseDigitsOfDigits(digits: string, rest: string)
    requires |digits| > 0 && AllDigits(digits)
    requires |rest| == 0 || !IsDigit(rest[0])
    ensures ParseDigits(digits + rest) == Some(DigitsValue(digits) as int)
  {
    LeadingDigitsOfDigits(digits, rest);
  }

  /** `parseInt` reads back the decimal rendering of an integer, whatever
      non-digit text follows it ("1024px" reads as 1024). */
  lemma ParseIntOfIntToString(n: int, rest: string)
    requires |rest| == 0 || !IsDigit(rest[0])
    ensures ParseInt(IntToString(n) + rest) == Some(n)
  {
    if n < 0 {
      NegativeThenRest(n, rest);
    } else {
      NonNegativeThenRest(n, rest);
    }
  }

  lemma NegativeThenRest(n: int, rest: string)
    requires n < 0
    requires |rest| == 0 || !IsDigit(rest[0])
    ensures ParseInt(IntToString(n) + rest) == Some(n)
  {
    var m: nat := -n;
    assert IntToString(n) == "-" + NatToString(m);
    MinusDigitsThenRest(m, rest);
  }

  lemma NonNegativeThenRest(n: nat, rest: string)
    requires |rest| == 0 || !IsDigit(rest[0])
    ensures ParseInt(IntToString(n) + rest) == Some(n)
  {
    DigitsThenRest(n, rest);
    ParseUnsigned(NatToString(n) + rest, n);
  }

  /** A minus sign, the digits of a number and text that does not start
      with a digit read back as the negated number. */
  lemma MinusDigitsThenRest(m: nat, rest: string)
    requires |rest| == 0 || !IsDigit(rest[0])
    ensures ParseInt("-" + NatToString(m) + rest) == Some(-(m as int))
  {
    var digits := NatToString(m);
    DigitsThenRest(m, rest);
    assert "-" + digits + rest == "-" + (digits + rest);
    ParseMinus(digits + rest, m);
  }

  /** The digits of a number, followed by text that does not start with a
      digit, read back as that number. */
  lemma DigitsThenRest(m: nat, rest: string)
    requires |rest| == 0 || !IsDigit(rest[0])
    ensures var u := NatToString(m) + rest;
      |u| > 0 && IsDigit(u[0]) && ParseDigits(u) == Some(m)
  {
    var digits := NatToString(m);
    DigitsValueOfNat(m);
    ParseDigitsOfDigits(digits, rest);
    assert (digits + rest)[0] == digits[0];
  }

  lemma ParseMinus(u: string, v: int)
    requires ParseDigits(u) == Some(v)
    ensures ParseInt("-" + u) == Some(-v)
  {
    var x := "-" + u;
    SignedMinus(x, u, v);
    TrimStartAtNonSpace(x);
  }

  lemma SignedMinus(x: string, u: string, v: int)
    requires x == "-" + u && ParseDigits(u) == Some(v)
    ensures |x| > 0 && !IsSpace(x[0]) && ParseSigned(x) == Some(-v)
  {
    assert x[0] == '-' && x[1..] == u;
  }

  /** Text that does not start with white space has none to trim. */
  lemma TrimStartAtNonSpace(x: string)
    requires |x| > 0 && !IsSpace(x[0])
    ensures TrimStart(x) == x
  {
  }

  lemma ParseUnsigned(u: string, v: int)
    requires |u| > 0 && IsDigit(u[0]) && ParseDigits(u) == Some(v)
    ensures ParseInt(u) == Some(v)
  {
    TrimStartAtNonSpace(u);
  }

  /** `parseInt(String(n), 10) === n` */
  lemma ParseIntRoundTrip(n: int)
    ensures ParseInt(IntToString(n)) == Some(n)
  {
    ParseIntOfIntToString(n, "");
    assert IntToString(n) + "" == IntToString(n);
  }

  /** A string without any decimal digit parses to NaN. */
  lemma ParseIntWithoutDigits(s: string)
    requires forall i :: 0 <= i < |s| ==> !IsDigit(s[i])
    ensures ParseInt(s) == None
  {
    var t := TrimStart(s);
    var u := if |t| > 0 && (t[0] == '-' || t[0] == '+') then t[1..] else t;
    assert u == s[|s| - |u|..];
    if |u| > 0 {
      assert u[0] == s[|s| - |u|];
    }
    assert ParseDigits(u) == None;
  }
}
