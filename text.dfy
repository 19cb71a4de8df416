/**
 * The JavaScript string operations the core relies on: trim, startsWith,
 * indexOf/includes, lastIndexOf, split, join, replace, toLowerCase and
 * parseInt. Whitespace and letter case are the ASCII ones.
 */
module Text {
  import opened Wrappers

  /** The ASCII characters String.prototype.trim removes. */
  predicate IsSpace(c: char)
  {
    c == ' ' || c == '\t' || c == '\n' || c == '\r' || c as int == 11 || c as int == 12
  }

  /** True when `s` has no whitespace at either end (the empty string included). */
  predicate Trimmed(s: string)
  {
    s == [] || (!IsSpace(s[0]) && !IsSpace(s[|s| - 1]))
  }

  /** Leading whitespace removed: the longest suffix of `s` that starts with a non-space. */
  function TrimStart(s: string): string
  {
    if s != [] && IsSpace(s[0]) then TrimStart(s[1..]) else s
  }

  lemma {:induction false} TrimStartSpec(s: string)
    ensures |TrimStart(s)| <= |s| && TrimStart(s) == s[|s| - |TrimStart(s)|..]
    ensures TrimStart(s) == [] || !IsSpace(TrimStart(s)[0])
    ensures forall i :: 0 <= i < |s| - |TrimStart(s)| ==> IsSpace(s[i])
  {
    if s != [] && IsSpace(s[0]) {
      var t := s[1..];
      TrimStartSpec(t);
      assert TrimStart(s) == TrimStart(t);
      assert TrimStart(s) == s[|s| - |TrimStart(s)|..] by {
        assert t[|t| - |TrimStart(t)|..] == s[|s| - |TrimStart(s)|..];
      }
      forall i | 1 <= i < |s| - |TrimStart(s)|
        ensures IsSpace(s[i])
      {
        assert s[i] == t[i - 1];
      }
    }
  }

  /** Trailing whitespace removed: the longest prefix of `s` that ends with a non-space. */
  function TrimEnd(s: string): string
  {
    if s != [] && IsSpace(s[|s| - 1]) then TrimEnd(s[..|s| - 1]) else s
  }

  lemma {:induction false} TrimEndSpec(s: string)
    ensures |TrimEnd(s)| <= |s| && TrimEnd(s) == s[..|TrimEnd(s)|]
    ensures TrimEnd(s) == [] || !IsSpace(TrimEnd(s)[|TrimEnd(s)| - 1])
    ensures forall i :: |TrimEnd(s)| <= i < |s| ==> IsSpace(s[i])
  {
    if s != [] && IsSpace(s[|s| - 1]) {
      TrimEndSpec(s[..|s| - 1]);
    }
  }

  /** `s[i..j]` with nothing but whitespace before `i` and from `j` on. */
  predicate Inner(s: string, r: string, i: nat, j: nat)
  {
    i <= j <= |s| && r == s[i..j]
    && (forall k :: 0 <= k < i ==> IsSpace(s[k]))
    && (forall k :: j <= k < |s| ==> IsSpace(s[k]))
  }

  /** String.prototype.trim: the input with its leading and trailing whitespace cut off. */
  function Trim(s: string): (r: string)
    ensures Trimmed(r)
    ensures exists i, j :: Inner(s, r, i, j)
    ensures r == [] <==> forall i :: 0 <= i < |s| ==> IsSpace(s[i])
  {
    TrimFacts(s);
    TrimEnd(TrimStart(s))
  }

  lemma TrimFacts(s: string)
    ensures Trimmed(TrimEnd(TrimStart(s)))
    ensures exists i, j :: Inner(s, TrimEnd(TrimStart(s)), i, j)
    ensures TrimEnd(TrimStart(s)) == [] <==> forall i :: 0 <= i < |s| ==> IsSpace(s[i])
  {
    var t := TrimStart(s);
    var r := TrimEnd(t);
    TrimStartSpec(s);
    TrimEndSpec(t);
    TrimInner(s);
    if r != [] {
      assert r[0] == t[0];
      assert s[|s| - |t|] == t[0];
    } else {
      assert t == [];
    }
  }

  /** The trimmed text is the slice between the leading and the trailing whitespace. */
  lemma {:induction false} TrimInner(s: string)
    ensures |TrimStart(s)| <= |s|
    ensures Inner(s, TrimEnd(TrimStart(s)), |s| - |TrimStart(s)|, |s| - |TrimStart(s)| + |TrimEnd(TrimStart(s))|)
  {
    var t := TrimStart(s);
    var r := TrimEnd(t);
    TrimStartSpec(s);
    TrimEndSpec(t);
    var i := |s| - |t|;
    var j := i + |r|;
    assert t == s[i..];
    assert r == t[..|r|];
    assert r == s[i..j];
    forall k | j <= k < |s| ensures IsSpace(s[k]) {
      assert s[k] == t[k - i];
    }
  }

  lemma TrimOfTrimmed(s: string)
    requires Trimmed(s)
    ensures Trim(s) == s
  {
  }

  /** One leading space in front of a trimmed string is all that Trim removes. */
  lemma TrimSpacePrefix(s: string)
    requires Trimmed(s)
    ensures Trim(" " + s) == s
  {
    assert (" " + s)[1..] == s;
    assert TrimStart(" " + s) == TrimStart(s) == s;
    assert TrimEnd(s) == s;
  }

  /** String.prototype.startsWith. */
  predicate StartsWith(s: string, prefix: string)
  {
    |prefix| <= |s| && s[..|prefix|] == prefix
  }

  /** `pat` occurs in `s` at position `i`. */
  predicate OccursAt(s: string, pat: string, i: nat)
  {
    i + |pat| <= |s| && s[i..i + |pat|] == pat
  }

  lemma OccursAtShift(s: string, pat: string, j: nat)
    requires |s| > 0
    ensures OccursAt(s, pat, j + 1) <==> OccursAt(s[1..], pat, j)
  {
    if j + 1 + |pat| <= |s| {
      assert s[j + 1..j + 1 + |pat|] == s[1..][j..j + |pat|];
    }
  }

  /** String.prototype.indexOf for a substring: the first position where `pat` occurs. */
  function IndexOf(s: string, pat: string): (r: Option<nat>)
    ensures r.Some? ==> OccursAt(s, pat, r.value)
    ensures r.Some? ==> forall j: nat :: j < r.value ==> !OccursAt(s, pat, j)
    ensures r.None? ==> forall j: nat :: !OccursAt(s, pat, j)
    decreases |s|
  {
    if |s| < |pat| then None
    else if s[..|pat|] == pat then Some(0)
    else
      var rest := IndexOf(s[1..], pat);
      assert forall j: nat :: OccursAt(s, pat, j + 1) <==> OccursAt(s[1..], pat, j) by {
        forall j: nat ensures OccursAt(s, pat, j + 1) <==> OccursAt(s[1..], pat, j) {
          OccursAtShift(s, pat, j);
        }
      }
      assert !OccursAt(s, pat, 0);
      match rest
      case None =>
        assert forall j: nat :: !OccursAt(s, pat, j) by {
          forall j: nat ensures !OccursAt(s, pat, j) {
            if j > 0 { assert !OccursAt(s[1..], pat, j - 1); }
          }
        }
        None
      case Some(k) =>
        assert forall j: nat :: j < k + 1 ==> !OccursAt(s, pat, j) by {
          forall j: nat | j < k + 1 ensures !OccursAt(s, pat, j) {
            if j > 0 { assert !OccursAt(s[1..], pat, j - 1); }
          }
        }
        Some(k + 1)
  }

  /** The first occurrence is the one IndexOf finds. */
  lemma IndexOfFirst(s: string, pat: string, i: nat)
    requires OccursAt(s, pat, i)
    requires forall j: nat :: j < i ==> !OccursAt(s, pat, j)
    ensures IndexOf(s, pat) == Some(i)
  {
  }

  lemma IndexOfPrefix(s: string, pat: string)
    requires StartsWith(s, pat)
    ensures IndexOf(s, pat) == Some(0)
  {
    assert OccursAt(s, pat, 0);
    IndexOfFirst(s, pat, 0);
  }

  lemma IndexOfPrefixImplies(s: string, pat: string)
    ensures StartsWith(s, pat) ==> IndexOf(s, pat) == Some(0)
  {
    if StartsWith(s, pat) { IndexOfPrefix(s, pat); }
  }

  /** An occurrence inside a slice is an occurrence in the whole string. */
  lemma OccursInSlice(s: string, pat: string, i: nat, j: nat, k: nat)
    requires i <= j <= |s|
    ensures OccursAt(s[i..j], pat, k) ==> OccursAt(s, pat, i + k)
  {
    if OccursAt(s[i..j], pat, k) {
      var a, b := s[i..j][k..k + |pat|], s[i + k..i + k + |pat|];
      forall m | 0 <= m < |pat| ensures a[m] == b[m] {
        assert s[i..j][k + m] == s[i + k + m];
      }
      assert a == b;
    }
  }

  /** Trimming cannot create an occurrence of a pattern. */
  lemma TrimKeepsAbsent(s: string, pat: string)
    requires IndexOf(s, pat).None?
    ensures IndexOf(Trim(s), pat).None?
  {
    TrimInner(s);
    var i := |s| - |TrimStart(s)|;
    var j := i + |Trim(s)|;
    forall k: nat ensures !OccursAt(Trim(s), pat, k) {
      OccursInSlice(s, pat, i, j, k);
    }
  }

  /** Nothing before the first occurrence of a pattern contains it. */
  lemma BeforeFirst(s: string, pat: string)
    requires |pat| > 0 && IndexOf(s, pat).Some?
    ensures IndexOf(s[..IndexOf(s, pat).value], pat).None?
  {
    var i := IndexOf(s, pat).value;
    forall k: nat ensures !OccursAt(s[..i], pat, k) {
      OccursInSlice(s, pat, 0, i, k);
      assert s[..i] == s[0..i];
    }
  }

  /** String.prototype.includes. */
  predicate Contains(s: string, pat: string)
  {
    IndexOf(s, pat).Some?
  }

  /** String.prototype.replace with a string pattern: only the first occurrence is replaced. */
  function ReplaceFirst(s: string, pat: string, replacement: string): (r: string)
    ensures IndexOf(s, pat).None? ==> r == s
    ensures StartsWith(s, pat) ==> r == replacement + s[|pat|..]
  {
    match IndexOf(s, pat)
    case None => s
    case Some(i) =>
      IndexOfPrefixImplies(s, pat);
      s[..i] + replacement + s[i + |pat|..]
  }

  /** String.prototype.split with a non-empty string separator. */
  function Split(s: string, sep: string): (r: seq<string>)
    requires |sep| > 0
    ensures |r| >= 1
    ensures IndexOf(s, sep).Some? ==> |r| >= 2
    decreases |s|
  {
    match IndexOf(s, sep)
    case None => [s]
    case Some(i) => [s[..i]] + Split(s[i + |sep|..], sep)
  }

  /** Array.prototype.join. */
  function Join(parts: seq<string>, sep: string): (r: string)
  {
    if parts == [] then []
    else if |parts| == 1 then parts[0]
    else parts[0] + sep + Join(parts[1..], sep)
  }

  /** Joining the pieces of a split with the same separator gives the string back. */
  lemma {:induction false} JoinSplit(s: string, sep: string)
    requires |sep| > 0
    ensures Join(Split(s, sep), sep) == s
    decreases |s|
  {
    match IndexOf(s, sep)
    case None =>
    case Some(i) =>
      var rest := s[i + |sep|..];
      JoinSplit(rest, sep);
      JoinCons(s[..i], Split(rest, sep), sep);
      Rejoin(s, sep, i);
  }

  /** Joining a part in front of at least one more puts the separator between them. */
  lemma JoinCons(p: string, tail: seq<string>, sep: string)
    requires |tail| >= 1
    ensures Join([p] + tail, sep) == p + sep + Join(tail, sep)
  {
    assert ([p] + tail)[1..] == tail;
  }

  /** An occurrence of the separator, with the text on both sides, is the whole string. */
  lemma Rejoin(s: string, sep: string, i: nat)
    requires OccursAt(s, sep, i)
    ensures s[..i] + sep + s[i + |sep|..] == s
  {
    assert s == s[..i] + s[i..i + |sep|] + s[i + |sep|..];
  }

  /** Splitting a join on a one-character separator that no part contains gives the parts back. */
  lemma {:induction false} SplitJoin(parts: seq<string>, c: char)
    requires |parts| >= 1
    requires forall k :: 0 <= k < |parts| ==> c !in parts[k]
    ensures Split(Join(parts, [c]), [c]) == parts
    decreases |parts|
  {
    var s := Join(parts, [c]);
    var p := parts[0];
    forall j: nat ensures !OccursAt(p, [c], j) {
      OccursAtChar(p, c, j);
    }
    if |parts| == 1 {
      assert s == p;
      assert IndexOf(s, [c]).None?;
    } else {
      var rest := Join(parts[1..], [c]);
      assert s == p + [c] + rest;
      assert OccursAt(s, [c], |p|) by { assert s[|p|..|p| + 1] == [c]; }
      forall j: nat | j < |p| ensures !OccursAt(s, [c], j) {
        OccursAtChar(s, c, j);
        assert s[j] == p[j];
      }
      IndexOfFirst(s, [c], |p|);
      assert s[..|p|] == p;
      assert s[|p| + 1..] == rest;
      SplitJoin(parts[1..], c);
      assert Split(s, [c]) == [p] + parts[1..];
    }
  }

  lemma OccursAtChar(s: string, c: char, j: nat)
    ensures OccursAt(s, [c], j) <==> j < |s| && s[j] == c
  {
    if j < |s| { assert s[j..j + 1] == [s[j]]; }
  }

  /** `text.replace(/\n/g, '<br>')`: every newline becomes a line-break tag. */
  function LineBreaksToBr(s: string): (r: string)
    ensures '\n' !in r
    ensures '\n' !in s ==> r == s
  {
    if s == [] then []
    else (if s[0] == '\n' then "<br>" else [s[0]]) + LineBreaksToBr(s[1..])
  }

  /** The replacement works character by character, so it distributes over concatenation. */
  lemma {:induction false} LineBreaksToBrAppend(a: string, b: string)
    ensures LineBreaksToBr(a + b) == LineBreaksToBr(a) + LineBreaksToBr(b)
    decreases |a|
  {
    if a != [] {
      var head := if a[0] == '\n' then "<br>" else [a[0]];
      calc {
        LineBreaksToBr(a + b);
        { assert (a + b)[0] == a[0]; }
        head + LineBreaksToBr((a + b)[1..]);
        { assert (a + b)[1..] == a[1..] + b; }
        head + LineBreaksToBr(a[1..] + b);
        { LineBreaksToBrAppend(a[1..], b); }
        head + (LineBreaksToBr(a[1..]) + LineBreaksToBr(b));
        (head + LineBreaksToBr(a[1..])) + LineBreaksToBr(b);
        LineBreaksToBr(a) + LineBreaksToBr(b);
      }
    } else {
      assert a + b == b;
    }
  }

  /** A lone newline becomes one line-break tag. */
  lemma LineBreakIsBr()
    ensures LineBreaksToBr("\n") == "<br>"
  {
    assert "\n"[1..] == [];
  }

  /**
   * The replacement agrees with its reference definition: the text cut at every
   * newline and glued back together with `<br>`.
   */
  lemma {:induction false} LineBreaksToBrJoin(s: string)
    ensures LineBreaksToBr(s) == Join(Split(s, "\n"), "<br>")
    decreases |s|
  {
    match IndexOf(s, "\n")
    case None =>
      forall j: nat | j < |s| ensures s[j] != '\n' {
        OccursAtChar(s, '\n', j);
      }
    case Some(i) =>
      var p := s[..i];
      var rest := s[i + 1..];
      forall j: nat | j < i ensures p[j] != '\n' {
        OccursAtChar(s, '\n', j);
      }
      assert s[i..i + 1] == "\n";
      assert s == p + "\n" + rest;
      var tail := Split(rest, "\n");
      assert ([p] + tail)[1..] == tail;
      calc {
        LineBreaksToBr(s);
        { LineBreaksToBrAppend(p + "\n", rest); LineBreaksToBrAppend(p, "\n"); }
        LineBreaksToBr(p) + LineBreaksToBr("\n") + LineBreaksToBr(rest);
        { LineBreakIsBr(); LineBreaksToBrJoin(rest); }
        p + "<br>" + Join(tail, "<br>");
        Join([p] + tail, "<br>");
      }
  }

  /** String.prototype.indexOf for one character: -1 when absent. */
  function FirstIndexOfChar(s: string, c: char): (r: int)
    ensures -1 <= r < |s|
    ensures r == -1 <==> c !in s
    ensures r >= 0 ==> s[r] == c && c !in s[..r]
  {
    if s == [] then -1
    else if s[0] == c then 0
    else
      var k := FirstIndexOfChar(s[1..], c);
      if k == -1 then -1
      else
        assert s[..k + 1] == [s[0]] + s[1..][..k];
        k + 1
  }

  /** String.prototype.lastIndexOf for one character: -1 when absent. */
  function LastIndexOfChar(s: string, c: char): (r: int)
    ensures -1 <= r < |s|
    ensures r == -1 <==> c !in s
    ensures r >= 0 ==> s[r] == c && c !in s[r + 1..]
  {
    if s == [] then -1
    else if s[|s| - 1] == c then |s| - 1
    else
      var k := LastIndexOfChar(s[..|s| - 1], c);
      assert s == s[..|s| - 1] + [s[|s| - 1]];
      assert k >= 0 ==> s[k + 1..] == s[..|s| - 1][k + 1..] + [s[|s| - 1]];
      k
  }

  /** The first occurrence of `c` is the one with no `c` before it. */
  lemma {:induction false} FirstIndexOfCharAt(s: string, c: char, i: nat)
    requires i < |s| && s[i] == c && c !in s[..i]
    ensures FirstIndexOfChar(s, c) == i
  {
    if i > 0 {
      assert s[0] in s[..i];
      assert s[1..][..i - 1] == s[1..i];
      assert s[..i] == [s[0]] + s[1..i];
      FirstIndexOfCharAt(s[1..], c, i - 1);
    }
  }

  /** The last occurrence of `c` is the one with no `c` after it. */
  lemma {:induction false} LastIndexOfCharAt(s: string, c: char, i: nat)
    requires i < |s| && s[i] == c && c !in s[i + 1..]
    ensures LastIndexOfChar(s, c) == i
    decreases |s|
  {
    if i < |s| - 1 {
      assert s[|s| - 1] in s[i + 1..];
      var init := s[..|s| - 1];
      assert init[i + 1..] == s[i + 1..|s| - 1];
      assert s[i + 1..] == s[i + 1..|s| - 1] + [s[|s| - 1]];
      LastIndexOfCharAt(init, c, i);
    }
  }

  /** String.prototype.slice(start, end) for positions inside the string: empty when end <= start. */
  function Slice(s: string, start: nat, end: nat): (r: string)
    requires start <= |s| && end <= |s|
    ensures start < end ==> r == s[start..end]
    ensures end <= start ==> r == []
  {
    if start < end then s[start..end] else []
  }

  /** ASCII letter case folding of String.prototype.toLowerCase. */
  function LowerChar(c: char): (r: char)
    ensures 'A' <= c <= 'Z' ==> r as int == c as int + 32
    ensures !('A' <= c <= 'Z') ==> r == c
  {
    if 'A' <= c <= 'Z' then (c as int + 32) as char else c
  }

  function ToLower(s: string): (r: string)
    ensures |r| == |s|
    ensures forall i :: 0 <= i < |s| ==> r[i] == LowerChar(s[i])
  {
    seq(|s|, i requires 0 <= i < |s| => LowerChar(s[i]))
  }

  /** Value of one digit in base 16 or below; -1 for a non-digit. */
  function DigitValue(c: char): (r: int)
    ensures -1 <= r < 36
  {
    if '0' <= c <= '9' then c as int - '0' as int
    else if 'a' <= c <= 'z' then c as int - 'a' as int + 10
    else if 'A' <= c <= 'Z' then c as int - 'A' as int + 10
    else -1
  }

  predicate IsDigit(c: char, radix: nat)
  {
    0 <= DigitValue(c) < radix
  }

  /** Length of the longest prefix of `s` made of digits of `radix`. */
  function DigitRun(s: string, radix: nat): (n: nat)
    ensures n <= |s|
    ensures forall i :: 0 <= i < n ==> IsDigit(s[i], radix)
    ensures n < |s| ==> !IsDigit(s[n], radix)
  {
    if s != [] && IsDigit(s[0], radix) then 1 + DigitRun(s[1..], radix) else 0
  }

  /** The number a string of digits denotes in `radix`, most significant digit first. */
  function DigitsValue(s: string, radix: nat): (v: nat)
    requires forall i :: 0 <= i < |s| ==> IsDigit(s[i], radix)
  {
    if s == [] then 0
    else
      assert IsDigit(s[|s| - 1], radix);
      var rest: nat := DigitsValue(s[..|s| - 1], radix);
      var digit: nat := DigitValue(s[|s| - 1]);
      MulNat(rest, radix);
      rest * radix + digit
  }

  lemma MulNat(a: nat, b: nat)
    ensures a * b >= 0
  {
  }

  /**
   * The global parseInt with no radix: skip leading whitespace, read an optional
   * sign, then the unsigned part; no digit at all is NaN (None).
   */
  function ParseInt(s: string): (r: Option<int>)
    ensures (forall i :: 0 <= i < |s| ==> !IsDigit(s[i], 16)) ==> r.None?
  {
    TrimStartSpec(s);
    ParseSigned(TrimStart(s))
  }

  /** parseInt once the leading whitespace is gone: an optional sign, then the unsigned part. */
  function ParseSigned(t: string): (r: Option<int>)
    ensures (forall i :: 0 <= i < |t| ==> !IsDigit(t[i], 16)) ==> r.None?
  {
    var u := if t != [] && (t[0] == '-' || t[0] == '+') then t[1..] else t;
    assert forall i :: 0 <= i < |u| ==> u[i] == t[|t| - |u| + i];
    if t != [] && t[0] == '-' then Negate(ParseUnsigned(u))
    else match ParseUnsigned(u)
      case None => None
      case Some(m) => Some(m as int)
  }

  /** The unary minus on parseInt's result; NaN stays NaN. */
  function Negate(r: Option<nat>): Option<int>
  {
    match r
    case None => None
    case Some(m) => Some(-(m as int))
  }

  /**
   * The part of parseInt after the sign: an optional 0x/0X prefix (base 16,
   * otherwise base 10), then the longest run of digits; no digit is None.
   */
  function ParseUnsigned(u: string): (r: Option<nat>)
    ensures (forall i :: 0 <= i < |u| ==> !IsDigit(u[i], 16)) ==> r.None?
  {
    var hex := |u| >= 2 && u[0] == '0' && (u[1] == 'x' || u[1] == 'X');
    var radix := if hex then 16 else 10;
    var v := if hex then u[2..] else u;
    var n := DigitRun(v, radix);
    if n == 0 then None
    else
      assert v[0] == u[|u| - |v|];
      Some(DigitsValue(v[..n], radix))
  }

  /** Decimal digits of a natural number, most significant first (Number.prototype.toString). */
  function Decimal(n: nat): (s: string)
    ensures |s| > 0
    ensures forall i :: 0 <= i < |s| ==> IsDigit(s[i], 10)
  {
    var d := [('0' as int + n % 10) as char];
    if n < 10 then d else Decimal(n / 10) + d
  }

  lemma {:induction false} DecimalValue(n: nat)
    ensures DigitsValue(Decimal(n), 10) == n
  {
    var s := Decimal(n);
    if n >= 10 {
      DecimalValue(n / 10);
      assert s[..|s| - 1] == Decimal(n / 10);
    }
  }

  /** parseInt reads back the decimal form of every natural number. */
  lemma ParseIntDecimal(n: nat)
    ensures ParseInt(Decimal(n)) == Some(n)
  {
    ParseIntDecimalPrefix(n, []);
    assert Decimal(n) + [] == Decimal(n);
  }

  /**
   * parseInt stops at the first character that is not a digit: a decimal number
   * followed by other text ("85.5", "70%") reads as that number. The one
   * exception is a lone 0 followed by x or X, which starts a hexadecimal number.
   */
  lemma {:induction false} ParseIntDecimalPrefix(n: nat, rest: string)
    requires rest == [] || !IsDigit(rest[0], 10)
    requires !(n == 0 && rest != [] && (rest[0] == 'x' || rest[0] == 'X'))
    ensures ParseInt(Decimal(n) + rest) == Some(n)
  {
    var x := Decimal(n) + rest;
    UnsignedDecimal(n, rest);
    assert [] + x == x;
    ReadPlain([], x, n, x);
  }

  /** The unsigned part of parseInt reads a decimal and stops at the first non-digit after it. */
  lemma {:induction false} UnsignedDecimal(n: nat, rest: string)
    requires rest == [] || !IsDigit(rest[0], 10)
    requires !(n == 0 && rest != [] && (rest[0] == 'x' || rest[0] == 'X'))
    ensures var x := Decimal(n) + rest; x != [] && '0' <= x[0] <= '9'
    ensures ParseUnsigned(Decimal(n) + rest) == Some(n)
  {
    var d := Decimal(n);
    var x := d + rest;
    assert x[0] == d[0];
    DecimalDigitChar(d[0]);
    if |d| >= 2 {
      assert x[1] == d[1];
      DecimalDigitChar(d[1]);
    } else {
      assert d[0] == '0' ==> n == 0;
    }
    DigitRunPrefix(d, rest, 10);
    assert x[..|d|] == d;
    DecimalValue(n);
  }

  /** Leading whitespace in front of a string that starts with a non-space is what TrimStart removes. */
  lemma {:induction false} TrimStartSpaces(ws: string, t: string)
    requires forall i :: 0 <= i < |ws| ==> IsSpace(ws[i])
    requires t == [] || !IsSpace(t[0])
    ensures TrimStart(ws + t) == t
  {
    if ws == [] {
      assert ws + t == t;
    } else {
      assert (ws + t)[1..] == ws[1..] + t;
      TrimStartSpaces(ws[1..], t);
    }
  }

  /** parseInt of leading whitespace and then a non-space is ParseSigned of the rest. */
  lemma {:induction false} AfterSpaces(ws: string, t: string, s: string)
    requires forall i :: 0 <= i < |ws| ==> IsSpace(ws[i])
    requires t != [] && !IsSpace(t[0]) && s == ws + t
    ensures ParseInt(s) == ParseSigned(t)
  {
    TrimStartSpaces(ws, t);
  }

  /** After the whitespace, a "-" negates the unsigned part that follows it. */
  lemma {:induction false} MinusDigits(x: string, m: nat)
    requires x != [] && '0' <= x[0] <= '9' && ParseUnsigned(x) == Some(m)
    ensures ParseSigned(['-'] + x) == Some(-(m as int))
  {
    var t := ['-'] + x;
    assert t[0] == '-' && t[1..] == x;
  }

  /** After the whitespace, a "+" is skipped. */
  lemma {:induction false} PlusDigits(x: string)
    requires x != [] && '0' <= x[0] <= '9'
    ensures ParseSigned(['+'] + x) == ParseSigned(x)
  {
    var t := ['+'] + x;
    assert t[0] == '+' && t[1..] == x;
  }

  /** With no sign, the unsigned part is the number. */
  lemma {:induction false} NoSignDigits(x: string, m: nat)
    requires x != [] && '0' <= x[0] <= '9' && ParseUnsigned(x) == Some(m)
    ensures ParseSigned(x) == Some(m as int)
  {
  }

  /** Whitespace, then digits whose unsigned reading is `m`, reads as `m`. */
  lemma {:induction false} ReadPlain(ws: string, x: string, m: nat, s: string)
    requires forall i :: 0 <= i < |ws| ==> IsSpace(ws[i])
    requires x != [] && '0' <= x[0] <= '9' && ParseUnsigned(x) == Some(m) && s == ws + x
    ensures ParseInt(s) == Some(m as int)
  {
    AfterSpaces(ws, x, s);
    NoSignDigits(x, m);
  }

  /** Whitespace, "+", then digits whose unsigned reading is `m`, reads as `m`. */
  lemma {:induction false} ReadPlus(ws: string, x: string, m: nat, s: string)
    requires forall i :: 0 <= i < |ws| ==> IsSpace(ws[i])
    requires x != [] && '0' <= x[0] <= '9' && ParseUnsigned(x) == Some(m) && s == ws + (['+'] + x)
    ensures ParseInt(s) == Some(m as int)
  {
    AfterSpaces(ws, ['+'] + x, s);
    PlusDigits(x);
    NoSignDigits(x, m);
  }

  /** Whitespace, "-", then digits whose unsigned reading is `m`, reads as `-m`. */
  lemma {:induction false} ReadMinus(ws: string, x: string, m: nat, s: string)
    requires forall i :: 0 <= i < |ws| ==> IsSpace(ws[i])
    requires x != [] && '0' <= x[0] <= '9' && ParseUnsigned(x) == Some(m) && s == ws + (['-'] + x)
    ensures ParseInt(s) == Some(-(m as int))
  {
    AfterSpaces(ws, ['-'] + x, s);
    MinusDigits(x, m);
  }

  /** Leading whitespace before an unsigned decimal, with any non-digit text after it, is skipped. */
  lemma {:induction false} ParseIntUnsigned(ws: string, n: nat, rest: string)
    requires forall i :: 0 <= i < |ws| ==> IsSpace(ws[i])
    requires rest == [] || !IsDigit(rest[0], 10)
    requires !(n == 0 && rest != [] && (rest[0] == 'x' || rest[0] == 'X'))
    ensures ParseInt(ws + Decimal(n) + rest) == Some(n)
  {
    UnsignedDecimal(n, rest);
    assert ws + Decimal(n) + rest == ws + (Decimal(n) + rest);
    ReadPlain(ws, Decimal(n) + rest, n, ws + Decimal(n) + rest);
  }

  /** A "+" between the whitespace and the decimal is skipped. */
  lemma {:induction false} ParseIntPlus(ws: string, n: nat, rest: string)
    requires forall i :: 0 <= i < |ws| ==> IsSpace(ws[i])
    requires rest == [] || !IsDigit(rest[0], 10)
    requires !(n == 0 && rest != [] && (rest[0] == 'x' || rest[0] == 'X'))
    ensures ParseInt(ws + "+" + Decimal(n) + rest) == Some(n)
  {
    UnsignedDecimal(n, rest);
    Regroup(ws, "+", Decimal(n), rest);
    ReadPlus(ws, Decimal(n) + rest, n, ws + "+" + Decimal(n) + rest);
  }

  /** A "-" between the whitespace and the decimal negates it. */
  lemma {:induction false} ParseIntMinus(ws: string, n: nat, rest: string)
    requires forall i :: 0 <= i < |ws| ==> IsSpace(ws[i])
    requires rest == [] || !IsDigit(rest[0], 10)
    requires !(n == 0 && rest != [] && (rest[0] == 'x' || rest[0] == 'X'))
    ensures ParseInt(ws + "-" + Decimal(n) + rest) == Some(-(n as int))
  {
    UnsignedDecimal(n, rest);
    Regroup(ws, "-", Decimal(n), rest);
    ReadMinus(ws, Decimal(n) + rest, n, ws + "-" + Decimal(n) + rest);
  }

  /** Concatenation regrouped to the right. */
  lemma Regroup(a: string, b: string, c: string, d: string)
    ensures a + b + c + d == a + (b + (c + d))
  {
  }

  /** "-" before the digits of a positive number reads as its negation. */
  lemma {:induction false} ParseIntNegative(n: nat)
    requires n > 0
    ensures ParseInt("-" + Decimal(n)) == Some(-(n as int))
  {
    ParseIntMinus([], n, []);
    assert [] + "-" + Decimal(n) + [] == "-" + Decimal(n);
  }

  /** A 0x or 0X prefix switches to base 16. */
  lemma ParseIntHex()
    ensures ParseInt("0x1F") == Some(31)
    ensures ParseInt(" 0X10") == Some(16)
  {
    HexLower();
    HexUpper();
  }

  lemma HexLower()
    ensures ParseInt("0x1F") == Some(31)
  {
    AfterSpaces("", "0x1F", "0x1F");
    HexDigits("1F", 1, 15);
    HexPrefix("0x1F", "1F", 31);
    NoSignDigits("0x1F", 31);
  }

  lemma HexUpper()
    ensures ParseInt(" 0X10") == Some(16)
  {
    AfterSpaces(" ", "0X10", " 0X10");
    HexDigits("10", 1, 0);
    HexPrefix("0X10", "10", 16);
    NoSignDigits("0X10", 16);
  }

  /** 0x or 0X followed by nothing but hexadecimal digits reads as their value. */
  lemma HexPrefix(u: string, v: string, m: nat)
    requires |u| >= 2 && u[0] == '0' && (u[1] == 'x' || u[1] == 'X') && u[2..] == v
    requires v != [] && DigitRun(v, 16) == |v| && DigitsValue(v, 16) == m
    ensures ParseUnsigned(u) == Some(m)
  {
    assert v[..|v|] == v;
  }

  /** Two hexadecimal digits with values `hi` and `lo`. */
  lemma HexDigits(s: string, hi: nat, lo: nat)
    requires |s| == 2 && DigitValue(s[0]) == hi < 16 && DigitValue(s[1]) == lo < 16
    ensures DigitRun(s, 16) == 2 && DigitsValue(s, 16) == hi * 16 + lo
  {
    assert s[1..][0] == s[1] && s[1..][1..] == [];
    assert DigitRun(s[1..], 16) == 1;
    assert s[..2] == s && s[..1][0] == s[0] && s[..1][..0] == [];
    assert DigitsValue(s[..1], 16) == hi;
  }

  lemma DecimalDigitChar(c: char)
    requires IsDigit(c, 10)
    ensures '0' <= c <= '9'
  {
  }

  lemma {:induction false} DigitRunPrefix(s: string, rest: string, radix: nat)
    requires forall i :: 0 <= i < |s| ==> IsDigit(s[i], radix)
    requires rest == [] || !IsDigit(rest[0], radix)
    ensures DigitRun(s + rest, radix) == |s|
  {
    if s == [] {
      assert s + rest == rest;
    } else {
      assert (s + rest)[1..] == s[1..] + rest;
      DigitRunPrefix(s[1..], rest, radix);
    }
  }
}
