/**
 * The part of Python's `str` behaviour that the Kitty adapter and its setup
 * scripts rely on, restricted to ASCII: whitespace, digits, lower-casing,
 * `strip`, `split`, `join`, substring search and decimal formatting.
 */
module PyText {

  datatype Option<T> = None | Some(value: T)

  /** `str.isspace` on one ASCII character: space, \t \n \v \f \r and the separators 0x1c-0x1f. */
  predicate IsSpace(c: char) {
    c == ' ' || 9 <= c as int <= 13 || 28 <= c as int <= 31
  }

  predicate IsDigit(c: char) {
    '0' <= c <= '9'
  }

  /** `str.isdigit`: every character a digit, and false on the empty string. */
  predicate AllDigits(s: string) {
    |s| > 0 && forall i :: 0 <= i < |s| ==> IsDigit(s[i])
  }

  function LowerChar(c: char): char {
    if 'A' <= c <= 'Z' then (c as int + 32) as char else c
  }

  /** `str.lower` on ASCII. */
  function Lower(s: string): (r: string)
    ensures |r| == |s|
    ensures forall i :: 0 <= i < |s| ==> r[i] == LowerChar(s[i])
  {
    if s == [] then [] else [LowerChar(s[0])] + Lower(s[1..])
  }

  function StripLeft(s: string): (r: string)
    ensures |r| <= |s| && r == s[|s| - |r|..]
    ensures r == [] || !IsSpace(r[0])
    decreases |s|
  {
    if s != [] && IsSpace(s[0]) then StripLeft(s[1..]) else s
  }

  function StripRight(s: string): (r: string)
    ensures |r| <= |s| && r == s[..|r|]
    ensures r == [] || !IsSpace(r[|r| - 1])
    decreases |s|
  {
    if s != [] && IsSpace(s[|s| - 1]) then StripRight(s[..|s| - 1]) else s
  }

  /** `str.strip()` with no argument. */
  function Strip(s: string): string {
    StripRight(StripLeft(s))
  }

  predicate StartsWith(s: string, prefix: string) {
    |prefix| <= |s| && s[..|prefix|] == prefix
  }

  lemma StartsWithAppend(a: string, b: string)
    ensures StartsWith(a + b, a)
  {
    assert (a + b)[..|a|] == a;
  }

  predicate EndsWith(s: string, suffix: string) {
    |suffix| <= |s| && s[|s| - |suffix|..] == suffix
  }

  predicate OccursAt(s: string, pat: string, k: int) {
    0 <= k && k + |pat| <= |s| && s[k..k + |pat|] == pat
  }

  /** The first index at or after `i` where `pat` occurs in `s` (`str.find`). */
  function FindFrom(s: string, pat: string, i: nat): (r: Option<nat>)
    ensures r.Some? ==> i <= r.value && OccursAt(s, pat, r.value)
    ensures r.Some? ==> forall k :: i <= k < r.value ==> !OccursAt(s, pat, k)
    ensures r.None? ==> forall k :: i <= k ==> !OccursAt(s, pat, k)
    decreases |s| - i
  {
    if i + |pat| > |s| then None
    else if s[i..i + |pat|] == pat then Some(i)
    else FindFrom(s, pat, i + 1)
  }

  /** A slice that lies in the second half of `a + b` is a slice of `b`. */
  lemma SliceOfAppend(a: string, b: string, k: nat, n: nat)
    requires |a| <= k <= n <= |a| + |b|
    ensures (a + b)[k..n] == b[k - |a|..n - |a|]
  {
  }

  /** A pattern occurs at the front of any text it starts. */
  lemma OccursAtFront(pat: string, rest: string)
    ensures OccursAt(pat + rest, pat, 0)
  {
    assert (pat + rest)[0..|pat|] == pat;
  }

  /** An occurrence in `t` is an occurrence in `u + t`, shifted by `|u|`. */
  lemma OccursAfterPrefix(u: string, t: string, pat: string, k: nat)
    requires OccursAt(t, pat, k)
    ensures OccursAt(u + t, pat, |u| + k)
  {
    SliceOfAppend(u, t, |u| + k, |u| + k + |pat|);
  }

  /** The first `|a|` elements of `a + b` are `a`. */
  lemma PrefixOfAppend<T>(a: seq<T>, b: seq<T>)
    ensures (a + b)[..|a|] == a
  {
  }

  /** Concatenation is associative. */
  lemma AppendAssoc<T>(a: seq<T>, b: seq<T>, c: seq<T>)
    ensures a + (b + c) == (a + b) + c
  {
  }

  /** Appending two elements one at a time is appending the pair. */
  lemma AppendPair<T>(a: seq<T>, x: T, y: T)
    ensures a + [x] + [y] == a + [x, y]
  {
  }

  /** Two adjacent slices, appended after a prefix, are the longer slice. */
  lemma JoinSlices<T>(s: seq<T>, j: nat, m: nat, pre: seq<T>)
    requires j <= m <= |s|
    ensures (pre + s[j..m]) + s[m..] == pre + s[j..]
  {
    assert s[j..m] + s[m..] == s[j..];
  }

  /** An occurrence at `p` with none between `i` and `p` is what the search from `i` finds. */
  lemma FirstOccurrence(s: string, pat: string, i: nat, p: nat)
    requires i <= p && OccursAt(s, pat, p)
    requires forall k :: i <= k < p ==> !OccursAt(s, pat, k)
    ensures FindFrom(s, pat, i) == Some(p)
  {
  }

  /** Text appended after the first occurrence found does not change what the search finds. */
  lemma FindFromExtend(x: string, y: string, pat: string, i: nat)
    requires FindFrom(x, pat, i).Some?
    ensures FindFrom(x + y, pat, i) == FindFrom(x, pat, i)
  {
    var p := FindFrom(x, pat, i).value;
    forall k | i <= k < p
      ensures !OccursAt(x + y, pat, k)
    {
      assert !OccursAt(x, pat, k);
      assert (x + y)[k..k + |pat|] == x[k..k + |pat|];
    }
    assert (x + y)[p..p + |pat|] == x[p..p + |pat|];
    FirstOccurrence(x + y, pat, i, p);
  }

  /** An occurrence anywhere means the text contains the pattern. */
  lemma OccursContained(s: string, pat: string, k: nat)
    requires OccursAt(s, pat, k)
    ensures Contains(s, pat)
  {
  }

  /** A pattern found from some index is contained in the text. */
  lemma FoundContained(s: string, pat: string, i: nat)
    requires FindFrom(s, pat, i).Some?
    ensures Contains(s, pat)
  {
    assert OccursAt(s, pat, FindFrom(s, pat, i).value);
  }

  /** With no occurrence at or after `i`, the search from `i` finds nothing. */
  lemma {:induction false} NotFound(s: string, pat: string, i: nat)
    requires forall k :: i <= k ==> !OccursAt(s, pat, k)
    ensures FindFrom(s, pat, i).None?
    decreases |s| - i
  {
    if i + |pat| <= |s| {
      assert !OccursAt(s, pat, i);
      NotFound(s, pat, i + 1);
    }
  }

  /** `pat in s`. */
  predicate Contains(s: string, pat: string) {
    FindFrom(s, pat, 0).Some?
  }

  /** The first index of `c` in `s`, or `|s|` when there is none. */
  function IndexOrEnd(s: string, c: char, i: nat): (k: nat)
    requires i <= |s|
    ensures i <= k <= |s|
    ensures forall j :: i <= j < k ==> s[j] != c
    ensures k < |s| ==> s[k] == c
    decreases |s| - i
  {
    if i == |s| || s[i] == c then i else IndexOrEnd(s, c, i + 1)
  }

  /** `s.split(c)[0]`: the text before the first `c`. */
  function BeforeFirst(s: string, c: char): (r: string)
    ensures r == s[..IndexOrEnd(s, c, 0)]
  {
    s[..IndexOrEnd(s, c, 0)]
  }

  /** The end of the run of non-space characters that starts at `i`. */
  function TokenEnd(s: string, i: nat): (k: nat)
    requires i <= |s|
    ensures i <= k <= |s|
    ensures forall j :: i <= j < k ==> !IsSpace(s[j])
    ensures k < |s| ==> IsSpace(s[k])
    decreases |s| - i
  {
    if i == |s| || IsSpace(s[i]) then i else TokenEnd(s, i + 1)
  }

  /** `str.split()` with no argument: the maximal runs of non-space characters. */
  function Split(s: string): (r: seq<string>)
    ensures forall t :: t in r ==> |t| > 0 && forall j :: 0 <= j < |t| ==> !IsSpace(t[j])
    decreases |s|
  {
    if s == [] then []
    else if IsSpace(s[0]) then Split(s[1..])
    else
      var k := TokenEnd(s, 0);
      [s[..k]] + Split(s[k..])
  }

  /** `sep.join(parts)` for a one-character separator. */
  function Join(parts: seq<string>, sep: char): string {
    if parts == [] then ""
    else if |parts| == 1 then parts[0]
    else parts[0] + [sep] + Join(parts[1..], sep)
  }

  /** `s.split(sep)` for a one-character separator: empty fields are kept. */
  function SplitOn(s: string, sep: char): (r: seq<string>)
    ensures |r| >= 1
    decreases |s|
  {
    var k := IndexOrEnd(s, sep, 0);
    if k == |s| then [s] else [s[..k]] + SplitOn(s[k + 1..], sep)
  }

  function DigitChar(d: nat): char
    requires d < 10
  {
    ('0' as int + d) as char
  }

  /** `str(n)` for a natural number. */
  function Decimal(n: nat): (r: string)
    ensures AllDigits(r)
  {
    if n < 10 then [DigitChar(n)] else Decimal(n / 10) + [DigitChar(n % 10)]
  }

  /** `str(i)` for an integer: a leading '-' for negative values. */
  function IntDecimal(i: int): string {
    if i < 0 then "-" + Decimal(-i) else Decimal(i)
  }

  /** The value of a string of decimal digits (`int(s)` on digit strings). */
  function DecimalValue(s: string): nat
    requires forall i :: 0 <= i < |s| ==> IsDigit(s[i])
  {
    if s == [] then 0
    else
      assert IsDigit(s[|s| - 1]);
      DecimalValue(s[..|s| - 1]) * 10 + (s[|s| - 1] as int - '0' as int)
  }

  /** `s.zfill(width)` for a digit string: left-padded with '0' up to `width` characters. */
  function ZFill(s: string, width: nat): (r: string)
    ensures |r| == if |s| < width then width else |s|
    ensures EndsWith(r, s)
    ensures forall i :: 0 <= i < |r| - |s| ==> r[i] == '0'
  {
    if |s| < width then seq(width - |s|, _ => '0') + s else s
  }

  /** The last index of `c` in `s`, or -1 (`str.rfind`). */
  function LastIndexOf(s: string, c: char): (k: int)
    ensures -1 <= k < |s|
    ensures k >= 0 ==> s[k] == c
    ensures forall j :: k < j < |s| ==> s[j] != c
  {
    if s == [] then -1
    else if s[|s| - 1] == c then |s| - 1
    else LastIndexOf(s[..|s| - 1], c)
  }

  /** `PurePath.name`: the text after the last '/'. */
  function FileName(path: string): (name: string)
    ensures forall j :: 0 <= j < |name| ==> name[j] != '/'
  {
    path[LastIndexOf(path, '/') + 1..]
  }

  /** The directory part of a path: everything before the last '/', or "" when there is none. */
  function Parent(path: string): (dir: string)
    ensures |dir| <= |path|
  {
    var i := LastIndexOf(path, '/');
    if i >= 0 then path[..i] else ""
  }

  /** The path "dir/base.ext". */
  function JoinFile(dir: string, base: string, ext: string): string {
    dir + "/" + base + "." + ext
  }

  /** Where `PurePath.suffix` starts: the last '.', when it is neither the first nor the last character. */
  function SuffixStart(name: string): (k: Option<nat>)
    ensures k.Some? ==> 0 < k.value < |name| - 1 && name[k.value] == '.'
  {
    var i := LastIndexOf(name, '.');
    if 0 < i < |name| - 1 then Some(i) else None
  }

  /** `PurePath.stem`: the file name without its suffix. */
  function Stem(path: string): string {
    var name := FileName(path);
    match SuffixStart(name)
    case Some(i) => name[..i]
    case None => name
  }

  /** `PurePath.suffix`: the final ".ext" of the file name, or "". */
  function Suffix(path: string): string {
    var name := FileName(path);
    match SuffixStart(name)
    case Some(i) => name[i..]
    case None => ""
  }

  function Pow10(n: nat): nat {
    if n == 0 then 1 else 10 * Pow10(n - 1)
  }

  // ---------------------------------------------------------------------
  // Lemmas

  /** Lower-casing twice is lower-casing once. */
  lemma LowerIdempotent(s: string)
    ensures Lower(Lower(s)) == Lower(s)
  {
  }

  lemma LowerKeepsSpace(c: char)
    ensures IsSpace(LowerChar(c)) <==> IsSpace(c)
  {
  }

  lemma {:induction false} StripLeftLower(s: string)
    ensures StripLeft(Lower(s)) == Lower(StripLeft(s))
    decreases |s|
  {
    if s != [] {
      LowerKeepsSpace(s[0]);
      assert Lower(s)[1..] == Lower(s[1..]);
      if IsSpace(s[0]) {
        StripLeftLower(s[1..]);
      }
    }
  }

  lemma {:induction false} StripRightLower(s: string)
    ensures StripRight(Lower(s)) == Lower(StripRight(s))
    decreases |s|
  {
    if s != [] {
      LowerKeepsSpace(s[|s| - 1]);
      assert Lower(s)[..|s| - 1] == Lower(s[..|s| - 1]);
      if IsSpace(s[|s| - 1]) {
        StripRightLower(s[..|s| - 1]);
      }
    }
  }

  /** Stripping twice is stripping once. */
  lemma StripIdempotent(s: string)
    ensures Strip(Strip(s)) == Strip(s)
  {
    var u := StripLeft(s);
    var t := StripRight(u);
    if t != [] {
      assert t[0] == u[0];
    }
    assert StripLeft(t) == t;
  }

  /** `s.strip().lower() == s.lower().strip()`: lower-casing never creates or removes whitespace. */
  lemma StripLowerCommute(s: string)
    ensures Strip(Lower(s)) == Lower(Strip(s))
  {
    StripLeftLower(s);
    StripRightLower(StripLeft(s));
  }

  lemma {:induction false} DecimalRoundTrip(n: nat)
    ensures DecimalValue(Decimal(n)) == n
  {
    if n >= 10 {
      DecimalRoundTrip(n / 10);
      var d := Decimal(n);
      assert d[..|d| - 1] == Decimal(n / 10);
    }
  }

  lemma {:induction false} LeadingZerosValue(zeros: string, s: string)
    requires forall i :: 0 <= i < |zeros| ==> zeros[i] == '0'
    requires forall i :: 0 <= i < |s| ==> IsDigit(s[i])
    ensures DecimalValue(zeros + s) == DecimalValue(s)
    decreases |s|
  {
    if s == [] {
      LeadingZerosOnly(zeros);
      assert zeros + s == zeros;
    } else {
      assert (zeros + s)[..|zeros + s| - 1] == zeros + s[..|s| - 1];
      LeadingZerosValue(zeros, s[..|s| - 1]);
    }
  }

  lemma {:induction false} LeadingZerosOnly(zeros: string)
    requires forall i :: 0 <= i < |zeros| ==> zeros[i] == '0'
    ensures DecimalValue(zeros) == 0
    decreases |zeros|
  {
    if zeros != [] {
      LeadingZerosOnly(zeros[..|zeros| - 1]);
    }
  }

  /** Zero-padding a decimal numeral does not change the number it denotes. */
  lemma ZFillValue(n: nat, width: nat)
    ensures forall i :: 0 <= i < |ZFill(Decimal(n), width)| ==> IsDigit(ZFill(Decimal(n), width)[i])
    ensures DecimalValue(ZFill(Decimal(n), width)) == n
  {
    var d := Decimal(n);
    DecimalRoundTrip(n);
    if |d| < width {
      LeadingZerosValue(seq(width - |d|, _ => '0'), d);
    }
  }

  /** A numeral of n digits denotes less than 10^n. */
  lemma {:induction false} DecimalValueBound(s: string)
    requires forall i :: 0 <= i < |s| ==> IsDigit(s[i])
    ensures DecimalValue(s) < Pow10(|s|)
  {
    if s != [] {
      DecimalValueBound(s[..|s| - 1]);
    }
  }

  /** `str(n)` has no leading zero: a numeral of more than one digit denotes at least 10^(length-1). */
  lemma {:induction false} DecimalLength(n: nat)
    ensures |Decimal(n)| > 1 ==> n >= Pow10(|Decimal(n)| - 1)
  {
    if n >= 10 {
      DecimalLength(n / 10);
    }
  }

  lemma {:induction false} Pow10Monotone(m: nat, n: nat)
    requires m <= n
    ensures Pow10(m) <= Pow10(n)
    decreases n
  {
    if m < n {
      Pow10Monotone(m, n - 1);
    }
  }

  /** Distinct numbers have distinct zero-padded numerals. */
  lemma ZFillDecimalInjective(m: nat, n: nat, width: nat)
    requires ZFill(Decimal(m), width) == ZFill(Decimal(n), width)
    ensures m == n
  {
    ZFillValue(m, width);
    ZFillValue(n, width);
  }

  lemma DecimalInjective(m: nat, n: nat)
    requires Decimal(m) == Decimal(n)
    ensures m == n
  {
    DecimalRoundTrip(m);
    DecimalRoundTrip(n);
  }

  lemma IntDecimalInjective(i: int, j: int)
    requires IntDecimal(i) == IntDecimal(j)
    ensures i == j
  {
    IntDecimalSign(i);
    IntDecimalSign(j);
    if i < 0 && j < 0 {
      assert Decimal(-i) == IntDecimal(i)[1..];
      DecimalInjective(-i, -j);
    } else if i >= 0 && j >= 0 {
      DecimalInjective(i, j);
    }
  }

  lemma IntDecimalSign(i: int)
    ensures |IntDecimal(i)| > 0 && (IntDecimal(i)[0] == '-' <==> i < 0)
  {
    if i >= 0 {
      assert IsDigit(Decimal(i)[0]);
    }
  }

  /** `c in s` holds exactly when `s` has an index of `c`. */
  lemma ContainsChar(s: string, c: char)
    ensures Contains(s, [c]) <==> IndexOrEnd(s, c, 0) < |s|
  {
    var k := IndexOrEnd(s, c, 0);
    if k < |s| {
      assert s[k..k + 1] == [c];
      assert OccursAt(s, [c], k);
    }
    match FindFrom(s, [c], 0)
    case Some(j) =>
      assert s[j..j + 1] == [c];
      assert s[j] == c;
    case None =>
  }

  /** Splitting a joined list at the separator gives the list back, when no part holds the separator. */
  lemma {:induction false} SplitJoinRoundTrip(parts: seq<string>, sep: char)
    requires |parts| >= 1
    requires forall p :: p in parts ==> forall j :: 0 <= j < |p| ==> p[j] != sep
    ensures SplitOn(Join(parts, sep), sep) == parts
    decreases |parts|
  {
    if |parts| == 1 {
      SplitOnSeparatorFree(parts[0], sep);
    } else {
      assert parts[0] in parts;
      SplitOnFirstField(parts[0], Join(parts[1..], sep), sep);
      SplitJoinRoundTrip(parts[1..], sep);
    }
  }

  lemma SplitOnSeparatorFree(p: string, sep: char)
    requires forall j :: 0 <= j < |p| ==> p[j] != sep
    ensures SplitOn(p, sep) == [p]
  {
    assert IndexOrEnd(p, sep, 0) == |p|;
  }

  lemma SplitOnFirstField(p: string, rest: string, sep: char)
    requires forall j :: 0 <= j < |p| ==> p[j] != sep
    ensures SplitOn(p + [sep] + rest, sep) == [p] + SplitOn(rest, sep)
  {
    var s := p + [sep] + rest;
    assert s[|p|] == sep;
    assert forall j :: 0 <= j < |p| ==> s[j] != sep;
    assert IndexOrEnd(s, sep, 0) == |p|;
    assert s[..|p|] == p;
    assert s[|p| + 1..] == rest;
  }

  /** The last occurrence of c is unaffected by appending text without c. */
  lemma {:induction false} LastIndexOfAppend(a: string, b: string, c: char)
    requires forall j :: 0 <= j < |b| ==> b[j] != c
    ensures LastIndexOf(a + b, c) == LastIndexOf(a, c)
    decreases |b|
  {
    if b == [] {
      assert a + b == a;
    } else {
      assert (a + b)[..|a + b| - 1] == a + b[..|b| - 1];
      LastIndexOfAppend(a, b[..|b| - 1], c);
    }
  }

  predicate IsLowerHexDigit(c: char) {
    ('0' <= c <= '9') || ('a' <= c <= 'f')
  }

  function HexDigitValue(c: char): nat
    requires IsLowerHexDigit(c)
  {
    if '0' <= c <= '9' then c as int - '0' as int else c as int - 'a' as int + 10
  }

  /** The stem of "dir/base.ext" is base, when base is non-empty and has no '/', and ext has no '/' or '.'. */
  lemma StemOfPath(dir: string, base: string, ext: string)
    requires |base| > 0 && forall j :: 0 <= j < |base| ==> base[j] != '/'
    requires |ext| > 0 && forall j :: 0 <= j < |ext| ==> ext[j] != '/' && ext[j] != '.'
    ensures Stem(JoinFile(dir, base, ext)) == base
    ensures Suffix(JoinFile(dir, base, ext)) == "." + ext
    ensures Parent(JoinFile(dir, base, ext)) == dir
  {
    var path := JoinFile(dir, base, ext);
    var tail := base + "." + ext;
    assert path == (dir + "/") + tail;
    LastSlashBeforeTail(path, dir, tail);
    SuffixOfTail(tail, base, ext);
    assert tail[..|base|] == base && tail[|base|..] == "." + ext;
  }

  /** The last '/' of "dir/tail" is the one before `tail`, when `tail` has none. */
  lemma LastSlashBeforeTail(path: string, dir: string, tail: string)
    requires forall j :: 0 <= j < |tail| ==> tail[j] != '/'
    requires path == (dir + "/") + tail
    ensures FileName(path) == tail && Parent(path) == dir
  {
    LastIndexOfAppend(dir + "/", tail, '/');
    assert path[..|dir|] == dir;
  }

  /** The suffix of "base.ext" starts at its '.', when `base` is non-empty and `ext` is non-empty without a '.'. */
  lemma SuffixOfTail(tail: string, base: string, ext: string)
    requires |base| > 0 && |ext| > 0 && forall j :: 0 <= j < |ext| ==> ext[j] != '.'
    requires tail == base + "." + ext
    ensures SuffixStart(tail) == Some(|base|)
  {
    LastIndexOfAppend(base + ".", ext, '.');
  }
}
