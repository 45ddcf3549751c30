/**
 * The pieces of Go's `strings`, `strconv`/`fmt` (`%d`) and `path/filepath`
 * that the core relies on, over `string` = `seq<char>`.
 */
module Text {

  // ---------------------------------------------------------------------------
  // Case folding

  /** ASCII lower-casing of one character (strings.ToLower on ASCII input). */
  function LowerChar(c: char): char {
    if 'A' <= c <= 'Z' then (c as int + 32) as char else c
  }

  function Lower(s: string): (r: string)
    ensures |r| == |s|
    ensures forall i :: 0 <= i < |s| ==> r[i] == LowerChar(s[i])
  {
    seq(|s|, i requires 0 <= i < |s| => LowerChar(s[i]))
  }

  lemma LowerIdempotent(s: string)
    ensures Lower(Lower(s)) == Lower(s)
  {
  }

  // ---------------------------------------------------------------------------
  // Searching

  /** `sub` occurs in `s` starting at position `i`. */
  predicate OccursAt(s: string, sub: string, i: int) {
    0 <= i <= |s| && sub <= s[i..]
  }

  lemma OccursShift(s: string, sub: string, j: nat)
    requires |s| > 0
    ensures OccursAt(s, sub, j + 1) <==> OccursAt(s[1..], sub, j)
  {
    if j + 1 <= |s| {
      assert s[1..][j..] == s[j + 1..];
    }
  }

  /** strings.Index: the first position at which `sub` occurs, or -1. */
  function IndexOf(s: string, sub: string): (r: int)
    ensures r == -1 || OccursAt(s, sub, r)
    ensures forall j :: 0 <= j < (if r == -1 then |s| + 1 else r) ==> !OccursAt(s, sub, j)
    decreases |s|
  {
    if sub <= s then 0
    else if s == [] then -1
    else
      var j := IndexOf(s[1..], sub);
      var r := if j == -1 then -1 else j + 1;
      assert r != -1 ==> OccursAt(s, sub, r) by {
        if r != -1 { OccursShift(s, sub, j); }
      }
      assert forall k :: 0 <= k < (if r == -1 then |s| + 1 else r) ==> !OccursAt(s, sub, k) by {
        forall k | 0 < k < (if r == -1 then |s| + 1 else r) ensures !OccursAt(s, sub, k) {
          OccursShift(s, sub, k - 1);
        }
      }
      r
  }

  /** The first occurrence of a character is where IndexOf finds it. */
  lemma IndexOfCharAt(s: string, c: char, i: nat)
    requires i < |s| && s[i] == c
    requires forall j :: 0 <= j < i ==> s[j] != c
    ensures IndexOf(s, [c]) == i
  {
    assert OccursAt(s, [c], i);
    forall j | 0 <= j < i
      ensures !OccursAt(s, [c], j)
    {
      assert s[j..][0] == s[j];
    }
  }

  /** A character that does not occur is not found. */
  lemma IndexOfCharAbsent(s: string, c: char)
    requires forall j :: 0 <= j < |s| ==> s[j] != c
    ensures IndexOf(s, [c]) == -1
  {
    forall j | 0 <= j <= |s|
      ensures !OccursAt(s, [c], j)
    {
      if j < |s| {
        assert s[j..][0] == s[j];
      }
    }
  }

  /** A string that lacks one of the characters of `sub` does not contain `sub`. */
  lemma IndexOfMissingChar(s: string, sub: string, c: char)
    requires c in sub && c !in s
    ensures IndexOf(s, sub) == -1
  {
    var k :| 0 <= k < |sub| && sub[k] == c;
    forall j | 0 <= j <= |s|
      ensures !OccursAt(s, sub, j)
    {
      if j + |sub| <= |s| {
        assert s[j..][k] == s[j + k];
      }
    }
  }

  /** strings.Contains */
  predicate Contains(s: string, sub: string) {
    IndexOf(s, sub) >= 0
  }

  lemma ContainsIff(s: string, sub: string)
    ensures Contains(s, sub) <==> exists i :: OccursAt(s, sub, i)
  {
  }

  /** strings.HasSuffix */
  predicate HasSuffix(s: string, suffix: string) {
    |suffix| <= |s| && s[|s| - |suffix|..] == suffix
  }

  /** strings.TrimSuffix */
  function TrimSuffix(s: string, suffix: string): string {
    if HasSuffix(s, suffix) then s[..|s| - |suffix|] else s
  }

  /** strings.Join */
  function Join(parts: seq<string>, sep: string): string {
    if |parts| == 0 then ""
    else if |parts| == 1 then parts[0]
    else parts[0] + sep + Join(parts[1..], sep)
  }

  /** A join starts with its first part and ends with its last. */
  lemma {:induction false} JoinEnds(parts: seq<string>, sep: string)
    requires |parts| >= 1
    ensures parts[0] <= Join(parts, sep)
    ensures HasSuffix(Join(parts, sep), parts[|parts| - 1])
    decreases |parts|
  {
    if |parts| > 1 {
      JoinEnds(parts[1..], sep);
      var j := Join(parts[1..], sep);
      var last := parts[|parts| - 1];
      assert parts[1..][|parts| - 2] == last;
      assert (parts[0] + sep + j)[|parts[0] + sep + j| - |last|..] == j[|j| - |last|..];
    }
  }

  /** Where part `i` starts in the join: every earlier part and its separator come first. */
  function PartStart(parts: seq<string>, sep: string, i: nat): nat
    requires i <= |parts|
  {
    if i == 0 then 0 else PartStart(parts, sep, i - 1) + |parts[i - 1]| + |sep|
  }

  lemma {:induction false} PartStartShift(parts: seq<string>, sep: string, i: nat)
    requires 1 <= i <= |parts|
    ensures PartStart(parts, sep, i) == |parts[0]| + |sep| + PartStart(parts[1..], sep, i - 1)
  {
    if i > 1 {
      PartStartShift(parts, sep, i - 1);
      assert parts[1..][i - 2] == parts[i - 1];
    }
  }

  lemma SliceOfAppend(x: string, y: string, a: nat, b: nat)
    requires a <= b <= |y|
    ensures (x + y)[|x| + a..|x| + b] == y[a..b]
  {
    assert forall k :: 0 <= k < b - a ==> (x + y)[|x| + a..|x| + b][k] == y[a..b][k];
  }

  /** The first of several parts is followed by the separator. */
  lemma JoinLayoutHead(parts: seq<string>, sep: string)
    requires |parts| > 1
    ensures |parts[0]| + |sep| <= |Join(parts, sep)|
    ensures Join(parts, sep)[..|parts[0]|] == parts[0]
    ensures Join(parts, sep)[|parts[0]|..|parts[0]| + |sep|] == sep
  {
    assert Join(parts, sep) == parts[0] + sep + Join(parts[1..], sep);
  }

  /**
   * The layout of a join at part `i`: the part starts at PartStart(i), a
   * separator follows it unless it is the last, and the last part ends the
   * string.
   */
  ghost predicate LaidOut(parts: seq<string>, sep: string, i: nat)
    requires i < |parts|
  {
    var j := Join(parts, sep);
    var e := PartStart(parts, sep, i) + |parts[i]|;
    && e <= |j|
    && j[PartStart(parts, sep, i)..e] == parts[i]
    && (i + 1 < |parts| ==> e + |sep| <= |j| && j[e..e + |sep|] == sep)
    && (i + 1 == |parts| ==> e == |j|)
  }

  /** The layout of the tail's part `i - 1` is the layout of part `i`. */
  lemma JoinLayoutStep(parts: seq<string>, sep: string, i: nat)
    requires 1 <= i < |parts|
    requires LaidOut(parts[1..], sep, i - 1)
    ensures LaidOut(parts, sep, i)
  {
    var rest := Join(parts[1..], sep);
    var head := parts[0] + sep;
    assert Join(parts, sep) == head + rest;
    PartStartShift(parts, sep, i);
    assert parts[1..][i - 1] == parts[i];
    var s' := PartStart(parts[1..], sep, i - 1);
    var e' := s' + |parts[i]|;
    SliceOfAppend(head, rest, s', e');
    if i + 1 < |parts| {
      SliceOfAppend(head, rest, e', e' + |sep|);
    }
  }

  /** Every part of a join is laid out at its offset. */
  lemma {:induction false} JoinLayout(parts: seq<string>, sep: string, i: nat)
    requires i < |parts|
    ensures LaidOut(parts, sep, i)
  {
    if |parts| == 1 {
      assert Join(parts, sep) == parts[0];
    } else if i == 0 {
      JoinLayoutHead(parts, sep);
    } else {
      JoinLayout(parts[1..], sep, i - 1);
      JoinLayoutStep(parts, sep, i);
    }
  }

  /** strings.ReplaceAll with a one-character pattern and replacement. */
  function ReplaceChar(s: string, from: char, to: char): (r: string)
    ensures |r| == |s|
    ensures forall i :: 0 <= i < |s| ==> r[i] == if s[i] == from then to else s[i]
  {
    seq(|s|, i requires 0 <= i < |s| => if s[i] == from then to else s[i])
  }

  // ---------------------------------------------------------------------------
  // Decimal rendering (`%d`, strconv.Itoa)

  predicate IsDigit(c: char) {
    '0' <= c <= '9'
  }

  predicate AllDigits(s: string) {
    forall i :: 0 <= i < |s| ==> IsDigit(s[i])
  }

  function DigitChar(d: nat): (c: char)
    requires d < 10
    ensures IsDigit(c)
  {
    ('0' as int + d) as char
  }

  function DigitValue(c: char): nat
    requires IsDigit(c)
  {
    c as int - '0' as int
  }

  /** The canonical decimal numeral of `n`: digits only, no leading zero. */
  function NatToDecimal(n: nat): (r: string)
    ensures |r| >= 1 && AllDigits(r)
    ensures r[0] == '0' ==> n == 0
    decreases n
  {
    if n < 10 then [DigitChar(n)] else NatToDecimal(n / 10) + [DigitChar(n % 10)]
  }

  /** The value a numeral denotes; the partner of NatToDecimal. */
  function DecimalValue(s: string): nat
    requires AllDigits(s)
  {
    if s == [] then 0 else 10 * DecimalValue(s[..|s| - 1]) + DigitValue(s[|s| - 1])
  }

  lemma {:induction false} DecimalRoundTrip(n: nat)
    ensures DecimalValue(NatToDecimal(n)) == n
    decreases n
  {
    if n >= 10 {
      DecimalRoundTrip(n / 10);
      var s := NatToDecimal(n);
      assert s[..|s| - 1] == NatToDecimal(n / 10);
    }
  }

  lemma DecimalInjective(a: nat, b: nat)
    requires NatToDecimal(a) == NatToDecimal(b)
    ensures a == b
  {
    DecimalRoundTrip(a);
    DecimalRoundTrip(b);
  }

  /** `%d` of a possibly negative integer. */
  function IntToDecimal(n: int): (r: string)
    ensures n >= 0 ==> r == NatToDecimal(n)
    ensures n < 0 ==> r == "-" + NatToDecimal(-n)
  {
    if n < 0 then "-" + NatToDecimal(-n) else NatToDecimal(n)
  }

  /** Go's integer division, which truncates toward zero. */
  function TruncDiv(a: int, b: int): (q: int)
    requires b > 0
    ensures a >= 0 ==> q == a / b
    ensures a < 0 ==> q == -((-a) / b)
  {
    if a >= 0 then a / b else -((-a) / b)
  }

  // ---------------------------------------------------------------------------
  // Go's string order `<` (code point by code point, which for UTF-8 is byte order)

  predicate Less(a: string, b: string)
    decreases |a|
  {
    if a == [] then b != []
    else if b == [] then false
    else if a[0] != b[0] then a[0] < b[0]
    else Less(a[1..], b[1..])
  }

  lemma LessIrreflexive(a: string)
    ensures !Less(a, a)
  {
  }

  lemma LessTransitive(a: string, b: string, c: string)
    requires Less(a, b) && Less(b, c)
    ensures Less(a, c)
    decreases |a|
  {
    if a != [] && b != [] && c != [] && a[0] == b[0] && b[0] == c[0] {
      LessTransitive(a[1..], b[1..], c[1..]);
    }
  }

  lemma LessTotal(a: string, b: string)
    ensures a == b || Less(a, b) || Less(b, a)
    decreases |a|
  {
    if a != [] && b != [] && a[0] == b[0] {
      LessTotal(a[1..], b[1..]);
      if a[1..] == b[1..] {
        assert a == [a[0]] + a[1..] && b == [b[0]] + b[1..];
      }
    }
  }

  lemma LessAsymmetric(a: string, b: string)
    requires Less(a, b)
    ensures !Less(b, a)
    decreases |a|
  {
    if a != [] && b != [] && a[0] == b[0] {
      LessAsymmetric(a[1..], b[1..]);
    }
  }

  /** `a <= b` in Go's string order. */
  predicate LessEq(a: string, b: string) {
    a == b || Less(a, b)
  }

  // ---------------------------------------------------------------------------
  // Slash-separated paths (path/filepath on a Unix host)

  /** Index of the last '/' in `s`, or -1. */
  function LastSlash(s: string): (r: int)
    ensures -1 <= r < |s|
    ensures r >= 0 ==> s[r] == '/'
    ensures forall j :: r < j < |s| ==> s[j] != '/'
    decreases |s|
  {
    if s == [] then -1
    else if s[|s| - 1] == '/' then |s| - 1
    else LastSlash(s[..|s| - 1])
  }

  function TrimTrailingSlashes(s: string): (r: string)
    ensures |r| <= |s| && r == s[..|r|]
    ensures r == [] || r[|r| - 1] != '/'
    decreases |s|
  {
    if |s| > 0 && s[|s| - 1] == '/' then TrimTrailingSlashes(s[..|s| - 1]) else s
  }

  /** filepath.Base: the last element of the path. */
  function Base(path: string): (r: string)
    ensures r != []
  {
    if path == [] then "."
    else
      var t := TrimTrailingSlashes(path);
      if t == [] then "/" else t[LastSlash(t) + 1..]
  }

  /** filepath.Dir without cleaning: all but the last element of the path. */
  function Dir(path: string): (r: string)
    ensures r != []
  {
    var i := LastSlash(path);
    if i < 0 then "."
    else
      var d := TrimTrailingSlashes(path[..i + 1]);
      if d == [] then "/" else d
  }

  /** The measure under which walking up with Dir ends at ".", "/" or a shorter path. */
  function DirRank(path: string): nat {
    if path == "." then 1 else |path| + 1
  }

  lemma DirShrinks(path: string)
    requires path != "" && path != "." && path != "/"
    ensures DirRank(Dir(path)) < DirRank(path)
  {
    var i := LastSlash(path);
    if i >= 0 {
      var d := TrimTrailingSlashes(path[..i + 1]);
      assert |d| < i + 1;
      if d == [] {
        assert path[0] == path[..i + 1][0];
        assert |path| >= 2;
      }
    }
  }

  /** A directory and one element, joined by '/' (no cleaning of the result). */
  function JoinPath(dir: string, name: string): string {
    dir + "/" + name
  }
}
