/**
 * Display helpers of the report: the short form of a project slug, the
 * rendering of a duration, and the unit chosen for a token count.
 */
module Format {
  import opened Text

  // ---------------------------------------------------------------------------
  // shortProject

  /** The home-directory prefixes stripped from a slug, in the order they are tried. */
  const HomePrefixes: seq<string> := ["-Users-", "-home-"]

  /** The widest short project name. */
  const MaxProjectWidth: nat := 40

  /**
   * One pass of the prefix loop: after the first occurrence of `prefix`, drop
   * the user name up to and including the next '-'. Nothing changes when the
   * prefix or that '-' is missing.
   */
  function StripHome(s: string, prefix: string): (r: string)
    ensures |r| <= |s|
  {
    var i := IndexOf(s, prefix);
    if i < 0 then s
    else
      var rest := s[i + |prefix|..];
      var j := IndexOf(rest, "-");
      if j < 0 then s else rest[j + 1..]
  }

  /** The prefix loop: StripHome with each prefix in turn. */
  function StripHomes(s: string, prefixes: seq<string>): (r: string)
    ensures |r| <= |s|
    decreases |prefixes|
  {
    if prefixes == [] then s
    else StripHome(StripHomes(s, prefixes[..|prefixes| - 1]), prefixes[|prefixes| - 1])
  }

  /** strings.ReplaceAll(s, "--", "-"): non-overlapping occurrences, left to right. */
  function CollapsePass(s: string): (r: string)
    ensures |r| <= |s|
    ensures Contains(s, "--") ==> |r| < |s|
    decreases |s|
  {
    if "--" <= s then "-" + CollapsePass(s[2..])
    else if s == [] then []
    else [s[0]] + CollapsePass(s[1..])
  }

  /** A pass finds nothing to replace in a string without "--". */
  lemma {:induction false} CollapsePassNoop(s: string)
    requires !Contains(s, "--")
    ensures CollapsePass(s) == s
    decreases |s|
  {
    if s != [] {
      assert !("--" <= s);
      CollapsePassNoop(s[1..]);
    }
  }

  /** The rewrite loop: passes until no "--" is left. It ends because each pass shortens the string. */
  function CollapseAll(s: string): (r: string)
    ensures !Contains(r, "--")
    ensures |r| <= |s|
    decreases |s|
  {
    if Contains(s, "--") then CollapseAll(CollapsePass(s)) else s
  }

  /** strings.TrimLeft(s, "-") */
  function TrimLeftDashes(s: string): (r: string)
    ensures |r| <= |s| && r == s[|s| - |r|..]
    ensures forall k :: 0 <= k < |s| - |r| ==> s[k] == '-'
    ensures r == [] || r[0] != '-'
    decreases |s|
  {
    if s != [] && s[0] == '-' then
      var r := TrimLeftDashes(s[1..]);
      assert s[1..][|s| - 1 - |r|..] == s[|s| - |r|..];
      r
    else s
  }

  /** strings.TrimRight(s, "-") */
  function TrimRightDashes(s: string): (r: string)
    ensures |r| <= |s| && r == s[..|r|]
    ensures forall k :: |r| <= k < |s| ==> s[k] == '-'
    ensures r == [] || r[|r| - 1] != '-'
    decreases |s|
  {
    if s != [] && s[|s| - 1] == '-' then
      var r := TrimRightDashes(s[..|s| - 1]);
      assert s[..|s| - 1][..|r|] == s[..|r|];
      r
    else s
  }

  /** strings.Trim(s, "-") */
  function TrimDashes(s: string): string {
    TrimRightDashes(TrimLeftDashes(s))
  }

  /** The first '-' becomes '/'. */
  function FirstDashToSlash(s: string): (r: string)
    ensures |r| == |s|
  {
    var i := IndexOf(s, "-");
    if i < 0 then s else s[..i] + "/" + s[i + 1..]
  }

  /** Only the first '-' changes: every other character, later dashes included, stays. */
  lemma FirstDashOnly(s: string)
    ensures var r := FirstDashToSlash(s);
      var i := IndexOf(s, "-");
      && |r| == |s|
      && (forall k :: 0 <= k < |s| && k != i ==> r[k] == s[k])
      && (i >= 0 ==> r[i] == '/' && s[i] == '-' && forall k :: 0 <= k < i ==> s[k] != '-')
  {
    var i := IndexOf(s, "-");
    if i >= 0 {
      var r := s[..i] + "/" + s[i + 1..];
      assert forall k :: 0 <= k < i ==> r[k] == s[k];
      assert forall k :: i < k < |s| ==> r[k] == s[k];
      assert s[i..][0] == s[i];
      forall k | 0 <= k < i
        ensures s[k] != '-'
      {
        assert !OccursAt(s, "-", k);
        assert s[k..][0] == s[k];
      }
    }
  }

  /** A name longer than 40 characters keeps its last 37, after "...". */
  function Truncate(u: string): (r: string)
    ensures |r| <= MaxProjectWidth
    ensures |u| <= MaxProjectWidth ==> r == u
    ensures |u| > MaxProjectWidth ==> |r| == MaxProjectWidth && "..." <= r && HasSuffix(r, u[|u| - 37..])
  {
    if |u| > MaxProjectWidth then "..." + u[|u| - 37..] else u
  }

  /** The specification of shortProject: an empty result falls back to the slug itself. */
  function ShortProjectOf(slug: string): (r: string)
    ensures |r| <= MaxProjectWidth
    ensures slug == "" ==> r == ""
  {
    var t := FirstDashToSlash(TrimDashes(CollapseAll(StripHomes(slug, HomePrefixes))));
    Truncate(if t == "" then slug else t)
  }

  lemma StripHomesSnoc(s: string, prefixes: seq<string>, i: nat)
    requires i < |prefixes|
    ensures StripHomes(s, prefixes[..i + 1]) == StripHome(StripHomes(s, prefixes[..i]), prefixes[i])
  {
    assert prefixes[..i + 1][..i] == prefixes[..i];
  }

  /** The prefix loop of shortProject. */
  method StripHomePrefixes(slug: string) returns (s: string)
    ensures s == StripHomes(slug, HomePrefixes)
  {
    s := slug;
    for i := 0 to |HomePrefixes|
      invariant s == StripHomes(slug, HomePrefixes[..i])
    {
      StripHomesSnoc(slug, HomePrefixes, i);
      s := StripHome(s, HomePrefixes[i]);
    }
    assert HomePrefixes[..|HomePrefixes|] == HomePrefixes;
  }

  /** The rewrite loop of shortProject: no "--" is left. */
  method CollapseDashes(s0: string) returns (s: string)
    ensures s == CollapseAll(s0)
    ensures !Contains(s, "--")
  {
    s := s0;
    while Contains(s, "--")
      invariant CollapseAll(s) == CollapseAll(s0)
      decreases |s|
    {
      s := CollapsePass(s);
    }
  }

  /**
   * shortProject: the slug with its home prefix stripped, runs of '-'
   * collapsed, outer dashes trimmed, the first '-' turned into '/', and
   * shortened from the left to 40 characters.
   */
  method ShortProject(slug: string) returns (r: string)
    ensures r == ShortProjectOf(slug)
  {
    var s := StripHomePrefixes(slug);
    s := CollapseDashes(s);
    s := FirstDashToSlash(TrimDashes(s));
    if s == "" {
      s := slug;
    }
    r := Truncate(s);
  }

  /** No two adjacent dashes: nothing for the rewrite loop to do. */
  lemma NoDoubleDash(s: string)
    requires forall k :: 0 <= k < |s| - 1 ==> s[k] != '-' || s[k + 1] != '-'
    ensures CollapseAll(s) == s
  {
    forall j | 0 <= j <= |s|
      ensures !OccursAt(s, "--", j)
    {
      if j + 2 <= |s| {
        assert s[j..][0] == s[j] && s[j..][1] == s[j + 1];
      }
    }
  }

  /** ShortProjectOf, stage by stage. */
  lemma ShortProjectVia(slug: string, afterUsers: string, stripped: string, collapsed: string, t: string)
    requires StripHome(slug, "-Users-") == afterUsers
    requires StripHome(afterUsers, "-home-") == stripped
    requires CollapseAll(stripped) == collapsed
    requires FirstDashToSlash(TrimDashes(collapsed)) == t
    ensures ShortProjectOf(slug) == Truncate(if t == "" then slug else t)
  {
    assert HomePrefixes[..1] == ["-Users-"];
    assert StripHomes(slug, HomePrefixes[..1]) == afterUsers;
  }

  /** A slug that is already clean is left alone, except that its first '-' becomes '/'. */
  lemma {:induction false} ShortProjectPlain(slug: string)
    requires !Contains(slug, "-Users-") && !Contains(slug, "-home-") && !Contains(slug, "--")
    requires slug != [] && slug[0] != '-' && slug[|slug| - 1] != '-'
    requires |slug| <= MaxProjectWidth
    ensures ShortProjectOf(slug) == FirstDashToSlash(slug)
  {
    ShortProjectVia(slug, slug, slug, slug, FirstDashToSlash(slug));
  }

  /** The user name and the '-' after the prefix go together with the prefix. */
  lemma StripUser(prefix: string, user: string, rest: string)
    requires forall k :: 0 <= k < |user| ==> user[k] != '-'
    ensures StripHome(prefix + user + "-" + rest, prefix) == rest
  {
    var slug := prefix + user + "-" + rest;
    assert prefix <= slug;
    var tail := slug[|prefix|..];
    assert tail == user + "-" + rest;
    IndexOfCharAt(tail, '-', |user|);
    assert tail[|user| + 1..] == rest;
  }

  /** A macOS slug "-Users-<user>-<rest>" becomes <rest> with its first '-' turned into '/'. */
  lemma ShortProjectUsersSlug(user: string, rest: string)
    requires forall k :: 0 <= k < |user| ==> user[k] != '-'
    requires !Contains(rest, "-home-") && !Contains(rest, "--")
    requires rest != [] && rest[0] != '-' && rest[|rest| - 1] != '-'
    requires |rest| <= MaxProjectWidth
    ensures ShortProjectOf("-Users-" + user + "-" + rest) == FirstDashToSlash(rest)
  {
    StripUser("-Users-", user, rest);
    ShortProjectVia("-Users-" + user + "-" + rest, rest, rest, rest, FirstDashToSlash(rest));
  }

  /** A Linux slug "-home-<user>-<rest>" becomes <rest> with its first '-' turned into '/'. */
  lemma ShortProjectHomeSlug(user: string, rest: string)
    requires forall k :: 0 <= k < |user| ==> user[k] != '-'
    requires !Contains("-home-" + user + "-" + rest, "-Users-") && !Contains(rest, "--")
    requires rest != [] && rest[0] != '-' && rest[|rest| - 1] != '-'
    requires |rest| <= MaxProjectWidth
    ensures ShortProjectOf("-home-" + user + "-" + rest) == FirstDashToSlash(rest)
  {
    var slug := "-home-" + user + "-" + rest;
    StripUser("-home-", user, rest);
    ShortProjectVia(slug, slug, rest, rest, FirstDashToSlash(rest));
  }

  /** The empty slug stays empty. */
  lemma ShortProjectEmpty()
    ensures ShortProjectOf("") == ""
  {
  }

  lemma CollapseDoubleDashExample()
    ensures CollapseAll("a--b") == "a-b"
  {
    assert OccursAt("a--b", "--", 1);
    assert "a--b"[1..] == "--b";
    assert "--b"[2..] == "b";
    assert CollapsePass("b") == "b";
    NoDoubleDash("a-b");
  }

  lemma SlashExample()
    ensures FirstDashToSlash("a-b") == "a/b"
  {
    IndexOfCharAt("a-b", '-', 1);
    assert "a-b"[..1] == "a";
    assert "a-b"[2..] == "b";
  }

  /** A "--" collapses before the first '-' becomes '/'. */
  lemma ShortProjectDoubleDash()
    ensures ShortProjectOf("a--b") == "a/b"
  {
    IndexOfMissingChar("a--b", "-Users-", 'U');
    IndexOfMissingChar("a--b", "-home-", 'h');
    CollapseDoubleDashExample();
    SlashExample();
    ShortProjectVia("a--b", "a--b", "a--b", "a-b", "a/b");
  }

  // ---------------------------------------------------------------------------
  // fmtDuration

  /** fmtDuration of a duration in nanoseconds: whole microseconds below 1ms, whole milliseconds from there. */
  function FmtDuration(d: int): (r: string)
    ensures |r| > 2 && r[|r| - 2..] == (if d < 1_000_000 then "µs" else "ms")
  {
    if d < 1_000_000 then IntToDecimal(TruncDiv(d, 1000)) + "µs"
    else IntToDecimal(d / 1_000_000) + "ms"
  }

  /**
   * For a non-negative duration the number shown, read back, is the
   * duration truncated to the unit shown: microseconds below 1ms,
   * milliseconds from 1ms on.
   */
  lemma FmtDurationTruncates(d: nat)
    ensures var r := FmtDuration(d);
      var unit := if d < 1_000_000 then "µs" else "ms";
      var scale := if d < 1_000_000 then 1000 else 1_000_000;
      && |r| > 2 && r[|r| - 2..] == unit && AllDigits(r[..|r| - 2])
      && DecimalValue(r[..|r| - 2]) * scale <= d < (DecimalValue(r[..|r| - 2]) + 1) * scale
  {
    var scale := if d < 1_000_000 then 1000 else 1_000_000;
    var q := d / scale;
    var r := FmtDuration(d);
    assert r[..|r| - 2] == NatToDecimal(q);
    DecimalRoundTrip(q);
  }

  /** The rows of the duration examples. */
  lemma FmtDurationExamples()
    ensures FmtDuration(500_000) == "500µs"
    ensures FmtDuration(999_000) == "999µs"
    ensures FmtDuration(1_000_000) == "1ms"
    ensures FmtDuration(150_000_000) == "150ms"
    ensures FmtDuration(1_500_000_000) == "1500ms"
  {
  }

  // ---------------------------------------------------------------------------
  // fmtTokens

  /** A token count as shown: the plain decimal, or a value with a unit suffix (rendered with one decimal). */
  datatype TokenText = Plain(text: string) | Scaled(value: real, suffix: string)

  /** The divisor a suffix stands for. */
  function SuffixScale(suffix: string): real {
    if suffix == "B" then 1_000_000_000.0
    else if suffix == "M" then 1_000_000.0
    else 1_000.0
  }

  /** fmtTokens, up to the one-decimal rendering of the scaled value. */
  function FmtTokens(n: int): (r: TokenText)
    ensures r.Plain? <==> n < 1000
    ensures r.Plain? ==> r.text == IntToDecimal(n)
    ensures r.Scaled? ==> r.suffix in {"K", "M", "B"} && r.value * SuffixScale(r.suffix) == n as real
    ensures r.Scaled? ==> 1.0 <= r.value && (r.suffix != "B" ==> r.value < 1000.0)
  {
    if n >= 1_000_000_000 then Scaled(n as real / 1_000_000_000.0, "B")
    else if n >= 1_000_000 then Scaled(n as real / 1_000_000.0, "M")
    else if n >= 1_000 then Scaled(n as real / 1_000.0, "K")
    else Plain(IntToDecimal(n))
  }

  /** The unit is the largest of K, M and B that leaves a value of at least one. */
  lemma FmtTokensSuffixUnique(n: int, suffix: string)
    requires suffix in {"K", "M", "B"}
    requires FmtTokens(n).Scaled?
    requires 1.0 <= n as real / SuffixScale(suffix)
    requires suffix != "B" ==> n as real / SuffixScale(suffix) < 1000.0
    ensures FmtTokens(n).suffix == suffix
  {
  }

  /** The rows of the token examples. */
  lemma FmtTokensExamples()
    ensures FmtTokens(0) == Plain("0")
    ensures FmtTokens(500) == Plain("500")
    ensures FmtTokens(1_500) == Scaled(1.5, "K")
    ensures FmtTokens(1_500_000) == Scaled(1.5, "M")
    ensures FmtTokens(1_500_000_000) == Scaled(1.5, "B")
  {
  }
}
