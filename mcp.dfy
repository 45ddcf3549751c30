/**
 * MCP server detection for the status line: the names configured globally,
 * by enabled plugins and by the project, minus the project's disabled list,
 * de-duplicated ignoring case and sorted.
 */
module Mcp {
  import opened Wrappers
  import opened Text

  // ---------------------------------------------------------------------------
  // Project slugs and project lookup

  /** The per-project overrides of `~/.claude.json`. */
  datatype ProjectConfig = ProjectConfig(disabledMcpServers: seq<string>, disabledMcpjsonServers: seq<string>)

  const EmptyConfig: ProjectConfig := ProjectConfig([], [])

  predicate IsSlugSeparator(c: char) {
    c == '/' || c == '\\' || c == ':'
  }

  function SlugChar(c: char): char {
    if IsSlugSeparator(c) then '-' else c
  }

  /** projectSlug: every '/', '\' and ':' becomes '-'; every other character stays. */
  function ProjectSlug(path: string): (r: string)
    ensures |r| == |path|
    ensures forall i :: 0 <= i < |path| ==> r[i] == if IsSlugSeparator(path[i]) then '-' else path[i]
    decreases |path|
  {
    if path == [] then []
    else ProjectSlug(path[..|path| - 1]) + [SlugChar(path[|path| - 1])]
  }

  lemma SlugHasNoSeparators(path: string)
    ensures forall i :: 0 <= i < |ProjectSlug(path)| ==> !IsSlugSeparator(ProjectSlug(path)[i])
  {
  }

  lemma ProjectSlugIdempotent(path: string)
    ensures ProjectSlug(ProjectSlug(path)) == ProjectSlug(path)
  {
  }

  /** The lookup key of findProject: backslashes read as slashes. */
  function Normalize(path: string): string {
    ReplaceChar(path, '\\', '/')
  }

  /**
   * findProject: the exact entry if there is one, else the entry of some key
   * that matches after normalising slashes (whichever map iteration meets
   * first), else the empty config.
   */
  method FindProject(projects: map<string, ProjectConfig>, path: string) returns (cfg: ProjectConfig)
    ensures path in projects ==> cfg == projects[path]
    ensures path !in projects && (exists k :: k in projects && Normalize(k) == Normalize(path)) ==>
              exists k :: k in projects && Normalize(k) == Normalize(path) && cfg == projects[k]
    ensures path !in projects && (forall k :: k in projects ==> Normalize(k) != Normalize(path)) ==> cfg == EmptyConfig
  {
    if path in projects {
      return projects[path];
    }
    var norm := Normalize(path);
    var remaining := projects.Keys;
    while remaining != {}
      invariant remaining <= projects.Keys
      invariant forall k :: k in projects && k !in remaining ==> Normalize(k) != norm
      decreases remaining
    {
      var key :| key in remaining;
      if Normalize(key) == norm {
        return projects[key];
      }
      remaining := remaining - {key};
    }
    return EmptyConfig;
  }

  /** The directory a transcript lives in names its project's slug. */
  function TranscriptSlug(transcriptPath: string): string {
    Base(Dir(transcriptPath))
  }

  /**
   * projectPathFromSlug: some project whose slug is the name of the
   * transcript's directory, or "" when there is none or nothing to go on.
   */
  method ProjectPathFromSlug(projects: map<string, ProjectConfig>, transcriptPath: string) returns (p: string)
    ensures transcriptPath == "" || |projects| == 0 ==> p == ""
    ensures p != "" ==> p in projects && ProjectSlug(p) == TranscriptSlug(transcriptPath) && TranscriptSlug(transcriptPath) != "."
    ensures (&& transcriptPath != "" && TranscriptSlug(transcriptPath) != "."
             && exists k :: k in projects && ProjectSlug(k) == TranscriptSlug(transcriptPath)) ==> p != ""
  {
    if transcriptPath == "" || |projects| == 0 {
      return "";
    }
    var slug := TranscriptSlug(transcriptPath);
    if slug == "" || slug == "." {
      return "";
    }
    var remaining := projects.Keys;
    while remaining != {}
      invariant remaining <= projects.Keys
      invariant forall k :: k in projects && k !in remaining ==> ProjectSlug(k) != slug
      decreases remaining
    {
      var key :| key in remaining;
      if ProjectSlug(key) == slug {
        return key;
      }
      remaining := remaining - {key};
    }
    return "";
  }

  // ---------------------------------------------------------------------------
  // The disabled list

  function AllDisabled(proj: ProjectConfig): seq<string> {
    proj.disabledMcpServers + proj.disabledMcpjsonServers
  }

  /**
   * The name an entry disables: `plugin:<p>:<server>` (at least two colons,
   * first part "plugin") disables `p`; anything else disables itself. Both
   * lower-cased.
   */
  function DisabledName(entry: string): string {
    var i := IndexOf(entry, ":");
    if i < 0 then Lower(entry)
    else
      var tail := entry[i + 1..];
      var j := IndexOf(tail, ":");
      if j >= 0 && entry[..i] == "plugin" then Lower(tail[..j]) else Lower(entry)
  }

  predicate NoColon(s: string) {
    forall k :: 0 <= k < |s| ==> s[k] != ':'
  }

  lemma PluginEntryDisablesPlugin(p: string, server: string)
    requires NoColon(p)
    ensures DisabledName("plugin:" + p + ":" + server) == Lower(p)
  {
    var e := "plugin:" + p + ":" + server;
    IndexOfCharAt(e, ':', 6);
    var tail := e[7..];
    assert tail == p + ":" + server;
    IndexOfCharAt(tail, ':', |p|);
    assert tail[..|p|] == p;
  }

  lemma PlainEntryDisablesItself(entry: string)
    requires NoColon(entry)
    ensures DisabledName(entry) == Lower(entry)
  {
    IndexOfCharAbsent(entry, ':');
  }

  /** A plugin entry with a single colon is not in plugin form and disables itself. */
  lemma OneColonEntryDisablesItself(p: string)
    requires NoColon(p)
    ensures DisabledName("plugin:" + p) == Lower("plugin:" + p)
  {
    var e := "plugin:" + p;
    IndexOfCharAt(e, ':', 6);
    assert e[7..] == p;
    IndexOfCharAbsent(p, ':');
  }

  /** The names a list of entries disables, lower-cased. */
  function DisabledNames(entries: seq<string>): set<string>
    decreases |entries|
  {
    if entries == [] then {}
    else DisabledNames(entries[..|entries| - 1]) + {DisabledName(entries[|entries| - 1])}
  }

  lemma {:induction false} DisabledNamesMembers(entries: seq<string>, n: string)
    ensures n in DisabledNames(entries) <==> exists e :: e in entries && DisabledName(e) == n
    decreases |entries|
  {
    if entries != [] {
      var last := |entries| - 1;
      DisabledNamesMembers(entries[..last], n);
      assert entries == entries[..last] + [entries[last]];
      if n in DisabledNames(entries[..last]) {
        var e :| e in entries[..last] && DisabledName(e) == n;
        assert e in entries;
      }
    }
  }

  /** The names a project config disables. */
  function DisabledSet(cfg: ProjectConfig): set<string> {
    DisabledNames(AllDisabled(cfg))
  }

  /** collectDisabledMCPs: the set of names the project's two lists disable. */
  method CollectDisabledMCPs(proj: ProjectConfig) returns (disabled: set<string>)
    ensures disabled == DisabledSet(proj)
    ensures forall n :: n in disabled <==> exists e :: e in AllDisabled(proj) && DisabledName(e) == n
    ensures AllDisabled(proj) == [] ==> disabled == {}
  {
    var all := AllDisabled(proj);
    disabled := {};
    if |all| == 0 {
      return;
    }
    for i := 0 to |all|
      invariant disabled == DisabledNames(all[..i])
    {
      assert all[..i + 1][..i] == all[..i];
      disabled := disabled + {DisabledName(all[i])};
    }
    assert all[..|all|] == all;
    forall n
      ensures n in disabled <==> exists e :: e in all && DisabledName(e) == n
    {
      DisabledNamesMembers(all, n);
    }
  }

  // ---------------------------------------------------------------------------
  // filterDisabled

  /** The names whose lower case is not disabled, in their order. */
  function Kept(names: seq<string>, disabled: set<string>): seq<string>
    decreases |names|
  {
    if names == [] then []
    else
      var last := names[|names| - 1];
      Kept(names[..|names| - 1], disabled) + (if Lower(last) in disabled then [] else [last])
  }

  lemma {:induction false} KeptMembers(names: seq<string>, disabled: set<string>)
    ensures forall x :: x in Kept(names, disabled) <==> x in names && Lower(x) !in disabled
    decreases |names|
  {
    if names != [] {
      var n := |names| - 1;
      KeptMembers(names[..n], disabled);
      assert names == names[..n] + [names[n]];
    }
  }

  lemma {:induction false} KeptOrder(a: seq<string>, b: seq<string>, disabled: set<string>)
    ensures Kept(a + b, disabled) == Kept(a, disabled) + Kept(b, disabled)
    decreases |b|
  {
    if b == [] {
      assert a + b == a;
    } else {
      var n := |b| - 1;
      KeptOrder(a, b[..n], disabled);
      assert (a + b)[..|a + b| - 1] == a + b[..n];
    }
  }

  lemma {:induction false} KeptAllWhenNothingDisabled(names: seq<string>)
    ensures Kept(names, {}) == names
    decreases |names|
  {
    if names != [] {
      KeptAllWhenNothingDisabled(names[..|names| - 1]);
    }
  }

  /** filterDisabled: the order-preserving selection of the names not disabled. */
  method FilterDisabled(names: seq<string>, disabled: set<string>) returns (filtered: seq<string>)
    ensures filtered == Kept(names, disabled)
    ensures disabled == {} ==> filtered == names
  {
    if |disabled| == 0 {
      KeptAllWhenNothingDisabled(names);
      return names;
    }
    filtered := [];
    for i := 0 to |names|
      invariant filtered == Kept(names[..i], disabled)
    {
      assert names[..i + 1][..i] == names[..i];
      if Lower(names[i]) !in disabled {
        filtered := filtered + [names[i]];
      }
    }
    assert names[..|names|] == names;
  }

  // ---------------------------------------------------------------------------
  // deduplicateAndSort

  /** The first name of each case-insensitive class, in order, skipping the classes in `seen`. */
  function FirstOfEach(names: seq<string>, seen: set<string>): seq<string>
    decreases |names|
  {
    if names == [] then []
    else if Lower(names[0]) in seen then FirstOfEach(names[1..], seen)
    else [names[0]] + FirstOfEach(names[1..], seen + {Lower(names[0])})
  }

  predicate NoCaseDuplicates(s: seq<string>) {
    forall i, j :: 0 <= i < j < |s| ==> Lower(s[i]) != Lower(s[j])
  }

  lemma {:induction false} FirstOfEachUnique(names: seq<string>, seen: set<string>)
    ensures NoCaseDuplicates(FirstOfEach(names, seen))
    ensures forall y :: y in FirstOfEach(names, seen) ==> y in names && Lower(y) !in seen
    decreases |names|
  {
    if names != [] {
      var rest := names[1..];
      if Lower(names[0]) in seen {
        FirstOfEachUnique(rest, seen);
      } else {
        var seen' := seen + {Lower(names[0])};
        FirstOfEachUnique(rest, seen');
        var r := FirstOfEach(names, seen);
        var t := FirstOfEach(rest, seen');
        assert r == [names[0]] + t;
        forall i, j | 0 <= i < j < |r|
          ensures Lower(r[i]) != Lower(r[j])
        {
          assert r[j] == t[j - 1];
          if i == 0 {
            assert t[j - 1] in t;
          } else {
            assert r[i] == t[i - 1];
          }
        }
      }
    }
  }

  /** Every class of the names outside `seen` is represented. */
  lemma {:induction false} FirstOfEachCovers(names: seq<string>, seen: set<string>)
    ensures forall x :: x in names && Lower(x) !in seen ==> exists y :: y in FirstOfEach(names, seen) && Lower(y) == Lower(x)
    decreases |names|
  {
    if names != [] {
      var rest := names[1..];
      var seen' := if Lower(names[0]) in seen then seen else seen + {Lower(names[0])};
      FirstOfEachCovers(rest, seen');
      forall x | x in names && Lower(x) !in seen
        ensures exists y :: y in FirstOfEach(names, seen) && Lower(y) == Lower(x)
      {
        if x == names[0] || Lower(x) == Lower(names[0]) {
          assert names[0] in FirstOfEach(names, seen);
        } else {
          assert x in rest;
        }
      }
    }
  }

  /** `y` occurs at `i`, and no name before `i` is `y` ignoring case. */
  predicate FirstOfClassAt(names: seq<string>, y: string, i: int) {
    0 <= i < |names| && names[i] == y && forall j :: 0 <= j < i ==> Lower(names[j]) != Lower(y)
  }

  /** `y` is the first occurrence of its case-insensitive class in `names`. */
  predicate IsFirstOfClass(names: seq<string>, y: string) {
    exists i :: 0 <= i < |names| && FirstOfClassAt(names, y, i)
  }

  /** Each kept name is the first occurrence of its class. */
  lemma {:induction false} FirstOfEachKeepsFirst(names: seq<string>, seen: set<string>, y: string)
    requires y in FirstOfEach(names, seen)
    ensures IsFirstOfClass(names, y)
    decreases |names|
  {
    assert names != [];
    var rest := names[1..];
    if y == names[0] && Lower(names[0]) !in seen {
      assert FirstOfClassAt(names, y, 0);
    } else {
      var seen' := if Lower(names[0]) in seen then seen else seen + {Lower(names[0])};
      assert y in FirstOfEach(rest, seen');
      FirstOfEachKeepsFirst(rest, seen', y);
      FirstOfEachUnique(rest, seen');
      var i :| 0 <= i < |rest| && FirstOfClassAt(rest, y, i);
      assert Lower(names[0]) != Lower(y);
      forall j | 1 <= j < i + 1
        ensures Lower(names[j]) != Lower(y)
      {
        assert names[j] == rest[j - 1];
      }
      assert FirstOfClassAt(names, y, i + 1);
    }
  }

  /** Go's string order, `a <= b`, pairwise. */
  predicate SortedStrings(s: seq<string>) {
    forall i, j :: 0 <= i < j < |s| ==> LessEq(s[i], s[j])
  }

  function Insert(x: string, s: seq<string>): (r: seq<string>)
    ensures multiset(r) == multiset(s) + multiset{x}
    decreases |s|
  {
    if s == [] then [x]
    else if LessEq(x, s[0]) then [x] + s
    else
      assert s == [s[0]] + s[1..];
      [s[0]] + Insert(x, s[1..])
  }

  lemma LessEqTransitive(a: string, b: string, c: string)
    requires LessEq(a, b) && LessEq(b, c)
    ensures LessEq(a, c)
  {
    if a != b && b != c {
      LessTransitive(a, b, c);
    }
  }

  lemma {:induction false} InsertSorted(x: string, s: seq<string>)
    requires SortedStrings(s)
    ensures SortedStrings(Insert(x, s))
    decreases |s|
  {
    if s != [] && !LessEq(x, s[0]) {
      LessTotal(x, s[0]);
      InsertSorted(x, s[1..]);
      var t := Insert(x, s[1..]);
      forall j | 0 <= j < |t|
        ensures LessEq(s[0], t[j])
      {
        assert t[j] in multiset(t);
        if t[j] != x {
          assert t[j] in s[1..];
        }
      }
    } else if s != [] {
      forall j | 0 <= j < |s|
        ensures LessEq(x, s[j])
      {
        LessEqTransitive(x, s[0], s[j]);
      }
    }
  }

  /** sort.Strings, as an insertion sort on values. */
  function SortStrings(s: seq<string>): (r: seq<string>)
    ensures multiset(r) == multiset(s)
    decreases |s|
  {
    if s == [] then []
    else
      assert s == [s[0]] + s[1..];
      Insert(s[0], SortStrings(s[1..]))
  }

  lemma {:induction false} SortStringsSorted(s: seq<string>)
    ensures SortedStrings(SortStrings(s))
    decreases |s|
  {
    if s != [] {
      SortStringsSorted(s[1..]);
      InsertSorted(s[0], SortStrings(s[1..]));
    }
  }

  /** Reordering keeps "no two equal ignoring case". */
  lemma PermutationKeepsNoCaseDuplicates(s: seq<string>, t: seq<string>)
    requires NoCaseDuplicates(s) && multiset(t) == multiset(s)
    ensures NoCaseDuplicates(t)
  {
    forall i, j | 0 <= i < j < |t|
      ensures Lower(t[i]) != Lower(t[j])
    {
      if Lower(t[i]) == Lower(t[j]) {
        var a := t[i];
        var b := t[j];
        assert a in multiset(s) && b in multiset(s);
        var p :| 0 <= p < |s| && s[p] == a;
        var q :| 0 <= q < |s| && s[q] == b;
        if p == q {
          assert a == b;
          CountAtTwo(t, i, j);
          CountTwice(s, a, p);
        }
      }
    }
  }

  /** An element at two positions is counted at least twice. */
  lemma CountAtTwo(t: seq<string>, i: nat, j: nat)
    requires i < j < |t| && t[i] == t[j]
    ensures multiset(t)[t[i]] >= 2
  {
    assert t == t[..i] + [t[i]] + t[i + 1..j] + [t[j]] + t[j + 1..];
  }

  /** An element counted twice sits at two positions. */
  lemma CountTwice(s: seq<string>, a: string, p: nat)
    requires p < |s| && s[p] == a && multiset(s)[a] >= 2
    ensures exists p' :: 0 <= p' < |s| && p' != p && s[p'] == a
  {
    assert s == s[..p] + [a] + s[p + 1..];
    assert multiset(s[..p])[a] + multiset(s[p + 1..])[a] >= 1;
    if multiset(s[..p])[a] >= 1 {
      assert a in s[..p];
      var k :| 0 <= k < p && s[..p][k] == a;
      assert s[k] == a;
    } else {
      assert a in s[p + 1..];
      var k :| 0 <= k < |s| - p - 1 && s[p + 1..][k] == a;
      assert s[p + 1 + k] == a;
    }
  }

  /** One step of the loop of deduplicateAndSort. */
  lemma FirstOfEachStep(names: seq<string>, i: nat, seen: set<string>)
    requires i < |names|
    ensures FirstOfEach(names[i..], seen) ==
              if Lower(names[i]) in seen then FirstOfEach(names[i + 1..], seen)
              else [names[i]] + FirstOfEach(names[i + 1..], seen + {Lower(names[i])})
  {
    assert names[i..][0] == names[i] && names[i..][1..] == names[i + 1..];
  }

  /** Sorting keeps exactly the names kept: each is an input name, the first of its class. */
  lemma SortedFirstsAreFirsts(names: seq<string>, unique: seq<string>)
    requires multiset(unique) == multiset(FirstOfEach(names, {}))
    ensures forall y :: y in unique ==> y in names && IsFirstOfClass(names, y)
  {
    FirstOfEachUnique(names, {});
    forall y | y in unique
      ensures y in names && IsFirstOfClass(names, y)
    {
      assert y in multiset(FirstOfEach(names, {}));
      FirstOfEachKeepsFirst(names, {}, y);
    }
  }

  /** Sorting keeps every class represented. */
  lemma SortedFirstsCover(names: seq<string>, unique: seq<string>)
    requires multiset(unique) == multiset(FirstOfEach(names, {}))
    ensures forall x :: x in names ==> exists y :: y in unique && Lower(y) == Lower(x)
  {
    FirstOfEachCovers(names, {});
    forall x | x in names
      ensures exists y :: y in unique && Lower(y) == Lower(x)
    {
      var y :| y in FirstOfEach(names, {}) && Lower(y) == Lower(x);
      assert y in multiset(unique);
    }
  }

  /**
   * deduplicateAndSort: the first name of each case-insensitive class, then
   * sorted.
   */
  method DeduplicateAndSort(names: seq<string>) returns (unique: seq<string>)
    ensures unique == SortStrings(FirstOfEach(names, {}))
    ensures SortedStrings(unique)
    ensures NoCaseDuplicates(unique)
    ensures forall y :: y in unique ==> y in names
    ensures forall x :: x in names ==> exists y :: y in unique && Lower(y) == Lower(x)
    ensures forall y :: y in unique ==> IsFirstOfClass(names, y)
  {
    var seen: set<string> := {};
    var kept: seq<string> := [];
    for i := 0 to |names|
      invariant kept + FirstOfEach(names[i..], seen) == FirstOfEach(names, {})
    {
      FirstOfEachStep(names, i, seen);
      var lower := Lower(names[i]);
      if lower !in seen {
        seen := seen + {lower};
        kept := kept + [names[i]];
      }
    }
    assert names[|names|..] == [];
    assert kept == FirstOfEach(names, {});
    unique := SortStrings(kept);
    SortStringsSorted(kept);
    FirstOfEachUnique(names, {});
    PermutationKeepsNoCaseDuplicates(kept, unique);
    SortedFirstsAreFirsts(names, unique);
    SortedFirstsCover(names, unique);
  }

  // ---------------------------------------------------------------------------
  // parseEnabledPluginMCPs

  /** The plugin name of an `enabledPlugins` key: the text before the first '@', if there is one. */
  function PluginName(key: string): Option<string> {
    var i := IndexOf(key, "@");
    if i < 0 then None else Some(key[..i])
  }

  lemma PluginNameOf(name: string, marketplace: string)
    requires forall k :: 0 <= k < |name| ==> name[k] != '@'
    ensures PluginName(name + "@" + marketplace) == Some(name)
  {
    IndexOfCharAt(name + "@" + marketplace, '@', |name|);
    assert (name + "@" + marketplace)[..|name|] == name;
  }

  /** The names of the plugins switched on in `enabledPlugins` whose key has an '@'. */
  ghost function EnabledSet(enabledPlugins: map<string, bool>): set<string> {
    set k | k in enabledPlugins && enabledPlugins[k] && PluginName(k).Some? :: PluginName(k).value
  }

  lemma EnabledSetMembers(enabledPlugins: map<string, bool>, n: string)
    ensures n in EnabledSet(enabledPlugins) <==>
              exists k :: k in enabledPlugins && enabledPlugins[k] && PluginName(k) == Some(n)
  {
    if n in EnabledSet(enabledPlugins) {
      var k :| k in enabledPlugins && enabledPlugins[k] && PluginName(k).Some? && PluginName(k).value == n;
      assert PluginName(k) == Some(n);
    }
  }

  /** The first loop of parseEnabledPluginMCPs: the names of the plugins switched on. */
  method EnabledNames(enabledPlugins: map<string, bool>) returns (enabled: set<string>)
    ensures enabled == EnabledSet(enabledPlugins)
  {
    enabled := {};
    var remaining := enabledPlugins.Keys;
    while remaining != {}
      invariant remaining <= enabledPlugins.Keys
      invariant forall n :: n in enabled <==>
                  exists k :: k in enabledPlugins && k !in remaining && enabledPlugins[k] && PluginName(k) == Some(n)
      decreases remaining
    {
      var key :| key in remaining;
      if enabledPlugins[key] {
        var i := IndexOf(key, "@");
        if i >= 0 {
          enabled := enabled + {key[..i]};
        }
      }
      remaining := remaining - {key};
    }
    forall n ensures n in enabled <==> n in EnabledSet(enabledPlugins) {
      EnabledSetMembers(enabledPlugins, n);
    }
  }

  /** An entry of the walk over the plugins directory, in walk order. */
  datatype PluginEntry = PluginEntry(path: string, isDir: bool)

  /** Where the climb from a `.mcp.json` stops. */
  predicate AtTop(dir: string, pluginsDir: string) {
    dir == pluginsDir || dir == "." || dir == "/"
  }

  /** The names of the directories from `dir` up to, but not including, the plugins directory. */
  function Ancestors(dir: string, pluginsDir: string): seq<string>
    requires dir != ""
    decreases DirRank(dir)
  {
    if AtTop(dir, pluginsDir) then []
    else
      DirShrinks(dir);
      [Base(dir)] + Ancestors(Dir(dir), pluginsDir)
  }

  /** The climb: the nearest such directory whose name is wanted. */
  function Climb(dir: string, pluginsDir: string, wanted: set<string>): (r: Option<string>)
    requires dir != ""
    ensures r.Some? ==> r.value in wanted && r.value in Ancestors(dir, pluginsDir)
    ensures r.None? ==> forall n :: n in Ancestors(dir, pluginsDir) ==> n !in wanted
    decreases DirRank(dir)
  {
    if AtTop(dir, pluginsDir) then None
    else if Base(dir) in wanted then Some(Base(dir))
    else
      DirShrinks(dir);
      Climb(Dir(dir), pluginsDir, wanted)
  }

  predicate IsMcpFile(e: PluginEntry) {
    !e.isDir && Base(e.path) == ".mcp.json"
  }

  /** One callback of the walk: a `.mcp.json` credits the nearest enabled ancestor not yet found. */
  function PluginStep(found: set<string>, e: PluginEntry, pluginsDir: string, enabled: set<string>): (r: set<string>)
    ensures found <= r && r - found <= enabled - found
  {
    if !IsMcpFile(e) then found
    else match Climb(Dir(e.path), pluginsDir, enabled - found)
      case None => found
      case Some(n) => found + {n}
  }

  lemma StepSaturated(e: PluginEntry, pluginsDir: string, enabled: set<string>)
    ensures PluginStep(enabled, e, pluginsDir, enabled) == enabled
  {
  }

  /** The walk without its early stop. */
  function PluginFold(entries: seq<PluginEntry>, pluginsDir: string, enabled: set<string>): (found: set<string>)
    ensures found <= enabled
    decreases |entries|
  {
    if entries == [] then {}
    else PluginStep(PluginFold(entries[..|entries| - 1], pluginsDir, enabled), entries[|entries| - 1], pluginsDir, enabled)
  }

  /** Every name found is enabled and names an ancestor, strictly below the plugins directory, of a `.mcp.json`. */
  lemma {:induction false} FoundNamesAncestors(entries: seq<PluginEntry>, pluginsDir: string, enabled: set<string>, n: string)
    requires n in PluginFold(entries, pluginsDir, enabled)
    ensures n in enabled
    ensures exists k :: 0 <= k < |entries| && IsMcpFile(entries[k]) && n in Ancestors(Dir(entries[k].path), pluginsDir)
    decreases |entries|
  {
    var last := |entries| - 1;
    var before := PluginFold(entries[..last], pluginsDir, enabled);
    if n in before {
      FoundNamesAncestors(entries[..last], pluginsDir, enabled, n);
      var k :| 0 <= k < last && IsMcpFile(entries[..last][k]) && n in Ancestors(Dir(entries[..last][k].path), pluginsDir);
      assert entries[..last][k] == entries[k];
    } else {
      assert IsMcpFile(entries[last]) && n in Ancestors(Dir(entries[last].path), pluginsDir);
    }
  }

  /** The fold over one more entry is one more step. */
  lemma FoldSnoc(entries: seq<PluginEntry>, i: nat, pluginsDir: string, enabled: set<string>)
    requires i < |entries|
    ensures PluginFold(entries[..i + 1], pluginsDir, enabled)
            == PluginStep(PluginFold(entries[..i], pluginsDir, enabled), entries[i], pluginsDir, enabled)
  {
    assert entries[..i + 1][..i] == entries[..i];
  }

  /** Once every enabled plugin is found, later entries change nothing. */
  lemma {:induction false} SaturatedFoldStays(entries: seq<PluginEntry>, i: nat, pluginsDir: string, enabled: set<string>)
    requires i <= |entries| && PluginFold(entries[..i], pluginsDir, enabled) == enabled
    ensures PluginFold(entries, pluginsDir, enabled) == enabled
    decreases |entries|
  {
    if i < |entries| {
      var last := |entries| - 1;
      assert entries[..last][..i] == entries[..i];
      SaturatedFoldStays(entries[..last], i, pluginsDir, enabled);
      FoldSnoc(entries, last, pluginsDir, enabled);
      StepSaturated(entries[last], pluginsDir, enabled);
      assert entries[..last + 1] == entries;
    } else {
      assert entries[..i] == entries;
    }
  }

  lemma SubsetOfSameSize(a: set<string>, b: set<string>)
    requires a <= b && |a| == |b|
    ensures a == b
  {
    assert b == a + (b - a);
    assert a * (b - a) == {};
    assert b - a == {};
  }

  /** The inner loop of the walk callback: climbing towards the plugins directory. */
  method ClimbFrom(start: string, pluginsDir: string, enabled: set<string>, found: set<string>) returns (hit: Option<string>)
    requires start != ""
    ensures hit == Climb(start, pluginsDir, enabled - found)
  {
    var dir := start;
    while !AtTop(dir, pluginsDir)
      invariant dir != ""
      invariant Climb(start, pluginsDir, enabled - found) == Climb(dir, pluginsDir, enabled - found)
      decreases DirRank(dir)
    {
      var name := Base(dir);
      if name in enabled && name !in found {
        return Some(name);
      }
      DirShrinks(dir);
      dir := Dir(dir);
    }
    return None;
  }

  /** No two equal elements. */
  predicate Distinct(s: seq<string>) {
    forall i, j :: 0 <= i < j < |s| ==> s[i] != s[j]
  }

  /** The last loop of parseEnabledPluginMCPs: the found set as a slice, in map order. */
  method ToSlice(found: set<string>) returns (names: seq<string>)
    ensures forall n :: n in names <==> n in found
    ensures Distinct(names)
  {
    names := [];
    var rest := found;
    while rest != {}
      invariant rest <= found
      invariant forall n :: n in names <==> n in found && n !in rest
      invariant Distinct(names)
      decreases rest
    {
      var n :| n in rest;
      names := names + [n];
      rest := rest - {n};
    }
  }

  /** One callback of the walk, given what the climb from a `.mcp.json` found. */
  lemma WalkStep(found: set<string>, e: PluginEntry, pluginsDir: string, enabled: set<string>, hit: Option<string>)
    requires IsMcpFile(e) ==> hit == Climb(Dir(e.path), pluginsDir, enabled - found)
    requires !IsMcpFile(e) ==> hit == None
    ensures PluginStep(found, e, pluginsDir, enabled) == if hit.Some? then found + {hit.value} else found
    ensures hit.Some? ==> hit.value in enabled && |found + {hit.value}| == |found| + 1
  {
  }

  /**
   * The walk of parseEnabledPluginMCPs over the plugins directory. It stops
   * (filepath.SkipAll) as soon as every enabled plugin has been found.
   */
  method WalkPlugins(entries: seq<PluginEntry>, pluginsDir: string, enabled: set<string>) returns (found: set<string>)
    requires |enabled| > 0
    ensures found == PluginFold(entries, pluginsDir, enabled)
  {
    var remaining := |enabled|;
    found := {};
    var i := 0;
    while i < |entries|
      invariant 0 <= i <= |entries|
      invariant found == PluginFold(entries[..i], pluginsDir, enabled)
      invariant remaining == |enabled| - |found| > 0
      decreases |entries| - i
    {
      var e := entries[i];
      var hit: Option<string> := None;
      if !e.isDir && Base(e.path) == ".mcp.json" {
        hit := ClimbFrom(Dir(e.path), pluginsDir, enabled, found);
      }
      FoldSnoc(entries, i, pluginsDir, enabled);
      WalkStep(found, e, pluginsDir, enabled, hit);
      if hit.Some? {
        found := found + {hit.value};
        remaining := remaining - 1;
        if remaining == 0 {
          SubsetOfSameSize(found, enabled);
          SaturatedFoldStays(entries, i + 1, pluginsDir, enabled);
          return;
        }
      }
      i := i + 1;
    }
    assert entries[..|entries|] == entries;
  }

  /**
   * parseEnabledPluginMCPs: the enabled plugins that have a `.mcp.json` below
   * their directory, each once.
   */
  method ParseEnabledPluginMCPs(enabledPlugins: map<string, bool>, entries: seq<PluginEntry>, pluginsDir: string)
    returns (names: seq<string>)
    ensures forall n :: n in names <==> n in PluginFold(entries, pluginsDir, EnabledSet(enabledPlugins))
    ensures Distinct(names)
    ensures EnabledSet(enabledPlugins) == {} ==> names == []
  {
    var enabled := EnabledNames(enabledPlugins);
    if |enabled| == 0 {
      return [];
    }
    var found := WalkPlugins(entries, pluginsDir, enabled);
    names := ToSlice(found);
  }

  // ---------------------------------------------------------------------------
  // detectMCPs

  /** The plugins directory under `claudeDir` (filepath.Join without cleaning). */
  function PluginsDir(claudeDir: string): string {
    if claudeDir == "" then "plugins" else JoinPath(claudeDir, "plugins")
  }

  /**
   * What detectMCPs reports for the candidate names and a disabled set: sorted,
   * one name per case-insensitive class, only candidates that are not disabled,
   * and every candidate class that is not disabled represented.
   */
  ghost predicate Reported(r: seq<string>, candidates: set<string>, disabled: set<string>) {
    && SortedStrings(r)
    && NoCaseDuplicates(r)
    && (forall y :: y in r ==> y in candidates && Lower(y) !in disabled)
    && (forall x :: x in candidates && Lower(x) !in disabled ==> exists y :: y in r && Lower(y) == Lower(x))
  }

  /**
   * The candidate names: the settings' servers, the enabled plugins found
   * under the plugins directory, and the project's `.mcp.json` servers (none
   * without a working directory).
   */
  ghost function Candidates(settingsServers: seq<string>, enabledPlugins: map<string, bool>, pluginEntries: seq<PluginEntry>,
                            claudeDir: string, cwd: string, projectServers: seq<string>): set<string> {
    (set n | n in settingsServers)
      + PluginFold(pluginEntries, PluginsDir(claudeDir), EnabledSet(enabledPlugins))
      + (if cwd == "" then {} else set n | n in projectServers)
  }

  lemma CandidatesListed(settingsServers: seq<string>, enabledPlugins: map<string, bool>, pluginEntries: seq<PluginEntry>,
                         claudeDir: string, cwd: string, projectServers: seq<string>, plugins: seq<string>)
    requires forall n :: n in plugins <==> n in PluginFold(pluginEntries, PluginsDir(claudeDir), EnabledSet(enabledPlugins))
    ensures var all := settingsServers + plugins + (if cwd == "" then [] else projectServers);
      forall x :: x in all <==> x in Candidates(settingsServers, enabledPlugins, pluginEntries, claudeDir, cwd, projectServers)
  {
  }

  /**
   * The lookup findProject performs: the exact key, else some key that is the
   * same path once normalized, else the empty configuration.
   */
  ghost predicate ConfigFor(projects: map<string, ProjectConfig>, path: string, cfg: ProjectConfig) {
    && (path in projects ==> cfg == projects[path])
    && (path !in projects && (exists k :: k in projects && Normalize(k) == Normalize(path)) ==>
          exists k :: k in projects && Normalize(k) == Normalize(path) && cfg == projects[k])
    && (path !in projects && (forall k :: k in projects ==> Normalize(k) != Normalize(path)) ==> cfg == EmptyConfig)
  }

  /**
   * The choice projectPathFromSlug makes: "" without a transcript or projects,
   * otherwise a project whose slug names the transcript's directory when
   * there is one, and "" when there is none.
   */
  ghost predicate SlugChoice(projects: map<string, ProjectConfig>, transcriptPath: string, p: string) {
    && (transcriptPath == "" || |projects| == 0 ==> p == "")
    && (p != "" ==> p in projects && ProjectSlug(p) == TranscriptSlug(transcriptPath) && TranscriptSlug(transcriptPath) != ".")
    && ((&& transcriptPath != "" && TranscriptSlug(transcriptPath) != "."
         && exists k :: k in projects && ProjectSlug(k) == TranscriptSlug(transcriptPath)) ==> p != "")
  }

  lemma FoundConfigIsKnown(projects: map<string, ProjectConfig>, path: string, cfg: ProjectConfig)
    requires ConfigFor(projects, path, cfg)
    ensures cfg == EmptyConfig || cfg in projects.Values
  {
  }

  lemma ReportedFrom(all: seq<string>, candidates: set<string>, disabled: set<string>, unique: seq<string>)
    requires forall x :: x in all <==> x in candidates
    requires SortedStrings(unique) && NoCaseDuplicates(unique)
    requires forall y :: y in unique ==> y in Kept(all, disabled)
    requires forall x :: x in Kept(all, disabled) ==> exists y :: y in unique && Lower(y) == Lower(x)
    ensures Reported(unique, candidates, disabled)
  {
    KeptMembers(all, disabled);
  }

  /**
   * detectMCPs. The settings' server names (in map order), the enabled-plugin
   * map, the walk of the plugins directory, the working directory taken from
   * the transcript, the servers of that directory's `.mcp.json` and the
   * projects of `.claude.json` are given as read.
   */
  method DetectMCPs(settingsServers: seq<string>, enabledPlugins: map<string, bool>, pluginEntries: seq<PluginEntry>,
                    claudeDir: string, cwd: string, projectServers: seq<string>,
                    projects: map<string, ProjectConfig>, transcriptPath: string)
    returns (names: seq<string>)
    ensures var c := Candidates(settingsServers, enabledPlugins, pluginEntries, claudeDir, cwd, projectServers);
      exists p, cfg :: && (cwd != "" ==> p == cwd)
                       && (cwd == "" ==> SlugChoice(projects, transcriptPath, p))
                       && ConfigFor(projects, p, cfg)
                       && Reported(names, c, DisabledSet(cfg))
    ensures var c := Candidates(settingsServers, enabledPlugins, pluginEntries, claudeDir, cwd, projectServers);
      exists cfg :: (cfg == EmptyConfig || cfg in projects.Values) && Reported(names, c, DisabledSet(cfg))
    ensures var c := Candidates(settingsServers, enabledPlugins, pluginEntries, claudeDir, cwd, projectServers);
      cwd != "" && cwd in projects ==> Reported(names, c, DisabledSet(projects[cwd]))
    ensures var c := Candidates(settingsServers, enabledPlugins, pluginEntries, claudeDir, cwd, projectServers);
      projects == map[] ==> Reported(names, c, {})
  {
    var all := settingsServers;
    var plugins := ParseEnabledPluginMCPs(enabledPlugins, pluginEntries, PluginsDir(claudeDir));
    all := all + plugins;
    var fromDir := if cwd == "" then [] else projectServers;
    all := all + fromDir;

    var projectPath := cwd;
    if projectPath == "" {
      projectPath := ProjectPathFromSlug(projects, transcriptPath);
    }
    var cfg := FindProject(projects, projectPath);
    var disabled := CollectDisabledMCPs(cfg);
    var filtered := FilterDisabled(all, disabled);
    names := DeduplicateAndSort(filtered);

    ghost var c := Candidates(settingsServers, enabledPlugins, pluginEntries, claudeDir, cwd, projectServers);
    CandidatesListed(settingsServers, enabledPlugins, pluginEntries, claudeDir, cwd, projectServers, plugins);
    ReportedFrom(all, c, disabled, names);
    assert cwd == "" ==> SlugChoice(projects, transcriptPath, projectPath);
    assert ConfigFor(projects, projectPath, cfg);
    FoundConfigIsKnown(projects, projectPath, cfg);
  }
}
