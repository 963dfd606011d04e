/** include_globs to --exclude-regex: src/utils/build_scoping.py. The compiler builds regex
    text; what that text means is its parse under RegexText. */
module BuildScoping {
  import opened Basics
  import opened Strings
  import opened RegexText

  // ---- The compiler ----

  // re.escape on one character.
  function EscapeRegex(c: char): string {
    if c in "()[]{}?*+-|^$\\.&~# \t\n\r\U{000B}\U{000C}" then ['\\', c] else [c]
  }

  // The token the glob starts with: its text and how much of the glob it takes.
  function TokenText(g: string): string
    requires g != ""
  {
    if "**/" <= g then "(?:.*/)?"
    else if "**" <= g then ".*"
    else if g[0] == '*' then "[^/]*"
    else if g[0] == '?' then "[^/]"
    else EscapeRegex(g[0])
  }

  function TokenLength(g: string): (n: nat)
    requires g != ""
    ensures 1 <= n <= |g|
  {
    if "**/" <= g then 3 else if "**" <= g then 2 else 1
  }

  function BodyText(g: string): string
    decreases |g|
  {
    if g == "" then "" else TokenText(g) + BodyText(g[TokenLength(g)..])
  }

  const DotOrSlash: char -> bool := c => c == '.' || c == '/'
  const Slash: char -> bool := c => c == '/'
  const Dot: char -> bool := c => c == '.'

  // The glob without surrounding blanks and leading "./" characters.
  function Trimmed(glob: string): string {
    LStrip(Strip(glob), DotOrSlash)
  }

  predicate EndsWith(s: string, c: char) {
    s != "" && s[|s| - 1] == c
  }

  predicate IsDirPrefix(g: string) {
    EndsWith(g, '/') || ('*' !in g && '?' !in g && '.' !in g)
  }

  function Core(g: string): string {
    RStrip(g, Slash)
  }

  // A directory keeps its whole subtree.
  function SuffixText(dir: bool): string {
    if dir then "/.*" else ""
  }

  function PathRegex(glob: string): string {
    var g := Trimmed(glob);
    if g == "" then "" else BodyText(Core(g)) + SuffixText(IsDirPrefix(g))
  }

  method GlobToPathRegex(glob: string) returns (regex: string)
    ensures regex == PathRegex(glob)
  {
    var g := Trimmed(glob);
    if g == "" {
      return "";
    }
    regex := TranslateTokens(Core(g));
    if IsDirPrefix(g) {
      regex := regex + "/.*";
    }
  }

  // The tokenizer loop of glob_to_path_regex.
  method TranslateTokens(g: string) returns (regex: string)
    ensures regex == BodyText(g)
  {
    regex := "";
    var i := 0;
    while i < |g|
      invariant 0 <= i <= |g|
      invariant regex + BodyText(g[i..]) == BodyText(g)
    {
      BodyStep(regex, g, i);
      regex := regex + TokenText(g[i..]);
      i := i + TokenLength(g[i..]);
    }
  }

  lemma BodyStep(out: string, g: string, i: nat)
    requires i < |g|
    ensures out + TokenText(g[i..]) + BodyText(g[i + TokenLength(g[i..])..]) == out + BodyText(g[i..])
  {
    assert g[i..][TokenLength(g[i..])..] == g[i + TokenLength(g[i..])..];
  }

  function Join(parts: seq<string>): string {
    if parts == [] then ""
    else if |parts| == 1 then parts[0]
    else parts[0] + ("|" + Join(parts[1..]))
  }

  function Group(p: string): string {
    "(?:" + p + ")"
  }

  function Keeps(globs: seq<string>): seq<string> {
    if globs == [] then []
    else (if PathRegex(globs[0]) != "" then [Group(PathRegex(globs[0]))] else []) + Keeps(globs[1..])
  }

  function Undotted(ext: string): string {
    LStrip(ext, Dot)
  }

  function EscapeText(s: string): string {
    if s == "" then "" else EscapeRegex(s[0]) + EscapeText(s[1..])
  }

  predicate UsableExt(ext: string) {
    ext != "" && Strip(ext) != ""
  }

  function Exts(sourceExts: seq<string>): seq<string> {
    if sourceExts == [] then []
    else (if UsableExt(sourceExts[0]) then [EscapeText(Undotted(sourceExts[0]))] else []) + Exts(sourceExts[1..])
  }

  // The path ends in one of the extensions.
  function SourceText(exts: string): string {
    "(?=.*\\." + Group(exts) + "$)"
  }

  // The path is none of those to keep.
  function KeepText(keeps: string): string {
    "(?!" + Group(keeps) + "$)"
  }

  function ScopeExcludeRegex(globs: seq<string>, sourceExts: seq<string>): Option<string> {
    if Keeps(globs) == [] || Exts(sourceExts) == [] then None
    else Some(SourceText(Join(Exts(sourceExts))) + (KeepText(Join(Keeps(globs))) + ".*"))
  }

  function Usable(parts: seq<Option<string>>): seq<string> {
    if parts == [] then []
    else (if parts[0].Some? && parts[0].value != "" then [parts[0].value] else []) + Usable(parts[1..])
  }

  function Groups(parts: seq<string>): seq<string> {
    if parts == [] then [] else [Group(parts[0])] + Groups(parts[1..])
  }

  function CombineExcludeRegexes(parts: seq<Option<string>>): Option<string> {
    var usable := Usable(parts);
    if usable == [] then None
    else if |usable| == 1 then Some(usable[0])
    else Some(Join(Groups(usable)))
  }

  // ---- What a glob means ----

  // "*" and "?" never take a '/', "**" takes anything but a line terminator, "**/" takes
  // whole leading directories or nothing, everything else is itself.
  ghost predicate GlobMatches(g: string, path: string)
    decreases |g|
  {
    if g == "" then path == ""
    else if "**/" <= g then
      || GlobMatches(g[3..], path)
      || exists k: nat :: k < |path| && path[k] == '/' && NoBreak(path[..k]) && GlobMatches(g[3..], path[k + 1..])
    else if "**" <= g then
      exists k: nat :: k <= |path| && NoBreak(path[..k]) && GlobMatches(g[2..], path[k..])
    else if g[0] == '*' then
      exists k: nat :: k <= |path| && '/' !in path[..k] && GlobMatches(g[1..], path[k..])
    else if g[0] == '?' then
      path != "" && path[0] != '/' && GlobMatches(g[1..], path[1..])
    else
      path != "" && path[0] == g[0] && GlobMatches(g[1..], path[1..])
  }

  // path[k] is a slash, the glob matches what precedes it, and no line ends after it.
  ghost predicate BelowMatch(g: string, path: string, k: nat) {
    k < |path| && path[k] == '/' && GlobMatches(g, path[..k]) && NoBreak(path[k + 1..])
  }

  // A directory glob keeps what lies below a directory it matches; any other glob keeps
  // the paths it matches.
  ghost predicate Accepts(glob: string, path: string) {
    var g := Trimmed(glob);
    && g != ""
    && if IsDirPrefix(g) then
         exists k: nat :: BelowMatch(Core(g), path, k)
       else GlobMatches(Core(g), path)
  }

  // ---- The regex a glob is compiled to ----

  const AnyRun := Star(Any)
  const LeadingDirs := Opt(Cat(AnyRun, Cat(Chr('/'), Eps)))
  const BelowSlash := Cat(Chr('/'), Cat(AnyRun, Eps))

  function TokenRegex(g: string): Regex
    requires g != ""
  {
    if "**/" <= g then LeadingDirs
    else if "**" <= g then AnyRun
    else if g[0] == '*' then Star(NotChr('/'))
    else if g[0] == '?' then NotChr('/')
    else Chr(g[0])
  }

  function BodyRegex(g: string, suffix: Regex): Regex
    decreases |g|
  {
    if g == "" then suffix else Cat(TokenRegex(g), BodyRegex(g[TokenLength(g)..], suffix))
  }

  function SuffixRegex(dir: bool): Regex {
    if dir then BelowSlash else Eps
  }

  lemma EscapedCharParses(c: char, rest: string)
    requires !Quantifies(rest)
    ensures ParseRep(EscapeRegex(c) + rest) == Got(Chr(c), rest)
    ensures !Stops(EscapeRegex(c) + rest) && !Quantifies(EscapeRegex(c) + rest)
  {
    var e := EscapeRegex(c);
    if e == ['\\', c] {
      assert (e + rest)[2..] == rest && (e + rest)[0] == '\\' && (e + rest)[1] == c;
      assert !Alphanumeric(c);
      assert ParseAtom(e + rest) == Got(Chr(c), rest);
    } else {
      assert (e + rest)[1..] == rest && (e + rest)[0] == c;
      assert !Reserved(c);
      assert ParseAtom(e + rest) == Got(Chr(c), rest);
    }
  }

  lemma DotParses(rest: string)
    requires !Quantifies(rest)
    ensures ParseRep(".*" + rest) == Got(AnyRun, rest)
  {
    var s := ".*" + rest;
    assert s[1..] == "*" + rest && s[1..][1..] == rest;
    assert ParseAtom(s) == Got(Any, s[1..]);
  }

  lemma ClassParses(rest: string)
    ensures ParseAtom("[^/]" + rest) == Got(NotChr('/'), rest)
  {
    assert ("[^/]" + rest)[4..] == rest;
  }

  lemma SlashParses(rest: string)
    requires !Quantifies(rest)
    ensures ParseRep("/" + rest) == Got(Chr('/'), rest)
  {
    assert ("/" + rest)[1..] == rest;
    assert ParseAtom("/" + rest) == Got(Chr('/'), rest);
  }

  // A run of anything and a slash, up to where the concatenation stops.
  lemma DirsParse(rest: string)
    requires Stops(rest)
    ensures ParseCat(".*/" + rest) == Got(Cat(AnyRun, Cat(Chr('/'), Eps)), rest)
  {
    assert ".*/" + rest == ".*" + ("/" + rest);
    DotParses("/" + rest);
    SlashParses(rest);
    assert ParseCat(rest) == Got(Eps, rest);
    assert ParseCat("/" + rest) == Got(Cat(Chr('/'), Eps), rest);
  }

  lemma LeadingDirsParse(rest: string)
    requires !Quantifies(rest)
    ensures ParseRep("(?:.*/)?" + rest) == Got(LeadingDirs, rest)
  {
    var s := "(?:.*/)?" + rest;
    var tail := ")?" + rest;
    assert s[3..] == ".*/" + tail;
    DirsParse(tail);
    assert ParseAlt(s[3..]) == Got(Cat(AnyRun, Cat(Chr('/'), Eps)), tail);
    assert tail[1..] == "?" + rest && tail[1..][1..] == rest;
    assert ParseAtom(s) == Got(Cat(AnyRun, Cat(Chr('/'), Eps)), tail[1..]);
  }

  lemma TokenParses(g: string, rest: string)
    requires g != "" && !Quantifies(rest)
    ensures ParseRep(TokenText(g) + rest) == Got(TokenRegex(g), rest)
    ensures !Stops(TokenText(g) + rest) && !Quantifies(TokenText(g) + rest)
  {
    if "**/" <= g {
      LeadingDirsParse(rest);
    } else if "**" <= g {
      DotParses(rest);
    } else if g[0] == '*' {
      assert "[^/]*" + rest == "[^/]" + ("*" + rest);
      ClassParses("*" + rest);
      assert ("*" + rest)[1..] == rest;
    } else if g[0] == '?' {
      ClassParses(rest);
    } else {
      EscapedCharParses(g[0], rest);
    }
  }

  // text stands for the concatenation r wherever it is followed by a stop.
  ghost predicate CatText(text: string, r: Regex) {
    forall rest | Stops(rest) :: ParseCat(text + rest) == Got(r, rest)
  }

  lemma StopIsNoQuantifier(s: string)
    requires Stops(s)
    ensures !Quantifies(s)
  {
  }

  lemma SuffixParses(dir: bool, rest: string)
    requires Stops(rest)
    ensures ParseCat(SuffixText(dir) + rest) == Got(SuffixRegex(dir), rest)
    ensures !Quantifies(SuffixText(dir) + rest)
  {
    StopIsNoQuantifier(rest);
    if dir {
      assert "/.*" + rest == "/" + (".*" + rest);
      DotParses(rest);
      SlashParses(".*" + rest);
      assert ParseCat(rest) == Got(Eps, rest);
      assert ParseCat(".*" + rest) == Got(Cat(AnyRun, Eps), rest);
    } else {
      assert "" + rest == rest;
    }
  }

  lemma CatStep(first: string, tail: string, r: Regex, r': Regex, rest: string)
    requires !Stops(first + tail) && ParseRep(first + tail) == Got(r, tail) && ParseCat(tail) == Got(r', rest)
    ensures ParseCat(first + tail) == Got(Cat(r, r'), rest)
  {
  }

  lemma {:induction false} BodyParses(g: string, dir: bool, rest: string)
    requires Stops(rest)
    ensures ParseCat(BodyText(g) + (SuffixText(dir) + rest)) == Got(BodyRegex(g, SuffixRegex(dir)), rest)
    ensures !Quantifies(BodyText(g) + (SuffixText(dir) + rest))
    decreases |g|
  {
    var suffix := SuffixText(dir) + rest;
    if g == "" {
      SuffixParses(dir, rest);
      assert "" + suffix == suffix;
    } else {
      var g' := g[TokenLength(g)..];
      BodyParses(g', dir, rest);
      TokenParses(g, BodyText(g') + suffix);
      CatStep(TokenText(g), BodyText(g') + suffix, TokenRegex(g), BodyRegex(g', SuffixRegex(dir)), rest);
      BodyTextStep(g, suffix);
    }
  }

  lemma BodyTextStep(g: string, more: string)
    requires g != ""
    ensures BodyText(g) + more == TokenText(g) + (BodyText(g[TokenLength(g)..]) + more)
  {
  }

  function GlobRegex(glob: string): Regex {
    BodyRegex(Core(Trimmed(glob)), SuffixRegex(IsDirPrefix(Trimmed(glob))))
  }

  lemma Associate(a: string, b: string, c: string)
    ensures a + b + c == a + (b + c)
  {
  }

  // The text emitted for a glob parses, alone or inside a larger regex, to its regex.
  lemma GlobTextParses(glob: string)
    requires Trimmed(glob) != ""
    ensures CatText(PathRegex(glob), GlobRegex(glob))
    ensures Parse(PathRegex(glob)) == Some(GlobRegex(glob))
  {
    var g, text, r := Trimmed(glob), PathRegex(glob), GlobRegex(glob);
    var core, dir := Core(g), IsDirPrefix(g);
    forall rest | Stops(rest) ensures ParseCat(text + rest) == Got(r, rest) {
      BodyParses(core, dir, rest);
      Associate(BodyText(core), SuffixText(dir), rest);
    }
    CatTextParses(text, r);
  }

  lemma CatTextParses(text: string, r: Regex)
    requires CatText(text, r)
    ensures Parse(text) == Some(r)
  {
    assert text + "" == text && Stops("");
    assert ParseCat(text + "") == Got(r, "");
  }

  // ---- The regex means what the glob means ----

  // A starred one-character class matches exactly the runs of its characters.
  lemma {:induction false} AnyRunMatches(s: string, i: nat, j: nat)
    requires i <= j <= |s|
    ensures Matches(AnyRun, s, i, j) <==> NoBreak(s[i..j])
    decreases j - i
  {
    if i == j {
    } else {
      AnyRunMatches(s, i + 1, j);
      assert s[i..j] == [s[i]] + s[i + 1..j];
      assert Between(i, i + 1, j);
    }
  }

  lemma {:induction false} SegmentRunMatches(s: string, i: nat, j: nat)
    requires i <= j <= |s|
    ensures Matches(Star(NotChr('/')), s, i, j) <==> '/' !in s[i..j]
    decreases j - i
  {
    if i == j {
    } else {
      SegmentRunMatches(s, i + 1, j);
      assert s[i..j] == [s[i]] + s[i + 1..j];
      assert Between(i, i + 1, j);
    }
  }

  lemma CatEps(r: Regex, s: string, i: nat, j: nat)
    requires i <= j <= |s|
    ensures Matches(Cat(r, Eps), s, i, j) <==> Matches(r, s, i, j)
  {
    assert Between(i, j, j);
  }

  lemma DirsMatch(s: string, i: nat, j: nat)
    requires i <= j <= |s|
    ensures Matches(Cat(AnyRun, Cat(Chr('/'), Eps)), s, i, j)
       <==> i < j && s[j - 1] == '/' && NoBreak(s[i..j - 1])
  {
    var slash := Cat(Chr('/'), Eps);
    if Matches(Cat(AnyRun, slash), s, i, j) {
      var k := CatCut(AnyRun, slash, s, i, j);
      CatEps(Chr('/'), s, k, j);
      AnyRunMatches(s, i, k);
    }
    if i < j && s[j - 1] == '/' && NoBreak(s[i..j - 1]) {
      AnyRunMatches(s, i, j - 1);
      CatEps(Chr('/'), s, j - 1, j);
      CatIntro(AnyRun, slash, s, i, j - 1, j);
    }
  }

  lemma BelowSlashMatches(s: string, i: nat, j: nat)
    requires i <= j <= |s|
    ensures Matches(BelowSlash, s, i, j) <==> i < j && s[i] == '/' && NoBreak(s[i + 1..j])
  {
    var run := Cat(AnyRun, Eps);
    if Matches(BelowSlash, s, i, j) {
      var k := CatCut(Chr('/'), run, s, i, j);
      CatEps(AnyRun, s, k, j);
      AnyRunMatches(s, k, j);
    }
    if i < j && s[i] == '/' && NoBreak(s[i + 1..j]) {
      AnyRunMatches(s, i + 1, j);
      CatEps(AnyRun, s, i + 1, j);
      CatIntro(Chr('/'), run, s, i, i + 1, j);
    }
  }

  // The glob's meaning with its directory suffix taken along.
  ghost predicate BodyMatches(g: string, dir: bool, path: string)
    decreases |g|
  {
    if g == "" then
      if dir then path != "" && path[0] == '/' && NoBreak(path[1..]) else path == ""
    else if "**/" <= g then
      || BodyMatches(g[3..], dir, path)
      || exists k: nat :: k < |path| && path[k] == '/' && NoBreak(path[..k]) && BodyMatches(g[3..], dir, path[k + 1..])
    else if "**" <= g then
      exists k: nat :: k <= |path| && NoBreak(path[..k]) && BodyMatches(g[2..], dir, path[k..])
    else if g[0] == '*' then
      exists k: nat :: k <= |path| && '/' !in path[..k] && BodyMatches(g[1..], dir, path[k..])
    else if g[0] == '?' then
      path != "" && path[0] != '/' && BodyMatches(g[1..], dir, path[1..])
    else
      path != "" && path[0] == g[0] && BodyMatches(g[1..], dir, path[1..])
  }

  // r at every later start means m of the text that is left.
  ghost predicate Means(r: Regex, g: string, dir: bool, s: string, i: nat, j: nat)
    requires i <= j <= |s|
  {
    forall k: nat | i <= k <= j :: Matches(r, s, k, j) <==> BodyMatches(g, dir, s[k..j])
  }

  predicate RunOk(run: Regex, part: string) {
    if run == AnyRun then NoBreak(part) else '/' !in part
  }

  lemma RunMatches(run: Regex, s: string, i: nat, j: nat)
    requires i <= j <= |s| && (run == AnyRun || run == Star(NotChr('/')))
    ensures Matches(run, s, i, j) <==> RunOk(run, s[i..j])
  {
    if run == AnyRun {
      AnyRunMatches(s, i, j);
    } else {
      SegmentRunMatches(s, i, j);
    }
  }

  lemma RunCut(run: Regex, r: Regex, g: string, dir: bool, s: string, i: nat, j: nat) returns (k: nat)
    requires i <= j <= |s| && Means(r, g, dir, s, i, j) && (run == AnyRun || run == Star(NotChr('/')))
    requires Matches(Cat(run, r), s, i, j)
    ensures k <= j - i && RunOk(run, s[i..j][..k]) && BodyMatches(g, dir, s[i..j][k..])
  {
    var m := CatCut(run, r, s, i, j);
    RunMatches(run, s, i, m);
    k := m - i;
    assert s[i..j][..k] == s[i..m] && s[i..j][k..] == s[m..j];
  }

  lemma RunJoin(run: Regex, r: Regex, g: string, dir: bool, s: string, i: nat, j: nat, k: nat)
    requires i <= j <= |s| && Means(r, g, dir, s, i, j) && (run == AnyRun || run == Star(NotChr('/')))
    requires k <= j - i && RunOk(run, s[i..j][..k]) && BodyMatches(g, dir, s[i..j][k..])
    ensures Matches(Cat(run, r), s, i, j)
  {
    var m := i + k;
    assert s[i..j][..k] == s[i..m] && s[i..j][k..] == s[m..j];
    RunMatches(run, s, i, m);
    CatIntro(run, r, s, i, m, j);
  }

  lemma RunThenRest(run: Regex, r: Regex, g: string, dir: bool, s: string, i: nat, j: nat)
    requires i <= j <= |s| && Means(r, g, dir, s, i, j) && (run == AnyRun || run == Star(NotChr('/')))
    ensures var path := s[i..j];
            Matches(Cat(run, r), s, i, j) <==>
            exists k: nat :: k <= |path| && RunOk(run, path[..k]) && BodyMatches(g, dir, path[k..])
  {
    if Matches(Cat(run, r), s, i, j) {
      var k := RunCut(run, r, g, dir, s, i, j);
    }
    if k: nat :| k <= |s[i..j]| && RunOk(run, s[i..j][..k]) && BodyMatches(g, dir, s[i..j][k..]) {
      RunJoin(run, r, g, dir, s, i, j, k);
    }
  }

  lemma DirsCut(r: Regex, g: string, dir: bool, s: string, i: nat, j: nat) returns (k: int)
    requires i <= j <= |s| && Means(r, g, dir, s, i, j) && Matches(Cat(LeadingDirs, r), s, i, j)
    ensures var path := s[i..j];
            || (k == -1 && BodyMatches(g, dir, path))
            || (0 <= k < |path| && path[k] == '/' && NoBreak(path[..k]) && BodyMatches(g, dir, path[k + 1..]))
  {
    var m := CatCut(LeadingDirs, r, s, i, j);
    DirsMatch(s, i, m);
    k := m - i - 1;
    assert k >= 0 ==> s[i..j][..k] == s[i..m - 1] && s[i..j][k + 1..] == s[m..j] && s[i..j][k] == s[m - 1];
  }

  lemma DirsJoin(r: Regex, g: string, dir: bool, s: string, i: nat, j: nat, k: nat)
    requires i <= j <= |s| && Means(r, g, dir, s, i, j)
    requires var path := s[i..j];
             k < |path| && path[k] == '/' && NoBreak(path[..k]) && BodyMatches(g, dir, path[k + 1..])
    ensures Matches(Cat(LeadingDirs, r), s, i, j)
  {
    var m := i + k + 1;
    assert s[i..j][..k] == s[i..m - 1] && s[i..j][k + 1..] == s[m..j] && s[i..j][k] == s[m - 1];
    DirsMatch(s, i, m);
    CatIntro(LeadingDirs, r, s, i, m, j);
  }

  lemma DirsThenRest(r: Regex, g: string, dir: bool, s: string, i: nat, j: nat)
    requires i <= j <= |s| && Means(r, g, dir, s, i, j)
    ensures var path := s[i..j];
            Matches(Cat(LeadingDirs, r), s, i, j) <==>
            || BodyMatches(g, dir, path)
            || exists k: nat :: k < |path| && path[k] == '/' && NoBreak(path[..k])
                                && BodyMatches(g, dir, path[k + 1..])
  {
    var path := s[i..j];
    if Matches(Cat(LeadingDirs, r), s, i, j) {
      var k := DirsCut(r, g, dir, s, i, j);
    }
    if BodyMatches(g, dir, path) {
      assert Matches(r, s, i, j);
      CatIntro(LeadingDirs, r, s, i, i, j);
    }
    if k: nat :| k < |path| && path[k] == '/' && NoBreak(path[..k]) && BodyMatches(g, dir, path[k + 1..]) {
      DirsJoin(r, g, dir, s, i, j, k);
    }
  }

  lemma CharThenRest(one: Regex, r: Regex, g: string, dir: bool, s: string, i: nat, j: nat)
    requires i <= j <= |s| && Means(r, g, dir, s, i, j)
    requires one.Chr? || one.NotChr?
    ensures Matches(Cat(one, r), s, i, j) <==>
            s[i..j] != "" && (if one.Chr? then s[i..j][0] == one.c else s[i..j][0] != one.c)
            && BodyMatches(g, dir, s[i..j][1..])
  {
    if Matches(Cat(one, r), s, i, j) {
      var k := CatCut(one, r, s, i, j);
    }
    if i < j {
      assert s[i..j][1..] == s[i + 1..j];
      if Matches(one, s, i, i + 1) && Matches(r, s, i + 1, j) {
        CatIntro(one, r, s, i, i + 1, j);
      }
    }
  }

  lemma {:induction false} BodyRegexMeansBody(g: string, dir: bool, s: string, i: nat, j: nat)
    requires i <= j <= |s|
    ensures Matches(BodyRegex(g, SuffixRegex(dir)), s, i, j) <==> BodyMatches(g, dir, s[i..j])
    decreases |g|
  {
    if g == "" {
      if dir {
        BelowSlashMatches(s, i, j);
        assert i < j ==> s[i..j][1..] == s[i + 1..j];
      }
    } else {
      var g' := g[TokenLength(g)..];
      var r := BodyRegex(g', SuffixRegex(dir));
      forall k: nat | i <= k <= j ensures Matches(r, s, k, j) <==> BodyMatches(g', dir, s[k..j]) {
        BodyRegexMeansBody(g', dir, s, k, j);
      }
      if "**/" <= g {
        DirsThenRest(r, g', dir, s, i, j);
      } else if "**" <= g || g[0] == '*' {
        RunThenRest(TokenRegex(g), r, g', dir, s, i, j);
      } else {
        CharThenRest(TokenRegex(g), r, g', dir, s, i, j);
      }
    }
  }

  // A directory suffix asks for a slash below what the glob itself matches.
  lemma {:induction false} BodyWithoutSuffix(g: string, path: string)
    ensures BodyMatches(g, false, path) <==> GlobMatches(g, path)
    decreases |g|
  {
    if g == "" {
    } else {
      var n := TokenLength(g);
      forall rest ensures BodyMatches(g[n..], false, rest) <==> GlobMatches(g[n..], rest) {
        BodyWithoutSuffix(g[n..], rest);
      }
    }
  }

  lemma BelowAfterDirs(g: string, path: string, c: nat, k: nat)
    requires "**/" <= g && c < |path| && path[c] == '/' && NoBreak(path[..c])
    requires BelowMatch(g[3..], path[c + 1..], k)
    ensures BelowMatch(g, path, c + 1 + k)
  {
    var x := path[..c + 1 + k];
    assert x[..c] == path[..c] && x[c + 1..] == path[c + 1..][..k] && x[c] == '/';
    assert path[c + 1..][k + 1..] == path[c + 1 + k + 1..];
  }

  lemma BelowAfterRun(g: string, path: string, c: nat, k: nat)
    requires g != "" && !("**/" <= g) && g[0] == '*' && c <= |path|
    requires if "**" <= g then NoBreak(path[..c]) else '/' !in path[..c]
    requires BelowMatch(g[TokenLength(g)..], path[c..], k)
    ensures BelowMatch(g, path, c + k)
  {
    var x := path[..c + k];
    assert x[..c] == path[..c] && x[c..] == path[c..][..k];
    assert path[c..][k + 1..] == path[c + k + 1..];
  }

  lemma BelowAfterChar(g: string, path: string, k: nat)
    requires g != "" && g[0] != '*' && path != ""
    requires if g[0] == '?' then path[0] != '/' else path[0] == g[0]
    requires BelowMatch(g[1..], path[1..], k)
    ensures BelowMatch(g, path, k + 1)
  {
    assert path[..k + 1][1..] == path[1..][..k] && path[1..][k + 1..] == path[k + 2..];
  }

  // The slash that ends the leading directories, negative when there are none.
  lemma DirsOfBody(g: string, path: string) returns (c: int)
    requires "**/" <= g && BodyMatches(g, true, path)
    ensures c < 0 ==> BodyMatches(g[3..], true, path)
    ensures c >= 0 ==>
              c < |path| && path[c] == '/' && NoBreak(path[..c]) && BodyMatches(g[3..], true, path[c + 1..])
  {
    if BodyMatches(g[3..], true, path) {
      c := -1;
    } else {
      c :| 0 <= c < |path| && path[c] == '/' && NoBreak(path[..c]) && BodyMatches(g[3..], true, path[c + 1..]);
    }
  }

  lemma RunOfBody(g: string, path: string) returns (c: nat)
    requires g != "" && !("**/" <= g) && g[0] == '*' && BodyMatches(g, true, path)
    ensures c <= |path| && (if "**" <= g then NoBreak(path[..c]) else '/' !in path[..c])
    ensures BodyMatches(g[TokenLength(g)..], true, path[c..])
  {
    if "**" <= g {
      c :| c <= |path| && NoBreak(path[..c]) && BodyMatches(g[2..], true, path[c..]);
    } else {
      c :| c <= |path| && '/' !in path[..c] && BodyMatches(g[1..], true, path[c..]);
    }
  }

  lemma CharOfBody(g: string, path: string)
    requires g != "" && g[0] != '*' && BodyMatches(g, true, path)
    ensures path != "" && (if g[0] == '?' then path[0] != '/' else path[0] == g[0])
    ensures BodyMatches(g[1..], true, path[1..])
  {
  }

  lemma NothingOfBody(path: string)
    requires BodyMatches("", true, path)
    ensures BelowMatch("", path, 0)
  {
  }

  lemma {:induction false} SuffixFindsSlash(g: string, path: string) returns (k: nat)
    requires BodyMatches(g, true, path)
    ensures BelowMatch(g, path, k)
    decreases |g|, 1
  {
    if g == "" {
      NothingOfBody(path);
      k := 0;
    } else if "**/" <= g {
      k := SlashPastDirs(g, path);
    } else if g[0] == '*' {
      k := SlashPastRun(g, path);
    } else {
      k := SlashPastChar(g, path);
    }
  }

  lemma {:induction false} SlashPastDirs(g: string, path: string) returns (k: nat)
    requires "**/" <= g && BodyMatches(g, true, path)
    ensures BelowMatch(g, path, k)
    decreases |g|, 0
  {
    var c := DirsOfBody(g, path);
    if c < 0 {
      k := SuffixFindsSlash(g[3..], path);
      BelowAfterNoDirs(g, path, k);
    } else {
      var k' := SuffixFindsSlash(g[3..], path[c + 1..]);
      BelowAfterDirs(g, path, c, k');
      k := c + 1 + k';
    }
  }

  lemma BelowAfterNoDirs(g: string, path: string, k: nat)
    requires "**/" <= g && BelowMatch(g[3..], path, k)
    ensures BelowMatch(g, path, k)
  {
  }

  lemma {:induction false} SlashPastRun(g: string, path: string) returns (k: nat)
    requires g != "" && !("**/" <= g) && g[0] == '*' && BodyMatches(g, true, path)
    ensures BelowMatch(g, path, k)
    decreases |g|, 0
  {
    var c := RunOfBody(g, path);
    var k' := SuffixFindsSlash(g[TokenLength(g)..], path[c..]);
    BelowAfterRun(g, path, c, k');
    k := c + k';
  }

  lemma {:induction false} SlashPastChar(g: string, path: string) returns (k: nat)
    requires g != "" && g[0] != '*' && BodyMatches(g, true, path)
    ensures BelowMatch(g, path, k)
    decreases |g|, 0
  {
    CharOfBody(g, path);
    var k' := SuffixFindsSlash(g[1..], path[1..]);
    BelowAfterChar(g, path, k');
    k := k' + 1;
  }

  lemma DirsOfGlob(g: string, x: string) returns (c: nat)
    requires "**/" <= g && GlobMatches(g, x) && !GlobMatches(g[3..], x)
    ensures c < |x| && x[c] == '/' && NoBreak(x[..c]) && GlobMatches(g[3..], x[c + 1..])
  {
    c :| c < |x| && x[c] == '/' && NoBreak(x[..c]) && GlobMatches(g[3..], x[c + 1..]);
  }

  lemma RunOfGlob(g: string, x: string) returns (c: nat)
    requires g != "" && !("**/" <= g) && g[0] == '*' && GlobMatches(g, x)
    ensures c <= |x| && (if "**" <= g then NoBreak(x[..c]) else '/' !in x[..c])
    ensures GlobMatches(g[TokenLength(g)..], x[c..])
  {
    if "**" <= g {
      c :| c <= |x| && NoBreak(x[..c]) && GlobMatches(g[2..], x[c..]);
    } else {
      c :| c <= |x| && '/' !in x[..c] && GlobMatches(g[1..], x[c..]);
    }
  }

  // What a wildcard took leaves the rest of the path below the rest of the glob.
  lemma BelowShift(g: string, path: string, k: nat, c: nat)
    requires c <= k < |path| && path[k] == '/' && NoBreak(path[k + 1..]) && GlobMatches(g, path[..k][c..])
    ensures BelowMatch(g, path[c..], k - c)
  {
    assert path[..k][c..] == path[c..][..k - c] && path[c..][k - c + 1..] == path[k + 1..];
  }

  lemma SuffixAfterDirs(g: string, path: string, k: nat, c: nat)
    requires "**/" <= g && c < k <= |path| && path[c] == '/' && NoBreak(path[..k][..c])
    requires BodyMatches(g[3..], true, path[c + 1..])
    ensures BodyMatches(g, true, path)
  {
    assert path[..k][..c] == path[..c];
  }

  lemma SuffixAfterRun(g: string, path: string, k: nat, c: nat)
    requires g != "" && !("**/" <= g) && g[0] == '*' && c <= k <= |path|
    requires if "**" <= g then NoBreak(path[..k][..c]) else '/' !in path[..k][..c]
    requires BodyMatches(g[TokenLength(g)..], true, path[c..])
    ensures BodyMatches(g, true, path)
  {
    assert path[..k][..c] == path[..c];
  }

  lemma {:induction false} SlashGivesSuffix(g: string, path: string, k: nat)
    requires BelowMatch(g, path, k)
    ensures BodyMatches(g, true, path)
    decreases |g|, 1
  {
    if g == "" {
      assert k == 0;
    } else if "**/" <= g {
      DirsGiveSuffix(g, path, k);
    } else if g[0] == '*' {
      RunGivesSuffix(g, path, k);
    } else {
      BelowShift(g[1..], path, k, 1);
      SlashGivesSuffix(g[1..], path[1..], k - 1);
    }
  }

  lemma {:induction false} DirsGiveSuffix(g: string, path: string, k: nat)
    requires "**/" <= g && BelowMatch(g, path, k)
    ensures BodyMatches(g, true, path)
    decreases |g|, 0
  {
    if GlobMatches(g[3..], path[..k]) {
      SlashGivesSuffix(g[3..], path, k);
    } else {
      var c := DirsOfGlob(g, path[..k]);
      BelowShift(g[3..], path, k, c + 1);
      SlashGivesSuffix(g[3..], path[c + 1..], k - c - 1);
      SuffixAfterDirs(g, path, k, c);
    }
  }

  lemma {:induction false} RunGivesSuffix(g: string, path: string, k: nat)
    requires g != "" && !("**/" <= g) && g[0] == '*' && BelowMatch(g, path, k)
    ensures BodyMatches(g, true, path)
    decreases |g|, 0
  {
    var c := RunOfGlob(g, path[..k]);
    BelowShift(g[TokenLength(g)..], path, k, c);
    SlashGivesSuffix(g[TokenLength(g)..], path[c..], k - c);
    SuffixAfterRun(g, path, k, c);
  }

  // ---- Main result for one glob ----

  // The regex text emitted for a glob parses, and matches a path exactly when the glob
  // accepts it, for every glob and every path.
  lemma GlobCompilesCorrectly(glob: string, path: string)
    requires Trimmed(glob) != ""
    ensures Parse(PathRegex(glob)).Some?
    ensures FullMatch(Parse(PathRegex(glob)).value, path) <==> Accepts(glob, path)
  {
    GlobTextParses(glob);
    GlobRegexMeansGlob(glob, path);
  }

  lemma GlobRegexMeansGlob(glob: string, path: string)
    requires Trimmed(glob) != ""
    ensures FullMatch(GlobRegex(glob), path) <==> Accepts(glob, path)
  {
    var g := Trimmed(glob);
    var core, dir := Core(g), IsDirPrefix(g);
    BodyRegexMeansBody(core, dir, path, 0, |path|);
    assert path[0..|path|] == path;
    if dir {
      if BodyMatches(core, true, path) {
        var k := SuffixFindsSlash(core, path);
      }
      if k: nat :| BelowMatch(core, path, k) {
        SlashGivesSuffix(core, path, k);
      }
    } else {
      BodyWithoutSuffix(core, path);
    }
  }
}
