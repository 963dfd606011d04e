/** The globs and extensions of src/utils/build_scoping.py as their users write them: what is
    trimmed away, what names a directory, and what the emitted text then keeps. */
module GlobLiterals {
  import opened Basics
  import opened Strings
  import opened RegexText
  import opened BuildScoping
  import opened ScopeRegex

  const BLANKS := "\t\n\r \U{000B}\U{000C}\U{001C}\U{001D}\U{001E}\U{001F}\U{0085}\U{00A0}"

  // A glob that starts with no blank, dot or slash and ends with no blank.
  predicate CleanEnds(g: string) {
    g != "" && g[0] !in BLANKS && g[0] != '.' && g[0] != '/' && g[|g| - 1] !in BLANKS
  }

  lemma TrimmedAway(before: string, dots: string, g: string, after: string)
    requires (forall c | c in before :: c in BLANKS) && (forall c | c in after :: c in BLANKS)
    requires (forall c | c in dots :: c == '.' || c == '/') && CleanEnds(g)
    ensures Trimmed(before + (dots + g + after)) == g
  {
    assert dots != "" ==> dots[0] in dots;
    StripTakes(before, dots + g, after);
    LStripTakes(dots, g, DotOrSlash);
  }

  // Blanks around a glob, and any dots and slashes before it, change nothing.
  lemma TrimmingIsIgnored(before: string, dots: string, g: string, after: string)
    requires (forall c | c in before :: c in BLANKS) && (forall c | c in after :: c in BLANKS)
    requires (forall c | c in dots :: c == '.' || c == '/') && CleanEnds(g)
    ensures PathRegex(before + (dots + g + after)) == PathRegex(g)
  {
    TrimmedAway(before, dots, g, after);
    CleanIsTrimmed(g);
  }

  // ---- What a glob keeps ----

  // The emitted text parses and, on a one-line path, keeps it.
  ghost predicate Keeps(glob: string, path: string) {
    Parse(PathRegex(glob)).Some? && FullMatch(Parse(PathRegex(glob)).value, path)
  }

  predicate OneLine(path: string) {
    forall c | c in path :: c !in "\n\r\U{0085}\U{2028}\U{2029}"
  }

  // Path k is a slash, and the glob matches what is before it.
  ghost predicate MatchesAbove(g: string, path: string, k: nat) {
    k < |path| && path[k] == '/' && GlobMatches(g, path[..k])
  }

  lemma OneLineHasNoBreak(path: string)
    ensures OneLine(path) <==> NoBreak(path)
  {
    assert forall i | 0 <= i < |path| :: path[i] in path;
  }

  // A glob that ends in slashes keeps what lies below a directory it matches without them.
  lemma SlashEndedKeepsSubtree(g: string, slashes: string, path: string)
    requires CleanEnds(g) && g[|g| - 1] != '/' && slashes != "" && (forall c | c in slashes :: c == '/')
    requires OneLine(path)
    ensures Keeps(g + slashes, path) <==> exists k: nat :: MatchesAbove(g, path, k)
  {
    SlashEndedReading(g, slashes);
    GlobCompilesCorrectly(g + slashes, path);
    BelowIsAbove(g, path);
  }

  lemma CleanIsTrimmed(g: string)
    requires CleanEnds(g)
    ensures Trimmed(g) == g
  {
    TrimmedAway("", "", g, "");
    assert "" + ("" + g + "") == g;
  }

  lemma SlashEndedReading(g: string, slashes: string)
    requires CleanEnds(g) && g[|g| - 1] != '/' && slashes != "" && (forall c | c in slashes :: c == '/')
    ensures Trimmed(g + slashes) == g + slashes && Core(g + slashes) == g && IsDirPrefix(g + slashes)
  {
    assert slashes[|slashes| - 1] in slashes && (g + slashes)[|g + slashes| - 1] == slashes[|slashes| - 1];
    CleanIsTrimmed(g + slashes);
    RStripTakes(g, slashes, Slash);
  }

  lemma BelowIsAbove(g: string, path: string)
    requires OneLine(path)
    ensures (exists k: nat :: BelowMatch(g, path, k)) <==> exists k: nat :: MatchesAbove(g, path, k)
  {
    OneLineHasNoBreak(path);
    forall k: nat ensures BelowMatch(g, path, k) <==> MatchesAbove(g, path, k) {
    }
  }

  // So does one without wildcard and dot; any other glob keeps exactly the paths it matches.
  lemma NameKeepsSubtree(g: string, path: string)
    requires CleanEnds(g) && g[|g| - 1] != '/' && OneLine(path)
    ensures Keeps(g, path) <==>
            if '*' in g || '?' in g || '.' in g then GlobMatches(g, path)
            else exists k: nat :: MatchesAbove(g, path, k)
  {
    CleanIsTrimmed(g);
    assert g + "" == g;
    RStripTakes(g, "", Slash);
    GlobCompilesCorrectly(g, path);
    BelowIsAbove(g, path);
  }

  lemma {:induction false} LiteralMatchesItself(d: string, path: string)
    requires '*' !in d && '?' !in d
    ensures GlobMatches(d, path) <==> path == d
  {
    if d == "" {
    } else {
      assert d[0] in d && !("**" <= d) && d == [d[0]] + d[1..];
      if path != "" {
        assert path == [path[0]] + path[1..];
        LiteralMatchesItself(d[1..], path[1..]);
      }
    }
  }

  lemma AboveIsPrefix(d: string, path: string)
    requires '*' !in d && '?' !in d
    ensures (exists k: nat :: MatchesAbove(d, path, k)) <==> d + "/" <= path
  {
    if k: nat :| MatchesAbove(d, path, k) {
      LiteralMatchesItself(d, path[..k]);
      assert path[..k + 1] == d + "/";
    }
    if d + "/" <= path {
      assert path[..|d|] == d && path[|d|] == (d + "/")[|d|];
      LiteralMatchesItself(d, path[..|d|]);
      assert MatchesAbove(d, path, |d|);
    }
  }

  // A directory's name, with or without a slash at its end, keeps exactly the one-line paths
  // that go on below it.
  lemma DirectoryKeepsItsSubtree(d: string, path: string)
    requires CleanEnds(d) && d[|d| - 1] != '/' && '*' !in d && '?' !in d && '.' !in d && OneLine(path)
    ensures Keeps(d, path) <==> d + "/" <= path
    ensures Keeps(d + "/", path) <==> d + "/" <= path
  {
    NameKeepsSubtree(d, path);
    SlashEndedKeepsSubtree(d, "/", path);
    AboveIsPrefix(d, path);
  }

  // ---- Extensions ----

  predicate HasText(s: string) {
    exists i | 0 <= i < |s| :: s[i] !in BLANKS
  }

  // An entry of the list, with any dots before it and not all blank, whose extension the path
  // ends in, after a dot.
  predicate Names(exts: seq<string>, path: string, dots: string, ext: string) {
    && (dots + ext) in exts
    && (forall c | c in dots :: c == '.') && (ext == "" || ext[0] != '.')
    && HasText(dots + ext)
    && EndsInDot(path, ext)
  }

  lemma {:induction false} DotsSplit(e: string) returns (dots: string)
    ensures e == dots + Undotted(e) && (forall c | c in dots :: c == '.')
    ensures Undotted(e) == "" || Undotted(e)[0] != '.'
  {
    var u := LStrip(e, Dot);
    dots := e[..|e| - |u|];
    assert forall c | c in dots :: exists i :: 0 <= i < |e| - |u| && e[i] == c;
  }

  lemma UsableIsNotBlank(e: string)
    ensures UsableExt(e) <==> HasText(e)
  {
    if Strip(e) != "" {
      StripFinds(e);
    }
    if i :| 0 <= i < |e| && e[i] !in BLANKS {
      StripKeeps(e, i);
    }
  }

  lemma StripFinds(e: string)
    requires Strip(e) != ""
    ensures HasText(e)
  {
    var l := LStrip(e, Blank);
    assert !Blank(l[0]) && e[|e| - |l|] == l[0];
  }

  lemma StripKeeps(e: string, i: nat)
    requires i < |e| && !IsSpace(e[i])
    ensures Strip(e) != ""
  {
    LStripKeeps(e, i, Blank);
    RStripKeeps(LStrip(e, Blank), i - (|e| - |LStrip(e, Blank)|), Blank);
  }

  lemma LStripKeeps(e: string, i: nat, drop: char -> bool)
    requires i < |e| && !drop(e[i])
    ensures i >= |e| - |LStrip(e, drop)|
  {
  }

  lemma RStripKeeps(e: string, i: nat, drop: char -> bool)
    requires i < |e| && !drop(e[i])
    ensures i < |RStrip(e, drop)|
  {
  }

  // The path ends in a dot and the extension.
  predicate EndsInDot(path: string, ext: string) {
    |path| > |ext| && path[|path| - |ext| - 1..] == "." + ext
  }

  lemma EndsInIsSuffix(path: string, m: nat, ext: string)
    ensures EndsInExt(path, m, ext) <==> EndsInDot(path, Undotted(ext)) && m == |path| - |Undotted(ext)| - 1
  {
    if m < |path| {
      assert path[m..] == [path[m]] + path[m + 1..];
    }
  }

  lemma ExtensionsByName(exts: seq<string>, path: string)
    ensures HasSourceExt(exts, path) <==> exists dots, ext :: Names(exts, path, dots, ext)
  {
    if m: nat, e :| EndsInExt(path, m, e) && e in exts && UsableExt(e) {
      var dots := NamedByEntry(exts, path, m, e);
    }
    if dots, ext :| Names(exts, path, dots, ext) {
      EntryOfName(exts, path, dots, ext);
    }
  }

  lemma NamedByEntry(exts: seq<string>, path: string, m: nat, e: string) returns (dots: string)
    requires EndsInExt(path, m, e) && e in exts && UsableExt(e)
    ensures Names(exts, path, dots, Undotted(e))
  {
    dots := DotsSplit(e);
    EndsInIsSuffix(path, m, e);
    UsableIsNotBlank(e);
    NameOf(exts, path, dots, Undotted(e), e);
  }

  lemma NameOf(exts: seq<string>, path: string, dots: string, ext: string, e: string)
    requires e == dots + ext && e in exts && (forall c | c in dots :: c == '.') && (ext == "" || ext[0] != '.')
    requires HasText(e) && EndsInDot(path, ext)
    ensures Names(exts, path, dots, ext)
  {
  }

  lemma EntryOfName(exts: seq<string>, path: string, dots: string, ext: string)
    requires Names(exts, path, dots, ext)
    ensures EndsInExt(path, |path| - |ext| - 1, dots + ext) && UsableExt(dots + ext)
  {
    LStripTakes(dots, ext, Dot);
    UsableIsNotBlank(dots + ext);
    EndsInIsSuffix(path, |path| - |ext| - 1, dots + ext);
  }

  lemma KeptByName(globs: seq<string>, path: string)
    ensures SomeAccepts(globs, path) <==> exists g :: g in globs && PathRegex(g) != "" && Keeps(g, path)
  {
    forall g | g in globs ensures Accepts(g, path) <==> PathRegex(g) != "" && Keeps(g, path) {
      PathRegexIsEmpty(g);
      if Trimmed(g) != "" {
        GlobCompilesCorrectly(g, path);
      }
    }
  }

  // The scope drops a path exactly when it is one line that ends in a dot and an extension of
  // the list, written there with or without dots before it, and the text of no glob keeps it.
  lemma ScopeDropsOtherSources(globs: seq<string>, exts: seq<string>, path: string)
    ensures match ScopeExcludeRegex(globs, exts)
            case None => true
            case Some(text) =>
              && Parse(text).Some?
              && (FullMatch(Parse(text).value, path)
                  <==> && OneLine(path) && (exists dots, ext :: Names(exts, path, dots, ext))
                       && !exists g :: g in globs && PathRegex(g) != "" && Keeps(g, path))
  {
    OneLineHasNoBreak(path);
    ScopeExcludesOutOfScopeSources(globs, exts, path);
    ExtensionsByName(exts, path);
    KeptByName(globs, path);
  }
}
