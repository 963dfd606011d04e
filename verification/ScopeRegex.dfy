/** What scope_exclude_regex and combine_exclude_regexes of src/utils/build_scoping.py
    build from the single globs: the emitted text parses, and excludes what it should. */
module ScopeRegex {
  import opened Basics
  import opened Strings
  import opened RegexText
  import opened BuildScoping

  // ---- Alternations ----

  function OrAll(rs: seq<Regex>): Regex
    requires rs != []
  {
    if |rs| == 1 then rs[0] else Or(rs[0], OrAll(rs[1..]))
  }

  lemma {:induction false} OrAllMatches(rs: seq<Regex>, s: string, i: nat, j: nat)
    requires rs != [] && i <= j <= |s|
    ensures Matches(OrAll(rs), s, i, j) <==> exists r :: r in rs && Matches(r, s, i, j)
    decreases |rs|
  {
    assert rs == [rs[0]] + rs[1..] && rs[0] in rs;
    if |rs| == 1 {
    } else {
      OrAllMatches(rs[1..], s, i, j);
      assert forall r | r in rs[1..] :: r in rs;
      assert OrAll(rs) == Or(rs[0], OrAll(rs[1..]));
    }
  }

  // Texts and the concatenations they stand for, position by position.
  ghost predicate CatTexts(texts: seq<string>, rs: seq<Regex>) {
    |texts| == |rs| && forall i | 0 <= i < |texts| :: CatText(texts[i], rs[i])
  }

  lemma AltStep(text: string, more: string, r: Regex, r': Regex, rest: string)
    requires CatText(text, r) && ParseAlt(more) == Got(r', rest)
    ensures ParseAlt(text + ("|" + more)) == Got(Or(r, r'), rest)
  {
    assert Stops("|" + more) && ("|" + more)[1..] == more;
    assert ParseCat(text + ("|" + more)) == Got(r, "|" + more);
  }

  lemma JoinSplits(texts: seq<string>, rest: string)
    requires |texts| > 1
    ensures Join(texts) + rest == texts[0] + ("|" + (Join(texts[1..]) + rest))
  {
  }

  lemma CatTextsPrepend(text: string, r: Regex, texts: seq<string>, rs: seq<Regex>)
    requires CatText(text, r) && CatTexts(texts, rs)
    ensures CatTexts([text] + texts, [r] + rs)
  {
  }

  lemma {:induction false} JoinParses(texts: seq<string>, rs: seq<Regex>, rest: string)
    requires texts != [] && CatTexts(texts, rs) && (rest == "" || rest[0] == ')')
    ensures ParseAlt(Join(texts) + rest) == Got(OrAll(rs), rest)
    decreases |texts|
  {
    assert CatText(texts[0], rs[0]);
    if |texts| == 1 {
      assert ParseCat(texts[0] + rest) == Got(rs[0], rest);
    } else {
      var more := Join(texts[1..]) + rest;
      JoinParses(texts[1..], rs[1..], rest);
      AltStep(texts[0], more, rs[0], OrAll(rs[1..]), rest);
      JoinSplits(texts, rest);
    }
  }

  // ---- Groups ----

  // inner, followed by a closing parenthesis, parses to r up to that parenthesis.
  ghost predicate AltText(inner: string, r: Regex) {
    forall rest :: ParseAlt(inner + (")" + rest)) == Got(r, ")" + rest)
  }

  lemma GroupAtom(inner: string, r: Regex, rest: string)
    requires AltText(inner, r)
    ensures ParseAtom(Group(inner) + rest) == Got(r, rest)
  {
    var s := Group(inner) + rest;
    assert s[3..] == inner + (")" + rest) && (")" + rest)[1..] == rest;
  }

  lemma GroupIsCatText(inner: string, r: Regex)
    requires AltText(inner, r)
    ensures CatText(Group(inner), Cat(r, Eps))
  {
    forall rest | Stops(rest) ensures ParseCat(Group(inner) + rest) == Got(Cat(r, Eps), rest) {
      GroupAtom(inner, r, rest);
      StopIsNoQuantifier(rest);
      assert (Group(inner) + rest)[0] == '(';
      assert ParseCat(rest) == Got(Eps, rest);
    }
  }

  lemma CatTextIsAltText(text: string, r: Regex)
    requires CatText(text, r)
    ensures AltText(text, r)
  {
    forall rest ensures ParseAlt(text + (")" + rest)) == Got(r, ")" + rest) {
      assert Stops(")" + rest);
      assert ParseCat(text + (")" + rest)) == Got(r, ")" + rest);
    }
  }

  lemma ParsedIsAltText(text: string, r: Regex)
    requires Parse(text) == Some(r)
    ensures AltText(text, r)
  {
    forall rest ensures ParseAlt(text + (")" + rest)) == Got(r, ")" + rest) {
      AltIsLocalBeforeParen(text, ")" + rest);
      assert "" + (")" + rest) == ")" + rest;
    }
  }

  lemma JoinIsAltText(texts: seq<string>, rs: seq<Regex>)
    requires texts != [] && CatTexts(texts, rs)
    ensures AltText(Join(texts), OrAll(rs))
  {
    forall rest ensures ParseAlt(Join(texts) + (")" + rest)) == Got(OrAll(rs), ")" + rest) {
      JoinParses(texts, rs, ")" + rest);
    }
  }

  // ---- Combining exclusions ----

  function GroupRegexes(parts: seq<string>): seq<Regex>
    requires forall p | p in parts :: Parse(p).Some?
  {
    if parts == [] then [] else [Cat(Parse(parts[0]).value, Eps)] + GroupRegexes(parts[1..])
  }

  lemma {:induction false} GroupsAreCatTexts(parts: seq<string>)
    requires forall p | p in parts :: Parse(p).Some?
    ensures CatTexts(Groups(parts), GroupRegexes(parts))
    ensures |Groups(parts)| == |parts|
  {
    if parts == [] {
    } else {
      ParsedIsAltText(parts[0], Parse(parts[0]).value);
      GroupIsCatText(parts[0], Parse(parts[0]).value);
      GroupsAreCatTexts(parts[1..]);
    }
  }

  lemma {:induction false} GroupRegexesMatch(parts: seq<string>, s: string)
    requires forall p | p in parts :: Parse(p).Some?
    ensures (exists r :: r in GroupRegexes(parts) && FullMatch(r, s))
       <==> exists p :: p in parts && FullMatch(Parse(p).value, s)
  {
    if parts == [] {
    } else {
      assert parts == [parts[0]] + parts[1..];
      CatEps(Parse(parts[0]).value, s, 0, |s|);
      GroupRegexesMatch(parts[1..], s);
      var head := Cat(Parse(parts[0]).value, Eps);
      assert GroupRegexes(parts) == [head] + GroupRegexes(parts[1..]);
      assert FullMatch(head, s) <==> FullMatch(Parse(parts[0]).value, s);
    }
  }

  // A combined exclusion parses whenever its parts do, and matches exactly the union.
  lemma CombinedMatchesUnion(parts: seq<Option<string>>, path: string)
    requires forall p | p in Usable(parts) :: Parse(p).Some?
    ensures CombineExcludeRegexes(parts) == None <==> Usable(parts) == []
    ensures Usable(parts) != [] ==>
              var combined := Parse(CombineExcludeRegexes(parts).value);
              && combined.Some?
              && (FullMatch(combined.value, path)
                  <==> exists p :: p in Usable(parts) && FullMatch(Parse(p).value, path))
  {
    var usable := Usable(parts);
    if |usable| == 1 {
      assert usable == [usable[0]];
    } else if |usable| > 1 {
      var texts, rs := Groups(usable), GroupRegexes(usable);
      GroupsAreCatTexts(usable);
      JoinParses(texts, rs, "");
      assert Join(texts) + "" == Join(texts);
      OrAllMatches(rs, path, 0, |path|);
      GroupRegexesMatch(usable, path);
    }
  }

  lemma {:induction false} UsableIsNonEmptyParts(parts: seq<Option<string>>)
    ensures forall p :: p in Usable(parts) <==> p != "" && Some(p) in parts
  {
    if parts == [] {
    } else {
      assert parts == [parts[0]] + parts[1..];
      UsableIsNonEmptyParts(parts[1..]);
    }
  }

  // ---- Scoping ----

  function KeepRegexes(globs: seq<string>): seq<Regex> {
    if globs == [] then []
    else (if PathRegex(globs[0]) != "" then [Cat(GlobRegex(globs[0]), Eps)] else []) + KeepRegexes(globs[1..])
  }

  // A glob is dropped exactly when nothing is left of it after trimming.
  lemma PathRegexIsEmpty(glob: string)
    ensures PathRegex(glob) == "" <==> Trimmed(glob) == ""
  {
    if Trimmed(glob) != "" {
      CoreStartsTheSame(glob);
      BodyTextIsThere(Core(Trimmed(glob)));
    }
  }

  lemma CoreStartsTheSame(glob: string)
    requires Trimmed(glob) != ""
    ensures Core(Trimmed(glob)) != ""
  {
    var g := Trimmed(glob);
    assert !DotOrSlash(g[0]) && !Slash(g[0]);
  }

  lemma BodyTextIsThere(g: string)
    requires g != ""
    ensures BodyText(g) != ""
  {
    assert TokenText(g) != "";
  }

  lemma {:induction false} KeepsAreCatTexts(globs: seq<string>)
    ensures CatTexts(Keeps(globs), KeepRegexes(globs))
  {
    if globs == [] {
    } else {
      KeepsAreCatTexts(globs[1..]);
      PathRegexIsEmpty(globs[0]);
      if PathRegex(globs[0]) != "" {
        GlobTextParses(globs[0]);
        CatTextIsAltText(PathRegex(globs[0]), GlobRegex(globs[0]));
        GroupIsCatText(PathRegex(globs[0]), GlobRegex(globs[0]));
        CatTextsPrepend(Group(PathRegex(globs[0])), Cat(GlobRegex(globs[0]), Eps),
                        Keeps(globs[1..]), KeepRegexes(globs[1..]));
      }
    }
  }

  lemma {:induction false} NoKeepsIffNoneUsable(globs: seq<string>)
    ensures KeepRegexes(globs) == [] <==> forall g | g in globs :: Trimmed(g) == ""
  {
    if globs == [] {
    } else {
      assert globs == [globs[0]] + globs[1..];
      NoKeepsIffNoneUsable(globs[1..]);
      PathRegexIsEmpty(globs[0]);
    }
  }

  ghost predicate SomeMatches(rs: seq<Regex>, path: string) {
    exists r :: r in rs && FullMatch(r, path)
  }

  ghost predicate SomeAccepts(globs: seq<string>, path: string) {
    exists g :: g in globs && Accepts(g, path)
  }

  lemma SomeMatchesHead(r: Regex, rs: seq<Regex>, path: string)
    ensures SomeMatches([r] + rs, path) <==> FullMatch(r, path) || SomeMatches(rs, path)
  {
    assert r in [r] + rs;
    assert forall q | q in rs :: q in [r] + rs;
  }

  lemma KeepMatches(glob: string, path: string)
    requires PathRegex(glob) != ""
    ensures FullMatch(Cat(GlobRegex(glob), Eps), path) <==> Accepts(glob, path)
  {
    PathRegexIsEmpty(glob);
    GlobRegexMeansGlob(glob, path);
    CatEps(GlobRegex(glob), path, 0, |path|);
  }

  lemma {:induction false} KeepRegexesMatch(globs: seq<string>, path: string)
    ensures SomeMatches(KeepRegexes(globs), path) <==> SomeAccepts(globs, path)
  {
    if globs == [] {
    } else {
      var glob, rest := globs[0], globs[1..];
      assert globs == [glob] + rest;
      assert SomeAccepts(globs, path) <==> Accepts(glob, path) || SomeAccepts(rest, path);
      KeepRegexesMatch(rest, path);
      if PathRegex(glob) != "" {
        KeepMatches(glob, path);
        SomeMatchesHead(Cat(GlobRegex(glob), Eps), KeepRegexes(rest), path);
      } else {
        PathRegexIsEmpty(glob);
        assert KeepRegexes(globs) == KeepRegexes(rest);
      }
    }
  }

  function LiteralRegex(s: string): Regex {
    if s == "" then Eps else Cat(Chr(s[0]), LiteralRegex(s[1..]))
  }

  lemma {:induction false} EscapeTextParses(s: string, rest: string)
    requires Stops(rest)
    ensures ParseCat(EscapeText(s) + rest) == Got(LiteralRegex(s), rest)
    ensures !Quantifies(EscapeText(s) + rest)
  {
    if s == "" {
      assert "" + rest == rest;
    } else {
      var more := EscapeText(s[1..]) + rest;
      EscapeTextParses(s[1..], rest);
      EscapedCharParses(s[0], more);
      assert EscapeText(s) + rest == EscapeRegex(s[0]) + more;
    }
  }

  lemma {:induction false} LiteralMatches(lit: string, s: string, i: nat, j: nat)
    requires i <= j <= |s|
    ensures Matches(LiteralRegex(lit), s, i, j) <==> s[i..j] == lit
    decreases |lit|
  {
    if lit == "" {
    } else {
      var r := LiteralRegex(lit[1..]);
      if Matches(LiteralRegex(lit), s, i, j) {
        var k := CatCut(Chr(lit[0]), r, s, i, j);
        LiteralMatches(lit[1..], s, k, j);
        assert s[i..j] == [s[i]] + s[i + 1..j];
      }
      if s[i..j] == lit {
        assert lit[0] == s[i] && lit[1..] == s[i + 1..j];
        LiteralMatches(lit[1..], s, i + 1, j);
        CatIntro(Chr(lit[0]), r, s, i, i + 1, j);
      }
    }
  }

  function ExtRegexes(exts: seq<string>): seq<Regex> {
    if exts == [] then []
    else (if UsableExt(exts[0]) then [LiteralRegex(Undotted(exts[0]))] else []) + ExtRegexes(exts[1..])
  }

  lemma LiteralIsCatText(s: string)
    ensures CatText(EscapeText(s), LiteralRegex(s))
  {
    forall rest | Stops(rest) ensures ParseCat(EscapeText(s) + rest) == Got(LiteralRegex(s), rest) {
      EscapeTextParses(s, rest);
    }
  }

  lemma {:induction false} ExtsAreCatTexts(exts: seq<string>)
    ensures CatTexts(Exts(exts), ExtRegexes(exts))
  {
    if exts == [] {
    } else {
      ExtsAreCatTexts(exts[1..]);
      if UsableExt(exts[0]) {
        var u := Undotted(exts[0]);
        LiteralIsCatText(u);
        CatTextsPrepend(EscapeText(u), LiteralRegex(u), Exts(exts[1..]), ExtRegexes(exts[1..]));
      }
    }
  }

  lemma {:induction false} RegexOfExt(exts: seq<string>, e: string)
    requires e in exts && UsableExt(e)
    ensures LiteralRegex(Undotted(e)) in ExtRegexes(exts)
  {
    if e != exts[0] {
      RegexOfExt(exts[1..], e);
    }
  }

  lemma {:induction false} ExtOfRegex(exts: seq<string>, r: Regex) returns (e: string)
    requires r in ExtRegexes(exts)
    ensures e in exts && UsableExt(e) && r == LiteralRegex(Undotted(e))
  {
    if UsableExt(exts[0]) && r == LiteralRegex(Undotted(exts[0])) {
      e := exts[0];
    } else {
      e := ExtOfRegex(exts[1..], r);
    }
  }

  lemma ExtRegexesMatch(exts: seq<string>, s: string, i: nat)
    requires i <= |s|
    ensures (exists r :: r in ExtRegexes(exts) && Matches(r, s, i, |s|))
       <==> exists e :: e in exts && UsableExt(e) && s[i..] == Undotted(e)
    ensures ExtRegexes(exts) == [] <==> forall e | e in exts :: !UsableExt(e)
  {
    assert s[i..|s|] == s[i..];
    if r :| r in ExtRegexes(exts) && Matches(r, s, i, |s|) {
      var e := ExtOfRegex(exts, r);
      LiteralMatches(Undotted(e), s, i, |s|);
    }
    if e :| e in exts && UsableExt(e) && s[i..] == Undotted(e) {
      RegexOfExt(exts, e);
      LiteralMatches(Undotted(e), s, i, |s|);
    }
    NoExtRegexes(exts);
  }

  lemma NoExtRegexes(exts: seq<string>)
    ensures ExtRegexes(exts) == [] <==> forall e | e in exts :: !UsableExt(e)
  {
    if ExtRegexes(exts) != [] {
      var e := ExtOfRegex(exts, ExtRegexes(exts)[0]);
    }
    if e :| e in exts && UsableExt(e) {
      RegexOfExt(exts, e);
    }
  }

  // From position m the path is a dot and the extension.
  predicate EndsInExt(path: string, m: nat, ext: string) {
    m < |path| && path[m] == '.' && path[m + 1..] == Undotted(ext)
  }

  // The path ends in a dot and one of the usable extensions.
  ghost predicate HasSourceExt(exts: seq<string>, path: string) {
    exists m: nat, e :: EndsInExt(path, m, e) && e in exts && UsableExt(e)
  }

  function SourceLook(ext: Regex): Regex {
    Look(Cat(AnyRun, Cat(Chr('.'), Cat(ext, Cat(End, Eps)))))
  }

  function KeepLook(keep: Regex): Regex {
    NotLook(Cat(keep, Cat(End, Eps)))
  }

  function ScopeShape(ext: Regex, keep: Regex): Regex {
    Cat(SourceLook(ext), Cat(KeepLook(keep), Cat(AnyRun, Eps)))
  }

  lemma EndParses(rest: string)
    ensures ParseCat("$)" + rest) == Got(Cat(End, Eps), ")" + rest)
  {
    var s := "$)" + rest;
    assert s[1..] == ")" + rest;
    assert ParseAtom(s) == Got(End, ")" + rest);
    assert ParseCat(")" + rest) == Got(Eps, ")" + rest);
  }

  lemma GroupThenEndParses(inner: string, r: Regex, rest: string)
    requires AltText(inner, r)
    ensures ParseCat(Group(inner) + ("$)" + rest)) == Got(Cat(r, Cat(End, Eps)), ")" + rest)
  {
    GroupAtom(inner, r, "$)" + rest);
    EndParses(rest);
    assert (Group(inner) + ("$)" + rest))[0] == '(';
  }

  // A lookahead group around text that parses to r up to its closing parenthesis.
  lemma LookParses(open: string, body: string, r: Regex, rest: string)
    requires |open| == 3 && open[0] == '(' && open[1] == '?' && (open[2] == '=' || open[2] == '!')
    requires ParseCat(body) == Got(r, ")" + rest) && !Quantifies(rest)
    ensures ParseRep(open + body) == Got(if open[2] == '=' then Look(r) else NotLook(r), rest)
  {
    var s := open + body;
    assert s[3..] == body && (")" + rest)[1..] == rest;
    assert ParseAlt(body) == Got(r, ")" + rest);
  }

  lemma KeepTextParses(inner: string, r: Regex, rest: string)
    requires AltText(inner, r) && !Quantifies(rest)
    ensures ParseRep(KeepText(inner) + rest) == Got(KeepLook(r), rest)
  {
    var body := Group(inner) + ("$)" + rest);
    GroupThenEndParses(inner, r, rest);
    LookParses("(?!", body, Cat(r, Cat(End, Eps)), rest);
    assert "$)" + rest == ['$', ')'] + rest;
    assert KeepText(inner) + rest == "(?!" + body;
  }

  lemma SourceBodyParses(inner: string, r: Regex, rest: string)
    requires AltText(inner, r)
    ensures ParseCat(".*" + ("\\." + (Group(inner) + ("$)" + rest))))
         == Got(Cat(AnyRun, Cat(Chr('.'), Cat(r, Cat(End, Eps)))), ")" + rest)
  {
    var tail := Group(inner) + ("$)" + rest);
    GroupThenEndParses(inner, r, rest);
    assert tail[0] == '(';
    EscapedCharParses('.', tail);
    var dotted := EscapeRegex('.') + tail;
    assert ParseCat(dotted) == Got(Cat(Chr('.'), Cat(r, Cat(End, Eps))), ")" + rest);
    DotParses(dotted);
    assert "\\." + tail == dotted;
  }

  lemma SourceTextSplits(inner: string, rest: string)
    ensures SourceText(inner) + rest == "(?=" + (".*" + ("\\." + (Group(inner) + ("$)" + rest))))
  {
    assert "(?=.*\\." == "(?=" + (".*" + "\\.");
  }

  lemma SourceTextParses(inner: string, r: Regex, rest: string)
    requires AltText(inner, r) && !Quantifies(rest)
    ensures ParseRep(SourceText(inner) + rest) == Got(SourceLook(r), rest)
  {
    var body := ".*" + ("\\." + (Group(inner) + ("$)" + rest)));
    SourceBodyParses(inner, r, rest);
    LookParses("(?=", body, Cat(AnyRun, Cat(Chr('.'), Cat(r, Cat(End, Eps)))), rest);
    SourceTextSplits(inner, rest);
  }

  lemma AnyRunParses()
    ensures ParseCat(".*") == Got(Cat(AnyRun, Eps), "")
  {
    DotParses("");
    assert ".*" + "" == ".*";
    assert ParseCat("") == Got(Eps, "");
  }

  lemma ScopeTextParses(extText: string, ext: Regex, keepText: string, keep: Regex)
    requires AltText(extText, ext) && AltText(keepText, keep)
    ensures Parse(SourceText(extText) + (KeepText(keepText) + ".*")) == Some(ScopeShape(ext, keep))
  {
    AnyRunParses();
    KeepTextParses(keepText, keep, ".*");
    CatStep(KeepText(keepText), ".*", KeepLook(keep), Cat(AnyRun, Eps), "");
    var middle := KeepText(keepText) + ".*";
    SourceTextParses(extText, ext, middle);
    CatStep(SourceText(extText), middle, SourceLook(ext), Cat(KeepLook(keep), Cat(AnyRun, Eps)), "");
  }

  // ---- Meaning of the scope regex ----

  lemma NoBreakEnd(s: string, i: nat)
    requires i <= |s| && NoBreak(s)
    ensures AtEnd(s, i) <==> i == |s|
  {
    if i < |s| {
      assert s[i] in s;
      assert i + 1 < |s| ==> s[i + 1] in s;
    }
  }

  // On a path without line terminators "r$" matches at i exactly when r reaches the end.
  lemma ThenEndMatches(r: Regex, s: string, i: nat)
    requires i <= |s| && NoBreak(s)
    ensures (exists j: nat {:trigger Between(i, j, |s|)} :: Between(i, j, |s|) && Matches(Cat(r, Cat(End, Eps)), s, i, j))
       <==> Matches(r, s, i, |s|)
  {
    var e := Cat(End, Eps);
    if j: nat :| Between(i, j, |s|) && Matches(Cat(r, e), s, i, j) {
      var k := CatCut(r, e, s, i, j);
      CatEps(End, s, k, j);
      NoBreakEnd(s, k);
    }
    if Matches(r, s, i, |s|) {
      CatEps(End, s, |s|, |s|);
      CatIntro(r, e, s, i, |s|, |s|);
      assert Between(i, |s|, |s|);
    }
  }

  // The dot at m and what ext matches after it end the path.
  ghost predicate ExtAfterDot(ext: Regex, s: string, m: nat) {
    m < |s| && s[m] == '.' && Matches(ext, s, m + 1, |s|)
  }

  lemma SourceLookFinds(ext: Regex, s: string) returns (m: nat)
    requires NoBreak(s) && Matches(SourceLook(ext), s, 0, 0)
    ensures ExtAfterDot(ext, s, m)
  {
    var thenEnd := Cat(ext, Cat(End, Eps));
    var dotted := Cat(Chr('.'), thenEnd);
    var j: nat :| Between(0, j, |s|) && Matches(Cat(AnyRun, dotted), s, 0, j);
    m := CatCut(AnyRun, dotted, s, 0, j);
    var k := CatCut(Chr('.'), thenEnd, s, m, j);
    assert Between(k, j, |s|);
    ThenEndMatches(ext, s, k);
  }

  lemma SourceLookHolds(ext: Regex, s: string, m: nat)
    requires NoBreak(s) && ExtAfterDot(ext, s, m)
    ensures Matches(SourceLook(ext), s, 0, 0)
  {
    var thenEnd := Cat(ext, Cat(End, Eps));
    var dotted := Cat(Chr('.'), thenEnd);
    ThenEndMatches(ext, s, m + 1);
    var j: nat :| Between(m + 1, j, |s|) && Matches(thenEnd, s, m + 1, j);
    CatIntro(Chr('.'), thenEnd, s, m, m + 1, j);
    AnyRunMatches(s, 0, m);
    CatIntro(AnyRun, dotted, s, 0, m, j);
    assert Between(0, j, |s|);
  }

  lemma ExtensionMatched(exts: seq<string>, s: string, i: nat) returns (e: string)
    requires ExtRegexes(exts) != [] && i <= |s| && Matches(OrAll(ExtRegexes(exts)), s, i, |s|)
    ensures e in exts && UsableExt(e) && s[i..] == Undotted(e)
  {
    OrAllMatches(ExtRegexes(exts), s, i, |s|);
    ExtRegexesMatch(exts, s, i);
    e :| e in exts && UsableExt(e) && s[i..] == Undotted(e);
  }

  lemma ExtensionMatches(exts: seq<string>, s: string, i: nat, e: string)
    requires i <= |s| && e in exts && UsableExt(e) && s[i..] == Undotted(e)
    ensures ExtRegexes(exts) != [] && Matches(OrAll(ExtRegexes(exts)), s, i, |s|)
  {
    ExtRegexesMatch(exts, s, i);
    OrAllMatches(ExtRegexes(exts), s, i, |s|);
  }

  lemma ExtAfterDotIsSourceExt(exts: seq<string>, s: string, m: nat)
    requires ExtRegexes(exts) != [] && ExtAfterDot(OrAll(ExtRegexes(exts)), s, m)
    ensures HasSourceExt(exts, s)
  {
    var e := ExtensionMatched(exts, s, m + 1);
    assert EndsInExt(s, m, e);
  }

  lemma SourceExtIsAfterDot(exts: seq<string>, s: string) returns (m: nat)
    requires ExtRegexes(exts) != [] && HasSourceExt(exts, s)
    ensures ExtAfterDot(OrAll(ExtRegexes(exts)), s, m)
  {
    var e;
    m, e :| EndsInExt(s, m, e) && e in exts && UsableExt(e);
    ExtensionMatches(exts, s, m + 1, e);
  }

  lemma SourceLookMeansExt(exts: seq<string>, s: string)
    requires ExtRegexes(exts) != [] && NoBreak(s)
    ensures Matches(SourceLook(OrAll(ExtRegexes(exts))), s, 0, 0) <==> HasSourceExt(exts, s)
  {
    var ext := OrAll(ExtRegexes(exts));
    if Matches(SourceLook(ext), s, 0, 0) {
      var m := SourceLookFinds(ext, s);
      ExtAfterDotIsSourceExt(exts, s, m);
    }
    if HasSourceExt(exts, s) {
      var m := SourceExtIsAfterDot(exts, s);
      SourceLookHolds(ext, s, m);
    }
  }

  lemma KeepLookRefuses(keep: Regex, s: string)
    requires NoBreak(s)
    ensures Matches(KeepLook(keep), s, 0, 0) <==> !FullMatch(keep, s)
  {
    ThenEndMatches(keep, s, 0);
  }

  lemma KeepLookMeansKept(globs: seq<string>, s: string)
    requires KeepRegexes(globs) != [] && NoBreak(s)
    ensures Matches(KeepLook(OrAll(KeepRegexes(globs))), s, 0, 0) <==> !SomeAccepts(globs, s)
  {
    var rs := KeepRegexes(globs);
    KeepLookRefuses(OrAll(rs), s);
    OrAllMatches(rs, s, 0, |s|);
    KeepRegexesMatch(globs, s);
    assert FullMatch(OrAll(rs), s) <==> SomeMatches(rs, s);
  }

  lemma ScopeShapeMatches(ext: Regex, keep: Regex, s: string)
    ensures FullMatch(ScopeShape(ext, keep), s)
       <==> NoBreak(s) && Matches(SourceLook(ext), s, 0, 0) && Matches(KeepLook(keep), s, 0, 0)
  {
    var run := Cat(AnyRun, Eps);
    var kept := Cat(KeepLook(keep), run);
    CatEps(AnyRun, s, 0, |s|);
    AnyRunMatches(s, 0, |s|);
    assert s[0..|s|] == s;
    if FullMatch(ScopeShape(ext, keep), s) {
      var i := CatCut(SourceLook(ext), kept, s, 0, |s|);
      var j := CatCut(KeepLook(keep), run, s, i, |s|);
    }
    if Matches(run, s, 0, |s|) && Matches(SourceLook(ext), s, 0, 0) && Matches(KeepLook(keep), s, 0, 0) {
      CatIntro(KeepLook(keep), run, s, 0, 0, |s|);
      CatIntro(SourceLook(ext), kept, s, 0, 0, |s|);
    }
  }

  // The compiled scope parses to lookaheads over its extensions and its globs.
  lemma ScopeParses(globs: seq<string>, exts: seq<string>)
    requires Keeps(globs) != [] && Exts(exts) != []
    ensures ScopeExcludeRegex(globs, exts).Some?
    ensures ExtRegexes(exts) != [] && KeepRegexes(globs) != []
    ensures Parse(ScopeExcludeRegex(globs, exts).value)
         == Some(ScopeShape(OrAll(ExtRegexes(exts)), OrAll(KeepRegexes(globs))))
  {
    ExtsAreCatTexts(exts);
    KeepsAreCatTexts(globs);
    JoinIsAltText(Exts(exts), ExtRegexes(exts));
    JoinIsAltText(Keeps(globs), KeepRegexes(globs));
    ScopeTextParses(Join(Exts(exts)), OrAll(ExtRegexes(exts)), Join(Keeps(globs)), OrAll(KeepRegexes(globs)));
  }

  // ---- Main result for scoping ----

  // There is nothing to scope exactly when no glob or no extension is usable.
  lemma NoScopeIffNothingUsable(globs: seq<string>, exts: seq<string>)
    ensures ScopeExcludeRegex(globs, exts) == None
       <==> (forall g | g in globs :: Trimmed(g) == "") || (forall e | e in exts :: !UsableExt(e))
  {
    ExtsAreCatTexts(exts);
    KeepsAreCatTexts(globs);
    NoKeepsIffNoneUsable(globs);
    ExtRegexesMatch(exts, "", 0);
  }

  // A path is dropped exactly when it is one line, ends in a source extension, and no glob
  // keeps it.
  lemma ScopeExcludesOutOfScopeSources(globs: seq<string>, exts: seq<string>, path: string)
    ensures match ScopeExcludeRegex(globs, exts)
            case None => Keeps(globs) == [] || Exts(exts) == []
            case Some(text) =>
              && Parse(text).Some?
              && (FullMatch(Parse(text).value, path)
                  <==> NoBreak(path) && HasSourceExt(exts, path) && !SomeAccepts(globs, path))
  {
    if Keeps(globs) != [] && Exts(exts) != [] {
      ScopeParses(globs, exts);
      ScopeShapeMatches(OrAll(ExtRegexes(exts)), OrAll(KeepRegexes(globs)), path);
      if NoBreak(path) {
        SourceLookMeansExt(exts, path);
        KeepLookMeansKept(globs, path);
      }
    }
  }

  lemma ScopeKeeps(globs: seq<string>, exts: seq<string>, path: string)
    requires !HasSourceExt(exts, path) || SomeAccepts(globs, path)
    ensures var scope := ScopeExcludeRegex(globs, exts);
            scope.Some? ==> Parse(scope.value).Some? && !FullMatch(Parse(scope.value).value, path)
  {
    ScopeExcludesOutOfScopeSources(globs, exts, path);
  }

  // Combined with further exclusions, scoping adds no path that is not an out-of-scope
  // source: what the other exclusions leave and no source extension ends, stays.
  lemma ScopingDropsOnlySources(globs: seq<string>, exts: seq<string>, others: seq<Option<string>>, path: string)
    requires forall p | p in Usable(others) :: Parse(p).Some?
    requires forall p | p in Usable(others) :: !FullMatch(Parse(p).value, path)
    requires !HasSourceExt(exts, path) || SomeAccepts(globs, path)
    ensures var combined := CombineExcludeRegexes(others + [ScopeExcludeRegex(globs, exts)]);
            combined.Some? ==> Parse(combined.value).Some? && !FullMatch(Parse(combined.value).value, path)
  {
    var scope := ScopeExcludeRegex(globs, exts);
    var parts := others + [scope];
    UsableIsNonEmptyParts(others);
    UsableIsNonEmptyParts(parts);
    ScopeKeeps(globs, exts, path);
    forall p | p in Usable(parts) ensures Parse(p).Some? && !FullMatch(Parse(p).value, path) {
      assert Some(p) in others || Some(p) == scope;
    }
    CombinedMatchesUnion(parts, path);
  }
}
