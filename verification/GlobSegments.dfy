/** An independent reading of include globs: the glob and the path are lists of segments
    between slashes, a segment wildcard stays inside its segment, and a "**" segment stands
    for any number of segments. The compiler of src/utils/build_scoping.py agrees with it. */
module GlobSegments {
  import opened Strings
  import opened RegexText
  import opened BuildScoping
  import opened GlobTokens

  // Where the first segment ends.
  function SegmentEnd(s: string): (n: nat)
    ensures n <= |s| && (forall i | 0 <= i < n :: s[i] != '/') && (n < |s| ==> s[n] == '/')
  {
    if s == "" || s[0] == '/' then 0 else 1 + SegmentEnd(s[1..])
  }

  function Split(s: string): (segments: seq<string>)
    ensures segments != []
    decreases |s|
  {
    var n := SegmentEnd(s);
    if n == |s| then [s] else [s[..n]] + Split(s[n + 1..])
  }

  // One segment: '*' is any run, '?' any one character.
  predicate WildMatch(p: string, s: string)
    decreases |p| + |s|
  {
    if p == "" then s == ""
    else if p[0] == '*' then WildMatch(p[1..], s) || (s != "" && WildMatch(p, s[1..]))
    else s != "" && (p[0] == '?' || p[0] == s[0]) && WildMatch(p[1..], s[1..])
  }

  // A "**" segment is any number of segments, and at the end at least one.
  predicate SegmentsMatch(gs: seq<string>, ps: seq<string>)
    decreases |gs| + |ps|
  {
    if gs == [] then ps == []
    else if gs == ["**"] then ps != []
    else if gs[0] == "**" then SegmentsMatch(gs[1..], ps) || (ps != [] && SegmentsMatch(gs, ps[1..]))
    else ps != [] && WildMatch(gs[0], ps[0]) && SegmentsMatch(gs[1..], ps[1..])
  }

  predicate NoDoubleStar(p: string) {
    forall i | 0 <= i < |p| - 1 :: !(p[i] == '*' && p[i + 1] == '*')
  }

  // Every "**" in the glob is a segment of its own.
  predicate PlainStars(gs: seq<string>) {
    forall p | p in gs :: p == "**" || NoDoubleStar(p)
  }

  // ---- One segment ----

  lemma SegmentEndShift(s: string, k: nat)
    requires k <= SegmentEnd(s)
    ensures SegmentEnd(s[k..]) == SegmentEnd(s) - k
  {
    SegmentEndIsFirst(s[k..], SegmentEnd(s) - k);
  }

  lemma SegmentEndIsFirst(s: string, n: nat)
    requires n <= |s| && (forall i | 0 <= i < n :: s[i] != '/') && (n < |s| ==> s[n] == '/')
    ensures SegmentEnd(s) == n
  {
  }

  lemma SegmentEndAfter(s: string, k: nat)
    requires k <= |s| && '/' !in s[..k]
    ensures k <= SegmentEnd(s)
  {
    assert forall i | 0 <= i < k :: s[i] == s[..k][i];
  }

  lemma {:induction false} StarTakesARun(p: string, s: string) returns (k: nat)
    requires p != "" && p[0] == '*' && WildMatch(p, s)
    ensures k <= |s| && WildMatch(p[1..], s[k..])
    decreases |s|
  {
    if WildMatch(p[1..], s) {
      k := 0;
    } else {
      var k' := StarTakesARun(p, s[1..]);
      k := k' + 1;
      assert s[1..][k'..] == s[k..];
    }
  }

  lemma {:induction false} RunMakesAStar(p: string, s: string, k: nat)
    requires p != "" && p[0] == '*' && k <= |s| && WildMatch(p[1..], s[k..])
    ensures WildMatch(p, s)
    decreases k
  {
    if k == 0 {
      assert s[0..] == s;
    } else {
      assert s[1..][k - 1..] == s[k..];
      RunMakesAStar(p, s[1..], k - 1);
    }
  }

  lemma CutTwice(s: string, k: nat, m: nat)
    requires k <= m <= |s|
    ensures s[k..][..m - k] == s[..m][k..] && s[k..][m - k..] == s[m..]
  {
  }

  // ---- The tokens as segments read them ----

  // Inside a longer segment a double star is a star.
  function Tight(ts: seq<Token>): seq<Token> {
    if ts == [] then [] else Tightened(ts[0]) + Tight(ts[1..])
  }

  function Tightened(t: Token): seq<Token> {
    if t == Stars(false) then [Run] else if t == Dirs(false) then [Run, Lit('/')] else [t]
  }

  function SegmentTokens(p: string): seq<Token>
    decreases |p|
  {
    if p == "" then [] else [InnerToken(p)] + SegmentTokens(p[StarLength(p)..])
  }

  function StarLength(p: string): (n: nat)
    requires p != ""
    ensures 1 <= n <= |p|
  {
    if "**" <= p then 2 else 1
  }

  // The tokens from the end of a segment.
  function Onwards(tail: string): seq<Token> {
    if tail == "" then [] else [Lit('/')] + Tight(Tokens(tail[1..], true))
  }

  lemma TightCons(t: Token, ts: seq<Token>)
    ensures Tight([t] + ts) == Tightened(t) + Tight(ts)
  {
    assert ([t] + ts)[1..] == ts;
  }

  // A segment that is not "**", then the end of the glob or a slash and what follows it.
  lemma {:induction false} TightSegment(p: string, tail: string, start: bool)
    requires '/' !in p && (tail == "" || tail[0] == '/') && !(start && p == "**")
    ensures Tight(Tokens(p + tail, start)) == SegmentTokens(p) + Onwards(tail)
    decreases |p|
  {
    if p == "" {
      assert p + tail == tail;
      TightSlash(tail, start);
    } else if p == "**" && tail != "" {
      TightDirs(p, tail, start);
    } else {
      TightSegment(p[StarLength(p)..], tail, false);
      TightToken(p + tail, start);
      FirstInSegment(p, tail, start);
    }
  }

  lemma TightDirs(p: string, tail: string, start: bool)
    requires p == "**" && tail != "" && tail[0] == '/' && !start
    ensures Tight(Tokens(p + tail, start)) == SegmentTokens(p) + Onwards(tail)
  {
    DirsInSegment(p, tail, start);
    TightToken(p + tail, start);
    OneStar(p);
    assert [Run] + ([Lit('/')] + Tight(Tokens(tail[1..], true))) == [Run, Lit('/')] + Tight(Tokens(tail[1..], true));
  }

  lemma OneStar(p: string)
    requires p == "**"
    ensures SegmentTokens(p) == [Run]
  {
    assert p[2..] == "" && SegmentTokens(p) == [Run] + SegmentTokens(p[2..]);
  }

  lemma TightSlash(tail: string, start: bool)
    requires tail == "" || tail[0] == '/'
    ensures Tight(Tokens(tail, start)) == Onwards(tail)
  {
    if tail != "" {
      TightCons(Lit('/'), Tokens(tail[1..], true));
    }
  }

  lemma TightToken(g: string, start: bool)
    requires g != ""
    ensures Tight(Tokens(g, start))
         == Tightened(TokenOf(g, start)) + Tight(Tokens(g[TokenLength(g)..], StartsAfter(g)))
  {
    TightCons(TokenOf(g, start), Tokens(g[TokenLength(g)..], StartsAfter(g)));
  }

  lemma DirsInSegment(p: string, tail: string, start: bool)
    requires p == "**" && tail != "" && tail[0] == '/' && !start
    ensures var g := p + tail; Tightened(TokenOf(g, start)) == [Run, Lit('/')] && TokenLength(g) == 3
    ensures var g := p + tail; g[3..] == tail[1..] && StartsAfter(g)
  {
    assert (p + tail)[..3] == "**/";
  }

  lemma FirstInSegment(p: string, tail: string, start: bool)
    requires p != "" && '/' !in p && (tail == "" || tail[0] == '/') && !(start && p == "**") && (p != "**" || tail == "")
    ensures var g, n := p + tail, StarLength(p);
            && TokenLength(g) == n && g[n..] == p[n..] + tail
            && Tightened(TokenOf(g, start)) == [InnerToken(p)] && !StartsAfter(g)
  {
    var g := p + tail;
    assert p[0] in p;
    if "**" <= p {
      assert |p| == 2 ==> |g| == 2;
      assert |p| > 2 ==> g[2] == p[2] && p[2] in p;
    } else {
      assert !("**" <= g) by {
        assert |p| == 1 && tail != "" ==> g[1] == '/';
        assert |p| > 1 ==> g[1] == p[1];
      }
    }
  }

  // ---- One segment of tokens ----

  // The first segment of the path up to its end, and the further tokens on what follows.
  ghost predicate SegmentThen(p: string, ts: seq<Token>, path: string) {
    WildMatch(p, path[..SegmentEnd(path)]) && TokensMatch(ts, path[SegmentEnd(path)..])
  }

  predicate Stop(ts: seq<Token>) {
    ts == [] || ts[0] == Lit('/')
  }

  // A star, or a double star read as one.
  lemma StarsTakeARun(p: string, s: string) returns (k: nat)
    requires p != "" && p[0] == '*' && WildMatch(p, s)
    ensures k <= |s| && WildMatch(p[StarLength(p)..], s[k..])
  {
    k := StarTakesARun(p, s);
    if "**" <= p {
      var k' := StarTakesARun(p[1..], s[k..]);
      assert p[1..][1..] == p[2..] && s[k..][k'..] == s[k + k'..];
      k := k + k';
    }
  }

  lemma RunMakesStars(p: string, s: string, k: nat)
    requires p != "" && p[0] == '*' && k <= |s| && WildMatch(p[StarLength(p)..], s[k..])
    ensures WildMatch(p, s)
  {
    if "**" <= p {
      assert p[1..][1..] == p[2..];
      RunMakesAStar(p[1..], s, k);
      assert s[0..] == s;
      RunMakesAStar(p, s, 0);
    } else {
      RunMakesAStar(p, s, k);
    }
  }

  lemma StarForward(p: string, ts: seq<Token>, path: string, k: nat)
    requires p != "" && p[0] == '*' && k <= |path| && '/' !in path[..k]
    requires SegmentThen(p[StarLength(p)..], ts, path[k..])
    ensures SegmentThen(p, ts, path)
  {
    var m := SegmentEnd(path);
    SegmentEndAfter(path, k);
    SegmentEndShift(path, k);
    CutTwice(path, k, m);
    RunMakesStars(p, path[..m], k);
  }

  lemma StarBackward(p: string, ts: seq<Token>, path: string) returns (k: nat)
    requires p != "" && p[0] == '*' && SegmentThen(p, ts, path)
    ensures k <= |path| && '/' !in path[..k] && SegmentThen(p[StarLength(p)..], ts, path[k..])
  {
    var m := SegmentEnd(path);
    k := StarsTakeARun(p, path[..m]);
    SegmentEndShift(path, k);
    CutTwice(path, k, m);
    assert '/' !in path[..k];
  }

  lemma StarsStep(p: string, ts: seq<Token>, path: string)
    requires p != "" && p[0] == '*'
    requires forall s :: TokensMatch(SegmentTokens(p[StarLength(p)..]) + ts, s) <==> SegmentThen(p[StarLength(p)..], ts, s)
    ensures TokensMatch(SegmentTokens(p) + ts, path) <==> SegmentThen(p, ts, path)
  {
    var more := SegmentTokens(p[StarLength(p)..]) + ts;
    assert SegmentTokens(p) + ts == [Run] + more;
    if TokensMatch([Run] + more, path) {
      var k := MatchCut(Run, more, path);
      StarForward(p, ts, path, k);
    }
    if SegmentThen(p, ts, path) {
      var k := StarBackward(p, ts, path);
      MatchIntro(Run, more, path, k);
    }
  }

  lemma CharStep(p: string, ts: seq<Token>, path: string)
    requires p != "" && p[0] != '*' && p[0] != '/'
    requires forall s :: TokensMatch(SegmentTokens(p[1..]) + ts, s) <==> SegmentThen(p[1..], ts, s)
    ensures TokensMatch(SegmentTokens(p) + ts, path) <==> SegmentThen(p, ts, path)
  {
    var t := if p[0] == '?' then One else Lit(p[0]);
    var more := SegmentTokens(p[1..]) + ts;
    assert SegmentTokens(p) + ts == [t] + more;
    CharToken(t, more, path);
    CharAtSegment(p, ts, path);
  }

  lemma CharAtSegment(p: string, ts: seq<Token>, path: string)
    requires p != "" && p[0] != '*' && p[0] != '/'
    ensures SegmentThen(p, ts, path) <==>
            path != "" && (if p[0] == '?' then path[0] != '/' else path[0] == p[0]) && SegmentThen(p[1..], ts, path[1..])
  {
    var m := SegmentEnd(path);
    if path != "" && path[0] != '/' {
      SegmentEndShift(path, 1);
      CutTwice(path, 1, m);
      assert path[..m][0] == path[0];
    } else {
      assert path[..m] == "";
    }
  }

  lemma NoCharStep(ts: seq<Token>, path: string)
    requires Stop(ts)
    ensures TokensMatch(ts, path) <==> SegmentThen("", ts, path)
  {
    assert path[0..] == path;
    if ts == [] {
    } else {
      assert ts == [ts[0]] + ts[1..];
      CharToken(ts[0], ts[1..], path);
      assert SegmentEnd(path) == 0 ==> path[..SegmentEnd(path)] == "";
    }
  }

  lemma {:induction false} SegmentMatches(p: string, ts: seq<Token>, path: string)
    requires '/' !in p && Stop(ts)
    ensures TokensMatch(SegmentTokens(p) + ts, path) <==> SegmentThen(p, ts, path)
    decreases |p|
  {
    if p == "" {
      assert SegmentTokens(p) + ts == ts;
      NoCharStep(ts, path);
    } else {
      var n := if p[0] == '*' then StarLength(p) else 1;
      forall s ensures TokensMatch(SegmentTokens(p[n..]) + ts, s) <==> SegmentThen(p[n..], ts, s) {
        SegmentMatches(p[n..], ts, s);
      }
      if p[0] == '*' {
        StarsStep(p, ts, path);
      } else {
        assert p[0] in p;
        CharStep(p, ts, path);
      }
    }
  }

  // ---- All segments ----

  lemma {:induction false} NothingLeftToMatch(gs: seq<string>)
    requires gs != []
    ensures !SegmentsMatch(gs, [])
  {
    if gs[0] != "**" || |gs| == 1 {
    } else {
      NothingLeftToMatch(gs[1..]);
    }
  }

  // "**/" skips nothing, or one segment and then perhaps more.
  lemma DirsSkipSegments(ts: seq<Token>, path: string)
    requires NoBreak(path)
    ensures var n := SegmentEnd(path);
            TokensMatch([Dirs(true)] + ts, path)
            <==> TokensMatch(ts, path) || (n < |path| && TokensMatch([Dirs(true)] + ts, path[n + 1..]))
  {
    var n := SegmentEnd(path);
    DirsToken(ts, true, path);
    if k: nat :| k < |path| && path[k] == '/' && NoBreak(path[..k]) && TokensMatch(ts, path[k + 1..]) {
      DirsPastSegment(ts, path, n, k);
    }
    if n < |path| && TokensMatch([Dirs(true)] + ts, path[n + 1..]) {
      SegmentBeforeDirs(ts, path, n);
    }
  }

  lemma DirsPastSegment(ts: seq<Token>, path: string, n: nat, k: nat)
    requires NoBreak(path) && n == SegmentEnd(path)
    requires k < |path| && path[k] == '/' && TokensMatch(ts, path[k + 1..])
    ensures n < |path| && TokensMatch([Dirs(true)] + ts, path[n + 1..])
  {
    var rest := path[n + 1..];
    DirsToken(ts, true, rest);
    if k > n {
      assert rest[k - n - 1] == '/' && rest[k - n - 1 + 1..] == path[k + 1..];
      assert NoBreak(rest[..k - n - 1]);
    } else {
      assert k == n;
    }
  }

  lemma SlashAfter(path: string, n: nat, k: nat)
    requires n < |path| && path[n] == '/' && Takes(Dirs(true), path[n + 1..], k)
    ensures n + k < |path| && path[n + k] == '/' && path[n + 1..][k..] == path[n + k + 1..]
  {
    assert k > 0 ==> path[n + k] == path[n + 1..][..k][k - 1];
  }

  lemma SegmentBeforeDirs(ts: seq<Token>, path: string, n: nat)
    requires NoBreak(path) && n < |path| && path[n] == '/' && TokensMatch([Dirs(true)] + ts, path[n + 1..])
    ensures TokensMatch([Dirs(true)] + ts, path)
  {
    var k := MatchCut(Dirs(true), ts, path[n + 1..]);
    DirsFurther(ts, path, n, k);
  }

  lemma DirsFurther(ts: seq<Token>, path: string, n: nat, k: nat)
    requires NoBreak(path) && n < |path| && path[n] == '/'
    requires Takes(Dirs(true), path[n + 1..], k) && TokensMatch(ts, path[n + 1..][k..])
    ensures TokensMatch([Dirs(true)] + ts, path)
  {
    SlashAfter(path, n, k);
    DirsIntro(ts, true, path, n + k);
  }

  lemma SplitDirs(g: string)
    requires "**/" <= g
    ensures Split(g) == ["**"] + Split(g[3..])
  {
    var n := SegmentEnd(g);
    assert g[0] == '*' && g[1] == '*' && g[2] == '/';
    SegmentEndIsFirst(g, 2);
    assert g[..2] == "**";
  }

  lemma OneSegmentMatches(gs: seq<string>, ps: seq<string>)
    requires gs != [] && ps != [] && gs[0] != "**"
    ensures SegmentsMatch(gs, ps) <==> WildMatch(gs[0], ps[0]) && SegmentsMatch(gs[1..], ps[1..])
  {
  }

  lemma SplitHead(s: string)
    ensures var n := SegmentEnd(s);
            Split(s)[0] == s[..n] && Split(s)[1..] == if n == |s| then [] else Split(s[n + 1..])
  {
  }

  lemma DoubleStarFirst(g: string)
    requires g[..SegmentEnd(g)] == "**"
    ensures g == "**" || "**/" <= g
  {
    assert |g[..SegmentEnd(g)]| == 2;
    if SegmentEnd(g) < |g| {
      assert g[..3] == g[..2] + [g[2]];
    }
  }

  // What follows the first segment.
  lemma SlashThen(ts: seq<Token>, path: string, m: nat)
    requires m <= |path| && (m < |path| ==> path[m] == '/')
    ensures TokensMatch([Lit('/')] + ts, path[m..]) <==> m < |path| && TokensMatch(ts, path[m + 1..])
  {
    CharToken(Lit('/'), ts, path[m..]);
    assert m < |path| ==> path[m..][1..] == path[m + 1..];
  }

  // A first segment that is not "**", on both sides.
  lemma SegmentStep(p: string, more: seq<Token>, gs: seq<string>, path: string)
    requires p != "**" && '/' !in p && Stop(more)
    requires TokensMatch(more, path[SegmentEnd(path)..]) <==> SegmentsMatch(gs, Split(path)[1..])
    ensures TokensMatch(SegmentTokens(p) + more, path) <==> SegmentsMatch([p] + gs, Split(path))
  {
    SegmentMatches(p, more, path);
    SplitHead(path);
    assert ([p] + gs)[1..] == gs;
    OneSegmentMatches([p] + gs, Split(path));
  }

  lemma MoreSegments(ts: seq<Token>, gs: seq<string>, path: string, m: nat)
    requires m == SegmentEnd(path) && gs != []
    requires m < |path| ==> (TokensMatch(ts, path[m + 1..]) <==> SegmentsMatch(gs, Split(path[m + 1..])))
    ensures TokensMatch([Lit('/')] + ts, path[m..]) <==> SegmentsMatch(gs, Split(path)[1..])
  {
    SplitHead(path);
    SlashThen(ts, path, m);
    NothingLeftToMatch(gs);
  }

  lemma NoMoreSegments(path: string, m: nat)
    requires m == SegmentEnd(path)
    ensures TokensMatch([], path[m..]) <==> SegmentsMatch([], Split(path)[1..])
  {
    SplitHead(path);
  }

  lemma SegmentBefore(g: string, n: nat)
    requires n == SegmentEnd(g) && g[..n] != "**"
    ensures Tight(Tokens(g, true)) == SegmentTokens(g[..n]) + Onwards(g[n..])
    ensures '/' !in g[..n]
    ensures n < |g| ==> Onwards(g[n..]) == [Lit('/')] + Tight(Tokens(g[n + 1..], true))
  {
    assert g[..n] + g[n..] == g;
    TightSegment(g[..n], g[n..], true);
    assert n < |g| ==> g[n..][1..] == g[n + 1..];
  }

  lemma SegmentCase(g: string, n: nat, path: string, m: nat)
    requires n == SegmentEnd(g) && m == SegmentEnd(path) && g[..n] != "**"
    requires n < |g| && m < |path| ==>
               (TokensMatch(Tight(Tokens(g[n + 1..], true)), path[m + 1..])
                <==> SegmentsMatch(Split(g[n + 1..]), Split(path[m + 1..])))
    ensures TokensMatch(Tight(Tokens(g, true)), path) <==> SegmentsMatch(Split(g), Split(path))
  {
    SegmentBefore(g, n);
    SplitAt(g, n);
    if n < |g| {
      var ts, gs := Tight(Tokens(g[n + 1..], true)), Split(g[n + 1..]);
      MoreSegments(ts, gs, path, m);
      SegmentStep(g[..n], [Lit('/')] + ts, gs, path);
    } else {
      NoMoreSegments(path, m);
      SegmentStep(g[..n], [], [], path);
    }
  }

  lemma {:induction false} DirsMeanSegments(ts: seq<Token>, gs: seq<string>, path: string)
    requires NoBreak(path) && gs != []
    requires forall x | NoBreak(x) :: TokensMatch(ts, x) <==> SegmentsMatch(gs, Split(x))
    ensures TokensMatch([Dirs(true)] + ts, path) <==> SegmentsMatch(["**"] + gs, Split(path))
    decreases |path|
  {
    var n := SegmentEnd(path);
    if n < |path| {
      DirsMeanSegments(ts, gs, path[n + 1..]);
    }
    DirsSkipSegments(ts, path);
    DoubleStarSkips(gs, path);
  }

  lemma DoubleStarSkips(gs: seq<string>, path: string)
    requires gs != []
    ensures var n := SegmentEnd(path);
            SegmentsMatch(["**"] + gs, Split(path))
            <==> SegmentsMatch(gs, Split(path)) || (n < |path| && SegmentsMatch(["**"] + gs, Split(path[n + 1..])))
  {
    SplitHead(path);
    NothingLeftToMatch(["**"] + gs);
    assert (["**"] + gs)[1..] == gs;
  }

  lemma DirsBefore(g: string)
    requires "**/" <= g
    ensures Tight(Tokens(g, true)) == [Dirs(true)] + Tight(Tokens(g[3..], true))
  {
    TightCons(Dirs(true), Tokens(g[3..], true));
  }

  lemma DoubleStarCase(path: string)
    requires NoBreak(path)
    ensures TokensMatch(Tight(Tokens("**", true)), path) && SegmentsMatch(Split("**"), Split(path))
  {
    var g := "**";
    assert g[2..] == "" && Tokens(g, true) == [Stars(true)] + [];
    TightCons(Stars(true), []);
    assert Tight(Tokens(g, true)) == [Stars(true)];
    OneToken(Stars(true), path);
    SegmentEndIsFirst(g, 2);
  }

  // Reading every double star inside a longer segment as a star is segment-wise matching.
  lemma {:induction false} TightMeansSegments(g: string, path: string)
    requires NoBreak(path)
    ensures TokensMatch(Tight(Tokens(g, true)), path) <==> SegmentsMatch(Split(g), Split(path))
    decreases |g|
  {
    var n, m := SegmentEnd(g), SegmentEnd(path);
    if g[..n] == "**" {
      DoubleStarFirst(g);
      if g == "**" {
        DoubleStarCase(path);
      } else {
        forall x | NoBreak(x)
          ensures TokensMatch(Tight(Tokens(g[3..], true)), x) <==> SegmentsMatch(Split(g[3..]), Split(x))
        {
          TightMeansSegments(g[3..], x);
        }
        DirsBefore(g);
        SplitDirs(g);
        DirsMeanSegments(Tight(Tokens(g[3..], true)), Split(g[3..]), path);
      }
    } else {
      if n < |g| && m < |path| {
        TightMeansSegments(g[n + 1..], path[m + 1..]);
      }
      SegmentCase(g, n, path, m);
    }
  }

  // ---- Where every double star is a segment ----

  predicate AllPlain(ts: seq<Token>) {
    forall t | t in ts :: t != Stars(false) && t != Dirs(false)
  }

  lemma {:induction false} PlainIsTight(ts: seq<Token>)
    requires AllPlain(ts)
    ensures Tight(ts) == ts
  {
    if ts == [] {
    } else {
      assert ts[0] in ts && forall t | t in ts[1..] :: t in ts;
      PlainIsTight(ts[1..]);
    }
  }

  // The glob's first segment holds no "**", and behind it every "**" is a segment.
  predicate PlainFrom(g: string) {
    var n := SegmentEnd(g);
    NoDoubleStar(g[..n]) && (n < |g| ==> PlainStars(Split(g[n + 1..])))
  }

  lemma PlainFromNext(g: string)
    requires g != "" && g[0] != '/' && PlainFrom(g)
    ensures PlainFrom(g[1..]) && !("**" <= g)
  {
    var n := SegmentEnd(g);
    SegmentEndShift(g, 1);
    assert g[1..][..n - 1] == g[..n][1..];
    assert n < |g| ==> g[1..][n - 1 + 1..] == g[n + 1..];
    assert n > 1 ==> !(g[..n][0] == '*' && g[..n][1] == '*');
    assert n == 1 && |g| > 1 ==> g[1] == '/';
  }

  lemma {:induction false} PlainFromIsPlain(g: string, start: bool)
    requires PlainFrom(g)
    ensures AllPlain(Tokens(g, start))
    decreases |g|, 0
  {
    if g == "" {
    } else {
      if g[0] == '/' {
        PlainStarsArePlain(g[1..]);
      } else {
        PlainFromNext(g);
        PlainFromIsPlain(g[1..], false);
      }
    }
  }

  lemma {:induction false} PlainStarsArePlain(g: string)
    requires PlainStars(Split(g))
    ensures AllPlain(Tokens(g, true))
    decreases |g|, 1
  {
    var n := SegmentEnd(g);
    SplitHead(g);
    assert Split(g)[0] in Split(g) && forall p | p in Split(g)[1..] :: p in Split(g);
    if g[..n] == "**" {
      DoubleStarFirst(g);
      if g == "**" {
        assert g[2..] == "" && Tokens(g, true) == [Stars(true)];
      } else {
        SplitDirs(g);
        PlainStarsArePlain(g[3..]);
        assert Tokens(g, true) == [Dirs(true)] + Tokens(g[3..], true);
      }
    } else {
      PlainFromIsPlain(g, true);
    }
  }

  // Where every "**" is a segment, the character-wise meaning of the compiled glob is
  // exactly segment-wise matching.
  lemma GlobMatchesSegments(g: string, path: string)
    requires NoBreak(path) && PlainStars(Split(g))
    ensures GlobMatches(g, path) <==> SegmentsMatch(Split(g), Split(path))
  {
    PlainStarsArePlain(g);
    PlainIsTight(Tokens(g, true));
    TokensMeanTheGlob(g, true, path);
    TightMeansSegments(g, path);
  }

  // ---- Counting slashes ----

  function SlashCount(s: string): nat {
    if s == "" then 0 else (if s[0] == '/' then 1 else 0) + SlashCount(s[1..])
  }

  lemma {:induction false} SplitLength(s: string)
    ensures |Split(s)| == SlashCount(s) + 1
    decreases |s|
  {
    var n := SegmentEnd(s);
    SlashesAfterSegment(s, n);
    if n == |s| {
    } else {
      SplitLength(s[n + 1..]);
    }
  }

  lemma {:induction false} SlashesAfterSegment(s: string, n: nat)
    requires n == SegmentEnd(s)
    ensures SlashCount(s) == if n == |s| then 0 else 1 + SlashCount(s[n + 1..])
    decreases |s|
  {
    if s == "" || s[0] == '/' {
    } else {
      SegmentEndShift(s, 1);
      SlashesAfterSegment(s[1..], n - 1);
      assert n < |s| ==> s[1..][n - 1 + 1..] == s[n + 1..];
    }
  }

  // ---- Whole globs ----

  lemma SplitAt(s: string, m: nat)
    requires m == SegmentEnd(s)
    ensures Split(s) == [s[..m]] + (if m == |s| then [] else Split(s[m + 1..]))
  {
    if m == |s| {
      assert Split(s) == [s] && s[..m] == s;
    } else {
      assert Split(s) == [s[..m]] + Split(s[m + 1..]);
    }
  }

  lemma SegmentEndOfCut(s: string, k: nat)
    requires SegmentEnd(s) <= k <= |s|
    ensures SegmentEnd(s[..k]) == SegmentEnd(s)
  {
    SegmentEndIsFirst(s[..k], SegmentEnd(s));
  }

  lemma SplitCut(s: string, m: nat, k: nat)
    requires m == SegmentEnd(s) && m < k <= |s|
    ensures Split(s[..k]) == [s[..m]] + Split(s[m + 1..][..k - m - 1])
  {
    SegmentEndOfCut(s, k);
    SplitAt(s[..k], m);
    SlicesOfCut(s, m, k);
  }

  lemma SlicesOfCut(s: string, m: nat, k: nat)
    requires m < k <= |s|
    ensures s[..k][..m] == s[..m] && s[..k][m + 1..] == s[m + 1..][..k - m - 1]
  {
  }

  lemma SplitFirst(s: string, m: nat)
    requires m == SegmentEnd(s) && m < |s|
    ensures Split(s[..m]) == Split(s)[..1]
  {
    SegmentEndOfCut(s, m);
    SplitAt(s[..m], m);
    SplitAt(s, m);
    assert s[..m][..m] == s[..m];
  }

  lemma PrefixGrows<T>(head: T, tail: seq<T>, n: nat)
    requires n <= |tail|
    ensures ([head] + tail)[..n + 1] == [head] + tail[..n]
  {
  }

  lemma {:induction false} SlashCutsSegments(path: string, k: nat) returns (n: nat)
    requires k < |path| && path[k] == '/'
    ensures 0 < n < |Split(path)| && Split(path[..k]) == Split(path)[..n]
    decreases |path|
  {
    var m := SegmentEnd(path);
    SplitSize(path, m);
    if k == m {
      n := 1;
      SplitFirst(path, m);
    } else {
      var n' := SlashCutsSegments(path[m + 1..], k - m - 1);
      n := n' + 1;
      CutOneSegmentLater(path, m, k, n');
    }
  }

  lemma SplitSize(s: string, m: nat)
    requires m == SegmentEnd(s)
    ensures |Split(s)| == if m == |s| then 1 else 1 + |Split(s[m + 1..])|
  {
    SplitAt(s, m);
  }

  // A cut in what follows the first segment is one segment further on in the whole.
  lemma CutOneSegmentLater(path: string, m: nat, k: nat, n: nat)
    requires m == SegmentEnd(path) && m < k <= |path| && n <= |Split(path[m + 1..])|
    requires Split(path[m + 1..][..k - m - 1]) == Split(path[m + 1..])[..n]
    ensures Split(path[..k]) == Split(path)[..n + 1]
  {
    SplitCut(path, m, k);
    SplitAt(path, m);
    PrefixGrows(path[..m], Split(path[m + 1..]), n);
  }

  lemma {:induction false} SegmentsCutAtSlash(path: string, n: nat) returns (k: nat)
    requires 0 < n < |Split(path)|
    ensures k < |path| && path[k] == '/' && Split(path[..k]) == Split(path)[..n]
    decreases |path|
  {
    var m := SegmentEnd(path);
    SplitSize(path, m);
    if n == 1 {
      k := m;
      SplitFirst(path, m);
    } else {
      var k' := SegmentsCutAtSlash(path[m + 1..], n - 1);
      k := m + 1 + k';
      CutOneSegmentLater(path, m, k, n - 1);
    }
  }

  lemma {:induction false} SameSlashes(g: string, path: string)
    requires NoDoubleStar(g) && GlobMatches(g, path)
    ensures SlashCount(g) == SlashCount(path)
    decreases |g|
  {
    if g == "" {
    } else if g[0] == '*' {
      assert !("**" <= g) by {
        assert |g| > 1 ==> !(g[0] == '*' && g[1] == '*');
      }
      var k := RunOfGlob(g, path);
      SameSlashes(g[1..], path[k..]);
      SlashesAfterRun(path, k);
    } else {
      SameSlashes(g[1..], path[1..]);
    }
  }

  lemma {:induction false} SlashesAfterRun(s: string, k: nat)
    requires k <= |s| && '/' !in s[..k]
    ensures SlashCount(s) == SlashCount(s[k..])
    decreases k
  {
    if k == 0 {
      assert s[0..] == s;
    } else {
      assert s[0] == s[..k][0];
      assert s[1..][..k - 1] == s[..k][1..] && s[1..][k - 1..] == s[k..];
      SlashesAfterRun(s[1..], k - 1);
    }
  }

  // Without "**" a glob only matches paths with as many segments as it has.
  lemma WildcardsKeepTheDepth(g: string, path: string)
    requires NoDoubleStar(g) && GlobMatches(g, path)
    ensures |Split(g)| == |Split(path)|
  {
    SameSlashes(g, path);
    SplitLength(g);
    SplitLength(path);
  }

  // The trimming also takes the dot off a hidden directory's name: unless it starts with a
  // wildcard, no glob keeps a path that starts with a dot.
  lemma HiddenPathsAreNeverKept(glob: string, path: string)
    requires Trimmed(glob) != "" && Trimmed(glob)[0] != '*' && Trimmed(glob)[0] != '?'
    requires path != "" && path[0] == '.'
    ensures !Accepts(glob, path)
  {
    var g := Trimmed(glob);
    assert g[0] != '.' && g[0] != '/';
    assert Core(g) != "" && Core(g)[0] == g[0];
    OtherStartNeverMatches(Core(g), path);
    forall k: nat ensures !BelowMatch(Core(g), path, k) {
      if k <= |path| {
        OtherStartNeverMatches(Core(g), path[..k]);
      }
    }
  }

  lemma OtherStartNeverMatches(g: string, x: string)
    requires g != "" && g[0] != '*' && g[0] != '?'
    requires x == "" || x[0] != g[0]
    ensures !GlobMatches(g, x)
  {
  }
}
