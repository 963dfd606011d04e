/** The tokens of an include glob, as the tokenizer of src/utils/build_scoping.py takes them,
    and the paths a list of tokens stands for. */
module GlobTokens {
  import opened Strings
  import opened RegexText
  import opened BuildScoping

  // The tokenizer's reading of a glob. `plain` tells the double star that is a segment of
  // its own from one inside a longer segment.
  datatype Token =
    | Dirs(plain: bool)   // **/
    | Stars(plain: bool)  // **
    | Run                 // *
    | One                 // ?
    | Lit(c: char)

  function Tokens(g: string, start: bool): seq<Token>
    decreases |g|
  {
    if g == "" then [] else [TokenOf(g, start)] + Tokens(g[TokenLength(g)..], StartsAfter(g))
  }

  function TokenOf(g: string, start: bool): Token
    requires g != ""
  {
    if "**/" <= g then Dirs(start)
    else if "**" <= g then Stars(start && |g| == 2)
    else InnerToken(g)
  }

  // What stands first inside a segment.
  function InnerToken(p: string): Token
    requires p != ""
  {
    if p[0] == '*' then Run else if p[0] == '?' then One else Lit(p[0])
  }

  // Whether a segment starts behind the first token.
  predicate StartsAfter(g: string)
    requires g != ""
  {
    "**/" <= g || g[0] == '/'
  }

  // The text one token stands for.
  predicate Stands(t: Token, s: string) {
    match t
    case Dirs(_) => s == "" || (s[|s| - 1] == '/' && NoBreak(s[..|s| - 1]))
    case Stars(_) => NoBreak(s)
    case Run => '/' !in s
    case One => |s| == 1 && s[0] != '/'
    case Lit(c) => s == [c]
  }

  predicate Takes(t: Token, s: string, k: nat) {
    k <= |s| && Stands(t, s[..k])
  }

  ghost predicate TokensMatch(ts: seq<Token>, s: string)
    decreases |ts|
  {
    if ts == [] then s == "" else exists k: nat :: Takes(ts[0], s, k) && TokensMatch(ts[1..], s[k..])
  }

  lemma MatchIntro(t: Token, ts: seq<Token>, s: string, k: nat)
    requires Takes(t, s, k) && TokensMatch(ts, s[k..])
    ensures TokensMatch([t] + ts, s)
  {
    assert ([t] + ts)[1..] == ts;
  }

  lemma MatchCut(t: Token, ts: seq<Token>, s: string) returns (k: nat)
    requires TokensMatch([t] + ts, s)
    ensures Takes(t, s, k) && TokensMatch(ts, s[k..])
  {
    assert ([t] + ts)[1..] == ts;
    k :| Takes(t, s, k) && TokensMatch(ts, s[k..]);
  }

  lemma {:induction false} JoinMatches(a: seq<Token>, b: seq<Token>, x: string, y: string)
    requires TokensMatch(a, x) && TokensMatch(b, y)
    ensures TokensMatch(a + b, x + y)
    decreases |a|
  {
    if a == [] {
      assert a + b == b && x + y == y;
    } else {
      var t, rest := a[0], a[1..];
      assert a == [t] + rest;
      var k := MatchCut(t, rest, x);
      JoinMatches(rest, b, x[k..], y);
      JoinStep(t, rest, b, x, y, k);
    }
  }

  lemma JoinStep(t: Token, a: seq<Token>, b: seq<Token>, x: string, y: string, k: nat)
    requires Takes(t, x, k) && TokensMatch(a + b, x[k..] + y)
    ensures TokensMatch([t] + a + b, x + y)
  {
    assert (x + y)[..k] == x[..k] && (x + y)[k..] == x[k..] + y;
    MatchIntro(t, a + b, x + y, k);
    assert [t] + a + b == [t] + (a + b);
  }

  lemma {:induction false} SplitMatch(a: seq<Token>, b: seq<Token>, s: string) returns (k: nat)
    requires TokensMatch(a + b, s)
    ensures k <= |s| && TokensMatch(a, s[..k]) && TokensMatch(b, s[k..])
    decreases |a|
  {
    if a == [] {
      k := 0;
      assert a + b == b && s[0..] == s;
    } else {
      assert a + b == [a[0]] + (a[1..] + b) && a == [a[0]] + a[1..];
      var k1 := MatchCut(a[0], a[1..] + b, s);
      var k2 := SplitMatch(a[1..], b, s[k1..]);
      k := k1 + k2;
      assert s[..k][..k1] == s[..k1] && s[..k][k1..] == s[k1..][..k2] && s[k1..][k2..] == s[k..];
      MatchIntro(a[0], a[1..], s[..k], k1);
    }
  }

  lemma OneToken(t: Token, s: string)
    ensures TokensMatch([t], s) <==> Stands(t, s)
  {
    assert [t] == [t] + [];
    if TokensMatch([t], s) {
      var k := MatchCut(t, [], s);
      assert s[..k] == s;
    }
    if Stands(t, s) {
      assert s[..|s|] == s && s[|s|..] == "";
      MatchIntro(t, [], s, |s|);
    }
  }

  // ---- The tokens mean what the glob means ----

  lemma DirsIntro(ts: seq<Token>, plain: bool, s: string, k: nat)
    requires k < |s| && s[k] == '/' && NoBreak(s[..k]) && TokensMatch(ts, s[k + 1..])
    ensures TokensMatch([Dirs(plain)] + ts, s)
  {
    assert s[..k + 1][..k] == s[..k];
    MatchIntro(Dirs(plain), ts, s, k + 1);
  }

  lemma DirsToken(ts: seq<Token>, plain: bool, s: string)
    ensures TokensMatch([Dirs(plain)] + ts, s) <==>
            || TokensMatch(ts, s)
            || exists k: nat :: k < |s| && s[k] == '/' && NoBreak(s[..k]) && TokensMatch(ts, s[k + 1..])
  {
    if TokensMatch([Dirs(plain)] + ts, s) {
      var k := MatchCut(Dirs(plain), ts, s);
      if k == 0 {
        assert s[0..] == s;
      } else {
        assert s[..k][..k - 1] == s[..k - 1] && s[k - 1 + 1..] == s[k..];
      }
    }
    if TokensMatch(ts, s) {
      assert s[..0] == "" && s[0..] == s;
      MatchIntro(Dirs(plain), ts, s, 0);
    }
    if k: nat :| k < |s| && s[k] == '/' && NoBreak(s[..k]) && TokensMatch(ts, s[k + 1..]) {
      DirsIntro(ts, plain, s, k);
    }
  }

  lemma RunToken(t: Token, ts: seq<Token>, s: string)
    requires t.Stars? || t == Run
    ensures TokensMatch([t] + ts, s) <==>
            exists k: nat :: k <= |s| && (if t.Stars? then NoBreak(s[..k]) else '/' !in s[..k]) && TokensMatch(ts, s[k..])
  {
    if TokensMatch([t] + ts, s) {
      var k := MatchCut(t, ts, s);
    }
    if k: nat :| k <= |s| && (if t.Stars? then NoBreak(s[..k]) else '/' !in s[..k]) && TokensMatch(ts, s[k..]) {
      MatchIntro(t, ts, s, k);
    }
  }

  lemma CharToken(t: Token, ts: seq<Token>, s: string)
    requires t == One || t.Lit?
    ensures TokensMatch([t] + ts, s)
       <==> s != "" && (if t == One then s[0] != '/' else s[0] == t.c) && TokensMatch(ts, s[1..])
  {
    if TokensMatch([t] + ts, s) {
      var k := MatchCut(t, ts, s);
    }
    if s != "" && (if t == One then s[0] != '/' else s[0] == t.c) && TokensMatch(ts, s[1..]) {
      assert s[..1] == [s[0]];
      MatchIntro(t, ts, s, 1);
    }
  }

  lemma {:induction false} TokensMeanTheGlob(g: string, start: bool, s: string)
    ensures TokensMatch(Tokens(g, start), s) <==> GlobMatches(g, s)
    decreases |g|
  {
    if g == "" {
    } else {
      var rest := g[TokenLength(g)..];
      forall x ensures TokensMatch(Tokens(rest, StartsAfter(g)), x) <==> GlobMatches(rest, x) {
        TokensMeanTheGlob(rest, StartsAfter(g), x);
      }
      TokenStep(g, TokenOf(g, start), Tokens(rest, StartsAfter(g)), s);
    }
  }

  lemma TokenStep(g: string, t: Token, ts: seq<Token>, s: string)
    requires g != "" && exists start :: t == TokenOf(g, start)
    requires forall x :: TokensMatch(ts, x) <==> GlobMatches(g[TokenLength(g)..], x)
    ensures TokensMatch([t] + ts, s) <==> GlobMatches(g, s)
  {
    if "**/" <= g {
      DirsToken(ts, t.plain, s);
    } else if g[0] == '*' {
      RunToken(t, ts, s);
    } else {
      CharToken(t, ts, s);
    }
  }
}
