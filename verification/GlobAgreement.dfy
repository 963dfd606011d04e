/** When an include glob reads the same character by character and segment by segment. A double
    star inside a longer segment may take slashes; that can only go unnoticed when a "**"
    segment stands close enough to take them instead. */
module GlobAgreement {
  import opened Strings
  import opened RegexText
  import opened BuildScoping
  import opened GlobTokens
  import opened GlobSegments

  // On every one-line path the compiled glob means what its segments mean.
  ghost predicate SegmentWise(g: string) {
    forall path | NoBreak(path) :: GlobMatches(g, path) <==> SegmentsMatch(Split(g), Split(path))
  }

  // A double star that is a segment.
  predicate Wide(t: Token) {
    t == Dirs(true) || t == Stars(true)
  }

  // A token that takes exactly one character other than a slash.
  predicate Solid(t: Token) {
    t == One || (t.Lit? && t.c != '/')
  }

  // From i only stars and slashes lie before the "**" segment at j.
  predicate Reaches(ts: seq<Token>, i: nat, j: nat) {
    && i < |ts| && j < |ts| && Wide(ts[j])
    && forall k | 0 <= k < |ts| && (i < k < j || j < k < i) :: !Solid(ts[k])
  }

  // No "**/" inside a longer segment, and every "**" inside one reaches a "**" segment.
  ghost predicate Absorbed(ts: seq<Token>) {
    && Dirs(false) !in ts
    && forall i | 0 <= i < |ts| && ts[i] == Stars(false) :: exists j: nat :: Reaches(ts, i, j)
  }

  // ---- Reading double stars as stars only narrows ----

  lemma TightToken(t: Token, s: string)
    requires TokensMatch(Tightened(t), s) && NoBreak(s)
    ensures Stands(t, s)
  {
    if t == Dirs(false) {
      assert Tightened(t) == [Run] + [Lit('/')];
      var k := MatchCut(Run, [Lit('/')], s);
      OneToken(Lit('/'), s[k..]);
      assert |s[k..]| == 1 && s[k] == '/';
    } else {
      OneToken(Tightened(t)[0], s);
    }
  }

  lemma {:induction false} TightNarrows(ts: seq<Token>, s: string)
    requires TokensMatch(Tight(ts), s) && NoBreak(s)
    ensures TokensMatch(ts, s)
    decreases |ts|
  {
    if ts == [] {
    } else {
      var k := SplitMatch(Tightened(ts[0]), Tight(ts[1..]), s);
      assert NoBreak(s[..k]) && NoBreak(s[k..]);
      TightToken(ts[0], s[..k]);
      TightNarrows(ts[1..], s[k..]);
      assert Takes(ts[0], s, k);
    }
  }

  lemma SegmentWiseByTokens(g: string)
    ensures SegmentWise(g)
       <==> forall path | NoBreak(path) && TokensMatch(Tokens(g, true), path) ::
              TokensMatch(Tight(Tokens(g, true)), path)
  {
    forall path | NoBreak(path)
      ensures TokensMatch(Tokens(g, true), path) <==> GlobMatches(g, path)
      ensures TokensMatch(Tight(Tokens(g, true)), path) <==> SegmentsMatch(Split(g), Split(path))
      ensures TokensMatch(Tight(Tokens(g, true)), path) ==> TokensMatch(Tokens(g, true), path)
    {
      TokensMeanTheGlob(g, true, path);
      TightMeansSegments(g, path);
      if TokensMatch(Tight(Tokens(g, true)), path) {
        TightNarrows(Tokens(g, true), path);
      }
    }
  }

  // ---- How many characters a token list needs ----

  // Slashes if `bar`, else the other characters.
  function Chars(s: string, bar: bool): nat {
    if s == "" then 0 else (if (s[0] == '/') == bar then 1 else 0) + Chars(s[1..], bar)
  }

  function Need(t: Token, bar: bool): nat {
    if bar then (if t == Lit('/') then 1 else 0) else (if Solid(t) then 1 else 0)
  }

  function Needs(ts: seq<Token>, bar: bool): nat {
    if ts == [] then 0 else Need(ts[0], bar) + Needs(ts[1..], bar)
  }

  lemma {:induction false} CharsOfJoin(x: string, y: string, bar: bool)
    ensures Chars(x + y, bar) == Chars(x, bar) + Chars(y, bar)
  {
    if x == "" {
      assert x + y == y;
    } else {
      assert (x + y)[1..] == x[1..] + y;
      CharsOfJoin(x[1..], y, bar);
    }
  }

  lemma CharsOfCut(s: string, k: nat, bar: bool)
    requires k <= |s|
    ensures Chars(s, bar) == Chars(s[..k], bar) + Chars(s[k..], bar)
  {
    assert s == s[..k] + s[k..];
    CharsOfJoin(s[..k], s[k..], bar);
  }

  lemma {:induction false} NeedsOfJoin(x: seq<Token>, y: seq<Token>, bar: bool)
    ensures Needs(x + y, bar) == Needs(x, bar) + Needs(y, bar)
  {
    if x == [] {
      assert x + y == y;
    } else {
      assert (x + y)[1..] == x[1..] + y;
      NeedsOfJoin(x[1..], y, bar);
    }
  }

  lemma NeedsOfCut(ts: seq<Token>, k: nat, bar: bool)
    requires k <= |ts|
    ensures Needs(ts, bar) == Needs(ts[..k], bar) + Needs(ts[k..], bar)
  {
    assert ts == ts[..k] + ts[k..];
    NeedsOfJoin(ts[..k], ts[k..], bar);
  }

  lemma NeedFits(t: Token, s: string, bar: bool)
    requires Stands(t, s)
    ensures Need(t, bar) <= Chars(s, bar)
  {
    if t == One || t.Lit? {
      assert s[1..] == "";
    }
  }

  lemma {:induction false} NeedsFit(ts: seq<Token>, s: string, bar: bool)
    requires TokensMatch(ts, s)
    ensures Needs(ts, bar) <= Chars(s, bar)
    decreases |ts|
  {
    if ts == [] {
    } else {
      var k: nat :| Takes(ts[0], s, k) && TokensMatch(ts[1..], s[k..]);
      NeedFits(ts[0], s[..k], bar);
      NeedsFit(ts[1..], s[k..], bar);
      CharsOfCut(s, k, bar);
    }
  }

  lemma {:induction false} NothingSolid(ts: seq<Token>)
    requires Needs(ts, false) == 0
    ensures forall k | 0 <= k < |ts| :: !Solid(ts[k])
  {
    if ts == [] {
    } else {
      NothingSolid(ts[1..]);
      assert forall k | 0 < k < |ts| :: ts[k] == ts[1..][k - 1];
    }
  }

  // The shortest text a token stands for.
  function Least(t: Token): string {
    if t == One then "x" else if t.Lit? then [t.c] else ""
  }

  function Fill(ts: seq<Token>): string {
    if ts == [] then "" else Least(ts[0]) + Fill(ts[1..])
  }

  predicate Plainly(ts: seq<Token>) {
    forall t | t in ts && t.Lit? :: !IsBreak(t.c)
  }

  lemma {:induction false} FillMatches(ts: seq<Token>)
    requires Plainly(ts)
    ensures TokensMatch(ts, Fill(ts)) && NoBreak(Fill(ts))
    ensures forall bar :: Chars(Fill(ts), bar) == Needs(ts, bar)
  {
    if ts == [] {
    } else {
      assert ts[0] in ts && forall t | t in ts[1..] :: t in ts;
      FillMatches(ts[1..]);
      var x, y := Least(ts[0]), Fill(ts[1..]);
      assert (x + y)[..|x|] == x && (x + y)[|x|..] == y;
      assert Takes(ts[0], x + y, |x|);
      forall bar ensures Chars(x + y, bar) == Need(ts[0], bar) + Needs(ts[1..], bar) {
        CharsOfJoin(x, y, bar);
        LeastNeeds(ts[0], bar);
      }
    }
  }

  lemma LeastNeeds(t: Token, bar: bool)
    ensures Chars(Least(t), bar) == Need(t, bar)
  {
    if t == One || t.Lit? {
      assert Least(t)[1..] == "";
    }
  }

  // ---- A double star that reaches no "**" segment is seen ----

  lemma {:induction false} DirsInsideNeedSlashes(ts: seq<Token>)
    ensures Needs(Tight(ts), true) >= Needs(ts, true)
    ensures Dirs(false) in ts ==> Needs(Tight(ts), true) > Needs(ts, true)
  {
    if ts == [] {
    } else {
      DirsInsideNeedSlashes(ts[1..]);
      NeedsOfJoin(Tightened(ts[0]), Tight(ts[1..]), true);
      assert ts == [ts[0]] + ts[1..];
      TightenedNeeds(ts[0]);
    }
  }

  lemma TightenedNeeds(t: Token)
    ensures Needs(Tightened(t), true) == Need(t, true) + if t == Dirs(false) then 1 else 0
  {
    assert Tightened(t)[1..] == if t == Dirs(false) then [Lit('/')] else [];
    assert [Lit('/')][1..] == [];
  }

  lemma DirsInsideAreSeen(ts: seq<Token>)
    requires Plainly(ts) && Dirs(false) in ts
    ensures NoBreak(Fill(ts)) && TokensMatch(ts, Fill(ts)) && !TokensMatch(Tight(ts), Fill(ts))
  {
    FillMatches(ts);
    DirsInsideNeedSlashes(ts);
    if TokensMatch(Tight(ts), Fill(ts)) {
      NeedsFit(Tight(ts), Fill(ts), true);
    }
  }

  // The double stars inside longer segments before index n read as stars.
  function Narrowed(ts: seq<Token>, n: nat): (us: seq<Token>)
    ensures |us| == |ts|
    ensures forall k | 0 <= k < |ts| :: us[k] == if k < n && ts[k] == Stars(false) then Run else ts[k]
  {
    seq(|ts|, k requires 0 <= k < |ts| => if k < n && ts[k] == Stars(false) then Run else ts[k])
  }

  lemma {:induction false} TightAt(ts: seq<Token>)
    requires Dirs(false) !in ts
    ensures |Tight(ts)| == |ts|
    ensures forall k | 0 <= k < |ts| :: Tight(ts)[k] == if ts[k] == Stars(false) then Run else ts[k]
  {
    if ts == [] {
    } else {
      assert ts[0] in ts && forall t | t in ts[1..] :: t in ts;
      TightAt(ts[1..]);
      assert |Tightened(ts[0])| == 1;
      assert forall k | 0 < k < |ts| :: ts[k] == ts[1..][k - 1];
    }
  }

  lemma TightIsNarrowed(ts: seq<Token>)
    requires Dirs(false) !in ts
    ensures Tight(ts) == Narrowed(ts, |ts|)
  {
    TightAt(ts);
  }

  lemma {:induction false} NarrowedNeeds(ts: seq<Token>, us: seq<Token>)
    requires |us| == |ts| && forall k | 0 <= k < |ts| :: us[k] == ts[k] || (ts[k] == Stars(false) && us[k] == Run)
    ensures Needs(us, false) == Needs(ts, false)
  {
    if ts == [] {
    } else {
      NarrowedNeeds(ts[1..], us[1..]);
    }
  }

  // A block of more slashes than there are tokens is entered by a token that can take several.
  ghost predicate Enters(ts: seq<Token>, s: string, lo: nat, hi: nat, j: nat) {
    && lo <= hi <= |s| && j < |ts| && (ts[j].Dirs? || ts[j].Stars?)
    && (exists a: nat :: a < hi && TokensMatch(ts[..j], s[..a]))
    && (exists b: nat :: lo < b <= |s| && TokensMatch(ts[j + 1..], s[b..]))
  }

  predicate Bars(s: string, lo: nat, hi: nat) {
    lo <= hi <= |s| && forall i | lo <= i < hi :: s[i] == '/'
  }

  lemma {:induction false} BlockIsEntered(ts: seq<Token>, s: string, lo: nat, hi: nat) returns (j: nat)
    requires TokensMatch(ts, s) && Bars(s, lo, hi) && hi - lo > |ts|
    ensures Enters(ts, s, lo, hi, j)
    decreases |ts|
  {
    assert ts != [];
    var k: nat :| Takes(ts[0], s, k) && TokensMatch(ts[1..], s[k..]);
    if (ts[0].Dirs? || ts[0].Stars?) && k > lo {
      j := 0;
      assert s[..0] == "" && ts[..0] == [];
    } else {
      FirstTakesLittle(ts[0], s, k, lo, hi);
      var lo', hi' := if k <= lo then lo - k else 0, hi - k;
      assert Bars(s[k..], lo', hi');
      var j' := BlockIsEntered(ts[1..], s[k..], lo', hi');
      j := j' + 1;
      EntersLater(ts, s, k, lo, hi, lo', j');
    }
  }

  lemma FirstTakesLittle(t: Token, s: string, k: nat, lo: nat, hi: nat)
    requires Takes(t, s, k) && Bars(s, lo, hi) && hi > lo + 1 && (k <= lo || !(t.Dirs? || t.Stars?))
    ensures k <= lo || (lo == 0 && k == 1)
  {
    if k > lo {
      assert s[..k][lo] == '/';
    }
  }

  lemma EntersLater(ts: seq<Token>, s: string, k: nat, lo: nat, hi: nat, lo': nat, j: nat)
    requires ts != [] && Takes(ts[0], s, k) && k <= hi && lo <= lo' + k
    requires Enters(ts[1..], s[k..], lo', hi - k, j)
    ensures Enters(ts, s, lo, hi, j + 1)
  {
    var a: nat :| a < hi - k && TokensMatch(ts[1..][..j], s[k..][..a]);
    var b: nat :| lo' < b <= |s[k..]| && TokensMatch(ts[1..][j + 1..], s[k..][b..]);
    assert ts[1..][j + 1..] == ts[j + 2..] && s[k..][b..] == s[b + k..];
    assert ts[..j + 1] == [ts[0]] + ts[1..][..j] && s[k..][..a] == s[..a + k][k..] && s[..a + k][..k] == s[..k];
    MatchIntro(ts[0], ts[1..][..j], s[..a + k], k);
  }

  // The shortest text, with a block of slashes for the token at i.
  function Filled(ts: seq<Token>, i: nat): string
    requires i < |ts|
  {
    Fill(ts[..i]) + Slashes(|ts| + 1) + Fill(ts[i + 1..])
  }

  function Slashes(n: nat): (s: string)
    ensures |s| == n && forall i | 0 <= i < n :: s[i] == '/'
  {
    seq(n, i => '/')
  }

  lemma {:induction false} NoOtherChars(s: string)
    requires forall i | 0 <= i < |s| :: s[i] == '/'
    ensures Chars(s, false) == 0
  {
    if s == "" {
    } else {
      NoOtherChars(s[1..]);
    }
  }

  lemma PlainlyCut(ts: seq<Token>, i: nat)
    requires Plainly(ts) && i < |ts|
    ensures Plainly(ts[..i]) && Plainly(ts[i + 1..])
  {
    assert forall t | t in ts[..i] :: t in ts;
    assert forall t | t in ts[i + 1..] :: t in ts;
  }

  lemma FilledMatches(ts: seq<Token>, i: nat)
    requires Plainly(ts) && i < |ts| && ts[i] == Stars(false)
    ensures NoBreak(Filled(ts, i)) && TokensMatch(ts, Filled(ts, i))
  {
    PlainlyCut(ts, i);
    FillMatches(ts[..i]);
    FillMatches(ts[i + 1..]);
    assert NoBreak(Slashes(|ts| + 1));
    MatchAround(ts, i, Fill(ts[..i]), Slashes(|ts| + 1), Fill(ts[i + 1..]));
  }

  lemma MatchAround(ts: seq<Token>, i: nat, x: string, y: string, z: string)
    requires i < |ts| && TokensMatch(ts[..i], x) && Stands(ts[i], y) && TokensMatch(ts[i + 1..], z)
    ensures TokensMatch(ts, x + y + z)
  {
    OneToken(ts[i], y);
    JoinMatches(ts[..i], [ts[i]], x, y);
    JoinMatches(ts[..i] + [ts[i]], ts[i + 1..], x + y, z);
    SplitAround(ts, i);
  }

  lemma SplitAround(ts: seq<Token>, i: nat)
    requires i < |ts|
    ensures ts == ts[..i] + [ts[i]] + ts[i + 1..]
  {
  }

  // If the reading with stars still matches, some "**" segment takes the slashes, and no
  // token that needs another character stands between.
  lemma TakenSlashesReach(ts: seq<Token>, i: nat) returns (j: nat)
    requires Plainly(ts) && Dirs(false) !in ts && i < |ts| && ts[i] == Stars(false)
    requires TokensMatch(Narrowed(ts, |ts|), Filled(ts, i))
    ensures Reaches(ts, i, j)
  {
    var x, bars, y := Fill(ts[..i]), Slashes(|ts| + 1), Fill(ts[i + 1..]);
    FillNeedsAround(ts, i);
    j := BarsAreEntered(Narrowed(ts, |ts|), x, bars, y);
    assert ts[j] in ts;
    if j < i {
      EnteredFromTheLeft(ts, i, j, x, bars, y);
    } else {
      EnteredFromTheRight(ts, i, j, x, bars, y);
    }
  }

  lemma FillNeedsAround(ts: seq<Token>, i: nat)
    requires Plainly(ts) && i < |ts|
    ensures Chars(Fill(ts[..i]), false) == Needs(ts[..i], false)
    ensures Chars(Fill(ts[i + 1..]), false) == Needs(ts[i + 1..], false)
  {
    PlainlyCut(ts, i);
    FillMatches(ts[..i]);
    FillMatches(ts[i + 1..]);
  }

  lemma BarsAreEntered(us: seq<Token>, x: string, bars: string, y: string) returns (j: nat)
    requires |bars| > |us| && (forall i | 0 <= i < |bars| :: bars[i] == '/') && TokensMatch(us, x + bars + y)
    ensures Enters(us, x + bars + y, |x|, |x + bars|, j)
  {
    j := BlockIsEntered(us, x + bars + y, |x|, |x + bars|);
  }

  // Tokens that match from within a block of slashes on need no more than what follows it.
  lemma EnteredFromTheLeft(ts: seq<Token>, i: nat, j: nat, x: string, bars: string, y: string)
    requires j < i < |ts| && Enters(Narrowed(ts, |ts|), x + bars + y, |x|, |x + bars|, j)
    requires (forall k | 0 <= k < |bars| :: bars[k] == '/') && Chars(y, false) == Needs(ts[i + 1..], false)
    ensures forall k | j < k < i :: !Solid(ts[k])
  {
    var us := Narrowed(ts, |ts|);
    var b: nat :| |x| < b <= |x + bars + y| && TokensMatch(us[j + 1..], (x + bars + y)[b..]);
    NeedsFit(us[j + 1..], (x + bars + y)[b..], false);
    CharsFromBlock(x, bars, y, b);
    NarrowedNeeds(ts[j + 1..], us[j + 1..]);
    NeedsBetween(ts, j + 1, i);
  }

  lemma EnteredFromTheRight(ts: seq<Token>, i: nat, j: nat, x: string, bars: string, y: string)
    requires i < j < |ts| && Enters(Narrowed(ts, |ts|), x + bars + y, |x|, |x + bars|, j)
    requires (forall k | 0 <= k < |bars| :: bars[k] == '/') && Chars(x, false) == Needs(ts[..i], false)
    ensures forall k | i < k < j :: !Solid(ts[k])
  {
    var us := Narrowed(ts, |ts|);
    var a: nat :| a < |x + bars| && TokensMatch(us[..j], (x + bars + y)[..a]);
    NeedsFit(us[..j], (x + bars + y)[..a], false);
    CharsUpToBlock(x, bars, y, a);
    NarrowedNeeds(ts[..j], us[..j]);
    NeedsBefore(ts, i, j);
  }

  lemma CharsFromBlock(x: string, bars: string, y: string, b: nat)
    requires (forall i | 0 <= i < |bars| :: bars[i] == '/') && |x| <= b <= |x + bars + y|
    ensures Chars((x + bars + y)[b..], false) <= Chars(y, false)
  {
    CharsOfCut(bars + y, b - |x|, false);
    assert (bars + y)[b - |x|..] == (x + bars + y)[b..];
    CharsOfJoin(bars, y, false);
    NoOtherChars(bars);
  }

  lemma CharsUpToBlock(x: string, bars: string, y: string, a: nat)
    requires (forall i | 0 <= i < |bars| :: bars[i] == '/') && a <= |x + bars|
    ensures Chars((x + bars + y)[..a], false) <= Chars(x, false)
  {
    CharsOfCut(x + bars, a, false);
    assert (x + bars)[..a] == (x + bars + y)[..a];
    CharsOfJoin(x, bars, false);
    NoOtherChars(bars);
  }

  lemma NeedsBetween(ts: seq<Token>, p: nat, i: nat)
    requires p <= i < |ts| && Needs(ts[p..], false) <= Needs(ts[i + 1..], false)
    ensures forall k | p <= k < i :: !Solid(ts[k])
  {
    NeedsOfCut(ts[p..], i - p, false);
    NeedsOfCut(ts[i..], 1, false);
    assert ts[p..][i - p..] == ts[i..] && ts[i..][1..] == ts[i + 1..];
    NothingSolid(ts[p..][..i - p]);
    assert forall k | p <= k < i :: ts[k] == ts[p..][..i - p][k - p];
  }

  lemma NeedsBefore(ts: seq<Token>, i: nat, j: nat)
    requires i < j < |ts| && Needs(ts[..j], false) <= Needs(ts[..i], false)
    ensures forall k | i < k < j :: !Solid(ts[k])
  {
    NeedsOfCut(ts[..j], i, false);
    assert ts[..j][..i] == ts[..i];
    NothingSolid(ts[..j][i..]);
    assert forall k | i <= k < j :: ts[k] == ts[..j][i..][k - i];
  }

  lemma {:induction false} TokensArePlain(g: string, start: bool)
    requires NoBreak(g)
    ensures Plainly(Tokens(g, start))
    decreases |g|
  {
    if g == "" {
    } else {
      TokensArePlain(g[TokenLength(g)..], StartsAfter(g));
    }
  }

  // Read segment by segment, a glob can only mean the same if its double stars are absorbed.
  lemma SegmentWiseIsAbsorbed(g: string)
    requires NoBreak(g) && SegmentWise(g)
    ensures Absorbed(Tokens(g, true))
  {
    var ts := Tokens(g, true);
    SegmentWiseByTokens(g);
    TokensArePlain(g, true);
    if Dirs(false) in ts {
      DirsInsideAreSeen(ts);
    } else {
      TightIsNarrowed(ts);
      forall i | 0 <= i < |ts| && ts[i] == Stars(false)
        ensures exists j: nat :: Reaches(ts, i, j)
      {
        FilledMatches(ts, i);
        var j := TakenSlashesReach(ts, i);
      }
    }
  }
}
