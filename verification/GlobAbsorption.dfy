/** Where a "**" segment absorbs the slashes a double star inside a longer segment may take,
    and with it exactly which include globs mean segment by segment what their text means. */
module GlobAbsorption {
  import opened Strings
  import opened RegexText
  import opened BuildScoping
  import opened GlobTokens
  import opened GlobSegments
  import opened GlobAgreement

  // ---- A double star that reaches a "**" segment is absorbed ----

  // A star, or a double star inside a longer segment.
  predicate Loose(t: Token) {
    t == Run || t == Stars(false)
  }

  // A "**/" segment, then only stars and slashes, no two slashes together.
  predicate LeftShape(q: seq<Token>) {
    && q != [] && q[0] == Dirs(true)
    && (forall k | 0 < k < |q| :: Loose(q[k]) || q[k] == Lit('/'))
    && (forall k | 0 < k < |q| && q[k] == Lit('/') :: k > 1 && Loose(q[k - 1]))
  }

  // Only stars and slashes, no two slashes together, then a slash and a "**" segment.
  predicate RightShape(q: seq<Token>) {
    && |q| >= 2 && Wide(q[|q| - 1]) && q[|q| - 2] == Lit('/')
    && (forall k | 0 <= k < |q| - 1 :: Loose(q[k]) || q[k] == Lit('/'))
    && (forall k | 0 < k < |q| - 1 && q[k] == Lit('/') :: Loose(q[k - 1]))
  }

  // Behind the last slash of s[lo..hi]; lo if there is none.
  function LastSegment(s: string, lo: nat, hi: nat): (n: nat)
    requires lo <= hi <= |s|
    ensures lo <= n <= hi && (forall i | n <= i < hi :: s[i] != '/') && (n > lo ==> s[n - 1] == '/')
    decreases hi
  {
    if lo == hi || s[hi - 1] == '/' then hi else LastSegment(s, lo, hi - 1)
  }

  // The first slash of s[lo..hi]; hi if there is none.
  function NextSlash(s: string, lo: nat, hi: nat): (n: nat)
    requires lo <= hi <= |s|
    ensures lo <= n <= hi && (forall i | lo <= i < n :: s[i] != '/') && (n < hi ==> s[n] == '/')
    decreases hi - lo
  {
    if lo == hi || s[lo] == '/' then lo else NextSlash(s, lo + 1, hi)
  }

  lemma AppendToken(q: seq<Token>, t: Token, s: string, k: nat, n: nat)
    requires k <= n <= |s| && TokensMatch(q, s[..k]) && Stands(t, s[k..n])
    ensures TokensMatch(q + [t], s[..n])
  {
    OneToken(t, s[k..n]);
    JoinMatches(q, [t], s[..k], s[k..n]);
    assert s[..k] + s[k..n] == s[..n];
  }

  lemma DropLastToken(q: seq<Token>, t: Token, s: string, n: nat) returns (k: nat)
    requires n <= |s| && TokensMatch(q + [t], s[..n])
    ensures k <= n && TokensMatch(q, s[..k]) && Stands(t, s[k..n])
  {
    k := SplitMatch(q, [t], s[..n]);
    OneToken(t, s[..n][k..]);
    assert s[..n][..k] == s[..k] && s[..n][k..] == s[k..n];
  }

  lemma PrependToken(t: Token, q: seq<Token>, s: string, k: nat, n: nat)
    requires k <= n <= |s| && Stands(t, s[k..n]) && TokensMatch(q, s[n..])
    ensures TokensMatch([t] + q, s[k..])
  {
    assert s[k..][..n - k] == s[k..n] && s[k..][n - k..] == s[n..];
    MatchIntro(t, q, s[k..], n - k);
  }

  lemma DropFirstToken(t: Token, q: seq<Token>, s: string, k: nat) returns (n: nat)
    requires k <= |s| && TokensMatch([t] + q, s[k..])
    ensures k <= n <= |s| && Stands(t, s[k..n]) && TokensMatch(q, s[n..])
  {
    var d := MatchCut(t, q, s[k..]);
    n := k + d;
    assert s[k..][..d] == s[k..n] && s[k..][d..] == s[n..];
  }

  // Such a list that matches s up to k can reach up to the last segment before hi.
  lemma {:induction false} ReachLastSegment(q: seq<Token>, s: string, k: nat, hi: nat) returns (n: nat)
    requires LeftShape(q) && NoBreak(s) && k <= hi <= |s| && TokensMatch(q, s[..k])
    ensures n <= hi && TokensMatch(q, s[..n]) && '/' !in s[n..hi]
    decreases |q|, 1
  {
    LeftShapeInits(q);
    if |q| == 1 {
      n := LastSegment(s, k, hi);
      DirsGrow(s, k, n);
    } else if Loose(q[|q| - 1]) {
      n := ReachUpToStar(q[..|q| - 1], q[|q| - 1], s, k, hi);
    } else {
      n := ReachUpToSlash(q[..|q| - 2], q[|q| - 2], s, k, hi);
    }
  }

  lemma LeftShapeInits(q: seq<Token>)
    requires LeftShape(q)
    ensures |q| == 1 ==> q == [Dirs(true)]
    ensures |q| > 1 && Loose(q[|q| - 1]) ==> LeftShape(q[..|q| - 1]) && q == q[..|q| - 1] + [q[|q| - 1]]
    ensures |q| > 1 && !Loose(q[|q| - 1]) ==>
              && |q| > 2 && LeftShape(q[..|q| - 2]) && Loose(q[|q| - 2])
              && q == q[..|q| - 2] + [q[|q| - 2]] + [Lit('/')]
  {
  }

  lemma {:induction false} ReachUpToStar(q: seq<Token>, t: Token, s: string, k: nat, hi: nat) returns (n: nat)
    requires LeftShape(q) && Loose(t) && NoBreak(s) && k <= hi <= |s| && TokensMatch(q + [t], s[..k])
    ensures n <= hi && TokensMatch(q + [t], s[..n]) && '/' !in s[n..hi]
    decreases |q| + 1, 0
  {
    var k0 := DropLastToken(q, t, s, k);
    n := ReachLastSegment(q, s, k0, hi);
    AppendToken(q, t, s, n, n);
  }

  lemma DirsGrow(s: string, k: nat, n: nat)
    requires NoBreak(s) && k <= n <= |s| && TokensMatch([Dirs(true)], s[..k]) && (n > k ==> s[n - 1] == '/')
    ensures TokensMatch([Dirs(true)], s[..n])
  {
    OneToken(Dirs(true), s[..k]);
    OneToken(Dirs(true), s[..n]);
  }

  // A slash at the end of the list may be any later slash of the path.
  lemma {:induction false} ReachUpToSlash(q: seq<Token>, t: Token, s: string, k: nat, hi: nat) returns (n: nat)
    requires LeftShape(q) && Loose(t) && NoBreak(s)
    requires k <= hi <= |s| && TokensMatch(q + [t] + [Lit('/')], s[..k])
    ensures n <= hi && TokensMatch(q + [t] + [Lit('/')], s[..n]) && '/' !in s[n..hi]
    decreases |q| + 1, 2
  {
    n := LastSegment(s, k, hi);
    if n > k {
      var k0 := DropLastToken(q + [t], Lit('/'), s, k);
      StarGrows(q, t, s, k0, n - 1);
      AppendSlash(q + [t], s, n);
    }
  }

  lemma {:induction false} StarGrows(q: seq<Token>, t: Token, s: string, k: nat, n: nat)
    requires LeftShape(q) && Loose(t) && NoBreak(s) && k <= n <= |s| && TokensMatch(q + [t], s[..k])
    ensures TokensMatch(q + [t], s[..n])
    decreases |q| + 1, 1
  {
    var k1 := DropLastToken(q, t, s, k);
    var n1 := ReachLastSegment(q, s, k1, n);
    AppendToken(q, t, s, n1, n);
  }

  // Such a list that matches s from k on can start in the first segment from lo on.
  lemma {:induction false} ReachFirstSegment(q: seq<Token>, s: string, lo: nat, k: nat) returns (n: nat)
    requires RightShape(q) && NoBreak(s) && lo <= k <= |s| && TokensMatch(q, s[k..])
    ensures lo <= n <= |s| && TokensMatch(q, s[n..]) && '/' !in s[lo..n]
    decreases |q|, 1
  {
    RightShapeTails(q);
    assert q == [q[0]] + q[1..];
    if Loose(q[0]) {
      n := ReachThroughStar(q[0], q[1..], s, lo, k);
    } else {
      n := ReachFromSlash(q, s, lo, k);
    }
  }

  lemma {:induction false} ReachThroughStar(t: Token, q: seq<Token>, s: string, lo: nat, k: nat) returns (n: nat)
    requires Loose(t) && RightShape(q) && NoBreak(s) && lo <= k <= |s| && TokensMatch([t] + q, s[k..])
    ensures lo <= n <= |s| && TokensMatch([t] + q, s[n..]) && '/' !in s[lo..n]
    decreases |q| + 1, 0
  {
    var k0 := DropFirstToken(t, q, s, k);
    n := ReachFirstSegment(q, s, lo, k0);
    PrependToken(t, q, s, n, n);
  }

  lemma {:induction false} ReachFromSlash(q: seq<Token>, s: string, lo: nat, k: nat) returns (n: nat)
    requires RightShape(q) && q[0] == Lit('/') && NoBreak(s) && lo <= k <= |s|
    requires TokensMatch([Lit('/')] + q[1..], s[k..])
    ensures lo <= n <= |s| && TokensMatch([Lit('/')] + q[1..], s[n..]) && '/' !in s[lo..n]
    decreases |q|, 0
  {
    var k0 := DropFirstToken(Lit('/'), q[1..], s, k);
    assert k0 == k + 1 && s[k] == s[k..k0][0];
    n := NextSlash(s, lo, k);
    StartAtSlash(q, s, n, k);
    PrependSlash(q[1..], s, n);
  }

  lemma PrependSlash(q: seq<Token>, s: string, n: nat)
    requires n < |s| && s[n] == '/' && TokensMatch(q, s[n + 1..])
    ensures TokensMatch([Lit('/')] + q, s[n..])
  {
    assert s[n..n + 1] == ['/'];
    PrependToken(Lit('/'), q, s, n, n + 1);
  }

  lemma AppendSlash(q: seq<Token>, s: string, n: nat)
    requires 0 < n <= |s| && s[n - 1] == '/' && TokensMatch(q, s[..n - 1])
    ensures TokensMatch(q + [Lit('/')], s[..n])
  {
    assert s[n - 1..n] == ['/'];
    AppendToken(q, Lit('/'), s, n - 1, n);
  }

  lemma RightShapeTails(q: seq<Token>)
    requires RightShape(q)
    ensures Loose(q[0]) || q[0] == Lit('/')
    ensures Loose(q[0]) ==> RightShape(q[1..])
    ensures q[0] == Lit('/') && |q| > 2 ==> Loose(q[1]) && RightShape(q[2..])
  {
    assert |q| > 2 && q[1] == Lit('/') ==> Loose(q[0]);
  }

  // A slash at the start of the list may be any earlier slash of the path.
  lemma {:induction false} StartAtSlash(q: seq<Token>, s: string, n: nat, k: nat)
    requires RightShape(q) && q[0] == Lit('/') && NoBreak(s)
    requires n <= k < |s| && s[n] == '/' && s[k] == '/' && TokensMatch(q[1..], s[k + 1..])
    ensures TokensMatch(q[1..], s[n + 1..])
    decreases |q| - 1, 3
  {
    var u := q[1];
    RightShapeTails(q);
    if |q| == 2 {
      assert q[1..] == [u];
      WideGrows(u, s, n, k);
    } else {
      var q1 := q[2..];
      assert q[1..] == [u] + q1;
      var k1 := DropFirstToken(u, q1, s, k + 1);
      var n1 := ReachFirstSegment(q1, s, n + 1, k1);
      PrependToken(u, q1, s, n + 1, n1);
    }
  }

  lemma WideGrows(t: Token, s: string, n: nat, k: nat)
    requires Wide(t) && NoBreak(s) && n <= k < |s| && s[k] == '/' && TokensMatch([t], s[k + 1..])
    ensures TokensMatch([t], s[n + 1..])
  {
    OneToken(t, s[k + 1..]);
    OneToken(t, s[n + 1..]);
  }

  lemma LeftAbsorbs(q: seq<Token>, s: string)
    requires LeftShape(q) && NoBreak(s) && TokensMatch(q + [Stars(false)], s)
    ensures TokensMatch(q + [Run], s)
  {
    assert s[..|s|] == s;
    var k := DropLastToken(q, Stars(false), s, |s|);
    var n := ReachLastSegment(q, s, k, |s|);
    AppendToken(q, Run, s, n, |s|);
  }

  lemma RightAbsorbs(q: seq<Token>, s: string)
    requires RightShape(q) && NoBreak(s) && TokensMatch([Stars(false)] + q, s)
    ensures TokensMatch([Run] + q, s)
  {
    assert s[0..] == s;
    var k := DropFirstToken(Stars(false), q, s, 0);
    var n := ReachFirstSegment(q, s, 0, k);
    PrependToken(Run, q, s, 0, n);
  }

  lemma ReplaceInside(a: seq<Token>, m: seq<Token>, m': seq<Token>, b: seq<Token>, s: string)
    requires NoBreak(s) && TokensMatch(a + m + b, s)
    requires forall x | NoBreak(x) && TokensMatch(m, x) :: TokensMatch(m', x)
    ensures TokensMatch(a + m' + b, s)
  {
    var k := SplitMatch(a + m, b, s);
    ReplaceLast(a, m, m', s[..k]);
    JoinAt(a + m', b, s, k);
  }

  lemma JoinAt(a: seq<Token>, b: seq<Token>, s: string, k: nat)
    requires k <= |s| && TokensMatch(a, s[..k]) && TokensMatch(b, s[k..])
    ensures TokensMatch(a + b, s)
  {
    JoinMatches(a, b, s[..k], s[k..]);
    assert s[..k] + s[k..] == s;
  }

  lemma ReplaceLast(a: seq<Token>, m: seq<Token>, m': seq<Token>, s: string)
    requires NoBreak(s) && TokensMatch(a + m, s)
    requires forall x | NoBreak(x) && TokensMatch(m, x) :: TokensMatch(m', x)
    ensures TokensMatch(a + m', s)
  {
    var k := SplitMatch(a, m, s);
    assert NoBreak(s[k..]);
    JoinAt(a, m', s, k);
  }

  // ---- The tokens of a glob without empty segments ----

  // Before the last segment no segment is empty.
  predicate NoEmptySegment(g: string) {
    forall i | 0 <= i < |g| && g[i] == '/' :: i > 0 && g[i - 1] != '/'
  }

  predicate Opens(t: Token) {
    t.Dirs? || t == Lit('/')
  }

  predicate Next(t: Token, u: Token) {
    && t != Stars(true)
    && (u == Lit('/') ==> !Opens(t))
    && (Wide(u) ==> Opens(t))
  }

  predicate Linked(ts: seq<Token>) {
    forall k | 0 < k < |ts| :: Next(ts[k - 1], ts[k])
  }

  lemma {:induction false} TokensLinked(g: string, start: bool)
    requires forall i | 0 < i < |g| && g[i] == '/' :: g[i - 1] != '/'
    requires start && g != "" ==> g[0] != '/'
    ensures Linked(Tokens(g, start))
    ensures g != "" ==> !(start && TokenOf(g, start) == Lit('/')) && (Wide(TokenOf(g, start)) ==> start)
    decreases |g|
  {
    if g == "" {
    } else {
      var n := TokenLength(g);
      var rest, t, start' := g[n..], TokenOf(g, start), StartsAfter(g);
      assert forall i | 0 < i < |rest| && rest[i] == '/' :: rest[i - 1] == g[n + i - 1] && rest[i] == g[n + i];
      assert start' ==> g[n - 1] == '/';
      assert start' && rest != "" ==> rest[0] == g[n];
      TokensLinked(rest, start');
      assert rest != "" ==> Next(t, TokenOf(rest, start'));
      FirstLink(t, Tokens(rest, start'));
    }
  }

  lemma FirstLink(t: Token, us: seq<Token>)
    requires Linked(us) && (us != [] ==> Next(t, us[0]))
    ensures Linked([t] + us)
  {
    var ts := [t] + us;
    forall k | 0 < k < |ts| ensures Next(ts[k - 1], ts[k]) {
      if k > 1 {
        assert Next(us[k - 2], us[k - 1]);
      }
    }
  }

  // ---- Replacing one double star after the other ----

  // The nearest such "**" segment.
  lemma {:induction false} NearestReach(ts: seq<Token>, i: nat, j: nat) returns (n: nat)
    requires Reaches(ts, i, j)
    ensures Reaches(ts, i, n)
    ensures forall k | 0 <= k < |ts| && (i < k < n || n < k < i) :: !Wide(ts[k])
    decreases if i < j then j - i else i - j
  {
    if k :| 0 <= k < |ts| && (i < k < j || j < k < i) && Wide(ts[k]) {
      n := NearestReach(ts, i, k);
    } else {
      n := j;
    }
  }

  lemma ShapeToTheLeft(ts: seq<Token>, i: nat, j: nat)
    requires Linked(ts) && Dirs(false) !in ts && j < i && Reaches(ts, i, j)
    requires forall k | j < k < i :: !Wide(ts[k])
    ensures LeftShape(Narrowed(ts, i)[j..i])
  {
    assert Next(ts[j], ts[j + 1]);
    forall k | j < k < i
      ensures Loose(ts[k]) || ts[k] == Lit('/')
      ensures ts[k] == Lit('/') ==> k > j + 1 && Loose(ts[k - 1])
    {
      assert ts[k] in ts && ts[k - 1] in ts && Next(ts[k - 1], ts[k]);
    }
    var q := Narrowed(ts, i)[j..i];
    assert forall k | 0 <= k < |q| :: q[k] == ts[j + k] || (Loose(q[k]) && Loose(ts[j + k]));
  }

  lemma ShapeToTheRight(ts: seq<Token>, i: nat, j: nat)
    requires Linked(ts) && Dirs(false) !in ts && i < j && Reaches(ts, i, j) && ts[i] == Stars(false)
    requires forall k | i < k < j :: !Wide(ts[k])
    ensures RightShape(Narrowed(ts, i)[i + 1..j + 1])
  {
    var q := Narrowed(ts, i)[i + 1..j + 1];
    assert q == ts[i + 1..j + 1];
    assert Next(ts[j - 1], ts[j]) && ts[j - 1] in ts;
    forall k | 0 <= k < |q| - 1
      ensures Loose(q[k]) || q[k] == Lit('/')
      ensures q[k] == Lit('/') && k > 0 ==> Loose(q[k - 1])
    {
      var n := i + 1 + k;
      assert q[k] == ts[n] && ts[n] in ts && ts[n - 1] in ts && Next(ts[n - 1], ts[n]);
      assert k > 0 ==> q[k - 1] == ts[n - 1];
    }
  }

  lemma SpliceLeft(us: seq<Token>, j: nat, i: nat, t: Token)
    requires j < i < |us|
    ensures us[i := t] == us[..j] + (us[j..i] + [t]) + us[i + 1..]
  {
  }

  lemma SpliceRight(us: seq<Token>, i: nat, j: nat, t: Token)
    requires i < j < |us|
    ensures us[i := t] == us[..i] + ([t] + us[i + 1..j + 1]) + us[j + 1..]
  {
  }

  lemma NarrowLeft(ts: seq<Token>, i: nat, j: nat, s: string)
    requires Linked(ts) && Dirs(false) !in ts && j < i && Reaches(ts, i, j) && ts[i] == Stars(false)
    requires forall k | j < k < i :: !Wide(ts[k])
    requires NoBreak(s) && TokensMatch(Narrowed(ts, i), s)
    ensures TokensMatch(Narrowed(ts, i + 1), s)
  {
    var us := Narrowed(ts, i);
    var a, q, b := us[..j], us[j..i], us[i + 1..];
    ShapeToTheLeft(ts, i, j);
    forall x | NoBreak(x) && TokensMatch(q + [Stars(false)], x) ensures TokensMatch(q + [Run], x) {
      LeftAbsorbs(q, x);
    }
    SpliceLeft(us, j, i, us[i]);
    SpliceLeft(us, j, i, Run);
    assert us[i := us[i]] == us && us[i := Run] == Narrowed(ts, i + 1);
    ReplaceInside(a, q + [Stars(false)], q + [Run], b, s);
  }

  lemma NarrowRight(ts: seq<Token>, i: nat, j: nat, s: string)
    requires Linked(ts) && Dirs(false) !in ts && i < j && Reaches(ts, i, j) && ts[i] == Stars(false)
    requires forall k | i < k < j :: !Wide(ts[k])
    requires NoBreak(s) && TokensMatch(Narrowed(ts, i), s)
    ensures TokensMatch(Narrowed(ts, i + 1), s)
  {
    var us := Narrowed(ts, i);
    var a, q, b := us[..i], us[i + 1..j + 1], us[j + 1..];
    ShapeToTheRight(ts, i, j);
    forall x | NoBreak(x) && TokensMatch([Stars(false)] + q, x) ensures TokensMatch([Run] + q, x) {
      RightAbsorbs(q, x);
    }
    SpliceRight(us, i, j, us[i]);
    SpliceRight(us, i, j, Run);
    assert us[i := us[i]] == us && us[i := Run] == Narrowed(ts, i + 1);
    ReplaceInside(a, [Stars(false)] + q, [Run] + q, b, s);
  }

  lemma {:induction false} NarrowAll(ts: seq<Token>, i: nat, s: string)
    requires Linked(ts) && Absorbed(ts) && NoBreak(s) && i <= |ts| && TokensMatch(Narrowed(ts, i), s)
    ensures TokensMatch(Narrowed(ts, |ts|), s)
    decreases |ts| - i
  {
    if i == |ts| {
    } else {
      NarrowOne(ts, i, s);
      NarrowAll(ts, i + 1, s);
    }
  }

  lemma NarrowOne(ts: seq<Token>, i: nat, s: string)
    requires Linked(ts) && Absorbed(ts) && NoBreak(s) && i < |ts| && TokensMatch(Narrowed(ts, i), s)
    ensures TokensMatch(Narrowed(ts, i + 1), s)
  {
    if ts[i] == Stars(false) {
      var j: nat :| Reaches(ts, i, j);
      var n := NearestReach(ts, i, j);
      if n < i {
        NarrowLeft(ts, i, n, s);
      } else {
        NarrowRight(ts, i, n, s);
      }
    } else {
      assert Narrowed(ts, i + 1) == Narrowed(ts, i);
    }
  }

  lemma AbsorbedIsSegmentWise(g: string)
    requires NoEmptySegment(g) && Absorbed(Tokens(g, true))
    ensures SegmentWise(g)
  {
    var ts := Tokens(g, true);
    TokensLinked(g, true);
    SegmentWiseByTokens(g);
    TightIsNarrowed(ts);
    assert Narrowed(ts, 0) == ts;
    forall path | NoBreak(path) && TokensMatch(ts, path) ensures TokensMatch(Tight(ts), path) {
      NarrowAll(ts, 0, path);
    }
  }

  lemma {:induction false} LitIsTaken(ts: seq<Token>, c: char, s: string)
    requires TokensMatch(ts, s) && Lit(c) in ts
    ensures c in s
    decreases |ts|
  {
    var k: nat :| Takes(ts[0], s, k) && TokensMatch(ts[1..], s[k..]);
    if ts[0] == Lit(c) {
      assert c in s[..k];
    } else {
      LitIsTaken(ts[1..], c, s[k..]);
    }
  }

  lemma {:induction false} BreakIsAToken(g: string, start: bool, i: nat)
    requires i < |g| && IsBreak(g[i])
    ensures Lit(g[i]) in Tokens(g, start)
    decreases |g|
  {
    var n := TokenLength(g);
    if i < n {
    } else {
      BreakIsAToken(g[n..], StartsAfter(g), i - n);
    }
  }

  // A glob that holds a line break matches no one-line path either way.
  lemma BreaksAreTaken(g: string, start: bool, s: string)
    requires !NoBreak(g) && TokensMatch(Tokens(g, start), s)
    ensures !NoBreak(s)
  {
    var i :| 0 <= i < |g| && IsBreak(g[i]);
    BreakIsAToken(g, start, i);
    LitIsTaken(Tokens(g, start), g[i], s);
  }

  // A glob without empty segments means segment by segment what its compiled text means
  // exactly when no "**/" stands inside a longer segment and every "**" inside one has a "**"
  // segment behind nothing but stars and slashes.
  lemma SegmentWiseIffAbsorbed(g: string)
    requires NoEmptySegment(g)
    ensures SegmentWise(g) <==> !NoBreak(g) || Absorbed(Tokens(g, true))
  {
    if !NoBreak(g) {
      SegmentWiseByTokens(g);
      forall path | NoBreak(path) ensures !TokensMatch(Tokens(g, true), path) {
        if TokensMatch(Tokens(g, true), path) {
          BreaksAreTaken(g, true, path);
        }
      }
    } else if SegmentWise(g) {
      SegmentWiseIsAbsorbed(g);
    } else if Absorbed(Tokens(g, true)) {
      AbsorbedIsSegmentWise(g);
    }
  }

  predicate Keeps(gs: seq<string>, dir: bool, ps: seq<string>) {
    if dir then exists n | 0 < n < |ps| :: SegmentsMatch(gs, ps[..n]) else SegmentsMatch(gs, ps)
  }

  // The regex text emitted for a glob full-matches a one-line path exactly when the glob's
  // segments match the path's, or for a directory those of some directory above the path.
  lemma GlobKeepsMatchingSegments(glob: string, path: string)
    requires Trimmed(glob) != "" && NoBreak(path)
    requires var core := Core(Trimmed(glob));
             PlainStars(Split(core)) || (NoEmptySegment(core) && Absorbed(Tokens(core, true)))
    ensures Parse(PathRegex(glob)).Some?
    ensures FullMatch(Parse(PathRegex(glob)).value, path)
       <==> Keeps(Split(Core(Trimmed(glob))), IsDirPrefix(Trimmed(glob)), Split(path))
  {
    GlobCompilesCorrectly(glob, path);
    var core := Core(Trimmed(glob));
    if PlainStars(Split(core)) {
      PlainStarsAreSegmentWise(core);
    } else {
      AbsorbedIsSegmentWise(core);
    }
    if IsDirPrefix(Trimmed(glob)) {
      DirectoryKeepsSegments(core, path);
    }
  }

  lemma PlainStarsAreSegmentWise(g: string)
    requires PlainStars(Split(g))
    ensures SegmentWise(g)
  {
    forall path | NoBreak(path) ensures GlobMatches(g, path) <==> SegmentsMatch(Split(g), Split(path)) {
      GlobMatchesSegments(g, path);
    }
  }

  lemma DirectoryKeepsSegments(core: string, path: string)
    requires NoBreak(path) && SegmentWise(core)
    ensures (exists k: nat :: BelowMatch(core, path, k)) <==> Keeps(Split(core), true, Split(path))
  {
    if k: nat :| BelowMatch(core, path, k) {
      assert NoBreak(path[..k]);
      var n := SlashCutsSegments(path, k);
    }
    if n :| 0 < n < |Split(path)| && SegmentsMatch(Split(core), Split(path)[..n]) {
      var k := SegmentsCutAtSlash(path, n);
      assert NoBreak(path[..k]) && BelowMatch(core, path, k);
    }
  }

  // On one-line paths the regex keeps exactly the segment matches.
  ghost predicate KeepsBySegments(r: Regex, gs: seq<string>) {
    forall path | NoBreak(path) :: FullMatch(r, path) <==> SegmentsMatch(gs, Split(path))
  }

  lemma KeepsBySegmentsIffGlob(r: Regex, g: string)
    requires forall path :: FullMatch(r, path) <==> GlobMatches(g, path)
    ensures KeepsBySegments(r, Split(g)) <==> SegmentWise(g)
  {
    if KeepsBySegments(r, Split(g)) {
      forall path | NoBreak(path) ensures GlobMatches(g, path) <==> SegmentsMatch(Split(g), Split(path)) {
        assert FullMatch(r, path) <==> GlobMatches(g, path);
      }
    }
    if SegmentWise(g) {
      forall path | NoBreak(path) ensures FullMatch(r, path) <==> SegmentsMatch(Split(g), Split(path)) {
        assert FullMatch(r, path) <==> GlobMatches(g, path);
      }
    }
  }

  // For a glob without empty segments that names no directory, the emitted text keeps exactly
  // the segment matches exactly when the glob's double stars are absorbed.
  lemma EmittedTextIsSegmentWiseIff(glob: string)
    requires Trimmed(glob) != "" && !IsDirPrefix(Trimmed(glob)) && NoEmptySegment(Core(Trimmed(glob)))
    ensures Parse(PathRegex(glob)).Some?
    ensures var core := Core(Trimmed(glob));
            KeepsBySegments(Parse(PathRegex(glob)).value, Split(core)) <==> !NoBreak(core) || Absorbed(Tokens(core, true))
  {
    var core := Core(Trimmed(glob));
    GlobCompilesCorrectly(glob, "");
    var r := Parse(PathRegex(glob)).value;
    forall path ensures FullMatch(r, path) <==> GlobMatches(core, path) {
      GlobCompilesCorrectly(glob, path);
    }
    KeepsBySegmentsIffGlob(r, core);
    SegmentWiseIffAbsorbed(core);
  }

  // ---- Globs without a "**" segment ----

  lemma {:induction false} PlainTokensPlainFrom(g: string, start: bool)
    requires AllPlain(Tokens(g, start)) && !(start && g[..SegmentEnd(g)] == "**")
    ensures PlainFrom(g)
    decreases |g|, 0
  {
    if g == "" {
    } else {
      var rest := g[TokenLength(g)..];
      assert Tokens(g, start)[0] in Tokens(g, start);
      assert forall t | t in Tokens(rest, StartsAfter(g)) :: t in Tokens(g, start);
      if g[0] == '/' {
        PlainTokensPlainStars(rest);
      } else {
        NoStarsFirst(g, start);
        PlainTokensPlainFrom(rest, false);
        PlainFromBefore(g);
      }
    }
  }

  lemma NoStarsFirst(g: string, start: bool)
    requires g != "" && g[0] != '/' && !(start && g[..SegmentEnd(g)] == "**")
    requires TokenOf(g, start) != Dirs(false) && TokenOf(g, start) != Stars(false)
    ensures !("**" <= g) && TokenLength(g) == 1 && !StartsAfter(g)
  {
    if "**/" <= g {
      SplitDirs(g);
      SplitHead(g);
    } else if "**" <= g {
      SegmentEndIsFirst(g, 2);
    }
  }

  lemma PlainFromBefore(g: string)
    requires g != "" && g[0] != '/' && !("**" <= g) && PlainFrom(g[1..])
    ensures PlainFrom(g)
  {
    var n := SegmentEnd(g);
    SegmentEndShift(g, 1);
    assert g[1..][..n - 1] == g[..n][1..];
    assert n < |g| ==> g[1..][n - 1 + 1..] == g[n + 1..];
    assert n > 1 ==> !(g[..n][0] == '*' && g[..n][1] == '*');
    forall i | 0 <= i < n - 1 ensures !(g[..n][i] == '*' && g[..n][i + 1] == '*') {
      if i > 0 {
        assert !(g[1..][..n - 1][i - 1] == '*' && g[1..][..n - 1][i] == '*');
      }
    }
  }

  lemma {:induction false} PlainTokensPlainStars(g: string)
    requires AllPlain(Tokens(g, true))
    ensures PlainStars(Split(g))
    decreases |g|, 1
  {
    var n := SegmentEnd(g);
    SplitAt(g, n);
    if g[..n] == "**" {
      DoubleStarFirst(g);
      if g != "**" {
        assert forall t | t in Tokens(g[3..], true) :: t in Tokens(g, true);
        PlainTokensPlainStars(g[3..]);
        SplitDirs(g);
      }
    } else {
      PlainTokensPlainFrom(g, true);
    }
  }

  // Some segment is "**"; the first one only counts where a segment starts.
  predicate HasDoubleStar(g: string, start: bool)
    decreases |g|
  {
    var n := SegmentEnd(g);
    || (start && n == 2 && g[0] == '*' && g[1] == '*')
    || (n < |g| && HasDoubleStar(g[n + 1..], true))
  }

  lemma {:induction false} DoubleStarIsListed(g: string)
    requires HasDoubleStar(g, true)
    ensures "**" in Split(g)
    decreases |g|
  {
    var n := SegmentEnd(g);
    SplitAt(g, n);
    if n == 2 && g[0] == '*' && g[1] == '*' {
      assert g[..n] == "**";
    } else {
      DoubleStarIsListed(g[n + 1..]);
    }
  }

  lemma {:induction false} WideIsASegment(g: string, start: bool, t: Token)
    requires t in Tokens(g, start) && Wide(t)
    ensures HasDoubleStar(g, start)
    decreases |g|
  {
    if t == TokenOf(g, start) {
      SegmentEndIsFirst(g, 2);
    } else {
      WideIsASegment(g[TokenLength(g)..], StartsAfter(g), t);
      DoubleStarBehind(g, start);
    }
  }

  lemma DoubleStarBehind(g: string, start: bool)
    requires g != "" && HasDoubleStar(g[TokenLength(g)..], StartsAfter(g))
    ensures HasDoubleStar(g, start)
  {
    var n := TokenLength(g);
    if StartsAfter(g) {
      SegmentEndIsFirst(g, n - 1);
    } else {
      InsideTheSegment(g, n);
      FurtherOn(g, start, n, SegmentEnd(g[n..]));
    }
  }

  lemma FurtherOn(g: string, start: bool, n: nat, e: nat)
    requires n <= |g| && e == SegmentEnd(g[n..]) && n + e == SegmentEnd(g) && HasDoubleStar(g[n..], false)
    ensures HasDoubleStar(g, start)
  {
    assert g[n..][e + 1..] == g[n + e + 1..];
  }

  lemma InsideTheSegment(g: string, n: nat)
    requires g != "" && !StartsAfter(g) && n == TokenLength(g)
    ensures SegmentEnd(g) == n + SegmentEnd(g[n..])
  {
    SegmentEndAfter(g, n);
    SegmentEndShift(g, n);
  }

  // Without a "**" segment nothing can absorb: the two readings agree exactly when no "**"
  // stands in the glob at all.
  lemma SegmentWiseIffPlainStars(g: string)
    requires NoBreak(g) && "**" !in Split(g)
    ensures SegmentWise(g) <==> PlainStars(Split(g))
  {
    var ts := Tokens(g, true);
    if PlainStars(Split(g)) {
      PlainStarsAreSegmentWise(g);
    }
    if SegmentWise(g) {
      SegmentWiseIsAbsorbed(g);
      forall t | t in ts ensures !Wide(t) {
        if Wide(t) {
          WideIsASegment(g, true, t);
          DoubleStarIsListed(g);
        }
      }
      NothingAbsorbs(ts);
      PlainTokensPlainStars(g);
    }
  }

  lemma NothingAbsorbs(ts: seq<Token>)
    requires Absorbed(ts) && forall t | t in ts :: !Wide(t)
    ensures AllPlain(ts)
  {
    assert forall i: nat, j: nat | j < |ts| :: ts[j] in ts && !Reaches(ts, i, j);
  }

  // With one, a "**" inside a longer segment may go unnoticed.
  lemma AbsorbedThoughNotPlain(g: string)
    requires g == "**/***"
    ensures !PlainStars(Split(g)) && SegmentWise(g)
  {
    var h := g[3..];
    assert h == "***" && h[2..] == "*" && "*"[1..] == "";
    var ts := Tokens(g, true);
    assert ts == [Dirs(true)] + Tokens(h, true);
    assert Tokens(h, true) == [Stars(false)] + Tokens("*", false);
    assert Tokens("*", false) == [Run];
    assert Reaches(ts, 1, 0);
    AbsorbedIsSegmentWise(g);
    SplitDirs(g);
    SegmentEndIsFirst(h, 3);
    assert "***" in Split(g);
    assert h[0] == '*' && h[1] == '*';
  }

  // An empty segment stops it: between the two stand only slashes and stars.
  lemma EmptySegmentStopsAbsorption(g: string)
    requires g == "**//***"
    ensures Absorbed(Tokens(g, true)) && !SegmentWise(g)
  {
    var s := "/a/b";
    EmptySegmentTokens(g);
    DirsAbsorbs(Tokens(g, true));
    EmptySegmentText(Tokens(g, true), s);
    EmptySegmentDiffers(g, s);
  }

  lemma DirsAbsorbs(ts: seq<Token>)
    requires ts == [Dirs(true), Lit('/'), Stars(false), Run]
    ensures Absorbed(ts)
  {
    assert Reaches(ts, 2, 0);
  }

  lemma EmptySegmentDiffers(g: string, s: string)
    requires g == "**//***" && s == "/a/b" && NoBreak(s) && TokensMatch(Tokens(g, true), s)
    ensures !SegmentWise(g)
  {
    TokensMeanTheGlob(g, true, s);
    EmptySegmentSplit(g);
    SplitOfPath(s);
    SegmentsDiffer(Split(g), Split(s));
  }

  lemma EmptySegmentTokens(g: string)
    requires g == "**//***"
    ensures Tokens(g, true) == [Dirs(true), Lit('/'), Stars(false), Run]
  {
    var h, h', h'' := g[3..], g[4..], g[6..];
    assert h[1..] == h' && h'[2..] == h'' && h''[1..] == "" && h == "/***" && h' == "***";
    assert Tokens(h'', false) == [Run] + Tokens("", false);
    assert Tokens(h', true) == [Stars(false)] + Tokens(h'', false);
    assert Tokens(h, true) == [Lit('/')] + Tokens(h', true);
    assert Tokens(g, true) == [Dirs(true)] + Tokens(h, true);
  }

  lemma EmptySegmentSplit(g: string)
    requires g == "**//***"
    ensures Split(g) == ["**", "", "***"]
  {
    SplitDirs(g);
    SegmentEndIsFirst(g[3..], 0);
    assert g[3..][1..] == "***";
    SegmentEndIsFirst(g[4..], 3);
  }

  lemma EmptySegmentText(ts: seq<Token>, s: string)
    requires ts == [Dirs(true), Lit('/'), Stars(false), Run] && s == "/a/b"
    ensures NoBreak(s) && TokensMatch(ts, s)
  {
    StarsToTheEnd(s);
    PrependSlash([Stars(false)] + [Run], s, 0);
    PrependToken(Dirs(true), [Lit('/')] + ([Stars(false)] + [Run]), s, 0, 0);
    assert s[0..] == s && ts == [Dirs(true)] + ([Lit('/')] + ([Stars(false)] + [Run]));
  }

  lemma StarsToTheEnd(s: string)
    requires s != "" && NoBreak(s)
    ensures TokensMatch([Stars(false)] + [Run], s[1..])
  {
    assert s[|s|..] == "";
    OneToken(Run, s[|s|..]);
    PrependToken(Stars(false), [Run], s, 1, |s|);
  }

  lemma SplitOfPath(s: string)
    requires s == "/a/b"
    ensures Split(s) == ["", "a", "b"]
  {
    SegmentEndIsFirst(s, 0);
    SplitAt(s, 0);
    var q := s[1..];
    SegmentEndIsFirst(q, 1);
    SplitAt(q, 1);
    assert q[..1] == "a" && q[2..] == "b" && s[..0] == "";
    SegmentEndIsFirst("b", 1);
  }

  lemma SegmentsDiffer(gs: seq<string>, ps: seq<string>)
    requires gs == ["**", "", "***"] && ps == ["", "a", "b"]
    ensures !SegmentsMatch(gs, ps)
  {
    assert gs[1..] == ["", "***"] && gs[1..][1..] == ["***"] && ps[1..] == ["a", "b"] && ps[1..][1..] == ["b"];
    assert !SegmentsMatch(["***"], ["a", "b"]);
    assert !SegmentsMatch(gs[1..], ps) && !SegmentsMatch(gs[1..], ["a", "b"]) && !SegmentsMatch(gs[1..], ["b"]);
    NothingLeftToMatch(gs);
    assert !SegmentsMatch(gs, ["b"]);
    assert !SegmentsMatch(gs, ["a", "b"]);
  }
}
