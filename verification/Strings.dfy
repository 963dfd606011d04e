/** The str operations that the text cores rely on. */
module Strings {

  // str.replace for a non-empty pattern: left to right, matches do not overlap.
  function Replace(s: string, pat: string, rep: string): string
    requires pat != ""
    decreases |s|
  {
    if s == "" then ""
    else if pat <= s then rep + Replace(s[|pat|..], pat, rep)
    else [s[0]] + Replace(s[1..], pat, rep)
  }

  // Characters that cannot start a match are copied.
  lemma {:induction false} ReplaceCopies(a: string, s: string, pat: string, rep: string)
    requires pat != "" && pat[0] !in a
    ensures Replace(a + s, pat, rep) == a + Replace(s, pat, rep)
    decreases |a|
  {
    if a == "" {
      assert a + s == s;
    } else {
      assert (a + s)[0] == a[0] && (a + s)[1..] == a[1..] + s;
      ReplaceCopies(a[1..], s, pat, rep);
    }
  }

  lemma ReplaceMatches(s: string, pat: string, rep: string)
    requires pat != ""
    ensures Replace(pat + s, pat, rep) == rep + Replace(s, pat, rep)
  {
    assert (pat + s)[|pat|..] == s;
  }

  // Whitespace within the Latin-1 range, as str.strip removes it.
  predicate IsSpace(c: char) {
    c in "\t\n\r \U{000B}\U{000C}\U{001C}\U{001D}\U{001E}\U{001F}\U{0085}\U{00A0}"
  }

  function LStrip(s: string, drop: char -> bool): (r: string)
    ensures r != "" ==> !drop(r[0])
    ensures |r| <= |s| && r == s[|s| - |r|..]
    ensures forall i | 0 <= i < |s| - |r| :: drop(s[i])
  {
    if s != "" && drop(s[0]) then LStrip(s[1..], drop) else s
  }

  function RStrip(s: string, drop: char -> bool): (r: string)
    ensures r != "" ==> !drop(r[|r| - 1])
    ensures |r| <= |s| && r == s[..|r|]
    ensures forall i | |r| <= i < |s| :: drop(s[i])
  {
    if s != "" && drop(s[|s| - 1]) then RStrip(s[..|s| - 1], drop) else s
  }

  const Blank: char -> bool := c => IsSpace(c)

  function Strip(s: string): string {
    RStrip(LStrip(s, Blank), Blank)
  }

  // What stripping takes away.
  lemma {:induction false} LStripTakes(a: string, s: string, drop: char -> bool)
    requires (forall c | c in a :: drop(c)) && (s == "" || !drop(s[0]))
    ensures LStrip(a + s, drop) == s
  {
    if a == "" {
      assert a + s == s;
    } else {
      assert (a + s)[0] == a[0] && (a + s)[1..] == a[1..] + s && a[0] in a;
      LStripTakes(a[1..], s, drop);
    }
  }

  lemma {:induction false} RStripTakes(s: string, b: string, drop: char -> bool)
    requires (forall c | c in b :: drop(c)) && (s == "" || !drop(s[|s| - 1]))
    ensures RStrip(s + b, drop) == s
    decreases |b|
  {
    if b == "" {
      assert s + b == s;
    } else {
      var n := |b| - 1;
      assert (s + b)[|s| + n] == b[n] && (s + b)[..|s| + n] == s + b[..n] && b[n] in b;
      RStripTakes(s, b[..n], drop);
    }
  }

  lemma StripTakes(before: string, s: string, after: string)
    requires (forall c | c in before :: IsSpace(c)) && (forall c | c in after :: IsSpace(c))
    requires s != "" && !IsSpace(s[0]) && !IsSpace(s[|s| - 1])
    ensures Strip(before + (s + after)) == s
  {
    LStripTakes(before, s + after, Blank);
    RStripTakes(s, after, Blank);
  }

  function Lower(s: string): string {
    seq(|s|, i requires 0 <= i < |s| => if 'A' <= s[i] <= 'Z' then s[i] + 32 as char else s[i])
  }

  function Decimal(n: int): (s: string)
    ensures s != "" && forall c | c in s :: c == '-' || '0' <= c <= '9'
    decreases n < 0, if n < 0 then -n else n
  {
    if n < 0 then "-" + Decimal(-n)
    else if n < 10 then ["0123456789"[n]]
    else Decimal(n / 10) + ["0123456789"[n % 10]]
  }
}
