/** Escaping for Scala string literals: src/utils/query_rendering.py. */
module QueryRendering {
  import opened Basics
  import opened Strings

  const BACKSPACE := '\U{0008}'
  const FORM_FEED := '\U{000C}'

  datatype Pass = Pass(pat: char, rep: string)

  // The chained replace calls, in order.
  const PASSES: seq<Pass> := [
    Pass('\\', "\\\\"), Pass('\"', "\\\""), Pass('\n', "\\n"), Pass('\r', "\\r"),
    Pass('\t', "\\t"), Pass(BACKSPACE, "\\b"), Pass(FORM_FEED, "\\f")]

  function ApplyPasses(text: string, passes: seq<Pass>): string
    decreases |passes|
  {
    if passes == [] then text
    else ApplyPasses(Replace(text, [passes[0].pat], passes[0].rep), passes[1..])
  }

  function EscapeScalaString(text: string): string {
    ApplyPasses(text, PASSES)
  }

  // The escape of one character: what the pass for it writes, if there is one.
  function EscapeChar(c: char, passes: seq<Pass>): string {
    if passes == [] then [c] else if passes[0].pat == c then passes[0].rep else EscapeChar(c, passes[1..])
  }

  function EscapeEach(text: string, passes: seq<Pass>): string {
    if text == "" then "" else EscapeChar(text[0], passes) + EscapeEach(text[1..], passes)
  }

  // A one-character pattern is replaced piece by piece.
  lemma {:induction false} ReplaceCharSplits(a: string, b: string, c: char, rep: string)
    ensures Replace(a + b, [c], rep) == Replace(a, [c], rep) + Replace(b, [c], rep)
    decreases |a|
  {
    if a == "" {
      assert a + b == b;
    } else {
      assert (a + b)[0] == a[0] && (a + b)[1..] == a[1..] + b;
      ReplaceCharSplits(a[1..], b, c, rep);
      assert ([c] <= a + b) == ([c] <= a) == (a[0] == c);
    }
  }

  lemma {:induction false} PassesSplit(a: string, b: string, passes: seq<Pass>)
    ensures ApplyPasses(a + b, passes) == ApplyPasses(a, passes) + ApplyPasses(b, passes)
    decreases |passes|
  {
    if passes == [] {
    } else {
      var p := passes[0];
      ReplaceCharSplits(a, b, p.pat, p.rep);
      PassesSplit(Replace(a, [p.pat], p.rep), Replace(b, [p.pat], p.rep), passes[1..]);
    }
  }

  // No pass rewrites what an earlier pass has written.
  ghost predicate Independent(passes: seq<Pass>) {
    forall i, j | 0 <= i < j < |passes| :: passes[j].pat !in passes[i].rep
  }

  lemma OnePass(s: string, p: Pass)
    ensures p.pat !in s ==> Replace(s, [p.pat], p.rep) == s
    ensures s == [p.pat] ==> Replace(s, [p.pat], p.rep) == p.rep
  {
    if p.pat !in s {
      ReplaceCopies(s, "", [p.pat], p.rep);
      assert s + "" == s;
    } else if s == [p.pat] {
      ReplaceMatches("", [p.pat], p.rep);
      assert [p.pat] + "" == [p.pat] && p.rep + "" == p.rep;
    }
  }

  lemma {:induction false} UntouchedByPasses(s: string, passes: seq<Pass>)
    requires forall p | p in passes :: p.pat !in s
    ensures ApplyPasses(s, passes) == s
    decreases |passes|
  {
    if passes == [] {
    } else {
      OnePass(s, passes[0]);
      UntouchedByPasses(s, passes[1..]);
    }
  }

  lemma {:induction false} PassesOnOneChar(c: char, passes: seq<Pass>)
    requires Independent(passes)
    ensures ApplyPasses([c], passes) == EscapeChar(c, passes)
    decreases |passes|
  {
    if passes == [] {
    } else {
      OnePass([c], passes[0]);
      if passes[0].pat == c {
        UntouchedByPasses(passes[0].rep, passes[1..]);
      } else {
        PassesOnOneChar(c, passes[1..]);
      }
    }
  }

  // Independent passes act as one pass over the characters.
  lemma {:induction false} PassesEscapeEachCharOnce(text: string, passes: seq<Pass>)
    requires Independent(passes)
    ensures ApplyPasses(text, passes) == EscapeEach(text, passes)
    decreases |text|
  {
    if text == "" {
      UntouchedByPasses(text, passes);
    } else {
      assert text == [text[0]] + text[1..];
      PassesSplit([text[0]], text[1..], passes);
      PassesOnOneChar(text[0], passes);
      PassesEscapeEachCharOnce(text[1..], passes);
    }
  }

  lemma EscapeIsPerChar(text: string)
    ensures EscapeScalaString(text) == EscapeEach(text, PASSES)
  {
    PassesEscapeEachCharOnce(text, PASSES);
  }

  // ---- Reading a literal back ----

  function Unescape(c: char): Option<char> {
    match c
    case 'n' => Some('\n')
    case 'r' => Some('\r')
    case 't' => Some('\t')
    case 'b' => Some(BACKSPACE)
    case 'f' => Some(FORM_FEED)
    case '\"' => Some('\"')
    case '\'' => Some('\'')
    case '\\' => Some('\\')
    case _ => None
  }

  // A single-line Scala literal, read from just after its opening quote: the value and
  // the text after the closing quote. A raw line break or a bad escape is an error.
  function ReadLiteral(s: string): Option<(string, string)> {
    if s == "" || s[0] == '\n' || s[0] == '\r' then None
    else if s[0] == '\"' then Some(("", s[1..]))
    else if s[0] == '\\' then
      if |s| < 2 || Unescape(s[1]) == None then None
      else match ReadLiteral(s[2..])
        case None => None
        case Some((value, rest)) => Some(([Unescape(s[1]).value] + value, rest))
    else match ReadLiteral(s[1..])
      case None => None
      case Some((value, rest)) => Some(([s[0]] + value, rest))
  }

  lemma {:induction false} EscapeCharCases(c: char, passes: seq<Pass>)
    ensures (exists p :: p in passes && p.pat == c && EscapeChar(c, passes) == p.rep)
         || ((forall p | p in passes :: p.pat != c) && EscapeChar(c, passes) == [c])
    decreases |passes|
  {
    if passes == [] || passes[0].pat == c {
    } else {
      EscapeCharCases(c, passes[1..]);
    }
  }

  lemma ReadPlain(c: char, more: string)
    requires c != '\"' && c != '\\' && c != '\n' && c != '\r' && ReadLiteral(more).Some?
    ensures ReadLiteral([c] + more) == Some(([c] + ReadLiteral(more).value.0, ReadLiteral(more).value.1))
  {
    assert ([c] + more)[1..] == more;
  }

  lemma ReadEscape(d: char, more: string)
    requires Unescape(d).Some? && ReadLiteral(more).Some?
    ensures ReadLiteral(['\\', d] + more)
         == Some(([Unescape(d).value] + ReadLiteral(more).value.0, ReadLiteral(more).value.1))
  {
    assert (['\\', d] + more)[2..] == more;
  }

  // What each pass writes is the escape the reader turns back into its character.
  lemma PassesWriteEscapes(p: Pass)
    requires p in PASSES
    ensures |p.rep| == 2 && p.rep[0] == '\\' && Unescape(p.rep[1]) == Some(p.pat)
  {
  }

  lemma ReadOneEscaped(c: char, more: string)
    requires ReadLiteral(more).Some?
    ensures ReadLiteral(EscapeChar(c, PASSES) + more)
         == Some(([c] + ReadLiteral(more).value.0, ReadLiteral(more).value.1))
  {
    var e := EscapeChar(c, PASSES);
    EscapeCharCases(c, PASSES);
    if p :| p in PASSES && p.pat == c && e == p.rep {
      PassesWriteEscapes(p);
      assert e == ['\\', p.rep[1]];
      ReadEscape(p.rep[1], more);
    } else {
      CoveredChars(c);
      ReadPlain(c, more);
    }
  }

  lemma CoveredChars(c: char)
    requires forall p | p in PASSES :: p.pat != c
    ensures c != '\"' && c != '\\' && c != '\n' && c != '\r'
  {
    assert PASSES[0] in PASSES && PASSES[1] in PASSES && PASSES[2] in PASSES && PASSES[3] in PASSES;
  }

  lemma {:induction false} EscapedTextReadsBack(text: string, rest: string)
    ensures ReadLiteral(EscapeEach(text, PASSES) + ("\"" + rest)) == Some((text, rest))
    decreases |text|
  {
    var tail := "\"" + rest;
    if text == "" {
      assert "" + tail == tail && tail[1..] == rest;
    } else {
      EscapedTextReadsBack(text[1..], rest);
      ReadOneEscaped(text[0], EscapeEach(text[1..], PASSES) + tail);
      assert EscapeEach(text, PASSES) + tail == EscapeChar(text[0], PASSES) + (EscapeEach(text[1..], PASSES) + tail);
      assert text == [text[0]] + text[1..];
    }
  }

  // Whatever the value, the reader consumes exactly its escaped text, stops at the
  // closing quote and yields the value.
  lemma LiteralReadsBack(text: string, rest: string)
    ensures ReadLiteral(EscapeScalaString(text) + "\"" + rest) == Some((text, rest))
  {
    EscapeIsPerChar(text);
    EscapedTextReadsBack(text, rest);
    assert EscapeScalaString(text) + "\"" + rest == EscapeEach(text, PASSES) + ("\"" + rest);
  }

  // So different values never render alike.
  lemma EscapeIsInjective(a: string, b: string)
    requires EscapeScalaString(a) == EscapeScalaString(b)
    ensures a == b
  {
    LiteralReadsBack(a, "");
    LiteralReadsBack(b, "");
  }

  lemma {:induction false} EscapeAddsNo(text: string, c: char, passes: seq<Pass>)
    requires c !in text && forall p | p in passes :: c !in p.rep
    ensures c !in EscapeEach(text, passes)
  {
    if text == "" {
    } else {
      EscapeCharCases(text[0], passes);
      EscapeAddsNo(text[1..], c, passes);
    }
  }

  predicate IsControl(c: char) {
    c == '\n' || c == '\r' || c == '\t' || c == BACKSPACE || c == FORM_FEED
  }

  lemma ControlsAreCovered(c: char)
    requires IsControl(c)
    ensures exists p :: p in PASSES && p.pat == c
  {
    assert forall i | 0 <= i < |PASSES| :: PASSES[i] in PASSES;
    assert PASSES[2].pat == '\n' && PASSES[3].pat == '\r' && PASSES[4].pat == '\t';
    assert PASSES[5].pat == BACKSPACE && PASSES[6].pat == FORM_FEED;
  }

  lemma EscapeCharIsPrintable(c: char)
    ensures forall d | d in EscapeChar(c, PASSES) :: !IsControl(d)
  {
    EscapeCharCases(c, PASSES);
    if p :| p in PASSES && p.pat == c && EscapeChar(c, PASSES) == p.rep {
      EscapesArePrintable(p);
    } else if IsControl(c) {
      ControlsAreCovered(c);
    }
  }

  lemma EscapesArePrintable(p: Pass)
    requires p in PASSES
    ensures forall d | d in p.rep :: !IsControl(d)
  {
    PassesWriteEscapes(p);
    assert p.rep == [p.rep[0], p.rep[1]];
    assert Unescape(p.rep[1]) != None ==> !IsControl(p.rep[1]);
  }

  // The literal holds none of the five control characters, whatever the text.
  lemma {:induction false} NoControlsAreLeft(text: string)
    ensures forall d | d in EscapeScalaString(text) :: !IsControl(d)
  {
    EscapeIsPerChar(text);
    NoControlsInEach(text);
  }

  lemma {:induction false} NoControlsInEach(text: string)
    ensures forall d | d in EscapeEach(text, PASSES) :: !IsControl(d)
  {
    if text == "" {
    } else {
      EscapeCharIsPrintable(text[0]);
      NoControlsInEach(text[1..]);
    }
  }
}
