/** Why the templates of src/tools/queries/__init__.py must keep placeholders apart: values
    that hide no "{{" of their own can still spell a placeholder across a junction. */
module QueryInjection {
  import opened Basics
  import opened Strings
  import opened QueryRendering
  import opened QueryLoaders

  // ---- Replacing a placeholder ----

  lemma NoOpenInside(key: string, i: nat)
    requires BraceFree(key) && 2 <= i < |key| + 4
    ensures Placeholder(key)[i] != '{'
  {
    if i < |key| + 2 {
      assert Placeholder(key)[i] == key[i - 2] && key[i - 2] in key;
    }
  }

  // No match begins before a placeholder of the same key and ends inside it.
  lemma MatchDoesNotCross(u: string, key: string, rest: string)
    requires BraceFree(key) && u != "" && Placeholder(key) <= u + (Placeholder(key) + rest)
    ensures Placeholder(key) <= u
  {
    var p, s, d := Placeholder(key), u + (Placeholder(key) + rest), |u|;
    assert s[d] == '{' && s[d + 1] == '{';
    forall i: nat | 2 <= i < |p| ensures s[i] != '{' {
      NoOpenInside(key, i);
      assert p[i] == s[i];
    }
    assert d >= |p|;
  }

  lemma {:induction false} ReplaceAtPlaceholder(u: string, key: string, rest: string, v: string)
    requires BraceFree(key)
    ensures Replace(u + (Placeholder(key) + rest), Placeholder(key), v)
         == Replace(u, Placeholder(key), v) + (v + Replace(rest, Placeholder(key), v))
    decreases |u|
  {
    var p, tail := Placeholder(key), Placeholder(key) + rest;
    if u == "" {
      assert u + tail == tail;
      ReplaceMatches(rest, p, v);
    } else if p <= u {
      assert (u + tail)[|p|..] == u[|p|..] + tail;
      ReplaceAtPlaceholder(u[|p|..], key, rest, v);
    } else {
      if p <= u + tail {
        MatchDoesNotCross(u, key, rest);
      }
      assert (u + tail)[0] == u[0] && (u + tail)[1..] == u[1..] + tail;
      ReplaceAtPlaceholder(u[1..], key, rest, v);
    }
  }

  lemma {:induction false} LastBraceStays(u: string, key: string, v: string)
    ensures Replace(u + "{", Placeholder(key), v) == Replace(u, Placeholder(key), v) + "{"
    decreases |u|
  {
    var p, s := Placeholder(key), u + "{";
    assert p[|p| - 1] == '}' && s[|u|] == '{';
    if u == "" {
      assert s[1..] == "";
    } else if p <= u {
      assert s[|p|..] == u[|p|..] + "{";
      LastBraceStays(u[|p|..], key, v);
    } else {
      assert !(p <= s) by {
        assert |p| == |s| ==> p[|p| - 1] != s[|s| - 1];
      }
      assert s[0] == u[0] && s[1..] == u[1..] + "{";
      LastBraceStays(u[1..], key, v);
    }
  }

  lemma {:induction false} CharSurvives(s: string, pat: string, rep: string, z: char)
    requires pat != "" && z in s && z !in pat
    ensures z in Replace(s, pat, rep)
    decreases |s|
  {
    if pat <= s {
      assert s == pat + s[|pat|..];
      CharSurvives(s[|pat|..], pat, rep, z);
    } else if s[0] != z {
      assert s == [s[0]] + s[1..];
      CharSurvives(s[1..], pat, rep, z);
    }
  }

  // A simultaneous substitution only shows what the template and its own values contain.
  lemma {:induction false} SubstituteAddsNothing(t: string, m: map<string, string>, z: char)
    requires z !in t && forall k | k in m && Hole(k) in Tokens(t) :: z !in m[k]
    ensures z !in Substitute(t, m)
    decreases |t|
  {
    if t == "" {
    } else {
      match HoleAt(t)
      case Some(key) =>
        HoleSpelled(t, key);
        assert Tokens(t) == [Hole(key)] + Tokens(t[|key| + 4..]);
        SubstituteAddsNothing(t[|key| + 4..], m, z);
      case None =>
        assert Tokens(t) == [Ch(t[0])] + Tokens(t[1..]);
        SubstituteAddsNothing(t[1..], m, z);
    }
  }

  // ---- Values ----

  function TextArg(key: string, text: string): Binding {
    Binding(key, Arg(text, None, None))
  }

  // A key the template does not use and a character that shows where its value went.
  ghost predicate Fresh(t: string, k: string, z: char) {
    && BraceFree(k) && IsString(k) && Hole(k) !in Tokens(t)
    && z !in t && z !in k && z != '{' && z != '}' && z !in SENTINEL
    && forall p | p in PASSES :: p.pat !in k && p.pat != z
  }

  lemma {:induction false} PlainTextIsKept(s: string)
    requires forall p | p in PASSES :: p.pat !in s
    ensures EscapeScalaString(s) == s
  {
    UntouchedByPasses(s, PASSES);
  }

  lemma {:induction false} NothingToHide(s: string)
    requires NoDoubleBrace(s)
    ensures Replace(s, "{{", SENTINEL) == s
  {
    if s == "" {
    } else {
      forall i | 0 <= i < |s[1..]| - 1 ensures !(s[1..][i] == '{' && s[1..][i + 1] == '{') {
        assert s[1..][i] == s[i + 1] && s[1..][i + 1] == s[i + 2];
      }
      NothingToHide(s[1..]);
      assert !("{{" <= s) by {
        assert |s| >= 2 ==> !(s[0] == '{' && s[1] == '{');
      }
      assert s == [s[0]] + s[1..];
    }
  }

  lemma BracesAreNotEscaped()
    ensures forall p | p in PASSES :: p.pat != '{' && p.pat != '}'
  {
    forall p | p in PASSES ensures p.pat != '{' && p.pat != '}' {
      PassesWriteEscapes(p);
      assert Unescape(p.rep[1]) == Some(p.pat);
    }
  }

  // Text that neither escaping nor hiding changes is substituted as it is.
  lemma PlainValue(key: string, text: string)
    requires IsString(key) && NoDoubleBrace(text) && forall p | p in PASSES :: p.pat !in text
    ensures Sanitized(TextArg(key, text)) == Rendered(TextArg(key, text)) == Some(text)
  {
    PlainTextIsKept(text);
    NothingToHide(text);
  }

  // The halves that make a placeholder of k when an opening brace comes before.
  lemma SpellingIsPlain(key: string, k: string, text: string)
    requires IsString(key) && BraceFree(k) && forall p | p in PASSES :: p.pat !in k
    requires text == "{" || text == "{" + k + "}}" || text == "{" + k + "}}{"
    ensures NoDoubleBrace(text) && Sanitized(TextArg(key, text)) == Rendered(TextArg(key, text)) == Some(text)
  {
    BracesAreNotEscaped();
    forall i | 1 <= i < |text| - 1 ensures text[i] != '{' {
      assert i <= |k| ==> text[i] == k[i - 1] && k[i - 1] in k;
    }
    forall p | p in PASSES ensures p.pat !in text {
      forall i | 0 <= i < |text| ensures text[i] != p.pat {
        assert 1 <= i <= |k| && |text| > 1 ==> text[i] == k[i - 1] && k[i - 1] in k;
      }
    }
    PlainValue(key, text);
  }

  // ---- Injection ----

  lemma FillOne(t: string, bindings: seq<Binding>)
    requires bindings != [] && Sanitized(bindings[0]).Some?
    ensures FillAll(t, bindings)
         == FillAll(Replace(t, Placeholder(bindings[0].key), Sanitized(bindings[0]).value), bindings[1..])
  {
  }

  // Once the text holds the injected placeholder, its value shows in the result.
  lemma InjectedIsFilled(w: string, k: string, rest: string, z: char)
    requires BraceFree(k) && IsString(k) && z !in SENTINEL && z != '{' && forall p | p in PASSES :: p.pat != z
    ensures var t, bs := w + (Placeholder(k) + rest), [TextArg(k, [z])];
            Load(t, bs).Some? && z in Load(t, bs).value
  {
    var t, bs := w + (Placeholder(k) + rest), [TextArg(k, [z])];
    PlainValue(k, [z]);
    FillOne(t, bs);
    assert bs[1..] == [];
    ReplaceAtPlaceholder(w, k, rest, [z]);
    var filled := Replace(t, Placeholder(k), [z]);
    assert z in filled;
    CharSurvives(filled, SENTINEL, "{{", z);
  }

  lemma LoadAfterOne(t: string, b: Binding, bs: seq<Binding>)
    requires Sanitized(b).Some?
    ensures Load(t, [b] + bs) == Load(Replace(t, Placeholder(b.key), Sanitized(b).value), bs)
  {
    FillOne(t, [b] + bs);
    assert ([b] + bs)[1..] == bs;
  }

  // A brace before a string placeholder whose value completes it.
  lemma BraceThenValueInjects(w: string, key: string, rest: string, k: string, z: char)
    requires BraceFree(key) && IsString(key) && BraceFree(k) && IsString(k)
    requires z !in SENTINEL && z != '{' && forall p | p in PASSES :: p.pat != z && p.pat !in k
    ensures var t := w + ("{" + (Placeholder(key) + rest));
            var bs := [TextArg(key, "{" + k + "}}"), TextArg(k, [z])];
            Load(t, bs).Some? && z in Load(t, bs).value
  {
    var t, v := w + ("{" + (Placeholder(key) + rest)), "{" + k + "}}";
    SpellingIsPlain(key, k, v);
    LoadAfterOne(t, TextArg(key, v), [TextArg(k, [z])]);
    assert [TextArg(key, v)] + [TextArg(k, [z])] == [TextArg(key, v), TextArg(k, [z])];
    var w', rest' := BraceMeetsValue(w, key, rest, k, v);
    InjectedIsFilled(w', k, rest', z);
  }

  lemma BraceMeetsValue(w: string, key: string, rest: string, k: string, v: string) returns (w': string, rest': string)
    requires BraceFree(key) && v == "{" + k + "}}"
    ensures Replace(w + ("{" + (Placeholder(key) + rest)), Placeholder(key), v) == w' + (Placeholder(k) + rest')
  {
    var p := Placeholder(key);
    assert w + ("{" + (p + rest)) == (w + "{") + (p + rest);
    ReplaceAtPlaceholder(w + "{", key, rest, v);
    LastBraceStays(w, key, v);
    w', rest' := Replace(w, p, v), Replace(rest, p, v);
    assert "{" + v == Placeholder(k);
    Regroup(w', "{", v, rest');
  }

  // Twice the same value: its end and its beginning meet.
  lemma ValueMeetsItself(pre: string, a: string, post: string, k: string, v: string) returns (w: string, rest: string)
    requires BraceFree(a) && v == "{" + k + "}}{"
    ensures Replace(pre + (Placeholder(a) + (Placeholder(a) + post)), Placeholder(a), v) == w + (Placeholder(k) + rest)
  {
    var p := Placeholder(a);
    ReplaceAtPlaceholder(pre, a, p + post, v);
    ReplaceMatches(post, p, v);
    w, rest := EndMeetsStart(Replace(pre, p, v), k, v, Replace(post, p, v));
  }

  lemma EndMeetsStart(x: string, k: string, v: string, tail: string) returns (w: string, rest: string)
    requires v == "{" + k + "}}{"
    ensures x + (v + (v + tail)) == w + (Placeholder(k) + rest)
  {
    var head := "{" + k + "}}";
    w, rest := x + head, "{" + tail;
    assert v == head + "{" && "{" + head == Placeholder(k);
    Regroup(x, head, "{", v + tail);
    Regroup(w, "{", head, rest);
    assert v + tail == head + rest;
  }

  lemma Regroup(a: string, b: string, c: string, d: string)
    ensures (a + b) + (c + d) == a + ((b + c) + d)
  {
  }

  lemma FreshKeyStaysOut(t: string, bs: seq<Binding>, k: string, z: char)
    requires Fresh(t, k, z) && (forall b | b in bs && b.key != k :: Rendered(b).Some? && z !in Rendered(b).value)
    ensures z !in Substitute(t, RenderedMap(bs))
  {
    RenderedValues(bs, k, z);
    SubstituteAddsNothing(t, RenderedMap(bs), z);
  }

  lemma {:induction false} RenderedValues(bs: seq<Binding>, k: string, z: char)
    requires forall b | b in bs && b.key != k :: Rendered(b).Some? && z !in Rendered(b).value
    ensures forall key | key in RenderedMap(bs) && key != k :: z !in RenderedMap(bs)[key]
  {
    if bs == [] {
    } else {
      assert bs[0] in bs && forall b | b in bs[1..] :: b in bs;
      RenderedValues(bs[1..], k, z);
    }
  }

  // ---- Main results ----

  // Whatever else a template holds: where an opening brace touches a string placeholder, a
  // value without "{{" spells a placeholder that the loop then fills, though the template
  // has none of that name.
  lemma BraceBeforePlaceholderInjects(pre: string, key: string, post: string, k: string, z: char)
    requires BraceFree(key) && IsString(key) && k != key
    requires Fresh(pre + ("{" + (Placeholder(key) + post)), k, z)
    ensures var t := pre + ("{" + (Placeholder(key) + post));
            var bs := [TextArg(key, "{" + k + "}}"), TextArg(k, [z])];
            && NoDoubleBrace(bs[0].arg.text)
            && Load(t, bs).Some? && z in Load(t, bs).value && z !in Substitute(t, RenderedMap(bs))
  {
    var t, v := pre + ("{" + (Placeholder(key) + post)), "{" + k + "}}";
    SpellingIsPlain(key, k, v);
    BraceThenValueInjects(pre, key, post, k, z);
    FreshKeyStaysOut(t, [TextArg(key, v), TextArg(k, [z])], k, z);
  }

  function TouchingValues(a: string, b: string, k: string, z: char): seq<Binding> {
    if a == b then [TextArg(a, "{" + k + "}}{"), TextArg(k, [z])]
    else [TextArg(a, "{"), TextArg(b, "{" + k + "}}"), TextArg(k, [z])]
  }

  lemma SamePlaceholderTwice(pre: string, a: string, post: string, k: string, z: char)
    requires BraceFree(a) && IsString(a) && k != a
    requires Fresh(pre + (Placeholder(a) + (Placeholder(a) + post)), k, z)
    ensures var t, bs := pre + (Placeholder(a) + (Placeholder(a) + post)), TouchingValues(a, a, k, z);
            Load(t, bs).Some? && z in Load(t, bs).value && z !in Substitute(t, RenderedMap(bs))
  {
    var t, bs := pre + (Placeholder(a) + (Placeholder(a) + post)), TouchingValues(a, a, k, z);
    var v := bs[0].arg.text;
    SpellingIsPlain(a, k, v);
    LoadAfterOne(t, bs[0], bs[1..]);
    assert bs == [bs[0]] + bs[1..] && bs[1..] == [TextArg(k, [z])];
    var w, rest := ValueMeetsItself(pre, a, post, k, v);
    InjectedIsFilled(w, k, rest, z);
    FreshKeyStaysOut(t, bs, k, z);
  }

  lemma TwoPlaceholders(pre: string, a: string, b: string, post: string, k: string, z: char)
    requires BraceFree(a) && BraceFree(b) && IsString(a) && IsString(b) && a != b && k != a && k != b
    requires Fresh(pre + (Placeholder(a) + (Placeholder(b) + post)), k, z)
    ensures var t, bs := pre + (Placeholder(a) + (Placeholder(b) + post)), TouchingValues(a, b, k, z);
            Load(t, bs).Some? && z in Load(t, bs).value && z !in Substitute(t, RenderedMap(bs))
  {
    var p := Placeholder(a);
    var t, bs := pre + (p + (Placeholder(b) + post)), TouchingValues(a, b, k, z);
    SpellingIsPlain(a, k, "{");
    SpellingIsPlain(b, k, "{" + k + "}}");
    LoadAfterOne(t, bs[0], bs[1..]);
    assert bs == [bs[0]] + bs[1..] && bs[1..] == [TextArg(b, "{" + k + "}}"), TextArg(k, [z])];
    ReplaceAtPlaceholder(pre, a, Placeholder(b) + post, "{");
    ReplacePassesHole(a, b, post, "{");
    BraceThenValueInjects(Replace(pre, p, "{"), b, Replace(post, p, "{"), k, z);
    FreshKeyStaysOut(t, bs, k, z);
  }

  // The same holds wherever two string placeholders touch.
  lemma TouchingPlaceholdersInject(pre: string, a: string, b: string, post: string, k: string, z: char)
    requires BraceFree(a) && BraceFree(b) && IsString(a) && IsString(b) && k != a && k != b
    requires Fresh(pre + (Placeholder(a) + (Placeholder(b) + post)), k, z)
    ensures var t, bs := pre + (Placeholder(a) + (Placeholder(b) + post)), TouchingValues(a, b, k, z);
            && (forall x | x in bs :: NoDoubleBrace(x.arg.text))
            && Load(t, bs).Some? && z in Load(t, bs).value && z !in Substitute(t, RenderedMap(bs))
  {
    SpellingIsPlain(a, k, "{");
    SpellingIsPlain(a, k, "{" + k + "}}");
    SpellingIsPlain(a, k, "{" + k + "}}{");
    if a == b {
      SamePlaceholderTwice(pre, a, post, k, z);
    } else {
      TwoPlaceholders(pre, a, b, post, k, z);
    }
  }
}
