/** Template rendering of src/tools/queries/__init__.py: one replace per placeholder, with
    a sentinel that keeps braces in values from being read as placeholders. */
module QueryLoaders {
  import opened Basics
  import opened Strings
  import opened QueryRendering

  const SENTINEL := "\U{0000}__ESCAPED_OPEN_BRACE__\U{0000}"
  const NUL := '\U{0000}'
  const MAX_RESULT_ROWS := 10000
  const MAX_TRAVERSAL_DEPTH := 64

  const CEILINGS: map<string, int> := map[
    "limit" := MAX_RESULT_ROWS, "max_results" := MAX_RESULT_ROWS, "max_nodes" := MAX_RESULT_ROWS,
    "depth" := MAX_TRAVERSAL_DEPTH, "max_depth" := MAX_TRAVERSAL_DEPTH]
  const INT_PLACEHOLDERS := {"line_num", "source_line", "sink_line", "source_node_id", "sink_node_id"}
  const BOOL_PLACEHOLDERS := {"include_backward", "include_forward", "include_control_flow"}

  // A keyword argument: str(value), what int(value) gives (None when it raises), and the
  // value itself when it is a Python bool.
  datatype Arg = Arg(text: string, asInt: Option<int>, asBool: Option<bool>)
  datatype Binding = Binding(key: string, arg: Arg)

  function Clamp(n: Option<int>, ceiling: int): int {
    var v := if n == None then 1 else n.value;
    var low := if v < ceiling then v else ceiling;
    if low > 1 then low else 1
  }

  function CoerceBool(arg: Arg): Option<string> {
    if arg.asBool.Some? then Some(if arg.asBool.value then "true" else "false")
    else
      var s := Lower(Strip(arg.text));
      if s in {"true", "1", "yes"} then Some("true")
      else if s in {"false", "0", "no"} then Some("false")
      else None
  }

  // The text a placeholder stands for in the query; None is the ValueError.
  function Rendered(b: Binding): Option<string> {
    if b.key in CEILINGS then Some(Decimal(Clamp(b.arg.asInt, CEILINGS[b.key])))
    else if b.key in INT_PLACEHOLDERS then
      if b.arg.asInt == None then None else Some(Decimal(b.arg.asInt.value))
    else if b.key in BOOL_PLACEHOLDERS then CoerceBool(b.arg)
    else Some(EscapeScalaString(b.arg.text))
  }

  predicate IsString(key: string) {
    key !in CEILINGS && key !in INT_PLACEHOLDERS && key !in BOOL_PLACEHOLDERS
  }

  // What is substituted while the loop runs: for strings, "{{" is hidden by the sentinel.
  function Sanitized(b: Binding): Option<string> {
    match Rendered(b)
    case None => None
    case Some(text) => Some(if IsString(b.key) then Replace(text, "{{", SENTINEL) else text)
  }

  function Placeholder(key: string): string {
    "{{" + key + "}}"
  }

  function FillAll(template: string, bindings: seq<Binding>): Option<string>
    decreases |bindings|
  {
    if bindings == [] then Some(template)
    else match Sanitized(bindings[0])
      case None => None
      case Some(v) => FillAll(Replace(template, Placeholder(bindings[0].key), v), bindings[1..])
  }

  function Load(template: string, bindings: seq<Binding>): Option<string> {
    match FillAll(template, bindings)
    case None => None
    case Some(filled) => Some(Replace(filled, SENTINEL, "{{"))
  }

  class QueryLoader {
    var cache: map<string, string>

    constructor ()
      ensures cache == map[]
    {
      cache := map[];
    }

    // `file` is what reading the query file gives when it is not cached; None raises.
    method LoadQuery(name: string, file: Option<string>, bindings: seq<Binding>) returns (query: Option<string>)
      modifies this
      ensures name !in old(cache) && file == None ==> query == None && cache == old(cache)
      ensures name in old(cache) || file.Some? ==>
                && cache == (if name in old(cache) then old(cache) else old(cache)[name := file.value])
                && query == Load(cache[name], bindings)
    {
      if name !in cache {
        if file == None {
          return None;
        }
        cache := cache[name := file.value];
      }
      var template := cache[name];
      for i := 0 to |bindings|
        invariant FillAll(cache[name], bindings) == FillAll(template, bindings[i..])
      {
        assert bindings[i..][1..] == bindings[i + 1..];
        var v := Sanitized(bindings[i]);
        if v == None {
          return None;
        }
        template := Replace(template, Placeholder(bindings[i].key), v.value);
      }
      query := Some(Replace(template, SENTINEL, "{{"));
    }
  }

  // ---- One simultaneous substitution ----

  function KeyLength(s: string): (n: nat)
    ensures n <= |s|
    ensures forall i | 0 <= i < n :: s[i] != '{' && s[i] != '}'
    ensures n < |s| ==> s[n] == '{' || s[n] == '}'
  {
    if s == "" || s[0] == '{' || s[0] == '}' then 0 else 1 + KeyLength(s[1..])
  }

  // The placeholder the text starts with, if any: its key has no braces.
  function HoleAt(s: string): (key: Option<string>)
    ensures key.Some? ==> Placeholder(key.value) <= s && BraceFree(key.value)
  {
    if "{{" <= s then
      var body := s[2..];
      var n := KeyLength(body);
      if "}}" <= body[n..] then
        assert Placeholder(body[..n]) == s[..n + 4];
        assert forall c | c in body[..n] :: c != '{' && c != '}';
        Some(body[..n])
      else None
    else None
  }

  predicate BraceFree(s: string) {
    '{' !in s && '}' !in s
  }

  // One pass over the template: every placeholder that has a value is replaced by it.
  function Substitute(t: string, values: map<string, string>): string
    decreases |t|
  {
    if t == "" then ""
    else match HoleAt(t)
      case Some(key) =>
        (if key in values then values[key] else Placeholder(key)) + Substitute(t[|key| + 4..], values)
      case None => [t[0]] + Substitute(t[1..], values)
  }

  // ---- Templates as tokens ----

  datatype Token = Ch(c: char) | Hole(key: string) {
    function Text(): string {
      match this
      case Ch(c) => [c]
      case Hole(key) => Placeholder(key)
    }

    // An opening brace, or something whose value may start or end with one.
    predicate Open() {
      this == Ch('{') || (Hole? && IsString(key))
    }
  }

  function Tokens(t: string): seq<Token>
    decreases |t|
  {
    if t == "" then []
    else match HoleAt(t)
      case Some(key) => [Hole(key)] + Tokens(t[|key| + 4..])
      case None => [Ch(t[0])] + Tokens(t[1..])
  }

  function Chars(s: string): (ts: seq<Token>)
    ensures |ts| == |s| && forall i | 0 <= i < |s| :: ts[i] == Ch(s[i])
  {
    if s == "" then [] else [Ch(s[0])] + Chars(s[1..])
  }

  function Flatten(ts: seq<Token>): string {
    if ts == [] then "" else ts[0].Text() + Flatten(ts[1..])
  }

  lemma {:induction false} FlattenSplits(a: seq<Token>, b: seq<Token>)
    ensures Flatten(a + b) == Flatten(a) + Flatten(b)
  {
    if a == [] {
      assert a + b == b;
    } else {
      assert (a + b)[0] == a[0] && (a + b)[1..] == a[1..] + b;
      FlattenSplits(a[1..], b);
    }
  }

  lemma {:induction false} FlattenChars(s: string)
    ensures Flatten(Chars(s)) == s
  {
    if s == "" {
    } else {
      FlattenChars(s[1..]);
      assert Chars(s)[1..] == Chars(s[1..]);
      assert s == [s[0]] + s[1..];
    }
  }

  // No opening brace or string placeholder touches another one: "{{" only opens placeholders.
  ghost predicate WellSeparated(ts: seq<Token>) {
    && (forall i | 0 <= i < |ts| - 1 :: !(ts[i].Open() && ts[i + 1].Open()))
    && (forall i | 0 <= i < |ts| && ts[i].Hole? :: BraceFree(ts[i].key))
  }

  function Fill(ts: seq<Token>, key: string, value: string): seq<Token> {
    if ts == [] then []
    else (if ts[0] == Hole(key) then Chars(value) else [ts[0]]) + Fill(ts[1..], key, value)
  }

  ghost predicate NoDoubleBrace(s: string) {
    forall i | 0 <= i < |s| - 1 :: !(s[i] == '{' && s[i + 1] == '{')
  }

  lemma TailSeparated(ts: seq<Token>)
    requires WellSeparated(ts) && ts != []
    ensures WellSeparated(ts[1..])
  {
    forall i | 0 <= i < |ts[1..]| - 1 ensures !(ts[1..][i].Open() && ts[1..][i + 1].Open()) {
      assert ts[1..][i] == ts[i + 1] && ts[1..][i + 1] == ts[i + 2];
    }
  }

  lemma {:induction false} KeyLengthOf(key: string, rest: string)
    requires BraceFree(key) && rest != "" && (rest[0] == '{' || rest[0] == '}')
    ensures KeyLength(key + rest) == |key|
  {
    if key == "" {
      assert key + rest == rest;
    } else {
      assert (key + rest)[0] == key[0] && (key + rest)[1..] == key[1..] + rest;
      KeyLengthOf(key[1..], rest);
    }
  }

  // A pattern for another key does not match inside a placeholder.
  lemma OtherKeyDoesNotMatch(key: string, other: string, rest: string)
    requires BraceFree(key) && BraceFree(other) && Placeholder(key) <= Placeholder(other) + rest
    ensures key == other
  {
    var s := Placeholder(other) + rest;
    var rest' := s[|key| + 4..];
    assert s == Placeholder(key) + rest';
    assert s[2..] == other + ("}}" + rest) && s[2..] == key + ("}}" + rest');
    KeyLengthOf(other, "}}" + rest);
    KeyLengthOf(key, "}}" + rest');
    assert key == s[2..][..|key|] && other == s[2..][..|key|];
  }

  lemma ReplacePassesHole(key: string, other: string, rest: string, value: string)
    requires BraceFree(key) && BraceFree(other) && key != other
    ensures Replace(Placeholder(other) + rest, Placeholder(key), value)
         == Placeholder(other) + Replace(rest, Placeholder(key), value)
  {
    var pat := Placeholder(key);
    var s := Placeholder(other) + rest;
    if pat <= s {
      OtherKeyDoesNotMatch(key, other, rest);
    }
    var body := other + "}}";
    assert s[1..] == "{" + (body + rest) && s[1..][1..] == body + rest;
    assert (body + rest)[0] != '{' by {
      assert other != "" ==> body[0] == other[0] && other[0] in other;
    }
    assert pat[1] == '{' && !(pat <= s[1..]);
    ReplaceCopies(body, rest, pat, value);
    assert Placeholder(other) == "{" + ("{" + body);
  }

  lemma ReplacePassesChar(c: char, rest: string, key: string, value: string)
    requires BraceFree(key) && (c == '{' ==> rest == "" || rest[0] != '{' || "{{" <= rest)
    ensures Replace([c] + rest, Placeholder(key), value) == [c] + Replace(rest, Placeholder(key), value)
  {
    var pat, s := Placeholder(key), [c] + rest;
    assert s[0] == c && s[1..] == rest;
    assert pat[0] == '{' && pat[1] == '{';
    assert pat[2] != '{' by {
      assert key != "" ==> pat[2] == key[0] && key[0] in key;
    }
    assert !(pat <= s);
  }

  // On a well-separated text one replace fills exactly the placeholders of its key.
  lemma {:induction false} ReplaceFills(ts: seq<Token>, key: string, value: string)
    requires WellSeparated(ts) && BraceFree(key)
    ensures Replace(Flatten(ts), Placeholder(key), value) == Flatten(Fill(ts, key, value))
  {
    if ts == [] {
    } else {
      var rest := Flatten(ts[1..]);
      TailSeparated(ts);
      ReplaceFills(ts[1..], key, value);
      match ts[0]
      case Ch(c) =>
        if c == '{' && ts[1..] != [] {
          assert !ts[1].Open() && rest == ts[1].Text() + Flatten(ts[2..]);
        }
        ReplacePassesChar(c, rest, key, value);
        FlattenSplits([ts[0]], Fill(ts[1..], key, value));
      case Hole(k) =>
        if k == key {
          ReplaceMatches(rest, Placeholder(key), value);
          FlattenSplits(Chars(value), Fill(ts[1..], key, value));
          FlattenChars(value);
        } else {
          ReplacePassesHole(key, k, rest, value);
          FlattenSplits([ts[0]], Fill(ts[1..], key, value));
        }
    }
  }

  // Free of "{{", and a value that is no string is a word without braces.
  ghost predicate Fits(key: string, value: string) {
    NoDoubleBrace(value) && (!IsString(key) ==> value != "" && '{' !in value)
  }

  // Filling with such text keeps the rest of the template well separated.
  lemma {:induction false} FillKeepsSeparated(ts: seq<Token>, key: string, value: string)
    requires WellSeparated(ts) && Fits(key, value)
    ensures WellSeparated(Fill(ts, key, value))
    ensures ts != [] && !ts[0].Open() ==> Fill(ts, key, value) != [] && !Fill(ts, key, value)[0].Open()
  {
    if ts == [] {
    } else {
      TailSeparated(ts);
      FillKeepsSeparated(ts[1..], key, value);
      var head := if ts[0] == Hole(key) then Chars(value) else [ts[0]];
      var tail := Fill(ts[1..], key, value);
      assert ts[0].Open() && ts[1..] != [] ==> !ts[1].Open() && !tail[0].Open();
      assert !ts[0].Open() ==> forall i | 0 <= i < |head| :: !head[i].Open();
      forall i | 0 <= i < |head + tail| - 1 ensures !((head + tail)[i].Open() && (head + tail)[i + 1].Open()) {
        if i + 1 < |head| {
          assert (head + tail)[i] == head[i] && (head + tail)[i + 1] == head[i + 1];
        } else if i >= |head| {
          assert (head + tail)[i] == tail[i - |head|] && (head + tail)[i + 1] == tail[i + 1 - |head|];
        }
      }
    }
  }

  // ---- Sequential filling is simultaneous substitution ----

  predicate DistinctKeys(bindings: seq<Binding>) {
    forall i, j | 0 <= i < j < |bindings| :: bindings[i].key != bindings[j].key
  }

  // The values by key: as the loop substitutes them, and as they end up in the query.
  function SanitizedMap(bindings: seq<Binding>): (m: map<string, string>)
    ensures forall k | k in m :: exists b :: b in bindings && b.key == k
  {
    if bindings == [] then map[]
    else match Sanitized(bindings[0])
      case None => SanitizedMap(bindings[1..])
      case Some(v) => SanitizedMap(bindings[1..])[bindings[0].key := v]
  }

  function RenderedMap(bindings: seq<Binding>): (m: map<string, string>)
    ensures forall k | k in m :: exists b :: b in bindings && b.key == k
  {
    if bindings == [] then map[]
    else match Rendered(bindings[0])
      case None => RenderedMap(bindings[1..])
      case Some(v) => RenderedMap(bindings[1..])[bindings[0].key := v]
  }

  function FillEach(ts: seq<Token>, bindings: seq<Binding>): seq<Token>
    decreases |bindings|
  {
    if bindings == [] || Sanitized(bindings[0]) == None then ts
    else FillEach(Fill(ts, bindings[0].key, Sanitized(bindings[0]).value), bindings[1..])
  }

  function FillFromMap(ts: seq<Token>, m: map<string, string>): seq<Token> {
    if ts == [] then []
    else (if ts[0].Hole? && ts[0].key in m then Chars(m[ts[0].key]) else [ts[0]]) + FillFromMap(ts[1..], m)
  }

  lemma {:induction false} FillFromMapSplits(a: seq<Token>, b: seq<Token>, m: map<string, string>)
    ensures FillFromMap(a + b, m) == FillFromMap(a, m) + FillFromMap(b, m)
  {
    if a == [] {
      assert a + b == b;
    } else {
      assert (a + b)[0] == a[0] && (a + b)[1..] == a[1..] + b;
      FillFromMapSplits(a[1..], b, m);
    }
  }

  lemma {:induction false} FillFromMapKeepsChars(s: string, m: map<string, string>)
    ensures FillFromMap(Chars(s), m) == Chars(s)
  {
    if s == "" {
    } else {
      FillFromMapKeepsChars(s[1..], m);
      assert Chars(s)[1..] == Chars(s[1..]);
    }
  }

  // A value put in is text: it is not looked into again.
  lemma {:induction false} FillThenMap(ts: seq<Token>, key: string, value: string, m: map<string, string>)
    requires key !in m
    ensures FillFromMap(Fill(ts, key, value), m) == FillFromMap(ts, m[key := value])
  {
    if ts == [] {
    } else {
      FillThenMap(ts[1..], key, value, m);
      var head := if ts[0] == Hole(key) then Chars(value) else [ts[0]];
      FillFromMapSplits(head, Fill(ts[1..], key, value), m);
      FillFromMapKeepsChars(value, m);
      assert FillFromMap([ts[0]], m) == if ts[0].Hole? && ts[0].key in m then Chars(m[ts[0].key]) else [ts[0]];
    }
  }

  lemma {:induction false} FillEachIsFromMap(ts: seq<Token>, bindings: seq<Binding>)
    requires DistinctKeys(bindings) && forall b | b in bindings :: Sanitized(b).Some?
    ensures FillEach(ts, bindings) == FillFromMap(ts, SanitizedMap(bindings))
    decreases |bindings|
  {
    if bindings == [] {
      NothingToFill(ts);
    } else {
      var b, rest := bindings[0], bindings[1..];
      FillEachIsFromMap(Fill(ts, b.key, Sanitized(b).value), rest);
      assert b.key !in SanitizedMap(rest);
      FillThenMap(ts, b.key, Sanitized(b).value, SanitizedMap(rest));
    }
  }

  lemma {:induction false} NothingToFill(ts: seq<Token>)
    ensures FillFromMap(ts, map[]) == ts
  {
    if ts == [] {
    } else {
      NothingToFill(ts[1..]);
    }
  }

  lemma {:induction false} FillAllIsFillEach(ts: seq<Token>, bindings: seq<Binding>)
    requires WellSeparated(ts)
    requires forall b | b in bindings :: BraceFree(b.key) && Sanitized(b).Some? && Fits(b.key, Sanitized(b).value)
    ensures FillAll(Flatten(ts), bindings) == Some(Flatten(FillEach(ts, bindings)))
    decreases |bindings|
  {
    if bindings == [] {
    } else {
      var b := bindings[0];
      ReplaceFills(ts, b.key, Sanitized(b).value);
      FillKeepsSeparated(ts, b.key, Sanitized(b).value);
      FillAllIsFillEach(Fill(ts, b.key, Sanitized(b).value), bindings[1..]);
    }
  }

  lemma FlattenCons(t: Token, ts: seq<Token>)
    ensures Flatten([t] + ts) == t.Text() + Flatten(ts)
  {
    assert ([t] + ts)[1..] == ts;
  }

  lemma HoleSpelled(t: string, key: string)
    requires HoleAt(t) == Some(key)
    ensures |key| + 4 <= |t| && t == Placeholder(key) + t[|key| + 4..]
  {
  }

  lemma {:induction false} TokensSpellTheText(t: string)
    ensures Flatten(Tokens(t)) == t
    decreases |t|
  {
    if t == "" {
    } else {
      match HoleAt(t)
      case Some(key) =>
        HoleSpelled(t, key);
        TokensSpellTheText(t[|key| + 4..]);
        assert Tokens(t) == [Hole(key)] + Tokens(t[|key| + 4..]);
        FlattenCons(Hole(key), Tokens(t[|key| + 4..]));
      case None =>
        TokensSpellTheText(t[1..]);
        assert Tokens(t) == [Ch(t[0])] + Tokens(t[1..]);
        FlattenCons(Ch(t[0]), Tokens(t[1..]));
        assert t == [t[0]] + t[1..];
    }
  }

  lemma {:induction false} MapFillIsSubstitution(t: string, m: map<string, string>)
    ensures Flatten(FillFromMap(Tokens(t), m)) == Substitute(t, m)
    decreases |t|
  {
    if t == "" {
    } else {
      match HoleAt(t)
      case Some(key) =>
        var rest := t[|key| + 4..];
        MapFillIsSubstitution(rest, m);
        var head := if key in m then Chars(m[key]) else [Hole(key)];
        FlattenSplits(head, FillFromMap(Tokens(rest), m));
        if key in m {
          FlattenChars(m[key]);
        }
      case None =>
        MapFillIsSubstitution(t[1..], m);
        FlattenSplits([Ch(t[0])], FillFromMap(Tokens(t[1..]), m));
    }
  }

  // ---- Restoring the braces ----

  ghost predicate RestoresTo(hidden: string, text: string) {
    forall rest :: Replace(hidden + rest, SENTINEL, "{{") == text + Replace(rest, SENTINEL, "{{")
  }

  lemma NulFreeRestores(text: string)
    requires NUL !in text
    ensures RestoresTo(text, text)
  {
    forall rest ensures Replace(text + rest, SENTINEL, "{{") == text + Replace(rest, SENTINEL, "{{") {
      ReplaceCopies(text, rest, SENTINEL, "{{");
    }
  }

  lemma SentinelRestores()
    ensures RestoresTo(SENTINEL, "{{")
  {
    forall rest ensures Replace(SENTINEL + rest, SENTINEL, "{{") == "{{" + Replace(rest, SENTINEL, "{{") {
      ReplaceMatches(rest, SENTINEL, "{{");
    }
  }

  lemma RestoreInTurn(a: string, x: string, b: string, y: string)
    requires RestoresTo(a, x) && RestoresTo(b, y)
    ensures RestoresTo(a + b, x + y)
  {
    forall rest ensures Replace(a + b + rest, SENTINEL, "{{") == x + y + Replace(rest, SENTINEL, "{{") {
      RestoreBoth(a, x, b, y, rest);
    }
  }

  lemma RestoresAt(hidden: string, text: string, rest: string)
    requires RestoresTo(hidden, text)
    ensures Replace(hidden + rest, SENTINEL, "{{") == text + Replace(rest, SENTINEL, "{{")
  {
  }

  lemma RestoreBoth(a: string, x: string, b: string, y: string, rest: string)
    requires RestoresTo(a, x) && RestoresTo(b, y)
    ensures Replace(a + b + rest, SENTINEL, "{{") == x + y + Replace(rest, SENTINEL, "{{")
  {
    RestoresAt(b, y, rest);
    RestoresAt(a, x, b + rest);
    ReplacedInTurn(a, x, b, y, rest, SENTINEL, "{{");
  }

  lemma ReplacedInTurn(a: string, x: string, b: string, y: string, rest: string, pat: string, rep: string)
    requires pat != "" && Replace(a + (b + rest), pat, rep) == x + Replace(b + rest, pat, rep)
    requires Replace(b + rest, pat, rep) == y + Replace(rest, pat, rep)
    ensures Replace(a + b + rest, pat, rep) == x + y + Replace(rest, pat, rep)
  {
    assert a + b + rest == a + (b + rest);
  }

  lemma {:induction false} HiddenBracesRestore(text: string)
    requires NUL !in text
    ensures RestoresTo(Replace(text, "{{", SENTINEL), text)
    decreases |text|
  {
    if text == "" {
      NulFreeRestores("");
    } else {
      var n := if "{{" <= text then 2 else 1;
      var head := if n == 2 then SENTINEL else [text[0]];
      var hidden := Replace(text[n..], "{{", SENTINEL);
      HiddenBracesRestore(text[n..]);
      assert text == text[..n] + text[n..];
      if n == 2 {
        SentinelRestores();
      } else {
        NulFreeRestores(head);
      }
      assert text[..n] == if n == 2 then "{{" else [text[0]];
      RestoreInTurn(head, text[..n], hidden, text[n..]);
    }
  }

  lemma {:induction false} HidingLeavesNoDoubleBrace(text: string)
    ensures NoDoubleBrace(Replace(text, "{{", SENTINEL))
    ensures var r := Replace(text, "{{", SENTINEL);
            r != "" && r[0] == '{' ==> text != "" && text[0] == '{'
    decreases |text|
  {
    if text == "" {
    } else {
      var n := if "{{" <= text then 2 else 1;
      HidingLeavesNoDoubleBrace(text[n..]);
      assert forall i | 0 <= i < |SENTINEL| :: SENTINEL[i] != '{';
      assert text[0] == '{' && n == 1 && text[1..] != "" ==> text[1] != '{';
    }
  }

  // What a binding must satisfy: a brace-free key and, for a string, a value without NUL.
  ghost predicate Acceptable(b: Binding) {
    BraceFree(b.key) && (IsString(b.key) ==> NUL !in b.arg.text)
  }

  lemma SanitizedRestores(b: Binding)
    requires Acceptable(b) && Rendered(b).Some?
    ensures Sanitized(b).Some? && Fits(b.key, Sanitized(b).value)
    ensures RestoresTo(Sanitized(b).value, Rendered(b).value)
  {
    var text := Rendered(b).value;
    if IsString(b.key) {
      EscapeIsPerChar(b.arg.text);
      EscapeAddsNo(b.arg.text, NUL, PASSES);
      HiddenBracesRestore(text);
      HidingLeavesNoDoubleBrace(text);
    } else {
      assert NUL !in text && '{' !in text;
      NulFreeRestores(text);
    }
  }

  lemma {:induction false} MapsCorrespond(bindings: seq<Binding>)
    requires forall b | b in bindings :: Acceptable(b) && Rendered(b).Some?
    ensures SanitizedMap(bindings).Keys == RenderedMap(bindings).Keys
    ensures forall k | k in RenderedMap(bindings) :: RestoresTo(SanitizedMap(bindings)[k], RenderedMap(bindings)[k])
  {
    if bindings == [] {
    } else {
      SanitizedRestores(bindings[0]);
      MapsCorrespond(bindings[1..]);
    }
  }

  lemma {:induction false} RestoreSubstitution(t: string, hidden: map<string, string>, values: map<string, string>)
    requires NUL !in t && hidden.Keys == values.Keys
    requires forall k | k in values :: RestoresTo(hidden[k], values[k])
    ensures Replace(Substitute(t, hidden), SENTINEL, "{{") == Substitute(t, values)
    decreases |t|
  {
    if t == "" {
    } else {
      match HoleAt(t)
      case Some(key) =>
        var rest := t[|key| + 4..];
        assert t == Placeholder(key) + rest;
        RestoreSubstitution(rest, hidden, values);
        if key !in values {
          ReplaceCopies(Placeholder(key), Substitute(rest, hidden), SENTINEL, "{{");
        }
      case None =>
        RestoreSubstitution(t[1..], hidden, values);
        ReplaceCopies([t[0]], Substitute(t[1..], hidden), SENTINEL, "{{");
    }
  }

  // ---- Main results ----

  lemma {:induction false} FailsIffSomeValueFails(t: string, bindings: seq<Binding>)
    ensures FillAll(t, bindings) == None <==> exists b :: b in bindings && Rendered(b) == None
    decreases |bindings|
  {
    if bindings == [] {
    } else {
      var b := bindings[0];
      assert bindings == [b] + bindings[1..];
      if Sanitized(b).Some? {
        FailsIffSomeValueFails(Replace(t, Placeholder(b.key), Sanitized(b).value), bindings[1..]);
      } else {
        assert b in bindings;
      }
    }
  }

  // Replacing one placeholder after another is one simultaneous substitution of the
  // rendered values, with every "{{" of a value back in place.
  lemma {:induction false} LoadIsSimultaneous(t: string, bindings: seq<Binding>)
    requires WellSeparated(Tokens(t)) && NUL !in t
    requires DistinctKeys(bindings) && forall b | b in bindings :: Acceptable(b)
    ensures Load(t, bindings) ==
            if exists b :: b in bindings && Rendered(b) == None then None
            else Some(Substitute(t, RenderedMap(bindings)))
  {
    FailsIffSomeValueFails(t, bindings);
    if forall b | b in bindings :: Rendered(b).Some? {
      forall b | b in bindings ensures Sanitized(b).Some? && Fits(b.key, Sanitized(b).value) {
        SanitizedRestores(b);
      }
      TokensSpellTheText(t);
      FillAllIsFillEach(Tokens(t), bindings);
      FillEachIsFromMap(Tokens(t), bindings);
      MapFillIsSubstitution(t, SanitizedMap(bindings));
      MapsCorrespond(bindings);
      RestoreSubstitution(t, SanitizedMap(bindings), RenderedMap(bindings));
    }
  }

  lemma KeyOccursOnce(bindings: seq<Binding>, b: Binding)
    requires DistinctKeys(bindings) && b in bindings && b != bindings[0]
    ensures bindings[0].key != b.key
  {
    var i :| 0 <= i < |bindings| && bindings[i] == b;
  }

  lemma {:induction false} RenderedMapByKey(bindings: seq<Binding>, b: Binding)
    requires DistinctKeys(bindings) && b in bindings && Rendered(b).Some?
    ensures b.key in RenderedMap(bindings) && RenderedMap(bindings)[b.key] == Rendered(b).value
  {
    if b != bindings[0] {
      RenderedMapByKey(bindings[1..], b);
      KeyOccursOnce(bindings, b);
    } else {
      assert forall c | c in bindings[1..] :: c.key != b.key;
    }
  }

  lemma SameMapInAnyOrder(a: seq<Binding>, b: seq<Binding>)
    requires DistinctKeys(a) && DistinctKeys(b) && (forall x :: x in a <==> x in b)
    requires forall x | x in a :: Rendered(x).Some?
    ensures RenderedMap(a) == RenderedMap(b)
  {
    var m, n := RenderedMap(a), RenderedMap(b);
    forall k | k in m ensures k in n && m[k] == n[k] {
      var x :| x in a && x.key == k;
      RenderedMapByKey(a, x);
      RenderedMapByKey(b, x);
    }
    forall k | k in n ensures k in m {
      var x :| x in b && x.key == k;
      RenderedMapByKey(a, x);
    }
  }

  // The order of the keyword arguments does not matter.
  lemma {:induction false} OrderDoesNotMatter(t: string, a: seq<Binding>, b: seq<Binding>)
    requires WellSeparated(Tokens(t)) && NUL !in t
    requires DistinctKeys(a) && DistinctKeys(b) && multiset(a) == multiset(b)
    requires forall x | x in a :: Acceptable(x)
    ensures Load(t, a) == Load(t, b)
  {
    forall x ensures x in a <==> x in b {
      assert x in a <==> x in multiset(a);
      assert x in b <==> x in multiset(b);
    }
    LoadIsSimultaneous(t, a);
    LoadIsSimultaneous(t, b);
    if forall x | x in a :: Rendered(x).Some? {
      SameMapInAnyOrder(a, b);
    }
  }

  lemma {:induction false} KeyLengthSplits(a: string, rest: string)
    requires rest != "" && rest[0] == '{'
    ensures KeyLength(a + rest) == KeyLength(a)
  {
    if a == "" {
      assert a + rest == rest;
    } else {
      assert (a + rest)[0] == a[0] && (a + rest)[1..] == a[1..] + rest;
      KeyLengthSplits(a[1..], rest);
    }
  }

  lemma HoleAtIgnoresNextHole(pre: string, rest: string)
    requires pre != "" && "{{" <= rest
    ensures HoleAt(pre + rest) == HoleAt(pre)
  {
    if |pre| >= 2 {
      var body := pre[2..];
      assert (pre + rest)[2..] == body + rest;
      KeyLengthSplits(body, rest);
      var n := KeyLength(body);
      assert (body + rest)[n..] == body[n..] + rest;
      assert (body + rest)[..n] == body[..n];
      assert "{{" <= pre + rest <==> "{{" <= pre;
      if |body| < n + 2 {
        assert (body[n..] + rest)[|body| - n] == '{';
      }
    } else {
      assert (pre + rest)[2..][0] == '{';
    }
  }

  lemma SubstituteAtHole(key: string, rest: string, m: map<string, string>)
    requires BraceFree(key)
    ensures Substitute(Placeholder(key) + rest, m)
         == (if key in m then m[key] else Placeholder(key)) + Substitute(rest, m)
  {
    var tail := Placeholder(key) + rest;
    assert tail[2..] == key + ("}}" + rest);
    KeyLengthOf(key, "}}" + rest);
    assert tail[2..][|key|..] == "}}" + rest && tail[2..][..|key|] == key;
    assert HoleAt(tail) == Some(key) && tail[|key| + 4..] == rest;
  }

  function StepLength(s: string): nat {
    match HoleAt(s) case Some(k) => |k| + 4 case None => 1
  }

  function StepText(s: string, m: map<string, string>): string
    requires s != ""
  {
    match HoleAt(s)
    case Some(k) => if k in m then m[k] else Placeholder(k)
    case None => [s[0]]
  }

  lemma SubstituteStep(pre: string, rest: string, m: map<string, string>)
    requires pre != "" && "{{" <= rest
    ensures 0 < StepLength(pre) <= |pre|
    ensures Substitute(pre, m) == StepText(pre, m) + Substitute(pre[StepLength(pre)..], m)
    ensures Substitute(pre + rest, m) == StepText(pre, m) + Substitute(pre[StepLength(pre)..] + rest, m)
  {
    HoleAtIgnoresNextHole(pre, rest);
    assert (pre + rest)[StepLength(pre)..] == pre[StepLength(pre)..] + rest;
  }

  lemma {:induction false} SubstituteSplits(pre: string, tail: string, m: map<string, string>)
    requires "{{" <= tail
    ensures Substitute(pre + tail, m) == Substitute(pre, m) + Substitute(tail, m)
    decreases |pre|
  {
    if pre == "" {
      assert pre + tail == tail;
    } else {
      var pre' := pre[StepLength(pre)..];
      SubstituteStep(pre, tail, m);
      SubstituteSplits(pre', tail, m);
      StepBoth(Substitute(pre + tail, m), Substitute(pre, m), StepText(pre, m),
               Substitute(pre' + tail, m), Substitute(pre', m), Substitute(tail, m));
    }
  }

  lemma StepBoth(whole: string, part: string, step: string, whole': string, part': string, tail: string)
    requires whole == step + whole' && part == step + part' && whole' == part' + tail
    ensures whole == part + tail
  {
  }

  lemma SubstituteSplitsAtHole(pre: string, key: string, rest: string, m: map<string, string>)
    requires BraceFree(key)
    ensures Substitute(pre + (Placeholder(key) + rest), m)
         == Substitute(pre, m) + ((if key in m then m[key] else Placeholder(key)) + Substitute(rest, m))
  {
    SubstituteAtHole(key, rest, m);
    SubstituteSplits(pre, Placeholder(key) + rest, m);
  }

  lemma SubstituteChar(c: char, rest: string, m: map<string, string>)
    requires c != '{'
    ensures Substitute([c] + rest, m) == [c] + Substitute(rest, m)
  {
    assert ([c] + rest)[1..] == rest && ([c] + rest)[0] != "{{"[0];
    assert HoleAt([c] + rest) == None;
  }

  lemma SubstituteAtQuoted(pre: string, key: string, post: string, t: string, m: map<string, string>)
    requires BraceFree(key) && key in m && t == pre + (Placeholder(key) + ("\"" + post))
    ensures Substitute(t, m) == Substitute(pre, m) + (m[key] + ("\"" + Substitute(post, m)))
  {
    SubstituteSplitsAtHole(pre, key, "\"" + post, m);
    SubstituteChar('\"', post, m);
  }

  // A string placeholder written between quotes becomes a literal that reads back as
  // exactly the caller's value, and the query goes on unchanged after it.
  lemma {:induction false} QuotedPlaceholderReadsBack(pre: string, post: string, bindings: seq<Binding>, b: Binding, t: string)
    requires t == pre + (Placeholder(b.key) + ("\"" + post))
    requires WellSeparated(Tokens(t)) && NUL !in t
    requires DistinctKeys(bindings) && forall x | x in bindings :: Acceptable(x) && Rendered(x).Some?
    requires b in bindings && IsString(b.key)
    ensures var values := RenderedMap(bindings);
            && Load(t, bindings).Some? && Substitute(pre, values) <= Load(t, bindings).value
            && ReadLiteral(Load(t, bindings).value[|Substitute(pre, values)|..])
               == Some((b.arg.text, Substitute(post, values)))
  {
    var values := RenderedMap(bindings);
    var before, after := Substitute(pre, values), Substitute(post, values);
    LoadIsSimultaneous(t, bindings);
    RenderedMapByKey(bindings, b);
    SubstituteAtQuoted(pre, b.key, post, t, values);
    LiteralAfter(before, b.arg.text, after);
  }

  lemma LiteralAfter(before: string, text: string, after: string)
    ensures var whole := before + (EscapeScalaString(text) + ("\"" + after));
            before <= whole && ReadLiteral(whole[|before|..]) == Some((text, after))
  {
    var literal := EscapeScalaString(text) + ("\"" + after);
    assert (before + literal)[|before|..] == literal;
    LiteralReadsBack(text, after);
    assert EscapeScalaString(text) + "\"" + after == literal;
  }
}
