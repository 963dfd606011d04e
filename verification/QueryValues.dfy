/** What the placeholders of src/tools/queries/__init__.py that are no strings are filled with:
    numbers within their ceilings, and the two Scala booleans. */
module QueryValues {
  import opened Basics
  import opened Strings
  import opened QueryLoaders

  // ---- Decimal numerals ----

  predicate Digits(s: string) {
    s != "" && forall c | c in s :: '0' <= c <= '9'
  }

  function Value(s: string): int {
    if s == "" then 0 else 10 * Value(s[..|s| - 1]) + (s[|s| - 1] as int - '0' as int)
  }

  // The numeral of n: digits without a leading zero, after a minus sign if n is negative.
  predicate Spells(s: string, n: int) {
    if n < 0 then s != "" && s[0] == '-' && Numeral(s[1..], -n) else Numeral(s, n)
  }

  predicate Numeral(s: string, n: int) {
    Digits(s) && Value(s) == n && (s[0] == '0' ==> |s| == 1)
  }

  lemma {:induction false} DecimalSpells(n: int)
    ensures Spells(Decimal(n), n)
    decreases n < 0, if n < 0 then -n else n
  {
    if n < 0 {
      DecimalSpells(-n);
      MinusSpells(n);
    } else if n < 10 {
      OneDigit(n);
    } else {
      DecimalSpells(n / 10);
      LastDigitSpells(n);
    }
  }

  lemma MinusSpells(n: int)
    requires n < 0 && Numeral(Decimal(-n), -n)
    ensures Spells(Decimal(n), n)
  {
    assert Decimal(n) == "-" + Decimal(-n) && ("-" + Decimal(-n))[1..] == Decimal(-n);
  }

  lemma LastDigitSpells(n: int)
    requires n >= 10 && Numeral(Decimal(n / 10), n / 10)
    ensures Numeral(Decimal(n), n)
  {
    OneDigit(n % 10);
    OneMoreDigit(Decimal(n / 10), "0123456789"[n % 10], n / 10);
    assert Decimal(n) == Decimal(n / 10) + ["0123456789"[n % 10]];
  }

  lemma OneDigit(n: nat)
    requires n < 10
    ensures '0' <= "0123456789"[n] <= '9' && "0123456789"[n] as int - '0' as int == n
    ensures Numeral(["0123456789"[n]], n)
  {
    var s := ["0123456789"[n]];
    assert s[..0] == "" && Value("") == 0;
    assert Value(s) == 10 * Value(s[..0]) + (s[0] as int - '0' as int);
  }

  lemma OneMoreDigit(s: string, d: char, n: int)
    requires Numeral(s, n) && n > 0 && '0' <= d <= '9'
    ensures Numeral(s + [d], 10 * n + (d as int - '0' as int))
  {
    var t := s + [d];
    assert t[..|t| - 1] == s;
    if |s| == 1 {
      assert s[..0] == "" && Value(s) == 10 * Value(s[..0]) + (s[0] as int - '0' as int);
    }
  }

  // ---- Numbers ----

  // The number of the range from 1 to the ceiling that is nearest to what was asked for; what
  // is no number counts as 1.
  predicate Nearest(v: int, asked: Option<int>, ceiling: int) {
    && 1 <= v <= ceiling
    && match asked
       case None => v == 1
       case Some(n) => (n <= 1 ==> v == 1) && (1 <= n <= ceiling ==> v == n) && (n >= ceiling ==> v == ceiling)
  }

  // Each kind of placeholder, by name: rows at most 10000, depths at most 64, line numbers and
  // node ids any integer or a failure.
  lemma NumbersAreBounded(b: Binding)
    ensures b.key in {"limit", "max_results", "max_nodes"} ==>
              exists v :: Nearest(v, b.arg.asInt, 10000) && Rendered(b) == Some(Decimal(v)) && Spells(Decimal(v), v)
    ensures b.key in {"depth", "max_depth"} ==>
              exists v :: Nearest(v, b.arg.asInt, 64) && Rendered(b) == Some(Decimal(v)) && Spells(Decimal(v), v)
    ensures b.key in {"line_num", "source_line", "sink_line", "source_node_id", "sink_node_id"} ==>
              match b.arg.asInt
              case None => Rendered(b) == None
              case Some(n) => Rendered(b).Some? && Spells(Rendered(b).value, n)
  {
    if b.key in CEILINGS {
      var v := Clamp(b.arg.asInt, CEILINGS[b.key]);
      DecimalSpells(v);
      assert Nearest(v, b.arg.asInt, CEILINGS[b.key]);
    }
    if b.arg.asInt.Some? {
      DecimalSpells(b.arg.asInt.value);
    }
  }

  // ---- Booleans ----

  // Equal but for the case of ASCII letters.
  predicate SameLetters(s: string, word: string) {
    |s| == |word|
    && forall i | 0 <= i < |s| :: s[i] == word[i] || ('A' <= s[i] <= 'Z' && s[i] as int + 32 == word[i] as int)
  }

  // One of the words, in any case, with blanks around it.
  ghost predicate Says(text: string, words: set<string>) {
    exists w :: w in words && SaysWord(text, w)
  }

  ghost predicate SaysWord(text: string, w: string) {
    exists i: nat, j: nat :: Around(text, i, j) && SameLetters(text[i..j], w)
  }

  predicate Around(text: string, i: nat, j: nat) {
    && i <= j <= |text| && (forall c | c in text[..i] :: IsSpace(c)) && (forall c | c in text[j..] :: IsSpace(c))
  }

  lemma LowerIsSameLetters(s: string, word: string)
    requires forall c | c in word :: !('A' <= c <= 'Z')
    ensures Lower(s) == word <==> SameLetters(s, word)
  {
    if SameLetters(s, word) {
      forall i | 0 <= i < |s| ensures Lower(s)[i] == word[i] {
        assert word[i] in word;
      }
    }
    if Lower(s) == word {
      forall i | 0 <= i < |s| ensures s[i] == word[i] || ('A' <= s[i] <= 'Z' && s[i] as int + 32 == word[i] as int) {
        assert Lower(s)[i] == word[i];
      }
    }
  }

  lemma StripIsAround(text: string) returns (i: nat, j: nat)
    ensures Around(text, i, j) && Strip(text) == text[i..j]
  {
    var l := LStrip(text, Blank);
    i := |text| - |l|;
    j := i + |Strip(text)|;
    forall c | c in text[..i] ensures IsSpace(c) {
      var k :| 0 <= k < i && text[..i][k] == c;
      assert Blank(text[k]);
    }
    forall c | c in text[j..] ensures IsSpace(c) {
      var k :| 0 <= k < |text| - j && text[j..][k] == c;
      assert Blank(l[k + j - i]);
    }
  }

  predicate Plain(w: string) {
    w != "" && forall c | c in w :: ('a' <= c <= 'z' || '0' <= c <= '9')
  }

  lemma SaidIsStripped(text: string, i: nat, j: nat, w: string)
    requires Around(text, i, j) && SameLetters(text[i..j], w) && Plain(w)
    ensures Strip(text) == text[i..j]
  {
    var s := text[i..j];
    assert w[0] in w && w[|w| - 1] in w;
    assert text == text[..i] + (s + text[j..]);
    StripTakes(text[..i], s, text[j..]);
  }

  lemma StripLowerSays(text: string, w: string)
    requires Plain(w)
    ensures Lower(Strip(text)) == w <==> SaysWord(text, w)
  {
    var i, j := StripIsAround(text);
    LowerIsSameLetters(Strip(text), w);
    if i: nat, j: nat :| Around(text, i, j) && SameLetters(text[i..j], w) {
      SaidIsStripped(text, i, j, w);
    }
  }

  lemma StripLowerSaysOne(text: string, words: set<string>)
    requires forall w | w in words :: Plain(w)
    ensures Lower(Strip(text)) in words <==> Says(text, words)
  {
    forall w | w in words ensures Lower(Strip(text)) == w <==> SaysWord(text, w) {
      StripLowerSays(text, w);
    }
  }

  const TRUE_WORDS := {"true", "1", "yes"}
  const FALSE_WORDS := {"false", "0", "no"}

  lemma WordsArePlain()
    ensures forall w | w in TRUE_WORDS :: Plain(w)
    ensures forall w | w in FALSE_WORDS :: Plain(w)
  {
  }

  lemma CoercedByWord(arg: Arg)
    requires arg.asBool == None
    ensures CoerceBool(arg) == Some("true") <==> Lower(Strip(arg.text)) in TRUE_WORDS
    ensures CoerceBool(arg) == Some("false") <==> Lower(Strip(arg.text)) in FALSE_WORDS
    ensures CoerceBool(arg) == None <==> Lower(Strip(arg.text)) !in TRUE_WORDS && Lower(Strip(arg.text)) !in FALSE_WORDS
  {
    var s := Lower(Strip(arg.text));
    if s in TRUE_WORDS {
      TrueWord(s);
    }
    if s in FALSE_WORDS {
      FalseWord(s);
    }
    CoercedCases(arg, s);
  }

  lemma TrueWord(s: string)
    requires s in TRUE_WORDS
    ensures |s| == 4 || |s| == 3 || (|s| == 1 && s[0] == '1')
  {
  }

  lemma FalseWord(s: string)
    requires s in FALSE_WORDS
    ensures |s| == 5 || |s| == 2 || (|s| == 1 && s[0] == '0')
  {
  }

  lemma CoercedCases(arg: Arg, s: string)
    requires arg.asBool == None && s == Lower(Strip(arg.text))
    ensures s in TRUE_WORDS ==> CoerceBool(arg) == Some("true")
    ensures s !in TRUE_WORDS && s in FALSE_WORDS ==> CoerceBool(arg) == Some("false")
    ensures s !in TRUE_WORDS && s !in FALSE_WORDS ==> CoerceBool(arg) == None
  {
  }

  lemma BooleanByKey(b: Binding)
    requires b.key in {"include_backward", "include_forward", "include_control_flow"}
    ensures Rendered(b) == CoerceBool(b.arg)
  {
    assert b.key[0] == 'i';
    if b.key in CEILINGS || b.key in INT_PLACEHOLDERS {
      NumberKeys(b.key);
    }
  }

  lemma NumberKeys(key: string)
    requires key in CEILINGS || key in INT_PLACEHOLDERS
    ensures key[0] == 'l' || key[0] == 'm' || key[0] == 'd' || key[0] == 's'
  {
  }

  // The Scala booleans: a Python bool by its value, any text by the word it says, and a failure
  // when it says none of them.
  lemma BooleansAreRead(b: Binding)
    requires b.key in {"include_backward", "include_forward", "include_control_flow"}
    ensures b.arg.asBool.Some? ==> Rendered(b) == Some(if b.arg.asBool.value then "true" else "false")
    ensures b.arg.asBool == None ==>
              && (Rendered(b) == Some("true") <==> Says(b.arg.text, TRUE_WORDS))
              && (Rendered(b) == Some("false") <==> Says(b.arg.text, FALSE_WORDS))
              && (Rendered(b) == None <==> !Says(b.arg.text, TRUE_WORDS) && !Says(b.arg.text, FALSE_WORDS))
  {
    BooleanByKey(b);
    if b.arg.asBool == None {
      CoercedByWord(b.arg);
      WordsArePlain();
      StripLowerSaysOne(b.arg.text, TRUE_WORDS);
      StripLowerSaysOne(b.arg.text, FALSE_WORDS);
    }
  }

  // Every other placeholder is a string.
  lemma OthersAreStrings(key: string)
    ensures IsString(key) <==>
            key !in {"limit", "max_results", "max_nodes", "depth", "max_depth",
                     "line_num", "source_line", "sink_line", "source_node_id", "sink_node_id",
                     "include_backward", "include_forward", "include_control_flow"}
  {
  }
}
