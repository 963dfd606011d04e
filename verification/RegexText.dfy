/** The regular expressions the scoping compiler emits: their full-match meaning in
    java.util.regex, and a parser for their text. */
module RegexText {
  import opened Basics

  datatype Regex =
    | Eps
    | Chr(c: char)
    | Any                          // .   any character but a line terminator
    | NotChr(c: char)              // [^c]
    | Cat(first: Regex, second: Regex)
    | Or(left: Regex, right: Regex)
    | Star(body: Regex)
    | Opt(body: Regex)
    | Look(body: Regex)            // (?= )
    | NotLook(body: Regex)         // (?! )
    | End                          // $   the end, or just before a final line terminator

  predicate IsBreak(c: char) {
    c == '\n' || c == '\r' || c == '\U{0085}' || c == '\U{2028}' || c == '\U{2029}'
  }

  predicate NoBreak(s: string) {
    forall c | c in s :: !IsBreak(c)
  }

  predicate AtEnd(s: string, i: nat) {
    || i == |s|
    || (i == |s| - 1 && IsBreak(s[i]) && !(s[i] == '\n' && i > 0 && s[i - 1] == '\r'))
    || (i == |s| - 2 && s[i] == '\r' && s[i + 1] == '\n')
  }

  predicate Between(i: nat, k: nat, j: nat) {
    i <= k <= j
  }

  // r matches s from position i up to position j.
  ghost predicate Matches(r: Regex, s: string, i: nat, j: nat)
    requires i <= j <= |s|
    decreases r, j - i
  {
    match r
    case Eps => i == j
    case Chr(c) => j == i + 1 && s[i] == c
    case Any => j == i + 1 && !IsBreak(s[i])
    case NotChr(c) => j == i + 1 && s[i] != c
    case Cat(a, b) => exists k: nat {:trigger Between(i, k, j)} ::
                         Between(i, k, j) && Matches(a, s, i, k) && Matches(b, s, k, j)
    case Or(a, b) => Matches(a, s, i, j) || Matches(b, s, i, j)
    case Star(b) => i == j || exists k: nat {:trigger Between(i, k, j)} ::
                                Between(i, k, j) && i < k && Matches(b, s, i, k) && Matches(r, s, k, j)
    case Opt(b) => i == j || Matches(b, s, i, j)
    case Look(b) => i == j && exists k: nat {:trigger Between(i, k, |s|)} :: Between(i, k, |s|) && Matches(b, s, i, k)
    case NotLook(b) => i == j && !exists k: nat {:trigger Between(i, k, |s|)} :: Between(i, k, |s|) && Matches(b, s, i, k)
    case End => i == j && AtEnd(s, i)
  }

  // String.matches: the whole input.
  ghost predicate FullMatch(r: Regex, s: string) {
    Matches(r, s, 0, |s|)
  }

  lemma CatIntro(a: Regex, b: Regex, s: string, i: nat, k: nat, j: nat)
    requires i <= k <= j <= |s| && Matches(a, s, i, k) && Matches(b, s, k, j)
    ensures Matches(Cat(a, b), s, i, j)
  {
    assert Between(i, k, j);
  }

  lemma CatCut(a: Regex, b: Regex, s: string, i: nat, j: nat) returns (k: nat)
    requires i <= j <= |s| && Matches(Cat(a, b), s, i, j)
    ensures i <= k <= j && Matches(a, s, i, k) && Matches(b, s, k, j)
  {
    k :| Between(i, k, j) && Matches(a, s, i, k) && Matches(b, s, k, j);
  }

  // ---- Parsing ----

  datatype Parsed = Fail | Got(r: Regex, rest: string)

  predicate Starts(s: string, c: char) {
    s != "" && s[0] == c
  }

  // A concatenation ends at the end of the text, a bar or a closing parenthesis.
  predicate Stops(s: string) {
    s == "" || s[0] == '|' || s[0] == ')'
  }

  predicate Quantifies(s: string) {
    s != "" && (s[0] == '*' || s[0] == '?' || s[0] == '+' || s[0] == '{')
  }

  predicate Alphanumeric(c: char) {
    'a' <= c <= 'z' || 'A' <= c <= 'Z' || '0' <= c <= '9'
  }

  predicate ReservedInClass(c: char) {
    c == '\\' || c == '[' || c == ']' || c == '&' || c == '^' || c == '-'
  }

  predicate Reserved(c: char) {
    c == '(' || c == ')' || c == '[' || c == '{' || c == '*' || c == '+' || c == '?' || c == '|'
    || c == '^' || c == '$' || c == '.' || c == '\\'
  }

  function ParseAlt(s: string): (p: Parsed)
    ensures p.Got? ==> |p.rest| <= |s|
    decreases |s|, 3
  {
    match ParseCat(s)
    case Fail => Fail
    case Got(r, rest) =>
      if !Starts(rest, '|') then Got(r, rest)
      else match ParseAlt(rest[1..])
        case Fail => Fail
        case Got(r', rest') => Got(Or(r, r'), rest')
  }

  function ParseCat(s: string): (p: Parsed)
    ensures p.Got? ==> |p.rest| <= |s| && Stops(p.rest)
    decreases |s|, 2
  {
    if Stops(s) then Got(Eps, s)
    else match ParseRep(s)
      case Fail => Fail
      case Got(r, rest) =>
        match ParseCat(rest)
        case Fail => Fail
        case Got(r', rest') => Got(Cat(r, r'), rest')
  }

  // An atom and at most one quantifier: * or ?.
  function ParseRep(s: string): (p: Parsed)
    ensures p.Got? ==> |p.rest| < |s|
    decreases |s|, 1
  {
    match ParseAtom(s)
    case Fail => Fail
    case Got(r, rest) => Quantified(r, rest)
  }

  function Quantified(r: Regex, rest: string): (p: Parsed)
    ensures p.Got? ==> |p.rest| <= |rest|
  {
    if !Quantifies(rest) then Got(r, rest)
    else if Quantifies(rest[1..]) then Fail
    else if rest[0] == '*' then Got(Star(r), rest[1..])
    else if rest[0] == '?' then Got(Opt(r), rest[1..])
    else Fail
  }

  function ParseAtom(s: string): (p: Parsed)
    ensures p.Got? ==> |p.rest| < |s|
    decreases |s|, 0
  {
    if s == "" then Fail
    else if s[0] == '(' then
      if |s| < 3 || s[1] != '?' then Fail
      else
        match ParseAlt(s[3..])
        case Fail => Fail
        case Got(r, rest) =>
          if !Starts(rest, ')') then Fail
          else if s[2] == ':' then Got(r, rest[1..])
          else if s[2] == '=' then Got(Look(r), rest[1..])
          else if s[2] == '!' then Got(NotLook(r), rest[1..])
          else Fail
    else if s[0] == '[' then
      if |s| >= 4 && s[1] == '^' && !ReservedInClass(s[2]) && s[3] == ']' then Got(NotChr(s[2]), s[4..]) else Fail
    else if s[0] == '\\' then
      if |s| >= 2 && !Alphanumeric(s[1]) then Got(Chr(s[1]), s[2..]) else Fail
    else if s[0] == '.' then Got(Any, s[1..])
    else if s[0] == '$' then Got(End, s[1..])
    else if Reserved(s[0]) then Fail
    else Got(Chr(s[0]), s[1..])
  }

  function Parse(s: string): Option<Regex> {
    match ParseAlt(s)
    case Fail => None
    case Got(r, rest) => if rest == "" then Some(r) else None
  }

  // ---- Parsing is local: text after a closing parenthesis does not change it ----

  lemma {:induction false} AtomIsLocal(s: string, t: string)
    requires ParseAtom(s).Got? && Stops(t)
    ensures ParseAtom(s + t) == Got(ParseAtom(s).r, ParseAtom(s).rest + t)
    decreases |s|, 0
  {
    if s[0] == '(' {
      AltIsLocalBeforeParen(s[3..], t);
      GroupIsLocal(s, t);
    } else {
      PlainAtomIsLocal(s, t);
    }
  }

  lemma GroupIsLocal(s: string, t: string)
    requires |s| >= 3 && s[0] == '(' && ParseAtom(s).Got?
    requires ParseAlt(s[3..]).Got? && ParseAlt(s[3..] + t) == Got(ParseAlt(s[3..]).r, ParseAlt(s[3..]).rest + t)
    ensures ParseAtom(s + t) == Got(ParseAtom(s).r, ParseAtom(s).rest + t)
  {
    var rest := ParseAlt(s[3..]).rest;
    assert (s + t)[3..] == s[3..] + t;
    assert (rest + t)[1..] == rest[1..] + t;
  }

  lemma PlainAtomIsLocal(s: string, t: string)
    requires s != "" && s[0] != '(' && ParseAtom(s).Got?
    ensures ParseAtom(s + t) == Got(ParseAtom(s).r, ParseAtom(s).rest + t)
  {
    assert (s + t)[1..] == s[1..] + t;
    if s[0] == '[' {
      assert (s + t)[4..] == s[4..] + t;
    } else if s[0] == '\\' {
      assert (s + t)[2..] == s[2..] + t;
    }
  }

  lemma {:induction false} RepIsLocal(s: string, t: string)
    requires ParseRep(s).Got? && Stops(t)
    ensures ParseRep(s + t) == Got(ParseRep(s).r, ParseRep(s).rest + t)
    decreases |s|, 1
  {
    AtomIsLocal(s, t);
    var rest := ParseAtom(s).rest;
    if rest != "" {
      assert (rest + t)[1..] == rest[1..] + t;
    } else {
      assert rest + t == t;
    }
  }

  lemma {:induction false} CatIsLocal(s: string, t: string)
    requires ParseCat(s).Got? && Stops(t)
    ensures ParseCat(s + t) == Got(ParseCat(s).r, ParseCat(s).rest + t)
    decreases |s|, 2
  {
    if s == "" {
      assert s + t == t;
    } else if !Stops(s) {
      RepIsLocal(s, t);
      CatIsLocal(ParseRep(s).rest, t);
    }
  }

  // Where the alternation itself stopped at a parenthesis, anything may follow.
  lemma {:induction false} AltIsLocalBeforeParen(s: string, t: string)
    requires ParseAlt(s).Got? && Stops(t) && (Starts(ParseAlt(s).rest, ')') || !Starts(t, '|'))
    ensures ParseAlt(s + t) == Got(ParseAlt(s).r, ParseAlt(s).rest + t)
    decreases |s|, 3
  {
    CatIsLocal(s, t);
    var rest := ParseCat(s).rest;
    if Starts(rest, '|') {
      assert (rest + t)[1..] == rest[1..] + t;
      AltIsLocalBeforeParen(rest[1..], t);
    } else if rest == "" {
      assert rest + t == t;
    }
  }
}
