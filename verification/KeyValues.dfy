/**
 * The KeyValues reader of gamemode files: a tokenizer over quoted strings,
 * bare words, braces and comments, and the search for the root block's `base`.
 */
module KeyValues {
  import opened Options

  datatype Token = Word(text: string) | Open | Close

  // ---- What the next token is ----

  /** ASCII whitespace, which leaves out the vertical tab. */
  predicate Space(c: char) {
    c == ' ' || c == '\t' || c == '\n' || c == '\r' || c as int == 12
  }

  predicate Comment(s: string) {
    |s| >= 2 && s[0] == '/' && s[1] == '/'
  }

  /** How far the first line of `s` goes. */
  function LineEnd(s: string): (n: nat)
    ensures n <= |s| && (n < |s| ==> s[n] == '\n') && forall i | 0 <= i < n :: s[i] != '\n'
  {
    if s == [] || s[0] == '\n' then 0 else 1 + LineEnd(s[1..])
  }

  /** `s` from its first character that is neither space nor comment. */
  function Skip(s: string): (t: string)
    ensures |t| <= |s| && (t != [] ==> !Space(t[0]) && !Comment(t))
    decreases |s|
  {
    if s == [] then s
    else if Space(s[0]) then Skip(s[1..])
    else if Comment(s) then assert s[0] != '\n'; Skip(s[LineEnd(s)..])
    else s
  }

  /** Where a quoted text ends: at a quote no backslash precedes, or with the input. */
  function QuoteEnd(s: string): (n: nat)
    ensures n <= |s| && (n < |s| ==> s[n] == '"')
    decreases |s|
  {
    if s == [] || s[0] == '"' then 0
    else if s[0] == '\\' && |s| > 1 then 2 + QuoteEnd(s[2..])
    else 1 + QuoteEnd(s[1..])
  }

  predicate EndsWord(c: char) {
    Space(c) || c == '{' || c == '}' || c == '"'
  }

  function WordEnd(s: string): (n: nat)
    ensures n <= |s| && (n < |s| ==> EndsWord(s[n])) && forall i | 0 <= i < n :: !EndsWord(s[i])
  {
    if s == [] || EndsWord(s[0]) then 0 else 1 + WordEnd(s[1..])
  }

  datatype Lexed = End | Next(token: Token, rest: string)

  /** The first token of `s` and what follows it; every token takes something of the input. */
  function Lex(s: string): (l: Lexed)
    ensures l.Next? ==> |l.rest| < |s|
  {
    var t := Skip(s);
    if t == [] then End
    else if t[0] == '{' then Next(Open, t[1..])
    else if t[0] == '}' then Next(Close, t[1..])
    else if t[0] == '"' then
      var n := QuoteEnd(t[1..]);
      Next(Word(t[1..][..n]), t[1..][if n < |t| - 1 then n + 1 else n..])
    else
      var n := WordEnd(t);
      assert n > 0;
      Next(Word(t[..n]), t[n..])
  }

  function Tokens(s: string): seq<Token>
    decreases |s|
  {
    match Lex(s)
    case End => []
    case Next(token, rest) => [token] + Tokens(rest)
  }

  class Tokenizer {
    const text: string
    var pos: nat

    ghost predicate Valid()
      reads this
    {
      pos <= |text|
    }

    constructor (text: string)
      ensures Valid() && this.text == text && pos == 0
    {
      this.text, this.pos := text, 0;
    }

    method SkipWhitespaceAndComments()
      requires Valid()
      modifies this
      ensures Valid() && old(pos) <= pos && text[pos..] == Skip(text[old(pos)..])
    {
      hide Skip;
      ghost var from := Skip(text[pos..]);
      while true
        invariant Valid() && old(pos) <= pos && Skip(text[pos..]) == from
        decreases |text| - pos
      {
        while pos < |text| && Space(text[pos])
          invariant Valid() && old(pos) <= pos && Skip(text[pos..]) == from
        {
          SkipSpace(text, pos);
          pos := pos + 1;
        }
        if pos + 1 < |text| && text[pos] == '/' && text[pos + 1] == '/' {
          SkipComment(text, pos);
          pos := EndOfLine(text, pos);
        } else {
          SkipNothing(text, pos);
          return;
        }
      }
    }

    /** Takes the next token off the input, if there is one; the position only moves forward. */
    method NextToken() returns (token: Option<Token>)
      requires Valid()
      modifies this
      ensures Valid() && old(pos) <= pos
      ensures match Lex(text[old(pos)..])
              case End => token == None && pos == |text|
              case Next(t, rest) => token == Some(t) && text[pos..] == rest && old(pos) < pos
    {
      hide Skip, QuoteEnd, WordEnd, Lex;
      SkipWhitespaceAndComments();
      LexAt(text, old(pos), pos);
      if pos >= |text| {
        return None;
      }
      var c := text[pos];
      if c == '{' {
        pos := pos + 1;
        return Some(Open);
      } else if c == '}' {
        pos := pos + 1;
        return Some(Close);
      } else if c == '"' {
        pos := pos + 1;
        var start := pos;
        pos := EndOfQuote(text, start);
        token := Some(Word(text[start..pos]));
        if pos < |text| {
          pos := pos + 1;
        }
      } else {
        var start := pos;
        pos := EndOfWord(text, start);
        token := Some(Word(text[start..pos]));
      }
    }
  }

  lemma CutAt(text: string, start: nat, at: nat)
    requires start <= at <= |text|
    ensures text[start..at] == text[start..][..at - start] && text[at..] == text[start..][at - start..]
  {
  }

  /** The next token of `text` from `from`, its spaces and comments ending at `pos`. */
  lemma LexAt(text: string, from: nat, pos: nat)
    requires from <= pos <= |text| && text[pos..] == Skip(text[from..])
    ensures pos == |text| ==> Lex(text[from..]) == End
    ensures pos < |text| && text[pos] == '{' ==> Lex(text[from..]) == Next(Open, text[pos + 1..])
    ensures pos < |text| && text[pos] == '}' ==> Lex(text[from..]) == Next(Close, text[pos + 1..])
    ensures pos < |text| && text[pos] == '"' ==>
              var e := pos + 1 + QuoteEnd(text[pos + 1..]);
              Lex(text[from..]) == Next(Word(text[pos + 1..e]), text[if e < |text| then e + 1 else e..])
    ensures pos < |text| && text[pos] != '{' && text[pos] != '}' && text[pos] != '"' ==>
              var e := pos + WordEnd(text[pos..]);
              pos < e && Lex(text[from..]) == Next(Word(text[pos..e]), text[e..])
  {
    hide Skip, QuoteEnd, WordEnd;
    if pos < |text| {
      var t := text[pos..];
      assert t[0] == text[pos] && t[1..] == text[pos + 1..];
      if text[pos] == '"' {
        LexQuote(text, from, pos);
      } else if text[pos] != '{' && text[pos] != '}' {
        LexWord(text, from, pos);
      }
    }
  }

  lemma LexQuote(text: string, from: nat, pos: nat)
    requires from <= pos < |text| && text[pos..] == Skip(text[from..]) && text[pos] == '"'
    ensures var e := pos + 1 + QuoteEnd(text[pos + 1..]);
      Lex(text[from..]) == Next(Word(text[pos + 1..e]), text[if e < |text| then e + 1 else e..])
  {
    hide Skip, QuoteEnd, WordEnd;
    var t, n := text[pos..], QuoteEnd(text[pos + 1..]);
    var e := pos + 1 + n;
    assert t[0] == text[pos] && t[1..] == text[pos + 1..];
    CutAt(text, pos + 1, e);
    CutAt(text, pos + 1, if e < |text| then e + 1 else e);
    assert Lex(text[from..]) == Next(Word(t[1..][..n]), t[1..][if n < |t| - 1 then n + 1 else n..]);
  }

  lemma LexWord(text: string, from: nat, pos: nat)
    requires from <= pos < |text| && text[pos..] == Skip(text[from..]) && text[pos] != '{' && text[pos] != '}'
      && text[pos] != '"'
    ensures var e := pos + WordEnd(text[pos..]);
      pos < e && Lex(text[from..]) == Next(Word(text[pos..e]), text[e..])
  {
    var t := text[pos..];
    assert t[0] == text[pos] && !Space(t[0]);
    hide Skip, QuoteEnd, WordEnd;
    WordStarts(t);
    CutAt(text, pos, pos + WordEnd(t));
  }

  lemma WordStarts(t: string)
    requires t != [] && !EndsWord(t[0])
    ensures WordEnd(t) > 0
  {
  }

  lemma SkipSpace(text: string, pos: nat)
    requires pos < |text| && Space(text[pos])
    ensures Skip(text[pos..]) == Skip(text[pos + 1..])
  {
    assert text[pos..][1..] == text[pos + 1..];
  }

  lemma SkipComment(text: string, pos: nat)
    requires pos < |text| && Comment(text[pos..])
    ensures 0 < LineEnd(text[pos..]) && Skip(text[pos..]) == Skip(text[pos + LineEnd(text[pos..])..])
  {
    var line := text[pos..];
    assert line[0] != '\n';
    assert line[LineEnd(line)..] == text[pos + LineEnd(line)..];
  }

  lemma SkipNothing(text: string, pos: nat)
    requires pos <= |text| && (pos < |text| ==> !Space(text[pos]) && !Comment(text[pos..]))
    ensures Skip(text[pos..]) == text[pos..]
  {
  }

  method EndOfLine(text: string, start: nat) returns (pos: nat)
    requires start <= |text|
    ensures pos == start + LineEnd(text[start..])
  {
    pos := start;
    while pos < |text| && text[pos] != '\n'
      invariant start <= pos <= |text| && LineEnd(text[start..]) == pos - start + LineEnd(text[pos..])
    {
      assert text[pos..][1..] == text[pos + 1..];
      pos := pos + 1;
    }
  }

  method EndOfQuote(text: string, start: nat) returns (pos: nat)
    requires start <= |text|
    ensures pos == start + QuoteEnd(text[start..])
  {
    hide QuoteEnd;
    pos := start;
    while pos < |text| && text[pos] != '"'
      invariant start <= pos <= |text| && QuoteEnd(text[start..]) == pos - start + QuoteEnd(text[pos..])
    {
      QuoteNext(text, pos);
      if text[pos] == '\\' && pos + 1 < |text| {
        pos := pos + 2;
      } else {
        pos := pos + 1;
      }
    }
    QuoteDone(text, pos);
  }

  lemma QuoteNext(text: string, pos: nat)
    requires pos < |text| && text[pos] != '"'
    ensures text[pos] == '\\' && pos + 1 < |text| ==> QuoteEnd(text[pos..]) == 2 + QuoteEnd(text[pos + 2..])
    ensures !(text[pos] == '\\' && pos + 1 < |text|) ==> QuoteEnd(text[pos..]) == 1 + QuoteEnd(text[pos + 1..])
  {
    var t := text[pos..];
    assert t[1..] == text[pos + 1..];
    if pos + 1 < |text| {
      assert t[2..] == text[pos + 2..];
    }
  }

  lemma QuoteDone(text: string, pos: nat)
    requires pos <= |text| && (pos < |text| ==> text[pos] == '"')
    ensures QuoteEnd(text[pos..]) == 0
  {
  }

  method EndOfWord(text: string, start: nat) returns (pos: nat)
    requires start <= |text|
    ensures pos == start + WordEnd(text[start..])
  {
    pos := start;
    while pos < |text|
      invariant start <= pos <= |text| && WordEnd(text[start..]) == pos - start + WordEnd(text[pos..])
    {
      if EndsWord(text[pos]) {
        break;
      }
      assert text[pos..][1..] == text[pos + 1..];
      pos := pos + 1;
    }
  }

  // ---- The search for `base` ----

  function LowerChar(c: char): char {
    if 'A' <= c <= 'Z' then c + 32 as char else c
  }

  predicate IsBase(key: string) {
    && |key| == 4 && LowerChar(key[0]) == 'b' && LowerChar(key[1]) == 'a'
    && LowerChar(key[2]) == 's' && LowerChar(key[3]) == 'e'
  }

  /** `base`, each letter in either case. */
  predicate CalledBase(key: string) {
    |key| == 4 && key[0] in "bB" && key[1] in "aA" && key[2] in "sS" && key[3] in "eE"
  }

  lemma BaseIsCalled(key: string)
    ensures IsBase(key) <==> CalledBase(key)
  {
  }

  /** Unicode white space. */
  predicate White(c: char) {
    var n := c as int;
    || 9 <= n <= 13 || n == 0x20 || n == 0x85 || n == 0xA0 || n == 0x1680
    || 0x2000 <= n <= 0x200A || n == 0x2028 || n == 0x2029
    || n == 0x202F || n == 0x205F || n == 0x3000
  }

  function TrimStart(s: string): (t: string)
    ensures |t| <= |s| && t == s[|s| - |t|..] && (t != [] ==> !White(t[0]))
    ensures forall i | 0 <= i < |s| - |t| :: White(s[i])
  {
    if s != [] && White(s[0]) then TrimStart(s[1..]) else s
  }

  function TrimEnd(s: string): (t: string)
    ensures t <= s && (t != [] ==> !White(t[|t| - 1]))
    ensures forall i | |t| <= i < |s| :: White(s[i])
    decreases |s|
  {
    if s != [] && White(s[|s| - 1]) then TrimEnd(s[..|s| - 1]) else s
  }

  /** The value without white space around it, if anything is left. */
  function Trimmed(value: string): Option<string> {
    var t := TrimEnd(TrimStart(value));
    if t == [] then None else Some(t)
  }

  /** What the search finds in tokens inside `depth` blocks. */
  function Search(ts: seq<Token>, depth: nat): Option<string>
    requires depth >= 1
    decreases |ts|
  {
    if ts == [] then None
    else
      match ts[0]
      case Open => Search(ts[1..], depth + 1)
      case Close => if depth == 1 then None else Search(ts[1..], depth - 1)
      case Word(key) =>
        if |ts| == 1 then None
        else
          match ts[1]
          case Word(value) => if depth == 1 && IsBase(key) then Trimmed(value) else Search(ts[2..], depth)
          case Open => Search(ts[2..], depth + 1)
          case Close => if depth == 1 then None else Search(ts[2..], depth - 1)
  }

  function BaseOf(ts: seq<Token>): Option<string> {
    if |ts| < 2 || ts[1] != Open then None else Search(ts[2..], 1)
  }

  /** A reader that takes one token at a time: how deep it is, and the key it has read if it waits for its value. */
  datatype Reading = Inside(depth: nat, key: Option<string>) | Found(value: string) | Over

  function Read(r: Reading, token: Token): Reading {
    if !r.Inside? then r
    else
      match token
      case Open => Inside(r.depth + 1, None)
      case Close => if r.depth <= 1 then Over else Inside(r.depth - 1, None)
      case Word(text) =>
        if r.key == None then Inside(r.depth, Some(text))
        else if r.depth == 1 && CalledBase(r.key.value) then Found(text)
        else Inside(r.depth, None)
  }

  function ReadAll(r: Reading, ts: seq<Token>): Reading
    decreases |ts|
  {
    if ts == [] then r else ReadAll(Read(r, ts[0]), ts[1..])
  }

  lemma {:induction false} SettledReading(r: Reading, ts: seq<Token>)
    requires !r.Inside?
    ensures ReadAll(r, ts) == r
  {
    if ts != [] {
      SettledReading(r, ts[1..]);
    }
  }

  /** The search, key by key, is the reading token by token of whatever tokens, well nested or not. */
  lemma {:induction false} SearchIsReading(ts: seq<Token>, depth: nat)
    requires depth >= 1
    ensures var r := ReadAll(Inside(depth, None), ts);
      Search(ts, depth) == if r.Found? then Trimmed(r.value) else None
    decreases |ts|
  {
    hide CalledBase, IsBase, Trimmed;
    if ts != [] {
      match ts[0]
      case Open => SearchIsReading(ts[1..], depth + 1);
      case Close =>
        if depth == 1 {
          SettledReading(Over, ts[1..]);
        } else {
          SearchIsReading(ts[1..], depth - 1);
        }
      case Word(key) =>
        if |ts| > 1 {
          BaseIsCalled(key);
          var r := Read(Inside(depth, Some(key)), ts[1]);
          assert ReadAll(Inside(depth, None), ts) == ReadAll(r, ts[1..][1..]) && ts[1..][1..] == ts[2..];
          if r.Inside? {
            SearchIsReading(ts[2..], r.depth);
          } else {
            SettledReading(r, ts[2..]);
          }
        }
    }
  }

  const Whites: string :=
    "\t\n\U{0B}\U{0C}\r \U{85}\U{A0}\U{1680}\U{2000}\U{2001}\U{2002}\U{2003}\U{2004}\U{2005}\U{2006}"
    + "\U{2007}\U{2008}\U{2009}\U{200A}\U{2028}\U{2029}\U{202F}\U{205F}\U{3000}"

  /** The white space Unicode lists. */
  lemma WhiteIsListed(c: char)
    ensures White(c) <==> c in Whites
  {
    if White(c) {
      var n := c as int;
      var at := if n <= 13 then n - 9 else if n == 0x20 then 5 else if n == 0x85 then 6 else if n == 0xA0 then 7
        else if n == 0x1680 then 8 else if n <= 0x200A then n - 0x2000 + 9 else if n == 0x2028 then 20
        else if n == 0x2029 then 21 else if n == 0x202F then 22 else if n == 0x205F then 23 else 24;
      assert Whites[at] == c;
    }
  }

  predicate AllWhite(s: string) {
    forall i | 0 <= i < |s| :: White(s[i])
  }

  /** `value` is `t` with white space around it, as much as there is. */
  ghost predicate Surrounded(value: string, t: string, a: string, b: string) {
    value == a + t + b && AllWhite(a) && AllWhite(b) && t != [] && !White(t[0]) && !White(t[|t| - 1])
  }

  /** What is left of a value: all but the white space around it, nothing if it is all white space. */
  lemma TrimmedIs(value: string)
    ensures Trimmed(value) == None <==> AllWhite(value)
    ensures Trimmed(value).Some? ==> exists a, b :: Surrounded(value, Trimmed(value).value, a, b)
  {
    var a, t, b := TrimParts(value);
    hide TrimStart, TrimEnd, Trimmed, White, AllWhite;
    WhiteJoin(a, t, b);
    JoinJoins(a, t, b);
    assert t != [] ==> Surrounded(value, t, a, b);
  }

  lemma TrimParts(value: string) returns (a: string, t: string, b: string)
    ensures value == a + (t + b) && AllWhite(a) && AllWhite(b) && (t != [] ==> !White(t[0]) && !White(t[|t| - 1]))
    ensures Trimmed(value) == if t == [] then None else Some(t)
  {
    var s := TrimStart(value);
    t := TrimEnd(s);
    a, b := value[..|value| - |s|], s[|t|..];
    StartTrimmed(value);
    EndTrimmed(s);
    hide White, TrimStart, TrimEnd, AllWhite;
  }

  lemma StartTrimmed(value: string)
    ensures var s := TrimStart(value);
      value == value[..|value| - |s|] + s && AllWhite(value[..|value| - |s|])
  {
    hide White;
    var s := TrimStart(value);
    TakenApart(value, s);
  }

  lemma EndTrimmed(s: string)
    ensures var t := TrimEnd(s);
      s == t + s[|t|..] && AllWhite(s[|t|..]) && (t != [] ==> t[0] == s[0])
  {
    hide White;
  }

  lemma TakenApart(value: string, s: string)
    requires |s| <= |value| && s == value[|value| - |s|..]
    ensures value == value[..|value| - |s|] + s
  {
  }

  lemma WhiteJoin(a: string, t: string, b: string)
    requires AllWhite(a) && AllWhite(b) && (t != [] ==> !White(t[0]))
    ensures AllWhite(a + t + b) <==> t == []
  {
    hide White;
    if t != [] {
      assert (a + t + b)[|a|] == t[0];
    }
  }

  lemma TokensUnfold(s: string)
    ensures Lex(s).End? ==> Tokens(s) == []
    ensures Lex(s).Next? ==> Tokens(s) == [Lex(s).token] + Tokens(Lex(s).rest) && Tokens(s)[1..] == Tokens(Lex(s).rest)
  {
    hide Lex;
  }

  /** The depth is never less than one inside the root block, and every turn of the loop takes a token. */
  method ParseBaseField(input: string) returns (base: Option<string>)
    ensures base == BaseOf(Tokens(input))
  {
    hide Lex, Tokens;
    var tokens := new Tokenizer(input);
    assert input[0..] == input;
    TokensUnfold(input);
    var root := tokens.NextToken();
    if root.None? {
      return None;
    }
    TokensUnfold(input[tokens.pos..]);
    var first := tokens.NextToken();
    if first != Some(Open) {
      return None;
    }
    base := ParseBlocks(tokens);
  }

  method ParseBlocks(tokens: Tokenizer) returns (base: Option<string>)
    requires tokens.Valid()
    modifies tokens
    ensures base == Search(Tokens(old(tokens.text[tokens.pos..])), 1)
  {
    hide Lex, Tokens;
    var depth := 1;
    ghost var all := Search(Tokens(tokens.text[tokens.pos..]), 1);
    while true
      invariant tokens.Valid() && depth >= 1 && Search(Tokens(tokens.text[tokens.pos..]), depth) == all
      decreases |tokens.text| - tokens.pos
    {
      TokensUnfold(tokens.text[tokens.pos..]);
      var token := tokens.NextToken();
      match token {
        case None => return None;
        case Some(Open) => depth := depth + 1;
        case Some(Close) =>
          if depth == 1 {
            return None;
          }
          depth := depth - 1;
        case Some(Word(key)) =>
          TokensUnfold(tokens.text[tokens.pos..]);
          var next := tokens.NextToken();
          match next {
            case None => return None;
            case Some(Word(value)) =>
              if depth == 1 && IsBase(key) {
                return Trimmed(value);
              }
            case Some(Open) => depth := depth + 1;
            case Some(Close) =>
              if depth == 1 {
                return None;
              }
              depth := depth - 1;
          }
      }
    }
  }

  // ---- Printed trees ----

  datatype Tree = Leaf(key: string, value: string) | Block(key: string, children: seq<Tree>)

  /** The trimmed value of the first leaf called `base`. */
  function FirstBase(trees: seq<Tree>): Option<string> {
    if trees == [] then None
    else if trees[0].Leaf? && CalledBase(trees[0].key) then Trimmed(trees[0].value)
    else FirstBase(trees[1..])
  }

  function Expected(tree: Tree): Option<string> {
    match tree case Leaf(_, _) => None case Block(_, children) => FirstBase(children)
  }

  function TreeTokens(t: Tree): seq<Token>
    decreases t, 1
  {
    match t
    case Leaf(key, value) => [Word(key), Word(value)]
    case Block(key, children) => [Word(key), Open] + ForestTokens(t, 0) + [Close]
  }

  /** The tokens of `t`'s children from the `i`-th on. */
  function ForestTokens(t: Tree, i: nat): seq<Token>
    requires t.Block? && i <= |t.children|
    decreases t, 0, |t.children| - i
  {
    if i == |t.children| then [] else TreeTokens(t.children[i]) + ForestTokens(t, i + 1)
  }

  /** A nested tree is passed over, whatever it holds. */
  lemma {:induction false} NestedIsSkipped(t: Tree, rest: seq<Token>, depth: nat)
    requires depth >= 2 || (depth == 1 && (t.Block? || !CalledBase(t.key)))
    ensures Search(TreeTokens(t) + rest, depth) == Search(rest, depth)
    decreases t, 1
  {
    var ts := TreeTokens(t) + rest;
    BaseIsCalled(t.key);
    match t
    case Leaf(key, value) =>
      assert ts[2..] == rest;
    case Block(key, children) =>
      assert ts[2..] == ForestTokens(t, 0) + ([Close] + rest);
      ForestIsSkipped(t, 0, [Close] + rest, depth + 1);
      assert ([Close] + rest)[1..] == rest;
  }

  lemma {:induction false} ForestIsSkipped(t: Tree, i: nat, rest: seq<Token>, depth: nat)
    requires t.Block? && i <= |t.children| && depth >= 2
    ensures Search(ForestTokens(t, i) + rest, depth) == Search(rest, depth)
    decreases t, 0, |t.children| - i
  {
    if i == |t.children| {
      assert ForestTokens(t, i) + rest == rest;
    } else {
      var more := ForestTokens(t, i + 1) + rest;
      assert ForestTokens(t, i) + rest == TreeTokens(t.children[i]) + more;
      NestedIsSkipped(t.children[i], more, depth);
      ForestIsSkipped(t, i + 1, rest, depth);
    }
  }

  lemma {:induction false} RootIsSearched(t: Tree, i: nat, rest: seq<Token>)
    requires t.Block? && i <= |t.children|
    ensures Search(ForestTokens(t, i) + [Close] + rest, 1) == FirstBase(t.children[i..])
    decreases |t.children| - i
  {
    if i == |t.children| {
      assert ForestTokens(t, i) + [Close] + rest == [Close] + rest;
    } else {
      var c, more := t.children[i], ForestTokens(t, i + 1) + [Close] + rest;
      var ts := TreeTokens(c) + more;
      assert ForestTokens(t, i) + [Close] + rest == ts;
      assert t.children[i..][1..] == t.children[i + 1..];
      BaseIsCalled(c.key);
      if c.Leaf? && CalledBase(c.key) {
        assert ts[0] == Word(c.key) && ts[1] == Word(c.value);
      } else {
        NestedIsSkipped(c, more, 1);
        RootIsSearched(t, i + 1, rest);
      }
    }
  }

  /**
   * Among the tokens of a tree, whatever follows them, the search finds the first `base` leaf of
   * the root and no other.
   */
  lemma BaseOfTree(t: Tree, rest: seq<Token>)
    ensures BaseOf(TreeTokens(t) + rest) == Expected(t)
  {
    var ts := TreeTokens(t) + rest;
    if t.Block? {
      assert ts[2..] == ForestTokens(t, 0) + [Close] + rest;
      RootIsSearched(t, 0, rest);
    }
  }

  // ---- Printing and reading back ----

  /** Space, tab, line feed, carriage return and form feed. */
  const Blanks: string := " \t\n\r\U{0C}"

  /** What may stand before a token: a blank, or a comment to the end of its line. */
  datatype Piece = Blank(c: char) | Remark(text: string)

  predicate PieceOk(p: Piece) {
    match p case Blank(c) => c in Blanks case Remark(text) => '\n' !in text
  }

  function PieceText(p: Piece): string {
    match p case Blank(c) => [c] case Remark(text) => "//" + text + "\n"
  }

  function GapText(gap: seq<Piece>): string {
    if gap == [] then [] else PieceText(gap[0]) + GapText(gap[1..])
  }

  /** A quoted text: every quote and every backslash in it is behind a backslash of its own. */
  ghost predicate Quotable(word: string)
    decreases |word|
  {
    || word == []
    || (word[0] != '"' && word[0] != '\\' && Quotable(word[1..]))
    || (word[0] == '\\' && |word| >= 2 && Quotable(word[2..]))
  }

  /** A word that needs no quotes. */
  predicate Bare(word: string) {
    && word != [] && !("//" <= word)
    && forall i | 0 <= i < |word| :: word[i] !in Blanks && word[i] !in "{}\""
  }

  /** A bare word ends before `more`. */
  predicate EndsBefore(more: string) {
    more == [] || more[0] in Blanks || more[0] in "{}\""
  }

  /** A token, what stands before it, and whether a word is in quotes. */
  datatype Printed = Printed(gap: seq<Piece>, token: Token, quoted: bool)

  function Shown(token: Token, quoted: bool): string {
    match token
    case Open => "{"
    case Close => "}"
    case Word(text) => if quoted then "\"" + text + "\"" else text
  }

  function Render(ps: seq<Printed>): string {
    if ps == [] then [] else GapText(ps[0].gap) + Shown(ps[0].token, ps[0].quoted) + Render(ps[1..])
  }

  function TokensOf(ps: seq<Printed>): seq<Token> {
    if ps == [] then [] else [ps[0].token] + TokensOf(ps[1..])
  }

  ghost predicate WellPrinted(ps: seq<Printed>, more: string)
    decreases |ps|
  {
    ps == [] ||
    var p := ps[0];
    && (forall i | 0 <= i < |p.gap| :: PieceOk(p.gap[i]))
    && (p.token.Word? && p.quoted ==> Quotable(p.token.text))
    && (p.token.Word? && !p.quoted ==> Bare(p.token.text) && EndsBefore(Render(ps[1..]) + more))
    && WellPrinted(ps[1..], more)
  }

  lemma SpacesAreBlanks(c: char)
    ensures Space(c) <==> c in Blanks
    ensures EndsWord(c) <==> c in Blanks || c in "{}\""
  {
    assert '\U{0C}' as int == 12;
    if Space(c) {
      assert c == Blanks[0] || c == Blanks[1] || c == Blanks[2] || c == Blanks[3] || c == Blanks[4];
    }
    assert c in "{}\"" <==> c == '{' || c == '}' || c == '"';
  }

  lemma {:induction false} LineEndOf(text: string, more: string)
    requires '\n' !in text
    ensures LineEnd(text + "\n" + more) == |text|
    decreases |text|
  {
    var s := text + "\n" + more;
    if text != [] {
      assert s[1..] == text[1..] + "\n" + more;
      assert forall c | c in text[1..] :: c in text;
      LineEndOf(text[1..], more);
    }
  }

  /** A blank or a comment is passed over, whatever follows. */
  lemma PieceIsSkipped(p: Piece, more: string)
    requires PieceOk(p)
    ensures Skip(PieceText(p) + more) == Skip(more)
  {
    var s := PieceText(p) + more;
    match p
    case Blank(c) =>
      SpacesAreBlanks(c);
      assert s[0] == c && s[1..] == more;
    case Remark(text) =>
      assert s == "//" + text + "\n" + more && ("//" + text)[0] == '/' && s[0] == '/' && s[1] == '/';
      LineEndOf("//" + text, more);
      assert s[|text| + 2..] == "\n" + more && ("\n" + more)[1..] == more;
      SkipComment(s, 0);
      assert s[0..] == s;
  }

  lemma {:induction false} GapIsSkipped(gap: seq<Piece>, more: string)
    requires forall i | 0 <= i < |gap| :: PieceOk(gap[i])
    ensures Skip(GapText(gap) + more) == Skip(more)
    decreases |gap|
  {
    hide Skip, PieceOk, PieceText;
    if gap == [] {
      assert GapText(gap) + more == more;
    } else {
      assert GapText(gap) + more == PieceText(gap[0]) + (GapText(gap[1..]) + more);
      PieceIsSkipped(gap[0], GapText(gap[1..]) + more);
      GapIsSkipped(gap[1..], more);
    }
  }

  lemma {:induction false} QuoteIsRead(word: string, more: string)
    requires Quotable(word) && (more == [] || more[0] == '"')
    ensures QuoteEnd(word + more) == |word|
    decreases |word|
  {
    var s := word + more;
    if word == [] {
      assert s == more;
    } else if word[0] == '\\' {
      assert s[2..] == word[2..] + more;
      QuoteIsRead(word[2..], more);
    } else {
      assert s[1..] == word[1..] + more;
      QuoteIsRead(word[1..], more);
    }
  }

  lemma {:induction false} BareIsRead(word: string, more: string)
    requires EndsBefore(more) && forall i | 0 <= i < |word| :: word[i] !in Blanks && word[i] !in "{}\""
    ensures WordEnd(word + more) == |word|
    decreases |word|
  {
    var s := word + more;
    if word == [] {
      assert s == more;
      if more != [] {
        SpacesAreBlanks(more[0]);
      }
    } else {
      SpacesAreBlanks(word[0]);
      assert s[0] == word[0] && s[1..] == word[1..] + more;
      BareIsRead(word[1..], more);
    }
  }

  lemma Cut(text: string, more: string)
    ensures (text + more)[..|text|] == text && (text + more)[|text|..] == more
  {
  }

  /** What is left of a word's text starts the token: nothing of it is passed over. */
  lemma NothingSkipped(t: string)
    requires t != [] && t[0] !in Blanks && !("//" <= t)
    ensures Skip(t) == t
  {
    SpacesAreBlanks(t[0]);
    assert Comment(t) ==> "//" <= t;
  }

  /** A quote opens a word up to where the quoted text ends; the quote there is taken too. */
  lemma QuoteIsLexed(text: string, rest: string)
    requires QuoteEnd(text + rest) == |text| && (rest == [] || rest[0] == '"')
    ensures Lex("\"" + (text + rest)) == Next(Word(text), if rest == [] then [] else rest[1..])
  {
    var s := "\"" + (text + rest);
    assert s[1..] == text + rest;
    Cut(text, rest);
    hide QuoteEnd, WordEnd;
    NothingSkipped(s);
    hide Skip;
    assert rest != [] ==> (text + rest)[|text| + 1..] == rest[1..];
  }

  lemma QuotedIsLexed(text: string, more: string)
    requires Quotable(text)
    ensures Lex("\"" + text + "\"" + more) == Next(Word(text), more)
    ensures Lex("\"" + text) == Next(Word(text), [])
  {
    QuoteIsRead(text, "\"" + more);
    QuoteIsRead(text, []);
    hide QuoteEnd, WordEnd, Quotable, Skip;
    QuoteIsLexed(text, "\"" + more);
    QuoteIsLexed(text, []);
    JoinJoins("\"", text, "\"" + more);
    JoinJoins("\"" + text, "\"", more);
    assert ("\"" + more)[1..] == more && text + [] == text;
  }

  lemma BareIsNoComment(text: string, more: string)
    requires Bare(text) && EndsBefore(more)
    ensures (text + more)[0] == text[0] && !("//" <= text + more)
  {
    var s := text + more;
    assert |text| == 1 && more != [] ==> s[1] == more[0] && more[0] != '/';
    assert |text| > 1 ==> s[1] == text[1] && !(text[0] == '/' && text[1] == '/');
  }

  lemma BareIsLexed(text: string, more: string)
    requires Bare(text) && EndsBefore(more)
    ensures Lex(text + more) == Next(Word(text), more)
  {
    var s := text + more;
    BareIsNoComment(text, more);
    NothingSkipped(s);
    BareIsRead(text, more);
    Cut(text, more);
    hide QuoteEnd, WordEnd, Skip;
  }

  lemma BraceIsLexed(more: string)
    ensures Lex("{" + more) == Next(Open, more) && Lex("}" + more) == Next(Close, more)
  {
    var s, t := "{" + more, "}" + more;
    assert s[1..] == more && t[1..] == more;
    NothingSkipped(s);
    NothingSkipped(t);
    hide Skip;
  }

  /** A token behind any gap is read as itself, and what follows it is left. */
  lemma ShownIsLexed(gap: seq<Piece>, token: Token, quoted: bool, more: string)
    requires forall i | 0 <= i < |gap| :: PieceOk(gap[i])
    requires token.Word? && quoted ==> Quotable(token.text)
    requires token.Word? && !quoted ==> Bare(token.text) && EndsBefore(more)
    ensures Lex(GapText(gap) + Shown(token, quoted) + more) == Next(token, more)
  {
    var shown := Shown(token, quoted) + more;
    hide Lex, Quotable, Bare, EndsBefore, PieceOk, GapText;
    JoinJoins(GapText(gap), Shown(token, quoted), more);
    GapIsSkipped(gap, shown);
    LexSkips(GapText(gap) + shown, shown);
    match token
    case Word(text) =>
      if quoted {
        QuotedIsLexed(text, more);
      } else {
        BareIsLexed(text, more);
      }
    case _ => BraceIsLexed(more);
  }

  lemma JoinJoins(a: string, b: string, c: string)
    ensures a + b + c == a + (b + c)
  {
  }

  lemma LexSkips(s: string, t: string)
    requires Skip(s) == Skip(t)
    ensures Lex(s) == Lex(t)
  {
    hide Skip;
  }

  /** Printed tokens read back as themselves, whatever follows. */
  lemma {:induction false} RenderRoundTrip(ps: seq<Printed>, more: string)
    requires WellPrinted(ps, more)
    ensures Tokens(Render(ps) + more) == TokensOf(ps) + Tokens(more)
    decreases |ps|
  {
    hide Lex, Tokens, Shown, Quotable, Bare, GapText, EndsBefore;
    if ps == [] {
      assert Render(ps) + more == more;
    } else {
      var p, rest := ps[0], Render(ps[1..]) + more;
      assert Render(ps) + more == GapText(p.gap) + Shown(p.token, p.quoted) + rest;
      ShownIsLexed(p.gap, p.token, p.quoted, rest);
      TokensUnfold(Render(ps) + more);
      RenderRoundTrip(ps[1..], more);
    }
  }

  /** Blanks and comments alone hold no token, a last comment without a line end included. */
  lemma NothingPrinted(gap: seq<Piece>, text: string)
    requires (forall i | 0 <= i < |gap| :: PieceOk(gap[i])) && '\n' !in text
    ensures Tokens(GapText(gap)) == [] && Tokens(GapText(gap) + "//" + text) == []
  {
    var last := "//" + text;
    GapIsSkipped(gap, []);
    GapIsSkipped(gap, last);
    assert GapText(gap) + [] == GapText(gap) && GapText(gap) + "//" + text == GapText(gap) + last;
    assert last[0] == '/' && last[1] == '/';
    OneLine(last);
    assert last[|last|..] == [] && Skip([]) == [];
    SkipComment(last, 0);
    assert last[0..] == last;
  }

  lemma OneLine(s: string)
    requires '\n' !in s
    ensures LineEnd(s) == |s|
  {
  }

  /**
   * What is printed is found: reading a printed tree, with any gaps, quoted or bare, and any text
   * after it, yields the root's first `base`.
   */
  lemma PrintedTreeIsRead(ps: seq<Printed>, t: Tree, more: string)
    requires WellPrinted(ps, more) && TokensOf(ps) == TreeTokens(t)
    ensures BaseOf(Tokens(Render(ps) + more)) == Expected(t)
  {
    RenderRoundTrip(ps, more);
    BaseOfTree(t, Tokens(more));
  }
}
