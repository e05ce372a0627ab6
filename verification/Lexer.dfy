/**
 * The lexical grammar of ECMA-262 (14th edition, section 12) as far as comments depend on it:
 * white space and line terminators (12.2, 12.3), comments (12.4), string literals (12.9.4),
 * regular expression literals (12.9.5) and template pieces (12.9.6). Which goal symbol applies at
 * a point is an arbitrary function of the code before it, as the syntactic grammar makes it.
 */
module Lexer {
  import opened Options
  import opened Regex

  /** What stands between a code token and the one before it. */
  datatype Gap = Touching | Spaced | Broken

  /** A piece of code: a literal, a template piece, JSX text, or one other character. */
  datatype Item = Item(text: string, gap: Gap)

  datatype Goal = Div | RegExp | TemplateTail | RegExpOrTemplateTail | JsxAttribute | JsxChildren

  /** The input elements of section 12; their texts put together are the source. */
  datatype Elem =
    | White(c: char)
    | Terminator(c: char)
    | LineComment(text: string)
    | BlockComment(text: string)
    | Code(text: string)

  function TextOf(e: Elem): (t: string) {
    match e
    case White(c) => [c]
    case Terminator(c) => [c]
    case LineComment(t) => t
    case BlockComment(t) => t
    case Code(t) => t
  }

  function Unlex(es: seq<Elem>): string {
    if es == [] then "" else TextOf(es[0]) + Unlex(es[1..])
  }

  // ----- literals that end at their own delimiter -----

  datatype Literal =
    | InString(quote: char)
    | InTemplate
    | InRegExp(inClass: bool)
    | InJsxString(quote: char)
    | InBlockComment

  /** One past the closing delimiter, reading on from `k` inside the literal. */
  function Close(lit: Literal, s: string, k: nat): (e: Option<nat>)
    ensures e.Some? ==> k < e.value <= |s|
    decreases |s| - k
  {
    if k >= |s| then None
    else
      var c := s[k];
      match lit
      case InString(q) =>
        if c == q then Some(k + 1)
        else if c == '\\' then
          if k + 2 < |s| && s[k + 1] == '\r' && s[k + 2] == '\n' then Close(lit, s, k + 3)
          else Close(lit, s, k + 2)
        else if c == '\n' || c == '\r' then None
        else Close(lit, s, k + 1)
      case InTemplate =>
        if c == '`' then Some(k + 1)
        else if c == '\\' then Close(lit, s, k + 2)
        else if c == '$' && k + 1 < |s| && s[k + 1] == '{' then Some(k + 2)
        else Close(lit, s, k + 1)
      case InRegExp(inClass) =>
        if IsLineTerminator(c) then None
        else if c == '\\' then
          if k + 1 < |s| && IsLineTerminator(s[k + 1]) then None else Close(lit, s, k + 2)
        else if c == '/' && !inClass then Some(k + 1)
        else Close(InRegExp(if c == '[' then true else if c == ']' then false else inClass), s, k + 1)
      case InJsxString(q) =>
        if c == q then Some(k + 1) else Close(lit, s, k + 1)
      case InBlockComment =>
        if c == '*' && k + 1 < |s| && s[k + 1] == '/' then Some(k + 2) else Close(lit, s, k + 1)
  }

  /** Where a literal ends is settled by its own text. */
  lemma {:induction false} CloseIsLocal(lit: Literal, s: string, t: string, k: nat)
    requires Close(lit, s, k).Some?
    requires |t| >= Close(lit, s, k).value
    requires t[..Close(lit, s, k).value] == s[..Close(lit, s, k).value]
    ensures Close(lit, t, k) == Close(lit, s, k)
    decreases |s| - k
  {
    var e := Close(lit, s, k).value;
    assert forall j :: 0 <= j < e ==> t[j] == s[j] by {
      forall j | 0 <= j < e ensures t[j] == s[j] { assert t[..e][j] == s[..e][j]; }
    }
    var c := s[k];
    match lit
    case InString(q) =>
      if c != q {
        if c == '\\' {
          if k + 2 < |s| && s[k + 1] == '\r' && s[k + 2] == '\n' { CloseIsLocal(lit, s, t, k + 3); }
          else { CloseIsLocal(lit, s, t, k + 2); }
        } else { CloseIsLocal(lit, s, t, k + 1); }
      }
    case InTemplate =>
      if c == '\\' { CloseIsLocal(lit, s, t, k + 2); }
      else if c != '`' && !(c == '$' && k + 1 < |s| && s[k + 1] == '{') { CloseIsLocal(lit, s, t, k + 1); }
    case InRegExp(inClass) =>
      if c == '\\' { CloseIsLocal(lit, s, t, k + 2); }
      else if c != '/' || inClass {
        CloseIsLocal(InRegExp(if c == '[' then true else if c == ']' then false else inClass), s, t, k + 1);
      }
    case InJsxString(q) =>
      if c != q { CloseIsLocal(lit, s, t, k + 1); }
    case InBlockComment =>
      if !(c == '*' && k + 1 < |s| && s[k + 1] == '/') { CloseIsLocal(lit, s, t, k + 1); }
  }

  lemma {:induction false} ClosesAtQuote(s: string, quote: char, k: nat, e: nat)
    requires k <= e < |s| && s[e] == quote && forall j :: k <= j < e ==> s[j] != quote
    ensures Close(InJsxString(quote), s, k) == Some(e + 1)
    decreases e - k
  {
    if k < e { ClosesAtQuote(s, quote, k + 1, e); }
  }

  lemma {:induction false} RegExpStaysOnLine(inClass: bool, s: string, k: nat)
    requires Close(InRegExp(inClass), s, k).Some?
    ensures forall j :: k <= j < Close(InRegExp(inClass), s, k).value ==> !IsLineTerminator(s[j])
    decreases |s| - k
  {
    var c := s[k];
    if c == '\\' { RegExpStaysOnLine(inClass, s, k + 2); }
    else if c != '/' || inClass {
      RegExpStaysOnLine(if c == '[' then true else if c == ']' then false else inClass, s, k + 1);
    }
  }

  /** Up to the next line terminator, or the end. */
  function EndOfLine(s: string, k: nat): (e: nat)
    requires k <= |s|
    ensures k <= e <= |s|
    ensures forall j :: k <= j < e ==> !IsLineTerminator(s[j])
    ensures e < |s| ==> IsLineTerminator(s[e])
    decreases |s| - k
  {
    if k == |s| || IsLineTerminator(s[k]) then k else EndOfLine(s, k + 1)
  }

  /** Up to the next `{` or `<`; JSX text cannot reach the end of the source. */
  function JsxTextEnd(s: string, k: nat): (e: Option<nat>)
    requires k <= |s|
    ensures e.Some? ==> k <= e.value < |s| && s[e.value] in "{<"
    ensures e.Some? ==> forall j :: k <= j < e.value ==> s[j] !in "{<"
    decreases |s| - k
  {
    if k == |s| then None else if s[k] in "{<" then Some(k) else JsxTextEnd(s, k + 1)
  }

  lemma {:induction false} JsxTextEndIs(s: string, k: nat, n: nat)
    requires k <= n < |s| && s[n] in "{<"
    requires forall j :: k <= j < n ==> s[j] !in "{<"
    ensures JsxTextEnd(s, k) == Some(n)
    decreases n - k
  {
    if k < n { JsxTextEndIs(s, k + 1, n); }
  }

  predicate IsQuote(c: char) { c == '"' || c == '\'' }

  /** The literal a character opens under a goal symbol. */
  function Opening(c: char, goal: Goal): Option<Literal> {
    if IsQuote(c) then
      if goal.JsxAttribute? then Some(InJsxString(c)) else Some(InString(c))
    else if c == '`' then Some(InTemplate)
    else if c == '}' && (goal.TemplateTail? || goal.RegExpOrTemplateTail?) then Some(InTemplate)
    else if c == '/' && (goal.RegExp? || goal.RegExpOrTemplateTail?) then Some(InRegExp(false))
    else None
  }

  predicate StartsLineComment(s: string) { |s| >= 2 && s[0] == '/' && s[1] == '/' }

  predicate StartsBlockComment(s: string) { |s| >= 2 && s[0] == '/' && s[1] == '*' }

  /** The input element the source starts with, or None where it is malformed. */
  function Scan(s: string, goal: Goal): (e: Option<Elem>)
    requires s != ""
    ensures e.Some? ==> TextOf(e.value) != "" && TextOf(e.value) <= s
  {
    if goal.JsxChildren? && s[0] !in "{<" then
      match JsxTextEnd(s, 0)
      case None => None
      case Some(n) => Some(Code(s[..n]))
    else if IsLineTerminator(s[0]) then Some(Terminator(s[0]))
    else if IsWhiteSpace(s[0]) then Some(White(s[0]))
    else if StartsLineComment(s) then Some(LineComment(s[..EndOfLine(s, 2)]))
    else if StartsBlockComment(s) then
      match Close(InBlockComment, s, 2)
      case None => None
      case Some(n) => Some(BlockComment(s[..n]))
    else
      match Opening(s[0], goal)
      case None => Some(Code([s[0]]))
      case Some(lit) =>
        match Close(lit, s, 1)
        case None => None
        case Some(n) => Some(Code(s[..n]))
  }

  /** An attribute's string runs to the next quote, whatever backslashes or line breaks it holds. */
  lemma AttributeEndsAtQuote(s: string, e: nat)
    requires 0 < e < |s| && IsQuote(s[0]) && s[e] == s[0]
    requires forall j :: 1 <= j < e ==> s[j] != s[0]
    ensures Scan(s, JsxAttribute) == Some(Code(s[..e + 1]))
  {
    ClosesAtQuote(s, s[0], 1, e);
  }

  /** A regular expression does not go past its line. */
  lemma RegExpHasNoBreak(s: string)
    requires s != "" && s[0] == '/' && !StartsLineComment(s) && !StartsBlockComment(s) && Scan(s, RegExp).Some?
    ensures !HasBreak(TextOf(Scan(s, RegExp).value))
  {
    RegExpStaysOnLine(false, s, 1);
  }

  predicate HasBreak(s: string) {
    exists k :: 0 <= k < |s| && IsLineTerminator(s[k])
  }

  function Wider(a: Gap, b: Gap): Gap {
    if a.Broken? || b.Broken? then Broken
    else if a.Spaced? || b.Spaced? then Spaced
    else Touching
  }

  /**
   * What an element adds to the gap it stands in. Section 12.4: a comment counts as white space,
   * and as a line terminator when it is a multi-line comment holding one.
   */
  function GapOf(e: Elem): Gap {
    match e
    case Terminator(_) => Broken
    case BlockComment(t) => if HasBreak(t) then Broken else Spaced
    case _ => Spaced
  }

  function LexFrom(s: string, goal: seq<Item> -> Goal, items: seq<Item>, gap: Gap): (es: Option<seq<Elem>>)
    decreases |s|
  {
    if s == "" then Some([])
    else match Scan(s, goal(items))
      case None => None
      case Some(e) =>
        var rest := s[|TextOf(e)|..];
        var more := if e.Code? then LexFrom(rest, goal, items + [Item(e.text, gap)], Touching)
                    else LexFrom(rest, goal, items, Wider(gap, GapOf(e)));
        match more
        case None => None
        case Some(es) => Some([e] + es)
  }

  /** The input elements of a whole source. */
  function Lex(s: string, goal: seq<Item> -> Goal): Option<seq<Elem>> {
    LexFrom(s, goal, [], Touching)
  }

  /** The code in a list of elements, each item with the gap before it. */
  function ItemsOf(es: seq<Elem>, gap: Gap): seq<Item> {
    if es == [] then []
    else if es[0].Code? then [Item(es[0].text, gap)] + ItemsOf(es[1..], Touching)
    else ItemsOf(es[1..], Wider(gap, GapOf(es[0])))
  }

  /** Lexing loses nothing. */
  lemma {:induction false} UnlexLex(s: string, goal: seq<Item> -> Goal, items: seq<Item>, gap: Gap)
    requires LexFrom(s, goal, items, gap).Some?
    ensures Unlex(LexFrom(s, goal, items, gap).value) == s
    decreases |s|
  {
    if s != "" {
      var e := Scan(s, goal(items)).value;
      var rest := s[|TextOf(e)|..];
      assert s == TextOf(e) + rest;
      if e.Code? { UnlexLex(rest, goal, items + [Item(e.text, gap)], Touching); }
      else { UnlexLex(rest, goal, items, Wider(gap, GapOf(e))); }
    }
  }

  /** Lexing an element that the scan finds, and the rest. */
  lemma LexCons(e: Elem, rest: string, goal: seq<Item> -> Goal, items: seq<Item>, gap: Gap)
    requires TextOf(e) + rest != "" && Scan(TextOf(e) + rest, goal(items)) == Some(e)
    ensures var more := LexFrom(rest, goal, if e.Code? then items + [Item(e.text, gap)] else items,
                                if e.Code? then Touching else Wider(gap, GapOf(e)));
            LexFrom(TextOf(e) + rest, goal, items, gap) == if more.None? then None else Some([e] + more.value)
  {
    assert (TextOf(e) + rest)[|TextOf(e)|..] == rest;
  }
}
