/**
 * A backtracking regular-expression matcher for the ECMAScript constructs the scripts use, and
 * the `replace(/…/g, …)` scan over it. Matching lists every end position in the order a
 * backtracking engine tries them, so the first entry is the match the engine reports.
 */
module Regex {
  import opened Options

  datatype Class = One(c: char) | Among(cs: string) | Digit | Blank | Space

  predicate IsDigit(c: char) { '0' <= c <= '9' }

  /** `[ \t]` */
  predicate IsBlank(c: char) { c == ' ' || c == '\t' }

  /** LineTerminator, section 12.3 of ECMA-262. */
  predicate IsLineTerminator(c: char) {
    c == '\n' || c == '\r' || c == '\U{2028}' || c == '\U{2029}'
  }

  /** WhiteSpace, section 12.2 of ECMA-262. */
  predicate IsWhiteSpace(c: char) {
    || c == '\t' || c == '\U{000B}' || c == '\U{000C}' || c == ' '
    || c == '\U{00A0}' || c == '\U{FEFF}' || c == '\U{1680}'
    || '\U{2000}' <= c <= '\U{200A}'
    || c == '\U{202F}' || c == '\U{205F}' || c == '\U{3000}'
  }

  /** `\s` */
  predicate IsSpace(c: char) { IsWhiteSpace(c) || IsLineTerminator(c) }

  predicate IsWordChar(c: char) {
    'a' <= c <= 'z' || 'A' <= c <= 'Z' || IsDigit(c) || c == '_'
  }

  predicate In(cls: Class, c: char) {
    match cls
    case One(d) => c == d
    case Among(cs) => c in cs
    case Digit => IsDigit(c)
    case Blank => IsBlank(c)
    case Space => IsSpace(c)
  }

  datatype Re =
    | Empty
    | Ch(cls: Class)
    | Word(w: string)
    | Cat(left: Re, right: Re)
    | Or(first: Re, second: Re)
    | Maybe(body: Re)
    | Many(body: Re)
    | InputStart
    | InputEnd
    | LineStart
    | LineEnd
    | WordEdge
    | Ahead(body: Re)
    | NotAhead(body: Re)

  predicate AtWordEdge(s: string, i: nat)
    requires i <= |s|
  {
    (i > 0 && IsWordChar(s[i - 1])) != (i < |s| && IsWordChar(s[i]))
  }

  /** Every position at which a match starting at `i` can end, in backtracking order. */
  function Ends(re: Re, s: string, i: nat): (es: seq<nat>)
    requires i <= |s|
    ensures forall k :: 0 <= k < |es| ==> i <= es[k] <= |s|
    decreases re, |s| - i, 1, 0
  {
    match re
    case Empty => [i]
    case Ch(cls) => if i < |s| && In(cls, s[i]) then [i + 1] else []
    case Word(w) => if |w| <= |s| - i && s[i..i + |w|] == w then [i + |w|] else []
    case Cat(left, right) => EndsFromEach(right, s, i, Ends(left, s, i))
    case Or(first, second) => Ends(first, s, i) + Ends(second, s, i)
    case Maybe(body) => Ends(body, s, i) + [i]
    case Many(body) => EndsAgain(body, s, i, Ends(body, s, i)) + [i]
    case InputStart => if i == 0 then [i] else []
    case InputEnd => if i == |s| then [i] else []
    case LineStart => if i == 0 || IsLineTerminator(s[i - 1]) then [i] else []
    case LineEnd => if i == |s| || IsLineTerminator(s[i]) then [i] else []
    case WordEdge => if AtWordEdge(s, i) then [i] else []
    case Ahead(body) => if Ends(body, s, i) != [] then [i] else []
    case NotAhead(body) => if Ends(body, s, i) == [] then [i] else []
  }

  function EndsFromEach(re: Re, s: string, i: nat, starts: seq<nat>): (es: seq<nat>)
    requires i <= |s|
    requires forall k :: 0 <= k < |starts| ==> i <= starts[k] <= |s|
    ensures forall k :: 0 <= k < |es| ==> i <= es[k] <= |s|
    decreases re, |s| - i, 2, |starts|
  {
    if starts == [] then []
    else Ends(re, s, starts[0]) + EndsFromEach(re, s, i, starts[1..])
  }

  /** One more round of a starred body; a round that consumes nothing is refused. */
  function EndsAgain(body: Re, s: string, i: nat, starts: seq<nat>): (es: seq<nat>)
    requires i <= |s|
    requires forall k :: 0 <= k < |starts| ==> i <= starts[k] <= |s|
    ensures forall k :: 0 <= k < |es| ==> i <= es[k] <= |s|
    decreases Many(body), |s| - i, 0, |starts|
  {
    if starts == [] then []
    else (if starts[0] > i then Ends(Many(body), s, starts[0]) else [])
         + EndsAgain(body, s, i, starts[1..])
  }

  // ----- what a match can consume, read off the expression -----

  predicate MayConsume(re: Re, c: char) {
    match re
    case Ch(cls) => In(cls, c)
    case Word(w) => c in w
    case Cat(left, right) => MayConsume(left, c) || MayConsume(right, c)
    case Or(first, second) => MayConsume(first, c) || MayConsume(second, c)
    case Maybe(body) => MayConsume(body, c)
    case Many(body) => MayConsume(body, c)
    case _ => false
  }

  predicate MayBeEmpty(re: Re) {
    match re
    case Ch(_) => false
    case Word(w) => w == ""
    case Cat(left, right) => MayBeEmpty(left) && MayBeEmpty(right)
    case Or(first, second) => MayBeEmpty(first) || MayBeEmpty(second)
    case _ => true
  }

  predicate MayStart(re: Re, c: char) {
    match re
    case Ch(cls) => In(cls, c)
    case Word(w) => w != "" && c == w[0]
    case Cat(left, right) => MayStart(left, c) || (MayBeEmpty(left) && MayStart(right, c))
    case Or(first, second) => MayStart(first, c) || MayStart(second, c)
    case Maybe(body) => MayStart(body, c)
    case Many(body) => MayStart(body, c)
    case _ => false
  }

  /** No match gets by without consuming a character of this kind. */
  predicate MustConsume(re: Re, kind: char -> bool) {
    match re
    case Ch(One(c)) => kind(c)
    case Ch(Among(cs)) => forall k :: 0 <= k < |cs| ==> kind(cs[k])
    case Word(w) => w != "" && kind(w[0])
    case Cat(left, right) => MustConsume(left, kind) || MustConsume(right, kind)
    case Or(first, second) => MustConsume(first, kind) && MustConsume(second, kind)
    case _ => false
  }

  function MinLength(re: Re): nat {
    match re
    case Ch(_) => 1
    case Word(w) => |w|
    case Cat(left, right) => MinLength(left) + MinLength(right)
    case Or(first, second) =>
      if MinLength(first) <= MinLength(second) then MinLength(first) else MinLength(second)
    case _ => 0
  }

  lemma {:induction false} EndsFromEachSplit(re: Re, s: string, i: nat, starts: seq<nat>, e: nat) returns (m: nat)
    requires i <= |s|
    requires forall k :: 0 <= k < |starts| ==> i <= starts[k] <= |s|
    requires e in EndsFromEach(re, s, i, starts)
    ensures m in starts && i <= m <= |s| && e in Ends(re, s, m)
    decreases |starts|
  {
    m := starts[0];
    if e !in Ends(re, s, m) {
      m := EndsFromEachSplit(re, s, i, starts[1..], e);
    }
  }

  lemma {:induction false} EndsAgainSplit(body: Re, s: string, i: nat, starts: seq<nat>, e: nat) returns (m: nat)
    requires i <= |s|
    requires forall k :: 0 <= k < |starts| ==> i <= starts[k] <= |s|
    requires e in EndsAgain(body, s, i, starts)
    ensures m in starts && i < m <= |s| && e in Ends(Many(body), s, m)
    decreases |starts|
  {
    m := starts[0];
    if m <= i || e !in Ends(Many(body), s, m) {
      m := EndsAgainSplit(body, s, i, starts[1..], e);
    }
  }

  /** What the engine consumes is what the expression says it may consume. */
  lemma {:induction false} Consumed(re: Re, s: string, i: nat, e: nat)
    requires i <= |s| && e in Ends(re, s, i)
    ensures i <= e <= |s|
    ensures forall k :: i <= k < e ==> MayConsume(re, s[k])
    ensures e > i ==> MayStart(re, s[i])
    ensures e == i ==> MayBeEmpty(re)
    decreases re, |s| - i
  {
    match re
    case Word(w) =>
      forall k | i <= k < e ensures s[k] in w { assert s[k] == s[i..i + |w|][k - i]; }
    case Cat(left, right) =>
      var m := EndsFromEachSplit(right, s, i, Ends(left, s, i), e);
      Consumed(left, s, i, m);
      Consumed(right, s, m, e);
    case Or(first, second) =>
      if e in Ends(first, s, i) { Consumed(first, s, i, e); } else { Consumed(second, s, i, e); }
    case Maybe(body) =>
      if e in Ends(body, s, i) { Consumed(body, s, i, e); }
    case Many(body) =>
      if e in EndsAgain(body, s, i, Ends(body, s, i)) {
        var m := EndsAgainSplit(body, s, i, Ends(body, s, i), e);
        Consumed(body, s, i, m);
        Consumed(re, s, m, e);
      }
    case _ =>
  }

  lemma {:induction false} ConsumedLength(re: Re, s: string, i: nat, e: nat)
    requires i <= |s| && e in Ends(re, s, i)
    ensures i + MinLength(re) <= e <= |s|
    decreases re
  {
    match re
    case Cat(left, right) =>
      var m := EndsFromEachSplit(right, s, i, Ends(left, s, i), e);
      ConsumedLength(left, s, i, m);
      ConsumedLength(right, s, m, e);
    case Or(first, second) =>
      if e in Ends(first, s, i) { ConsumedLength(first, s, i, e); } else { ConsumedLength(second, s, i, e); }
    case _ =>
  }

  lemma {:induction false} ConsumedKind(re: Re, s: string, i: nat, e: nat, kind: char -> bool) returns (k: nat)
    requires i <= |s| && e in Ends(re, s, i) && MustConsume(re, kind)
    ensures i <= k < e <= |s| && kind(s[k])
    decreases re
  {
    match re
    case Ch(cls) => k := i;
    case Word(w) =>
      k := i;
      assert s[i] == s[i..i + |w|][0];
    case Cat(left, right) =>
      var m := EndsFromEachSplit(right, s, i, Ends(left, s, i), e);
      Consumed(left, s, i, m);
      Consumed(right, s, m, e);
      if MustConsume(left, kind) {
        k := ConsumedKind(left, s, i, m, kind);
      } else {
        k := ConsumedKind(right, s, m, e, kind);
      }
    case Or(first, second) =>
      if e in Ends(first, s, i) { k := ConsumedKind(first, s, i, e, kind); }
      else { k := ConsumedKind(second, s, i, e, kind); }
  }

  // ----- replace(/keep drop/g, '$keep' + insert) -----

  /**
   * A global replacement whose replacement string gives back a leading part of the match: `keep`
   * is the part given back (the groups `$1$2`, or nothing), `drop` the part replaced by `insert`.
   */
  datatype Rule = Rule(keep: Re, drop: Re, insert: string)

  datatype Match = Match(keepEnd: nat, end: nat)

  /** The match at `i` the engine reports: the first way to end `keep` after which `drop` matches. */
  function FirstOf(rule: Rule, s: string, i: nat, keepEnds: seq<nat>): (m: Option<Match>)
    requires i <= |s|
    requires forall k :: 0 <= k < |keepEnds| ==> i <= keepEnds[k] <= |s|
    requires !MayBeEmpty(rule.drop)
    ensures m.Some? ==> m.value.keepEnd in keepEnds && i <= m.value.keepEnd < m.value.end <= |s|
    ensures m.Some? ==> m.value.end in Ends(rule.drop, s, m.value.keepEnd)
  {
    if keepEnds == [] then None
    else
      var es := Ends(rule.drop, s, keepEnds[0]);
      if es != [] then
        assert es[0] in es;
        Consumed(rule.drop, s, keepEnds[0], es[0]);
        Some(Match(keepEnds[0], es[0]))
      else FirstOf(rule, s, i, keepEnds[1..])
  }

  function MatchAt(rule: Rule, s: string, i: nat): (m: Option<Match>)
    requires i <= |s| && !MayBeEmpty(rule.drop)
    ensures m.Some? ==> i <= m.value.keepEnd < m.value.end <= |s|
    ensures m.Some? ==> m.value.keepEnd in Ends(rule.keep, s, i)
    ensures m.Some? ==> m.value.end in Ends(rule.drop, s, m.value.keepEnd)
  {
    FirstOf(rule, s, i, Ends(rule.keep, s, i))
  }

  /** What `replace` makes of the text from `i` on. */
  function ReplaceFrom(rule: Rule, s: string, i: nat): string
    requires i <= |s| && !MayBeEmpty(rule.drop)
    decreases |s| - i
  {
    if i == |s| then ""
    else match MatchAt(rule, s, i)
      case None => [s[i]] + ReplaceFrom(rule, s, i + 1)
      case Some(m) => s[i..m.keepEnd] + rule.insert + ReplaceFrom(rule, s, m.end)
  }

  function Replace(rule: Rule, s: string): string
    requires !MayBeEmpty(rule.drop)
  {
    ReplaceFrom(rule, s, 0)
  }

  /** `re.test(s)` */
  predicate TestFrom(re: Re, s: string, i: nat)
    requires i <= |s|
    decreases |s| - i
  {
    Ends(re, s, i) != [] || (i < |s| && TestFrom(re, s, i + 1))
  }

  /** `s.match(/re/g)`, from `i` on. */
  function MatchesFrom(re: Re, s: string, i: nat): seq<string>
    requires i <= |s| && !MayBeEmpty(re)
    decreases |s| - i
  {
    if i == |s| then []
    else
      var es := Ends(re, s, i);
      if es == [] then MatchesFrom(re, s, i + 1)
      else
        assert es[0] in es;
        Consumed(re, s, i, es[0]);
        [s[i..es[0]]] + MatchesFrom(re, s, es[0])
  }
}
