/**
 * scripts/generate-pseudoloc.ts: the pseudo-localised form of a string and of a JSON value, its
 * inverse, and what survives of interpolation tokens and of the JSON shape.
 */
module Pseudoloc {
  import opened Options

  // ----- the two character maps -----

  function LowerMap(c: char): Option<char> {
    match c
    case 'a' => Some('ä') case 'e' => Some('ë') case 'i' => Some('ï') case 'o' => Some('ö')
    case 'u' => Some('ü') case 's' => Some('ŝ') case 'c' => Some('ĉ') case 'n' => Some('ñ')
    case _ => None
  }

  function UpperMap(c: char): Option<char> {
    match c
    case 'A' => Some('Ä') case 'E' => Some('Ë') case 'I' => Some('Ï') case 'O' => Some('Ö')
    case 'U' => Some('Ü') case 'S' => Some('Ŝ') case 'C' => Some('Ĉ') case 'N' => Some('Ñ')
    case _ => None
  }

  /** `UPPER_MAP[ch] ?? LOWER_MAP[ch] ?? ch` */
  function Accent(c: char): char {
    if UpperMap(c).Some? then UpperMap(c).value
    else if LowerMap(c).Some? then LowerMap(c).value
    else c
  }

  /** One of the sixteen letters the maps lead to. */
  predicate IsTarget(c: char) {
    c in {'ä', 'ë', 'ï', 'ö', 'ü', 'ŝ', 'ĉ', 'ñ', 'Ä', 'Ë', 'Ï', 'Ö', 'Ü', 'Ŝ', 'Ĉ', 'Ñ'}
  }

  function Unaccent(c: char): char {
    match c
    case 'ä' => 'a' case 'ë' => 'e' case 'ï' => 'i' case 'ö' => 'o'
    case 'ü' => 'u' case 'ŝ' => 's' case 'ĉ' => 'c' case 'ñ' => 'n'
    case 'Ä' => 'A' case 'Ë' => 'E' case 'Ï' => 'I' case 'Ö' => 'O'
    case 'Ü' => 'U' case 'Ŝ' => 'S' case 'Ĉ' => 'C' case 'Ñ' => 'N'
    case _ => c
  }

  /** The eight letters that get a mark, in either case. */
  const ACCENTS: map<char, char> := map[
    'a' := 'ä', 'e' := 'ë', 'i' := 'ï', 'o' := 'ö', 'u' := 'ü', 's' := 'ŝ', 'c' := 'ĉ', 'n' := 'ñ',
    'A' := 'Ä', 'E' := 'Ë', 'I' := 'Ï', 'O' := 'Ö', 'U' := 'Ü', 'S' := 'Ŝ', 'C' := 'Ĉ', 'N' := 'Ñ'
  ]

  lemma AccentIs(c: char)
    ensures Accent(c) == if c in ACCENTS then ACCENTS[c] else c
  {
  }

  lemma AccentIsUndone(c: char)
    ensures Unaccent(Accent(c)) == c <==> !IsTarget(c)
  {
  }

  lemma AccentKeepsBraces(c: char)
    ensures Accent(c) == '{' <==> c == '{'
    ensures Accent(c) == '}' <==> c == '}'
  {
  }

  function MapLetters(f: char -> char, s: string): (t: string)
    ensures |t| == |s| && forall k :: 0 <= k < |s| ==> t[k] == f(s[k])
  {
    seq(|s|, k requires 0 <= k < |s| => f(s[k]))
  }

  // ----- interpolation tokens -----

  /** The first `}` from `k` on, or the end. */
  function NextClosing(s: string, k: nat): (e: nat)
    requires k <= |s|
    ensures k <= e <= |s|
    ensures forall j :: k <= j < e ==> s[j] != '}'
    ensures e < |s| ==> s[e] == '}'
    decreases |s| - k
  {
    if k == |s| || s[k] == '}' then k else NextClosing(s, k + 1)
  }

  /** Where a match of `\{\{[^}]+\}\}` starting at `i` ends. */
  function TokenEnd(s: string, i: nat): (e: Option<nat>)
    requires i <= |s|
    ensures e.Some? ==> i + 5 <= e.value <= |s|
  {
    if i + 2 <= |s| && s[i] == '{' && s[i + 1] == '{' then
      var j := NextClosing(s, i + 2);
      if j > i + 2 && j + 1 < |s| && s[j + 1] == '}' then Some(j + 2) else None
    else None
  }

  /** Two braces, something without a closing brace, two braces. */
  lemma TokenEndExactly(s: string, i: nat, e: nat)
    requires i <= |s|
    ensures TokenEnd(s, i) == Some(e) <==>
            && i + 5 <= e <= |s| && s[i] == '{' && s[i + 1] == '{' && s[e - 2] == '}' && s[e - 1] == '}'
            && forall k :: i + 2 <= k < e - 2 ==> s[k] != '}'
  {
    if i + 5 <= e <= |s| && s[e - 2] == '}' && forall k :: i + 2 <= k < e - 2 ==> s[k] != '}' {
      NextClosingIs(s, i + 2, e - 2);
    }
  }

  /** A match: its place and its text. */
  datatype Token = Token(start: nat, text: string)

  /** Every match of the token expression from `i` on, left to right. */
  function TokensFrom(s: string, i: nat): seq<Token>
    requires i <= |s|
    decreases |s| - i
  {
    if i == |s| then []
    else match TokenEnd(s, i)
      case None => TokensFrom(s, i + 1)
      case Some(e) => [Token(i, s[i..e])] + TokensFrom(s, e)
  }

  // ----- transformString -----

  datatype Part = Literal(text: string) | Interpolation(text: string)

  /** `value.split(TOKEN_RE)`: literal text from `from` on, then a token, and so on. */
  function SplitFrom(s: string, from: nat, i: nat): seq<Part>
    requires from <= i <= |s|
    decreases |s| - i
  {
    if i == |s| then [Literal(s[from..])]
    else match TokenEnd(s, i)
      case None => SplitFrom(s, from, i + 1)
      case Some(e) => [Literal(s[from..i]), Interpolation(s[i..e])] + SplitFrom(s, e, e)
  }

  /** `/^\{\{[^}]+\}\}$/.test(part)` */
  predicate IsToken(part: string) {
    TokenEnd(part, 0) == Some(|part|)
  }

  function TextOf(p: Part): string { p.text }

  /** The mapped part: tokens as they are, everything else letter by letter. */
  function TransformPart(f: char -> char, part: string): string {
    if IsToken(part) then part else MapLetters(f, part)
  }

  function TransformParts(f: char -> char, ps: seq<Part>): string {
    if ps == [] then "" else TransformPart(f, TextOf(ps[0])) + TransformParts(f, ps[1..])
  }

  function Repeat(c: char, n: nat): (s: string)
    ensures |s| == n && forall k :: 0 <= k < n ==> s[k] == c
  {
    seq(n, _ => c)
  }

  /** `Math.ceil(n * 1.3)`, exactly. */
  function Target(n: nat): nat { (13 * n + 9) / 10 }

  function TransformString(value: string): string {
    var transformed := TransformParts(Accent, SplitFrom(value, 0, 0));
    var paddingNeeded := if Target(|value|) > |transformed| then Target(|value|) - |transformed| else 0;
    "[" + transformed + Repeat('~', paddingNeeded) + "]"
  }

  // ----- where tokens are depends on the braces alone -----

  lemma {:induction false} NextClosingIs(s: string, k: nat, e: nat)
    requires k <= e <= |s| && (e < |s| ==> s[e] == '}')
    requires forall j :: k <= j < e ==> s[j] != '}'
    ensures NextClosing(s, k) == e
    decreases e - k
  {
    if k < e { NextClosingIs(s, k + 1, e); }
  }

  /** The same token at another place, in another text. */
  lemma TokenElsewhere(s: string, i: nat, t: string, j: nat)
    requires i <= |s| && TokenEnd(s, i).Some?
    requires var n := TokenEnd(s, i).value - i; j + n <= |t| && t[j..j + n] == s[i..i + n]
    ensures TokenEnd(t, j) == Some(j + TokenEnd(s, i).value - i)
  {
    var e := TokenEnd(s, i).value;
    var n := e - i;
    forall p | j <= p < j + n ensures t[p] == s[p - j + i] {
      assert t[j..j + n][p - j] == s[i..i + n][p - j];
    }
    assert t[j + n - 2] == s[e - 2] && t[j + n - 1] == s[e - 1];
    NextClosingIs(t, j + 2, j + n - 2);
  }

  /** Both texts have their braces at the same places. */
  predicate SameBraces(s: string, t: string) {
    |s| == |t| && forall k :: 0 <= k < |s| ==> (t[k] == '{' <==> s[k] == '{') && (t[k] == '}' <==> s[k] == '}')
  }

  lemma SameBracesSameTokens(s: string, t: string, i: nat)
    requires SameBraces(s, t) && i <= |s|
    ensures TokenEnd(t, i) == TokenEnd(s, i)
  {
    if i + 2 <= |s| { NextClosingIs(t, i + 2, NextClosing(s, i + 2)); }
  }

  // ----- the transformed text, place by place -----

  /** Tokens verbatim, every other letter mapped. */
  function MapFrom(f: char -> char, s: string, i: nat): (t: string)
    requires i <= |s|
    ensures |t| == |s| - i
    decreases |s| - i
  {
    if i == |s| then ""
    else match TokenEnd(s, i)
      case None => [f(s[i])] + MapFrom(f, s, i + 1)
      case Some(e) => s[i..e] + MapFrom(f, s, e)
  }

  lemma MapLettersSnoc(f: char -> char, s: string, from: nat, i: nat)
    requires from <= i < |s|
    ensures MapLetters(f, s[from..i + 1]) == MapLetters(f, s[from..i]) + [f(s[i])]
  {
  }

  lemma Regroup(a: string, b: string, c: string)
    ensures a + b + c == a + (b + c)
  {
  }

  /** Splitting, mapping and joining comes to mapping place by place; no literal part is a token. */
  lemma {:induction false} SplitIsMap(f: char -> char, s: string, from: nat, i: nat)
    requires from <= i <= |s|
    requires forall j :: from <= j < i ==> TokenEnd(s, j) == None
    ensures TransformParts(f, SplitFrom(s, from, i)) == MapLetters(f, s[from..i]) + MapFrom(f, s, i)
    decreases |s| - i
  {
    if i == |s| {
      SplitEnds(f, s, from);
    } else {
      match TokenEnd(s, i)
      case None =>
        SplitIsMap(f, s, from, i + 1);
        MapLettersSnoc(f, s, from, i);
        Regroup(MapLetters(f, s[from..i]), [f(s[i])], MapFrom(f, s, i + 1));
      case Some(e) =>
        SplitIsMap(f, s, e, e);
        SplitAtToken(f, s, from, i);
    }
  }

  lemma SplitEnds(f: char -> char, s: string, from: nat)
    requires from <= |s|
    requires forall j :: from <= j < |s| ==> TokenEnd(s, j) == None
    ensures TransformParts(f, SplitFrom(s, from, |s|)) == MapLetters(f, s[from..|s|]) + MapFrom(f, s, |s|)
  {
    LiteralIsNoToken(s, from, |s|);
    assert s[from..] == s[from..|s|];
    assert TransformParts(f, [Literal(s[from..])]) == TransformPart(f, s[from..]) + TransformParts(f, []);
  }

  lemma SplitAtToken(f: char -> char, s: string, from: nat, i: nat)
    requires from <= i < |s| && TokenEnd(s, i).Some?
    requires forall j :: from <= j < i ==> TokenEnd(s, j) == None
    requires var e := TokenEnd(s, i).value;
             TransformParts(f, SplitFrom(s, e, e)) == MapLetters(f, s[e..e]) + MapFrom(f, s, e)
    ensures TransformParts(f, SplitFrom(s, from, i)) == MapLetters(f, s[from..i]) + MapFrom(f, s, i)
  {
    hide MapLetters;
    var e := TokenEnd(s, i).value;
    LiteralIsNoToken(s, from, i);
    assert s[i..e][0..e - i] == s[i..i + (e - i)];
    TokenElsewhere(s, i, s[i..e], 0);
    TwoParts(f, s[from..i], s[i..e], SplitFrom(s, e, e));
    assert MapLetters(f, s[e..e]) == "";
    assert "" + MapFrom(f, s, e) == MapFrom(f, s, e);
  }

  lemma TwoParts(f: char -> char, literal: string, token: string, more: seq<Part>)
    requires !IsToken(literal) && IsToken(token)
    ensures TransformParts(f, [Literal(literal), Interpolation(token)] + more)
         == MapLetters(f, literal) + (token + TransformParts(f, more))
  {
    var ps := [Literal(literal), Interpolation(token)] + more;
    assert ps[1..] == [Interpolation(token)] + more && ps[1..][1..] == more;
  }

  lemma LiteralIsNoToken(s: string, from: nat, i: nat)
    requires from <= i <= |s|
    requires forall j :: from <= j < i ==> TokenEnd(s, j) == None
    ensures !IsToken(s[from..i])
  {
    if IsToken(s[from..i]) {
      assert s[from..i][0..i - from] == s[from..i];
      TokenElsewhere(s[from..i], 0, s, from);
      assert false;
    }
  }

  /** Each place of the mapped text holds the letter or its accented form. */
  lemma {:induction false} MapAt(f: char -> char, s: string, i: nat, k: nat)
    requires i <= k < |s|
    ensures MapFrom(f, s, i)[k - i] == s[k] || MapFrom(f, s, i)[k - i] == f(s[k])
    decreases |s| - i
  {
    var d := NextStop(s, i);
    if k >= d {
      MapLater(f, s, i, d, k);
      hide *;
      MapAt(f, s, d, k);
    } else if TokenEnd(s, i).Some? {
      hide TokenEnd, MapFrom;
      MapNow(f, s, i, k);
    } else {
      hide TokenEnd, MapFrom;
      MapStep(f, s, i);
    }
  }

  lemma MapKeepsBraces(s: string)
    ensures SameBraces(s, MapFrom(Accent, s, 0))
  {
    var m := MapFrom(Accent, s, 0);
    forall k | 0 <= k < |s| ensures (m[k] == '{' <==> s[k] == '{') && (m[k] == '}' <==> s[k] == '}') {
      MapAt(Accent, s, 0, k);
      AccentKeepsBraces(s[k]);
    }
  }

  function Mapped(s: string): string { MapFrom(Accent, s, 0) }

  lemma MappedFacts(s: string)
    ensures |Mapped(s)| == |s| && SameBraces(s, Mapped(s))
    ensures forall i :: 0 <= i <= |s| ==> TokenEnd(Mapped(s), i) == TokenEnd(s, i)
    ensures TransformParts(Accent, SplitFrom(s, 0, 0)) == Mapped(s)
  {
    MapKeepsBraces(s);
    forall i | 0 <= i <= |s| ensures TokenEnd(Mapped(s), i) == TokenEnd(s, i) {
      SameBracesSameTokens(s, Mapped(s), i);
    }
    SplitIsMap(Accent, s, 0, 0);
    assert MapLetters(Accent, s[0..0]) == "";
  }

  /** The output: brackets around the mapped text and the padding to 130 percent. */
  lemma TransformStringIs(s: string)
    ensures Target(|s|) >= |s|
    ensures TransformString(s) == "[" + Mapped(s) + Repeat('~', Target(|s|) - |s|) + "]"
    ensures |TransformString(s)| == Target(|s|) + 2
  {
    MappedFacts(s);
  }

  // ----- the output, character by character -----

  /** The place lies in one of the tokens. */
  predicate IsCovered(ts: seq<Token>, k: nat) {
    exists j :: 0 <= j < |ts| && ts[j].start <= k < ts[j].start + |ts[j].text|
  }

  lemma CoveredCons(t: Token, ts: seq<Token>, k: nat)
    ensures IsCovered([t] + ts, k) <==> t.start <= k < t.start + |t.text| || IsCovered(ts, k)
  {
    var all := [t] + ts;
    if t.start <= k < t.start + |t.text| { assert all[0].start <= k < all[0].start + |all[0].text|; }
    if j :| 0 <= j < |ts| && ts[j].start <= k < ts[j].start + |ts[j].text| { assert all[j + 1] == ts[j]; }
    if j :| 0 <= j < |all| && all[j].start <= k < all[j].start + |all[j].text| { assert j > 0 ==> ts[j - 1] == all[j]; }
  }

  lemma {:induction false} TokensStartLater(s: string, i: nat, k: nat)
    requires k < i <= |s|
    ensures !IsCovered(TokensFrom(s, i), k)
    decreases |s| - i
  {
    if i < |s| {
      match TokenEnd(s, i)
      case None => TokensStartLater(s, i + 1, k);
      case Some(e) =>
        TokensStartLater(s, e, k);
        CoveredCons(Token(i, s[i..e]), TokensFrom(s, e), k);
    }
  }

  lemma {:induction false} MapByTokens(f: char -> char, s: string, i: nat, k: nat)
    requires i <= k < |s|
    ensures MapFrom(f, s, i)[k - i] == if IsCovered(TokensFrom(s, i), k) then s[k] else f(s[k])
    decreases |s| - i
  {
    hide IsCovered;
    match TokenEnd(s, i)
    case None =>
      if k == i { TokensStartLater(s, i + 1, k); } else { MapByTokens(f, s, i + 1, k); }
    case Some(e) =>
      CoveredCons(Token(i, s[i..e]), TokensFrom(s, e), k);
      if k >= e { MapByTokens(f, s, e, k); }
  }

  lemma MappedIsMapFrom(s: string)
    ensures |Mapped(s)| == |s| && Mapped(s) == MapFrom(Accent, s, 0)
  {
    MappedFacts(s);
  }

  lemma TargetIs(n: nat)
    ensures 10 * Target(n) - 10 < 13 * n <= 10 * Target(n)
  {
  }

  lemma WrappedIs(m: string, n: nat, k: nat)
    requires k < |m|
    ensures var out := "[" + m + Repeat('~', n) + "]";
            && |out| == |m| + n + 2 && out[k + 1] == m[k] && out[0] == '[' && out[|out| - 1] == ']'
            && forall j :: |m| < j < |out| - 1 ==> out[j] == '~'
  {
  }

  /** Every character of the input comes out one place further on: as it is in a token, with its mark elsewhere. */
  lemma TransformedCharIs(s: string, k: nat)
    requires k < |s|
    ensures k + 1 < |TransformString(s)|
    ensures TransformString(s)[k + 1]
         == if IsCovered(TokensFrom(s, 0), k) then s[k] else if s[k] in ACCENTS then ACCENTS[s[k]] else s[k]
    ensures TransformString(s)[0] == '[' && TransformString(s)[|TransformString(s)| - 1] == ']'
    ensures forall j :: |s| < j < |TransformString(s)| - 1 ==> TransformString(s)[j] == '~'
    ensures 10 * (|TransformString(s)| - 2) - 10 < 13 * |s| <= 10 * (|TransformString(s)| - 2)
  {
    hide *;
    TransformStringIs(s);
    MappedIsMapFrom(s);
    MapByTokens(Accent, s, 0, k);
    AccentIs(s[k]);
    TargetIs(|s|);
    WrappedIs(Mapped(s), Target(|s|) - |s|, k);
  }

  // ----- tokens in the output -----

  function Shifted(ts: seq<Token>): (r: seq<Token>) {
    if ts == [] then [] else [Token(ts[0].start + 1, ts[0].text)] + Shifted(ts[1..])
  }

  /** The braces of `s`, one place further on, and no others. */
  predicate Embeds(out: string, s: string) {
    && |out| >= |s| + 2
    && out[0] != '{' && out[0] != '}'
    && (forall k :: 1 <= k <= |s| ==> (out[k] == '{' <==> s[k - 1] == '{') && (out[k] == '}' <==> s[k - 1] == '}'))
    && (forall k :: |s| < k < |out| ==> out[k] != '{' && out[k] != '}')
  }

  lemma WrappedEmbeds(m: string, s: string, padding: string)
    requires SameBraces(s, m) && '{' !in padding && '}' !in padding
    ensures Embeds("[" + m + padding + "]", s) && ("[" + m + padding + "]")[1..|s| + 1] == m
  {
    var out := "[" + m + padding + "]";
    assert forall k :: 1 <= k <= |s| ==> out[k] == m[k - 1];
    assert forall k :: |s| < k < |s| + 1 + |padding| ==> out[k] == padding[k - |s| - 1];
  }

  lemma OutputEmbeds(s: string)
    ensures Embeds(TransformString(s), s)
    ensures TransformString(s)[1..|s| + 1] == Mapped(s)
  {
    TransformStringIs(s);
    MappedFacts(s);
    WrappedEmbeds(Mapped(s), s, Repeat('~', Target(|s|) - |s|));
  }

  lemma NextClosingEmbedded(out: string, s: string, k: nat)
    requires Embeds(out, s) && k <= |s|
    ensures NextClosing(out, k + 1) == if NextClosing(s, k) < |s| then NextClosing(s, k) + 1 else |out|
  {
    var j := NextClosing(s, k);
    forall p | k + 1 <= p < j + 1 ensures out[p] != '}' { assert s[p - 1] != '}'; }
    NextClosingIs(out, k + 1, if j < |s| then j + 1 else |out|);
  }

  /** Brackets and padding neither make nor break a token. */
  lemma EmbeddedToken(out: string, s: string, i: nat)
    requires Embeds(out, s) && i <= |s|
    ensures TokenEnd(out, i + 1) == if TokenEnd(s, i).Some? then Some(TokenEnd(s, i).value + 1) else None
  {
    if i + 2 <= |s| {
      NextClosingEmbedded(out, s, i + 2);
    }
  }

  lemma MapStep(f: char -> char, s: string, k: nat)
    requires k < |s|
    ensures match TokenEnd(s, k)
            case None => MapFrom(f, s, k) == [f(s[k])] + MapFrom(f, s, k + 1)
            case Some(e) => MapFrom(f, s, k) == s[k..e] + MapFrom(f, s, e)
  {
  }

  lemma MapLater(f: char -> char, s: string, k: nat, d: nat, p: nat)
    requires k < d <= p < |s|
    requires if TokenEnd(s, k).None? then d == k + 1 else TokenEnd(s, k) == Some(d)
    ensures MapFrom(f, s, k)[p - k] == MapFrom(f, s, d)[p - d]
  {
    hide TokenEnd, MapFrom;
    MapStep(f, s, k);
  }

  lemma MapNow(f: char -> char, s: string, i: nat, p: nat)
    requires i <= p < |s| && TokenEnd(s, i).Some? && p < TokenEnd(s, i).value
    ensures MapFrom(f, s, i)[p - i] == s[p]
  {
    hide TokenEnd, MapFrom;
    MapStep(f, s, i);
  }

  /** Where the scan that has come to `k` goes next. */
  function NextStop(s: string, k: nat): (d: nat)
    requires k < |s|
    ensures k < d <= |s|
  {
    if TokenEnd(s, k).None? then k + 1 else TokenEnd(s, k).value
  }

  lemma BoundaryNext(s: string, k: nat, i: nat)
    requires k < i <= |s| && IsBoundary(s, k, i)
    ensures NextStop(s, k) <= i && IsBoundary(s, NextStop(s, k), i)
  {
  }

  /** Inside a token the mapped text is the text. */
  lemma {:induction false} MappedInToken(f: char -> char, s: string, i: nat, k: nat, e: nat, p: nat)
    requires k <= i <= p < e <= |s| && TokenEnd(s, i) == Some(e)
    requires IsBoundary(s, k, i)
    ensures MapFrom(f, s, k)[p - k] == s[p]
    decreases i - k
  {
    hide TokenEnd, MapFrom, IsBoundary;
    if k == i {
      MapNow(f, s, i, p);
    } else {
      BoundaryNext(s, k, i);
      MapLater(f, s, k, NextStop(s, k), p);
      MappedInToken(f, s, i, NextStop(s, k), e, p);
    }
  }

  /** Scanning from `k`, the scan comes to `i`. */
  predicate IsBoundary(s: string, k: nat, i: nat)
    requires k <= i <= |s|
    decreases i - k
  {
    k == i ||
    match TokenEnd(s, k)
    case None => IsBoundary(s, k + 1, i)
    case Some(e) => e <= i && IsBoundary(s, e, i)
  }

  lemma {:induction false} BoundaryStep(s: string, k: nat, i: nat)
    requires k <= i < |s| && IsBoundary(s, k, i)
    ensures TokenEnd(s, i) == None ==> IsBoundary(s, k, i + 1)
    ensures TokenEnd(s, i).Some? ==> IsBoundary(s, k, TokenEnd(s, i).value)
    decreases i - k
  {
    if k < i {
      match TokenEnd(s, k)
      case None => BoundaryStep(s, k + 1, i);
      case Some(e) => BoundaryStep(s, e, i);
    }
  }

  /** Every token the scan finds is spelled out in `out`, one place further on. */
  ghost predicate SpellsTokens(out: string, s: string) {
    && |out| > |s|
    && forall i, e :: 0 <= i < e <= |s| && TokenEnd(s, i) == Some(e) && IsBoundary(s, 0, i)
                      ==> out[i + 1..e + 1] == s[i..e]
  }

  lemma OutputSpellsTokens(s: string)
    ensures SpellsTokens(TransformString(s), s)
  {
    hide TokenEnd, MapFrom, IsBoundary;
    var out := TransformString(s);
    OutputEmbeds(s);
    forall i, e | 0 <= i < e <= |s| && TokenEnd(s, i) == Some(e) && IsBoundary(s, 0, i)
      ensures out[i + 1..e + 1] == s[i..e]
    {
      forall p | i <= p < e ensures out[p + 1] == s[p] {
        MappedInToken(Accent, s, i, 0, e, p);
        assert out[p + 1] == out[1..|s| + 1][p];
      }
      assert forall q :: i + 1 <= q < e + 1 ==> out[q] == s[q - 1];
    }
  }

  lemma TokensCons(s: string, i: nat)
    requires i < |s|
    ensures TokensFrom(s, i) == if TokenEnd(s, i).None? then TokensFrom(s, i + 1)
                                else [Token(i, s[i..TokenEnd(s, i).value])] + TokensFrom(s, TokenEnd(s, i).value)
  {
  }

  lemma {:induction false} TokensInOutput(s: string, out: string, i: nat)
    requires Embeds(out, s) && SpellsTokens(out, s)
    requires i <= |s| && IsBoundary(s, 0, i)
    ensures TokensFrom(out, i + 1) == Shifted(TokensFrom(s, i))
    decreases |s| - i
  {
    hide SpellsTokens, TokenEnd, IsBoundary;
    if i == |s| {
      NoTokensIn(out, i + 1);
    } else {
      BoundaryStep(s, 0, i);
      TokensInOutput(s, out, NextStop(s, i));
      TokenInOutput(s, out, i);
    }
  }

  lemma TokenInOutput(s: string, out: string, i: nat)
    requires Embeds(out, s) && SpellsTokens(out, s)
    requires i < |s| && IsBoundary(s, 0, i)
    requires TokensFrom(out, NextStop(s, i) + 1) == Shifted(TokensFrom(s, NextStop(s, i)))
    ensures TokensFrom(out, i + 1) == Shifted(TokensFrom(s, i))
  {
    hide TokensFrom, Shifted;
    EmbeddedToken(out, s, i);
    if TokenEnd(s, i).Some? {
      SameTokenNext(s, out, i, TokenEnd(s, i).value);
    } else {
      NoTokenNext(s, out, i);
    }
  }

  lemma NoTokenNext(s: string, out: string, i: nat)
    requires i < |s| && i + 1 < |out| && TokenEnd(s, i) == None && TokenEnd(out, i + 1) == None
    requires TokensFrom(out, i + 2) == Shifted(TokensFrom(s, i + 1))
    ensures TokensFrom(out, i + 1) == Shifted(TokensFrom(s, i))
  {
    TokensCons(s, i);
    TokensCons(out, i + 1);
  }

  lemma SameTokenNext(s: string, out: string, i: nat, e: nat)
    requires i < e <= |s| < |out| && TokenEnd(s, i) == Some(e) && TokenEnd(out, i + 1) == Some(e + 1)
    requires out[i + 1..e + 1] == s[i..e]
    requires TokensFrom(out, e + 1) == Shifted(TokensFrom(s, e))
    ensures TokensFrom(out, i + 1) == Shifted(TokensFrom(s, i))
  {
    hide TokenEnd, TokensFrom, Shifted;
    TokensCons(s, i);
    TokensCons(out, i + 1);
    ShiftedCons(Token(i, s[i..e]), TokensFrom(s, e));
  }

  lemma ShiftedCons(t: Token, ts: seq<Token>)
    ensures Shifted([t] + ts) == [Token(t.start + 1, t.text)] + Shifted(ts)
  {
    assert ([t] + ts)[1..] == ts;
  }

  lemma {:induction false} NoTokensIn(s: string, i: nat)
    requires i <= |s| && forall k :: i <= k < |s| ==> s[k] != '{'
    ensures TokensFrom(s, i) == []
    decreases |s| - i
  {
    if i < |s| { NoTokensIn(s, i + 1); }
  }

  /**
   * Scanning the bracketed, padded output for tokens finds exactly the input's tokens, verbatim
   * and in order, each one place further on.
   */
  lemma TokensSurvive(s: string)
    ensures TokensFrom(TransformString(s), 0) == Shifted(TokensFrom(s, 0))
  {
    OutputEmbeds(s);
    OutputSpellsTokens(s);
    TokensInOutput(s, TransformString(s), 0);
    assert TokenEnd(TransformString(s), 0) == None;
  }

  // ----- the inverse -----

  /** The length of the input, from the length of the output. */
  function InputLength(outputLength: nat): nat {
    if outputLength < 2 then 0 else 10 * (outputLength - 2) / 13
  }

  /** Takes off brackets and padding and maps the letters outside tokens back. */
  function Untransform(out: string): string {
    var n := InputLength(|out|);
    if n + 1 <= |out| then MapFrom(Unaccent, out[1..n + 1], 0) else ""
  }

  predicate IsUntargeted(c: char) { !IsTarget(c) }

  /** Every letter outside a token is of this kind. */
  predicate LiteralsAre(kind: char -> bool, s: string, i: nat)
    requires i <= |s|
    decreases |s| - i
  {
    i == |s| ||
    match TokenEnd(s, i)
    case None => kind(s[i]) && LiteralsAre(kind, s, i + 1)
    case Some(e) => LiteralsAre(kind, s, e)
  }

  /** No letter outside a token is one the maps lead to. */
  predicate LiteralsAreClean(s: string) { LiteralsAre(IsUntargeted, s, 0) }

  lemma UnmapLetter(f: char -> char, g: char -> char, s: string, m: string, i: nat)
    requires i < |s| == |m| && TokenEnd(m, i) == TokenEnd(s, i) == None
    requires m[i..] == MapFrom(f, s, i)
    ensures m[i + 1..] == MapFrom(f, s, i + 1)
    ensures MapFrom(g, m, i) == s[i..] <==> g(f(s[i])) == s[i] && MapFrom(g, m, i + 1) == s[i + 1..]
  {
    hide MapFrom, TokenEnd;
    MapStep(f, s, i);
    MapStep(g, m, i);
    assert m[i] == m[i..][0] && m[i..][1..] == m[i + 1..];
    assert s[i..] == [s[i]] + s[i + 1..];
    SameFirst(g(f(s[i])), MapFrom(g, m, i + 1), s[i], s[i + 1..]);
  }

  lemma SameFirst(c: char, a: string, d: char, b: string)
    ensures [c] + a == [d] + b <==> c == d && a == b
  {
    assert ([c] + a)[0] == c && ([c] + a)[1..] == a && ([d] + b)[0] == d && ([d] + b)[1..] == b;
  }

  lemma SamePrefix(p: string, a: string, b: string)
    ensures p + a == p + b <==> a == b
  {
    assert (p + a)[|p|..] == a && (p + b)[|p|..] == b;
  }

  lemma SplitAt(s: string, i: nat, e: nat)
    requires i <= e <= |s|
    ensures s[i..] == s[i..e] + s[e..]
  {
  }

  lemma UnmapToken(f: char -> char, g: char -> char, s: string, m: string, i: nat, e: nat)
    requires i < e <= |s| == |m| && TokenEnd(m, i) == TokenEnd(s, i) == Some(e)
    requires m[i..] == MapFrom(f, s, i)
    ensures m[e..] == MapFrom(f, s, e)
    ensures MapFrom(g, m, i) == s[i..] <==> MapFrom(g, m, e) == s[e..]
  {
    MapStep(f, s, i);
    MapStep(g, m, i);
    SplitAt(s, i, e);
    SplitAt(m, i, e);
    assert m[i..e] == (m[i..e] + m[e..])[..e - i] == (s[i..e] + MapFrom(f, s, e))[..e - i] == s[i..e];
    SamePrefix(s[i..e], m[e..], MapFrom(f, s, e));
    SamePrefix(s[i..e], MapFrom(g, m, e), s[e..]);
  }

  /** Mapping back what was mapped gives the text exactly where every letter comes back. */
  lemma {:induction false} UnmapMap(f: char -> char, g: char -> char, kind: char -> bool, s: string, m: string, i: nat)
    requires i <= |s| == |m| && (forall k :: 0 <= k <= |s| ==> TokenEnd(m, k) == TokenEnd(s, k))
    requires forall c :: kind(c) <==> g(f(c)) == c
    requires m[i..] == MapFrom(f, s, i)
    ensures MapFrom(g, m, i) == s[i..] <==> LiteralsAre(kind, s, i)
    decreases |s| - i
  {
    if i < |s| {
      match TokenEnd(s, i)
      case None =>
        UnmapLetter(f, g, s, m, i);
        UnmapMap(f, g, kind, s, m, i + 1);
      case Some(e) =>
        UnmapToken(f, g, s, m, i, e);
        UnmapMap(f, g, kind, s, m, e);
    }
  }

  /** The output length tells the input length, so the padding can be told from the text. */
  lemma LengthIsKnown(n: nat)
    ensures InputLength(Target(n) + 2) == n
  {
  }

  /**
   * The input can be recovered exactly when its literal text holds none of the sixteen letters,
   * even where it ends in the padding character.
   */
  lemma RoundTripExactly(s: string)
    ensures Untransform(TransformString(s)) == s <==> LiteralsAreClean(s)
  {
    UntransformIs(s);
    MappedFacts(s);
    assert Mapped(s)[0..] == Mapped(s) && s[0..] == s;
    forall c ensures IsUntargeted(c) <==> Unaccent(Accent(c)) == c { AccentIsUndone(c); }
    UnmapMap(Accent, Unaccent, IsUntargeted, s, Mapped(s), 0);
  }

  lemma UntransformIs(s: string)
    ensures |Mapped(s)| == |s| && Untransform(TransformString(s)) == MapFrom(Unaccent, Mapped(s), 0)
  {
    TransformStringIs(s);
    LengthIsKnown(|s|);
    OutputEmbeds(s);
  }

  /** Two such strings with the same pseudo-localised form are the same. */
  lemma TransformIsInjective(a: string, b: string)
    requires LiteralsAreClean(a) && LiteralsAreClean(b)
    requires TransformString(a) == TransformString(b)
    ensures a == b
  {
    RoundTripExactly(a);
    RoundTripExactly(b);
  }
}
