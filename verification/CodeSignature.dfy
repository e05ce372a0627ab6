/** scripts/check-comments-only-diff.ts: the printed token list and the comparison that trusts it. */
module CodeSignature {
  import opened Options
  import opened Regex
  import opened Text
  import opened Lexer
  import opened Parser

  // ----- the signature -----

  function PrintToken(t: Token): string { t.kind + " " + t.value }

  function PrintTokens(ts: seq<Token>): seq<string> {
    if ts == [] then [] else [PrintToken(ts[0])] + PrintTokens(ts[1..])
  }

  /** Tokens joined by line feeds, each its type, a space and its text. */
  function Print(ts: seq<Token>): string { Join(PrintTokens(ts)) }

  function Signature(lang: Language, source: string): Option<string> {
    match Parse(lang, source)
    case None => None
    case Some(ast) => Some(Print(ast.tokens))
  }

  // ----- the comparison -----

  datatype Reason = FileAdded | FileDeleted | CannotCertify | TokensChanged

  datatype Finding = Finding(file: string, reason: Reason)

  function CompareFiles(lang: Language, file: string, before: Option<string>, after: Option<string>): Option<Finding> {
    if before.None? || after.None? then Some(Finding(file, if before.None? then FileAdded else FileDeleted))
    else
      var beforeSignature, afterSignature := Signature(lang, before.value), Signature(lang, after.value);
      if beforeSignature.None? || afterSignature.None? then Some(Finding(file, CannotCertify))
      else if beforeSignature != afterSignature then Some(Finding(file, TokensChanged))
      else None
  }

  // ----- tokens whose printed form can be read back -----

  predicate IsEquals(t: Token) { t == Token("Punctuator", "=") }

  /** `<`, `{`, or the `</` of a closing tag. */
  predicate OpensJsx(t: Token) { t.kind == "Punctuator" && t.value != "" && t.value[0] in "<{" }

  /**
   * A token as the parser emits it: a type without spaces, and a text that holds no line feed or
   * ends at its own delimiter. JSX text is either an attribute string, after `=`, or runs up to
   * the punctuator after it, which begins with `<` or `{`.
   */
  predicate IsReadable(t: Token, afterEquals: bool, next: Option<Token>) {
    && ' ' !in t.kind && '\n' !in t.kind
    && if t.kind == "String" then
         t.value != "" && IsQuote(t.value[0]) && Close(InString(t.value[0]), t.value, 1) == Some(|t.value|)
       else if t.kind == "Template" then
         t.value != "" && Close(InTemplate, t.value, 1) == Some(|t.value|)
       else if t.kind == "JSXText" then
         if afterEquals then
           t.value != "" && IsQuote(t.value[0]) && Close(InJsxString(t.value[0]), t.value, 1) == Some(|t.value|)
         else
           '<' !in t.value && '{' !in t.value && next.Some? && OpensJsx(next.value)
       else '\n' !in t.value
  }

  predicate AreReadable(ts: seq<Token>, afterEquals: bool) {
    ts == [] ||
    (IsReadable(ts[0], afterEquals, if |ts| > 1 then Some(ts[1]) else None)
     && AreReadable(ts[1..], IsEquals(ts[0])))
  }

  // ----- reading a signature back -----

  function IndexOf(s: string, c: char, k: nat): (i: nat)
    requires k <= |s|
    ensures k <= i <= |s|
    decreases |s| - k
  {
    if k == |s| || s[k] == c then k else IndexOf(s, c, k + 1)
  }

  lemma {:induction false} IndexOfIs(s: string, c: char, k: nat, i: nat)
    requires k <= i <= |s| && (i == |s| || s[i] == c)
    requires forall j :: k <= j < i ==> s[j] != c
    ensures IndexOf(s, c, k) == i
    decreases i - k
  {
    if k < i { IndexOfIs(s, c, k + 1, i); }
  }

  const JSX_OPENING := "\nPunctuator "

  /** How much of the text is the token's value. */
  function ValueLength(kind: string, rest: string, afterEquals: bool): (n: Option<nat>)
    ensures n.Some? ==> n.value <= |rest|
  {
    if kind == "String" then
      if rest == "" then None else Close(InString(rest[0]), rest, 1)
    else if kind == "Template" then Close(InTemplate, rest, 1)
    else if kind == "JSXText" then
      if afterEquals then
        if rest == "" then None else Close(InJsxString(rest[0]), rest, 1)
      else
        match JsxTextEnd(rest, 0)
        case None => None
        case Some(j) =>
          if j >= |JSX_OPENING| && rest[j - |JSX_OPENING|..j] == JSX_OPENING then Some(j - |JSX_OPENING|) else None
    else Some(IndexOf(rest, '\n', 0))
  }

  function Read(s: string, afterEquals: bool): Option<seq<Token>>
    decreases |s|
  {
    if s == "" then Some([])
    else
      var k := IndexOf(s, ' ', 0);
      if k == |s| then None
      else
        var kind, rest := s[..k], s[k + 1..];
        match ValueLength(kind, rest, afterEquals)
        case None => None
        case Some(n) =>
          var token := Token(kind, rest[..n]);
          if n == |rest| then Some([token])
          else if rest[n] != '\n' then None
          else
            match Read(rest[n + 1..], IsEquals(token))
            case None => None
            case Some(ts) => Some([token] + ts)
  }

  /** What is printed after a token: nothing, or a line feed and the next token. */
  function Following(ts: seq<Token>): string {
    if ts == [] then "" else "\n" + Print(ts)
  }

  lemma PrintCons(t: Token, ts: seq<Token>)
    ensures Print([t] + ts) == t.kind + " " + (t.value + Following(ts))
  {
    assert ([t] + ts)[1..] == ts;
    if ts == [] {
      assert PrintTokens([t]) == [PrintToken(t)];
    } else {
      JoinCons(PrintToken(t), PrintTokens(ts));
    }
  }

  lemma ValueLengthIs(t: Token, ts: seq<Token>, afterEquals: bool)
    requires IsReadable(t, afterEquals, if ts == [] then None else Some(ts[0]))
    ensures ValueLength(t.kind, t.value + Following(ts), afterEquals) == Some(|t.value|)
  {
    var rest := t.value + Following(ts);
    assert rest[..|t.value|] == t.value;
    if t.kind == "String" {
      CloseIsLocal(InString(t.value[0]), t.value, rest, 1);
    } else if t.kind == "Template" {
      CloseIsLocal(InTemplate, t.value, rest, 1);
    } else if t.kind == "JSXText" {
      if afterEquals {
        CloseIsLocal(InJsxString(t.value[0]), t.value, rest, 1);
      } else {
        JsxValueLength(t, ts);
      }
    } else {
      IndexOfIs(rest, '\n', 0, |t.value|);
    }
  }

  lemma JsxTextThenOpening(v: string, opening: char, tail: string)
    requires '<' !in v && '{' !in v && opening in "{<"
    ensures ValueLength("JSXText", v + (JSX_OPENING + ([opening] + tail)), false) == Some(|v|)
  {
    var rest := v + (JSX_OPENING + ([opening] + tail));
    var j := |v| + |JSX_OPENING|;
    assert rest[|v|..j] == JSX_OPENING;
    assert rest[j] == opening;
    forall i | 0 <= i < j ensures rest[i] !in "{<" {
      if i < |v| { assert rest[i] == v[i]; } else { assert rest[i] == JSX_OPENING[i - |v|]; }
    }
    JsxTextEndIs(rest, 0, j);
  }

  lemma PunctuatorLine(tail: string)
    ensures "\n" + ("Punctuator" + " " + tail) == JSX_OPENING + tail
  {
  }

  lemma FollowingOpensJsx(ts: seq<Token>)
    requires ts != [] && OpensJsx(ts[0])
    ensures Following(ts) == JSX_OPENING + ([ts[0].value[0]] + (ts[0].value[1..] + Following(ts[1..])))
  {
    hide Print, PrintTokens;
    var v, later := ts[0].value, Following(ts[1..]);
    assert ts == [ts[0]] + ts[1..];
    PrintCons(ts[0], ts[1..]);
    assert Following(ts) == "\n" + ("Punctuator" + " " + (v + later));
    hide Following, OpensJsx;
    PunctuatorLine(v + later);
    assert v + later == [v[0]] + (v[1..] + later);
  }

  lemma JsxValueLength(t: Token, ts: seq<Token>)
    requires ts != [] && OpensJsx(ts[0]) && '<' !in t.value && '{' !in t.value
    ensures ValueLength("JSXText", t.value + Following(ts), false) == Some(|t.value|)
  {
    FollowingOpensJsx(ts);
    JsxTextThenOpening(t.value, ts[0].value[0], ts[0].value[1..] + Following(ts[1..]));
  }

  lemma ReadStep(t: Token, follow: string, afterEquals: bool)
    requires ' ' !in t.kind && ValueLength(t.kind, t.value + follow, afterEquals) == Some(|t.value|)
    requires follow == "" || follow[0] == '\n'
    ensures Read(t.kind + " " + (t.value + follow), afterEquals) ==
            if follow == "" then Some([t])
            else var more := Read(follow[1..], IsEquals(t));
                 if more.None? then None else Some([t] + more.value)
  {
    hide ValueLength, IndexOf;
    var rest := t.value + follow;
    var s := t.kind + " " + rest;
    IndexOfIs(s, ' ', 0, |t.kind|);
    assert s[..|t.kind|] == t.kind && s[|t.kind| + 1..] == rest;
    assert rest[..|t.value|] == t.value;
    if follow != "" { assert rest[|t.value| + 1..] == follow[1..]; }
  }

  /** Reading a printed token list gives exactly that list. */
  lemma {:induction false} ReadPrinted(ts: seq<Token>, afterEquals: bool)
    requires AreReadable(ts, afterEquals)
    ensures Read(Print(ts), afterEquals) == Some(ts)
    decreases |ts|
  {
    if ts != [] {
      var t, more := ts[0], ts[1..];
      assert ts == [t] + more;
      PrintCons(t, more);
      ValueLengthIs(t, more, afterEquals);
      ReadStep(t, Following(more), afterEquals);
      if more != [] {
        ReadPrinted(more, IsEquals(t));
        assert Following(more)[1..] == Print(more);
      } else {
        assert [t] + more == [t];
      }
    }
  }

  /** Equal signatures mean equal token lists. */
  lemma SignatureDeterminesTokens(a: seq<Token>, b: seq<Token>)
    requires AreReadable(a, false) && AreReadable(b, false)
    ensures Print(a) == Print(b) <==> a == b
  {
    ReadPrinted(a, false);
    ReadPrinted(b, false);
  }

  /** The tokens of a side, if it is there and parses, are as the parser emits them. */
  predicate IsReadableSource(lang: Language, source: Option<string>) {
    source.Some? && Parse(lang, source.value).Some? ==> AreReadable(Parse(lang, source.value).value.tokens, false)
  }

  /** `compareFiles` finds nothing exactly when both sides exist, parse and have the same tokens. */
  lemma CompareFilesIsExact(lang: Language, file: string, before: Option<string>, after: Option<string>)
    requires IsReadableSource(lang, before) && IsReadableSource(lang, after)
    ensures CompareFiles(lang, file, before, after) == None <==>
            before.Some? && after.Some?
            && Parse(lang, before.value).Some? && Parse(lang, after.value).Some?
            && Parse(lang, before.value).value.tokens == Parse(lang, after.value).value.tokens
  {
    hide Parse, Print;
    if before.Some? && after.Some? && Parse(lang, before.value).Some? && Parse(lang, after.value).Some? {
      SignatureDeterminesTokens(Parse(lang, before.value).value.tokens, Parse(lang, after.value).value.tokens);
    }
  }

  /** The reason a finding bears, in the order of the tests. */
  lemma FindingBears(lang: Language, file: string, before: Option<string>, after: Option<string>)
    ensures var finding := CompareFiles(lang, file, before, after);
            && (finding.Some? ==> finding.value.file == file)
            && (finding.Some? && finding.value.reason == FileAdded <==> before.None?)
            && (finding.Some? && finding.value.reason == FileDeleted <==> before.Some? && after.None?)
            && (finding.Some? && finding.value.reason == CannotCertify
                <==> before.Some? && after.Some?
                     && (Parse(lang, before.value).None? || Parse(lang, after.value).None?))
  {
    hide Parse, Print;
  }

  lemma ReadableCons(t: Token, ts: seq<Token>, afterEquals: bool)
    requires IsReadable(t, afterEquals, if ts == [] then None else Some(ts[0])) && AreReadable(ts, IsEquals(t))
    ensures AreReadable([t] + ts, afterEquals)
  {
    hide IsReadable, IsEquals;
    assert ([t] + ts)[1..] == ts && (ts != [] ==> ([t] + ts)[1] == ts[0]);
  }

  /** JSX text may stand right before a closing tag, as in `<a>text</a>`. */
  lemma TextBeforeClosingTag(text: string, rest: seq<Token>)
    requires '<' !in text && '{' !in text && AreReadable(rest, false)
    ensures AreReadable([Token("JSXText", text)] + ([Token("Punctuator", "</")] + rest), false)
  {
    ReadableCons(Token("Punctuator", "</"), rest, false);
    ReadableCons(Token("JSXText", text), [Token("Punctuator", "</")] + rest, false);
  }
}
