/** Two kinds of comments that the expressions change for the worse, worked out character by character. */
module StripExamples {
  import opened Options
  import opened Regex
  import opened RegexFirst
  import opened Text
  import opened Lexer
  import opened Parser
  import opened WorkItemIds
  import opened StripText
  import opened StripEdits
  import opened StripElements
  import opened StripRun
  import opened StripSentinels
  import opened StripKeepsCode

  lemma NoEndsWithout(re: Re, s: string, i: nat, kind: char -> bool)
    requires i <= |s| && MustConsume(re, kind) && forall k :: 0 <= k < |s| ==> !kind(s[k])
    ensures Ends(re, s, i) == []
  {
    if Ends(re, s, i) != [] {
      var e := Ends(re, s, i)[0];
      var k := ConsumedKind(re, s, i, e, kind);
    }
  }

  lemma {:induction false} NoFirstOf(rule: Rule, s: string, i: nat, keepEnds: seq<nat>, kind: char -> bool)
    requires i <= |s| && !MayBeEmpty(rule.drop)
    requires forall k :: 0 <= k < |keepEnds| ==> i <= keepEnds[k] <= |s|
    requires MustConsume(rule.drop, kind) && forall k :: 0 <= k < |s| ==> !kind(s[k])
    ensures FirstOf(rule, s, i, keepEnds) == None
  {
    if keepEnds != [] {
      NoEndsWithout(rule.drop, s, keepEnds[0], kind);
      NoFirstOf(rule, s, i, keepEnds[1..], kind);
    }
  }

  lemma NoMatchWithout(rule: Rule, s: string, i: nat, kind: char -> bool)
    requires i <= |s| && !MayBeEmpty(rule.drop)
    requires MustConsume(rule.drop, kind) && forall k :: 0 <= k < |s| ==> !kind(s[k])
    ensures MatchAt(rule, s, i) == None
  {
    NoFirstOf(rule, s, i, Ends(rule.keep, s, i), kind);
  }

  lemma OneMore(s: string, i: nat)
    requires i < |s|
    ensures [s[i]] + s[i + 1..] == s[i..]
  {
  }

  /** A rule that must drop a character the text does not have leaves it alone. */
  lemma {:induction false} NothingToReplace(rule: Rule, s: string, i: nat, kind: char -> bool)
    requires i <= |s| && !MayBeEmpty(rule.drop)
    requires MustConsume(rule.drop, kind) && forall k :: 0 <= k < |s| ==> !kind(s[k])
    ensures ReplaceFrom(rule, s, i) == s[i..]
    decreases |s| - i
  {
    if i == |s| {
      assert s[i..] == "";
    } else {
      NothingToReplace(rule, s, i + 1, kind);
      NoMatchWithout(rule, s, i, kind);
      ReplaceUnmatched(rule, s, i);
      OneMore(s, i);
    }
  }

  predicate IsHyphen(c: char) { c == '-' }
  predicate IsPunctuation(c: char) { c in ".,;:" }
  predicate IsAt(c: char) { c == '@' }

  lemma {:induction false} NotExempt(s: string, i: nat)
    requires i <= |s| && '@' !in s
    ensures !TestFrom(OPENAPI_BLOCK, s, i)
    decreases |s| - i
  {
    NoEndsWithout(OPENAPI_BLOCK, s, i, IsAt);
    if i < |s| { NotExempt(s, i + 1); }
  }

  lemma RulesNeedHyphen()
    ensures MustConsume(LABEL_RULE.drop, IsHyphen) && MustConsume(CITATION_RULE.drop, IsHyphen)
    ensures !MayBeEmpty(LABEL_RULE.drop) && !MayBeEmpty(CITATION_RULE.drop)
  {
    assert MustConsume(PREFIX, IsHyphen);
    LabelRuleIsGentle();
    CitationRuleIsGentle();
    assert MustConsume(ID_RUN, IsHyphen);
  }

  // ----- evaluating the engine -----

  lemma CatIsEach(left: Re, right: Re, s: string, i: nat)
    requires i <= |s|
    ensures Ends(Cat(left, right), s, i) == EndsFromEach(right, s, i, Ends(left, s, i))
  {
  }

  lemma CatOne(left: Re, right: Re, s: string, i: nat, m: nat)
    requires i <= m <= |s| && Ends(left, s, i) == [m]
    ensures Ends(Cat(left, right), s, i) == Ends(right, s, m)
  {
    hide Ends;
    assert [m][1..] == [];
    assert EndsFromEach(right, s, i, [m]) == Ends(right, s, m) + EndsFromEach(right, s, i, []);
    CatIsEach(left, right, s, i);
  }

  lemma CatTwo(left: Re, right: Re, s: string, i: nat, m: nat, n: nat)
    requires i <= m <= |s| && i <= n <= |s| && Ends(left, s, i) == [m, n]
    ensures Ends(Cat(left, right), s, i) == Ends(right, s, m) + Ends(right, s, n)
  {
    hide Ends;
    assert [m, n][1..] == [n] && [n][1..] == [];
    assert EndsFromEach(right, s, i, [n]) == Ends(right, s, n) + EndsFromEach(right, s, i, []);
    assert EndsFromEach(right, s, i, [m, n]) == Ends(right, s, m) + Ends(right, s, n);
    CatIsEach(left, right, s, i);
  }

  lemma CatNone(left: Re, right: Re, s: string, i: nat)
    requires i <= |s| && Ends(left, s, i) == []
    ensures Ends(Cat(left, right), s, i) == []
  {
  }

  lemma ManyStops(body: Re, s: string, i: nat)
    requires i <= |s| && Ends(body, s, i) == []
    ensures Ends(Many(body), s, i) == [i]
  {
  }

  lemma ManyIsAgain(body: Re, s: string, i: nat)
    requires i <= |s|
    ensures Ends(Many(body), s, i) == EndsAgain(body, s, i, Ends(body, s, i)) + [i]
  {
  }

  lemma ManyOnce(body: Re, s: string, i: nat, m: nat)
    requires i < m <= |s| && Ends(body, s, i) == [m] && Ends(Many(body), s, m) == [m]
    ensures Ends(Many(body), s, i) == [m, i]
  {
    hide Ends;
    ManyIsAgain(body, s, i);
    assert [m][1..] == [];
    assert EndsAgain(body, s, i, [m]) == Ends(Many(body), s, m) + EndsAgain(body, s, i, []);
  }

  lemma NoSpaces(s: string, i: nat)
    requires i <= |s| && (i < |s| ==> !IsSpace(s[i]))
    ensures Ends(SPACES, s, i) == [i] && Ends(BLANKS, s, i) == [i]
  {
    ManyStops(Ch(Space), s, i);
    ManyStops(Ch(Blank), s, i);
  }

  lemma OneSpace(s: string, i: nat)
    requires i + 1 < |s| && IsSpace(s[i]) && !IsSpace(s[i + 1])
    ensures Ends(SPACES, s, i) == [i + 1, i]
  {
    NoSpaces(s, i + 1);
    ManyOnce(Ch(Space), s, i, i + 1);
  }

  lemma OneDigit(s: string, i: nat)
    requires i + 1 < |s| && IsDigit(s[i]) && !IsDigit(s[i + 1])
    ensures Ends(NUMBER, s, i) == [i + 1]
  {
    ManyStops(Ch(Digit), s, i + 1);
    CatOne(Ch(Digit), Many(Ch(Digit)), s, i, i + 1);
  }

  lemma NoNumber(s: string, i: nat)
    requires i < |s| && !IsDigit(s[i])
    ensures Ends(NUMBER, s, i) == []
  {
    CatNone(Ch(Digit), Many(Ch(Digit)), s, i);
  }

  lemma NoWord(w: string, s: string, i: nat)
    requires i < |s| && w != "" && s[i] != w[0]
    ensures Ends(Word(w), s, i) == []
  {
    if |w| <= |s| - i { assert s[i..i + |w|][0] == s[i]; }
  }

  lemma NoPrefix(s: string, i: nat)
    requires i < |s| && s[i] != 'M' && s[i] != 'L'
    ensures Ends(PREFIX, s, i) == []
  {
    NoWord("MINCRM", s, i);
    NoWord("LAR", s, i);
    NoWord("MININT", s, i);
    CatNone(Or(Word("MINCRM"), Or(Word("LAR"), Word("MININT"))), Chr('-'), s, i);
  }

  lemma LarPrefix(s: string, i: nat)
    requires i + 4 < |s| && s[i..i + 3] == "LAR" && s[i + 3] == '-'
    ensures Ends(PREFIX, s, i) == [i + 4]
  {
    assert s[i] == s[i..i + 3][0];
    NoWord("MINCRM", s, i);
    NoWord("MININT", s, i);
    var names := Or(Word("MINCRM"), Or(Word("LAR"), Word("MININT")));
    assert Ends(Word("LAR"), s, i) == [i + 3];
    assert Ends(names, s, i) == [i + 3];
    CatOne(names, Chr('-'), s, i, i + 3);
  }

  // ----- a comment that loses its line break -----

  /** The comment `/` `*(LAR-1,` and, on the next line, `2)*` `/`. */
  predicate IsSplitCitation(s: string) {
    |s| == 14 && s[0] == '/' && s[1] == '*' && s[2] == '(' && s[3..6] == "LAR" && s[6] == '-' && s[7] == '1'
    && s[8] == ',' && s[9] == '\n' && s[10] == '2' && s[11] == ')' && s[12] == '*' && s[13] == '/'
  }

  const MORE_BODY: Re := Cat(SPACES, Cat(Ch(Among(",/&")), Cat(SPACES, Cat(Maybe(PREFIX), NUMBER))))

  lemma OptionalId(s: string, i: nat)
    requires i + 1 < |s| && s[i] != 'M' && s[i] != 'L'
    requires IsDigit(s[i]) ==> !IsDigit(s[i + 1])
    ensures Ends(Cat(Maybe(PREFIX), NUMBER), s, i) == if IsDigit(s[i]) then [i + 1] else []
  {
    NoPrefix(s, i);
    assert Ends(Maybe(PREFIX), s, i) == [i];
    CatOne(Maybe(PREFIX), NUMBER, s, i, i);
    if IsDigit(s[i]) { OneDigit(s, i); } else { NoNumber(s, i); }
  }

  lemma AmongAt(cs: string, s: string, i: nat)
    requires i < |s|
    ensures Ends(Ch(Among(cs)), s, i) == if s[i] in cs then [i + 1] else []
  {
  }

  lemma OneOfThen(cs: string, after: Re, s: string, i: nat)
    requires i < |s| && !IsSpace(s[i])
    ensures Ends(Cat(SPACES, Cat(Ch(Among(cs)), after)), s, i) == if s[i] in cs then Ends(after, s, i + 1) else []
  {
    hide Ends, IsSpace;
    var listed := Ch(Among(cs));
    NoSpaces(s, i);
    CatOne(SPACES, Cat(listed, after), s, i, i);
    AmongAt(cs, s, i);
    if s[i] in cs { CatOne(listed, after, s, i, i + 1); } else { CatNone(listed, after, s, i); }
  }

  lemma MoreFrom(s: string, i: nat)
    requires i < |s| && !IsSpace(s[i])
    ensures s[i] !in ",/&" ==> Ends(MORE_BODY, s, i) == []
    ensures s[i] == ',' ==> Ends(MORE_BODY, s, i) == Ends(Cat(SPACES, Cat(Maybe(PREFIX), NUMBER)), s, i + 1)
  {
    hide Ends, IsSpace;
    OneOfThen(",/&", Cat(SPACES, Cat(Maybe(PREFIX), NUMBER)), s, i);
  }

  lemma SecondNumberBody(s: string)
    requires IsSplitCitation(s)
    ensures Ends(MORE_BODY, s, 8) == [11]
  {
    assert IsSpace(s[9]) && !IsSpace(s[8]) && !IsSpace(s[10]) && IsDigit(s[10]) && !IsDigit(s[9]) && !IsDigit(s[11]);
    hide Ends, IsSpace, IsDigit;
    OptionalId(s, 10);
    OptionalId(s, 9);
    OneSpace(s, 9);
    CatTwo(SPACES, Cat(Maybe(PREFIX), NUMBER), s, 9, 10, 9);
    MoreFrom(s, 8);
  }

  /** From the comma, over the line feed, to the `2`; and no further. */
  lemma SecondNumber(s: string)
    requires IsSplitCitation(s)
    ensures Ends(MORE_NUMBERS, s, 8) == [11, 8]
  {
    SecondNumberBody(s);
    MoreFrom(s, 11);
    ManyStops(MORE_BODY, s, 11);
    ManyOnce(MORE_BODY, s, 8, 11);
  }

  lemma NoSee(s: string, i: nat)
    requires i < |s| && s[i] != 's'
    ensures Ends(SEE, s, i) == [i]
  {
    NoWord("see", s, i);
    CatNone(Word("see"), Some1(Ch(Space)), s, i);
  }

  lemma SplitCitationMatches(s: string)
    requires IsSplitCitation(s)
    ensures Ends(PURE_PARENTHETICAL, s, 2) == [12]
  {
    var close := Cat(MORE_NUMBERS, Chr(')'));
    SecondNumber(s);
    CatTwo(MORE_NUMBERS, Chr(')'), s, 8, 11, 8);
    OneDigit(s, 7);
    CatOne(NUMBER, close, s, 7, 8);
    assert s[3] == s[3..6][0] && s[4] == s[3..6][1];
    LarPrefix(s, 3);
    CatOne(PREFIX, Cat(NUMBER, close), s, 3, 7);
    AfterOpening(s, 2, 12);
  }

  /** Where no parenthesis opens, the parenthetical rule finds nothing. */
  lemma NoOpening(s: string, i: nat)
    requires i < |s| && s[i] != '(' && !IsSpace(s[i])
    ensures MatchAt(PURE_RULE, s, i) == None
  {
    PureRuleIsGentle();
    var rest := Cat(SEE, Cat(PREFIX, Cat(NUMBER, Cat(MORE_NUMBERS, Chr(')')))));
    CatNone(Chr('('), rest, s, i);
    NoSpaces(s, i);
    CatOne(BLANKS, Cat(Chr('('), rest), s, i, i);
    assert Ends(PURE_RULE.keep, s, i) == [i];
    assert [i][1..] == [];
  }

  lemma EmptyAt(s: string, i: nat)
    requires i <= |s|
    ensures Ends(Empty, s, i) == [i]
  {
  }

  lemma PureMatchAt(s: string, i: nat, e: nat)
    requires i <= |s| && Ends(PURE_PARENTHETICAL, s, i) == [e]
    ensures !MayBeEmpty(PURE_RULE.drop) && i < e <= |s|
    ensures i < |s| ==> ReplaceFrom(PURE_RULE, s, i) == ReplaceFrom(PURE_RULE, s, e)
  {
    PureRuleIsGentle();
    Consumed(PURE_PARENTHETICAL, s, i, e);
    var keepEnds, rest := [i], ReplaceFrom(PURE_RULE, s, e);
    EmptyAt(s, i);
    assert FirstOf(PURE_RULE, s, i, keepEnds) == Some(Match(i, e));
    hide Ends, ReplaceFrom, MayBeEmpty, IsDigit, IsSpace;
    ReplaceMatched(PURE_RULE, s, i, Match(i, e));
    assert s[i..i] + "" + rest == rest;
  }

  lemma PureUnmatched(s: string, i: nat)
    requires i < |s| && s[i] != '(' && !IsSpace(s[i])
    ensures !MayBeEmpty(PURE_RULE.drop)
    ensures ReplaceFrom(PURE_RULE, s, i) == [s[i]] + ReplaceFrom(PURE_RULE, s, i + 1)
  {
    PureRuleIsGentle();
    NoOpening(s, i);
    ReplaceUnmatched(PURE_RULE, s, i);
  }

  lemma TwoUnmatched(rule: Rule, s: string, i: nat)
    requires i + 1 < |s| && !MayBeEmpty(rule.drop)
    requires MatchAt(rule, s, i) == None && MatchAt(rule, s, i + 1) == None
    ensures ReplaceFrom(rule, s, i) == [s[i], s[i + 1]] + ReplaceFrom(rule, s, i + 2)
  {
    var rest := ReplaceFrom(rule, s, i + 2);
    ReplaceUnmatched(rule, s, i);
    ReplaceUnmatched(rule, s, i + 1);
    assert [s[i]] + ([s[i + 1]] + rest) == [s[i], s[i + 1]] + rest;
  }

  lemma UnmatchedClosing(rule: Rule, s: string)
    requires Closes(s) && !MayBeEmpty(rule.drop)
    requires MatchAt(rule, s, |s| - 2) == None && MatchAt(rule, s, |s| - 1) == None
    ensures ReplaceFrom(rule, s, |s| - 2) == "*/"
  {
    hide MatchAt, ReplaceFrom, MayBeEmpty;
    TwoUnmatched(rule, s, |s| - 2);
    EndOfText(rule, s);
  }

  lemma ClosingChars(s: string)
    requires Closes(s)
    ensures |s| >= 2 && forall k :: |s| - 2 <= k < |s| ==> s[k] != '(' && !IsSpace(s[k])
  {
  }

  lemma PureMayNotBeEmpty()
    ensures !MayBeEmpty(PURE_RULE.drop)
  {
    PureRuleIsGentle();
  }

  lemma PureAtClosing(s: string)
    requires Closes(s)
    ensures !MayBeEmpty(PURE_RULE.drop) && ReplaceFrom(PURE_RULE, s, |s| - 2) == "*/"
  {
    hide *;
    ClosingChars(s);
    PureMayNotBeEmpty();
    NoOpening(s, |s| - 2);
    NoOpening(s, |s| - 1);
    UnmatchedClosing(PURE_RULE, s);
  }

  lemma PureAtOpening(s: string, rest: string)
    requires StartsBlockComment(s) && !MayBeEmpty(PURE_RULE.drop) && ReplaceFrom(PURE_RULE, s, 2) == rest
    ensures Replace(PURE_RULE, s) == "/*" + rest
  {
    NoOpening(s, 0);
    NoOpening(s, 1);
    TwoUnmatched(PURE_RULE, s, 0);
  }

  lemma SplitCitationStripped(s: string)
    requires IsSplitCitation(s)
    ensures !MayBeEmpty(PURE_RULE.drop) && Replace(PURE_RULE, s) == "/**/"
  {
    SplitCitationMatches(s);
    PureMatchAt(s, 2, 12);
    PureAtClosing(s);
    PureAtOpening(s, "*/");
  }

  // ----- from the stripped text to the change -----

  /** A reportable ID right behind the opening parenthesis. */
  lemma ReportsLar(s: string, i: nat)
    requires 0 < i && i + 5 < |s| && s[i..i + 3] == "LAR" && s[i + 3] == '-'
    requires IsDigit(s[i + 4]) && !IsWordChar(s[i - 1]) && !IsWordChar(s[i + 5]) && s[i + 5] != '-'
    ensures Ends(WORK_ITEM_ID, s, i) == [i + 5]
  {
    var tail := Cat(Maybe(Word("-ok")), WordEdge);
    assert s[i] == s[i..i + 3][0];
    LarPrefix(s, i);
    OneDigit(s, i + 4);
    NoWord("-ok", s, i + 5);
    assert Ends(Maybe(Word("-ok")), s, i + 5) == [i + 5];
    CatOne(Maybe(Word("-ok")), WordEdge, s, i + 5, i + 5);
    assert Ends(WordEdge, s, i + 5) == [i + 5];
    CatOne(NUMBER, tail, s, i + 4, i + 5);
    CatOne(PREFIX, Cat(NUMBER, tail), s, i, i + 4);
    assert Ends(WordEdge, s, i) == [i];
    CatOne(WordEdge, Cat(PREFIX, Cat(NUMBER, tail)), s, i, i);
  }

  lemma {:induction false} TooShort(re: Re, s: string, i: nat)
    requires i <= |s| && MinLength(re) > |s|
    ensures !TestFrom(re, s, i)
    decreases |s| - i
  {
    if Ends(re, s, i) != [] { ConsumedLength(re, s, i, Ends(re, s, i)[0]); }
    if i < |s| { TooShort(re, s, i + 1); }
  }

  lemma SuppressionLength()
    ensures MinLength(SUPPRESSION_MARKER) >= 6
  {
    assert MinLength(PREFIX) >= 1;
    assert MinLength(NUMBER) == 1;
    assert MinLength(Cat(Word("-ok"), InputEnd)) == 3;
    assert MinLength(Or(Word("MINCRM"), Or(Word("LAR"), Word("MININT")))) == 3;
  }

  /** An ID right behind an opening parenthesis puts the comment in scope. */
  lemma HasReportableId(value: string, i: nat)
    requires i + 6 < |value| && value[i] == '(' && value[i + 1..i + 4] == "LAR" && value[i + 4] == '-'
    requires IsDigit(value[i + 5]) && !IsWordChar(value[i + 6]) && value[i + 6] != '-'
    requires i <= 1 && (i == 1 ==> value[0] == '*')
    ensures ReportableIds(value) != []
  {
    ReportsLar(value, i + 1);
    NoIdAt(value, i);
    NoIdAt(value, 0);
    var id := value[i + 1..i + 6];
    SuppressionLength();
    TooShort(SUPPRESSION_MARKER, id, 0);
    FirstReportable(value, i + 1, i + 6);
    assert MatchesFrom(WORK_ITEM_ID, value, i) == MatchesFrom(WORK_ITEM_ID, value, i + 1);
    assert MatchesFrom(WORK_ITEM_ID, value, 0) == MatchesFrom(WORK_ITEM_ID, value, i);
  }

  lemma NoIdAt(value: string, i: nat)
    requires i < |value| && !IsWordChar(value[i]) && (i > 0 ==> !IsWordChar(value[i - 1]))
    ensures Ends(WORK_ITEM_ID, value, i) == []
  {
    CatNone(WordEdge, Cat(PREFIX, Cat(NUMBER, Cat(Maybe(Word("-ok")), WordEdge))), value, i);
  }

  lemma FirstReportable(value: string, i: nat, e: nat)
    requires i < e <= |value| && Ends(WORK_ITEM_ID, value, i) == [e]
    requires !TestFrom(SUPPRESSION_MARKER, value[i..e], 0)
    ensures !MayBeEmpty(WORK_ITEM_ID) && Reportable(MatchesFrom(WORK_ITEM_ID, value, i)) != []
  {
    PrefixFacts();
    assert !MayBeEmpty(WORK_ITEM_ID);
    var rest := MatchesFrom(WORK_ITEM_ID, value, e);
    assert MatchesFrom(WORK_ITEM_ID, value, i) == [value[i..e]] + rest;
    assert ([value[i..e]] + rest)[0] == value[i..e];
  }

  lemma OtherRulesFindNothing(t: string)
    requires forall k :: 0 <= k < |t| ==> !IsHyphen(t[k]) && !IsPunctuation(t[k])
    ensures Gentle(LABEL_RULE) && Gentle(CITATION_RULE) && Gentle(PUNCTUATION_RULE)
    ensures Replace(LABEL_RULE, t) == t && Replace(CITATION_RULE, t) == t && Replace(PUNCTUATION_RULE, t) == t
  {
    LabelRuleIsGentle();
    CitationRuleIsGentle();
    PunctuationRuleIsGentle();
    RulesNeedHyphen();
    assert MustConsume(LEFT_PUNCTUATION, IsPunctuation);
    NothingToReplace(LABEL_RULE, t, 0, IsHyphen);
    NothingToReplace(CITATION_RULE, t, 0, IsHyphen);
    NothingToReplace(PUNCTUATION_RULE, t, 0, IsPunctuation);
    assert t[0..] == t;
  }

  /** What the parenthetical rule alone makes of a block comment in scope is what becomes of it. */
  lemma ChangeByParenthetical(t: string, r: string)
    requires IsComment(Block, t) && '@' !in t && ReportableIds(ValueOf(Block, t)) != []
    requires !MayBeEmpty(PURE_RULE.drop) && Replace(PURE_RULE, t) == r && r != t
    requires forall k :: 0 <= k < |r| ==> !IsHyphen(r[k]) && !IsPunctuation(r[k])
    ensures ChangeOf(Block, t) == Rewritten(r)
  {
    NotExempt(ValueOf(Block, t), 0);
    OtherRulesFindNothing(r);
    assert StripIds(t) == r;
    assert RepairPunctuation(r) == r;
  }

  lemma SplitCitationReports(s: string)
    requires IsSplitCitation(s)
    ensures IsComment(Block, s) && ReportableIds(ValueOf(Block, s)) != []
  {
    var value := ValueOf(Block, s);
    assert value[1..4] == s[3..6] && value[0] == s[2];
    HasReportableId(value, 0);
  }

  lemma SplitCitationChange(s: string)
    requires IsSplitCitation(s)
    ensures IsComment(Block, s) && ChangeOf(Block, s) == Rewritten("/**/")
  {
    hide ChangeOf, Replace, MayBeEmpty, ReportableIds;
    SplitCitationStripped(s);
    SplitCitationReports(s);
    NoAtSign(s);
    ChangeByParenthetical(s, "/**/");
  }

  lemma SplitCitationCleared(s: string)
    requires IsSplitCitation(s)
    ensures Cleared(s, "/**/") == "/**/"
  {
    SplitCitationChange(s);
    ChangeIsSound(Block, s);
    ClearedIsComment(Block, s, "/**/");
  }

  lemma NoAtSign(s: string)
    requires IsSplitCitation(s)
    ensures '@' !in s
  {
    assert s[3] == s[3..6][0] && s[4] == s[3..6][1] && s[5] == s[3..6][2];
    forall k | 0 <= k < |s| ensures s[k] != '@' { }
  }

  // ----- a comment that closes early -----

  /** What may stand behind the ID of a comment that closes early: nothing any expression goes by. */
  predicate IsTail(tail: string) {
    && |tail| >= 3 && Closes(tail)
    && forall k :: 0 <= k < |tail| ==> tail[k] != '(' && !IsSpace(tail[k]) && tail[k] !in "@-.,;:"
  }

  /** The comment `/` `**(LAR-1)/` and a tail: a `*` and a `/` with only an ID between them. */
  predicate IsHiddenClose(s: string, tail: string) {
    && IsTail(tail) && |s| == 11 + |tail| && s[11..] == tail
    && s[0] == '/' && s[1] == '*' && s[2] == '*' && s[3] == '(' && s[4..7] == "LAR" && s[7] == '-'
    && s[8] == '1' && s[9] == ')' && s[10] == '/'
  }

  lemma TailAt(s: string, tail: string, k: nat)
    requires IsHiddenClose(s, tail) && 10 <= k < |s|
    ensures s[k] != '(' && !IsSpace(s[k]) && s[k] !in "@-.,;:"
  {
    if k > 10 { assert s[k] == s[11..][k - 11]; }
  }

  lemma OneIdAndClose(s: string, i: nat)
    requires i + 6 < |s| && s[i..i + 3] == "LAR" && s[i + 3] == '-' && IsDigit(s[i + 4]) && s[i + 5] == ')'
    ensures Ends(Cat(PREFIX, Cat(NUMBER, Cat(MORE_NUMBERS, Chr(')')))), s, i) == [i + 6]
  {
    var close := Cat(MORE_NUMBERS, Chr(')'));
    MoreFrom(s, i + 5);
    ManyStops(MORE_BODY, s, i + 5);
    CatOne(MORE_NUMBERS, Chr(')'), s, i + 5, i + 5);
    OneDigit(s, i + 4);
    CatOne(NUMBER, close, s, i + 4, i + 5);
    LarPrefix(s, i);
    CatOne(PREFIX, Cat(NUMBER, close), s, i, i + 4);
  }

  lemma AfterOpening(s: string, i: nat, e: nat)
    requires i + 1 < |s| && s[i] == '(' && s[i + 1] != 's'
    requires Ends(Cat(PREFIX, Cat(NUMBER, Cat(MORE_NUMBERS, Chr(')')))), s, i + 1) == [e]
    ensures Ends(PURE_PARENTHETICAL, s, i) == [e]
  {
    var ids := Cat(PREFIX, Cat(NUMBER, Cat(MORE_NUMBERS, Chr(')'))));
    NoSee(s, i + 1);
    CatOne(SEE, ids, s, i + 1, i + 1);
    assert Ends(Chr('('), s, i) == [i + 1];
    CatOne(Chr('('), Cat(SEE, ids), s, i, i + 1);
    NoSpaces(s, i);
    CatOne(BLANKS, Cat(Chr('('), Cat(SEE, ids)), s, i, i);
  }

  lemma HiddenCloseMatches(s: string, tail: string)
    requires IsHiddenClose(s, tail)
    ensures Ends(PURE_PARENTHETICAL, s, 3) == [10]
  {
    OneIdAndClose(s, 4);
    assert s[4] == s[4..7][0];
    AfterOpening(s, 3, 10);
  }

  lemma {:induction false} UnmatchedToEnd(s: string, i: nat)
    requires i <= |s| && forall k :: i <= k < |s| ==> s[k] != '(' && !IsSpace(s[k])
    ensures !MayBeEmpty(PURE_RULE.drop) && ReplaceFrom(PURE_RULE, s, i) == s[i..]
    decreases |s| - i
  {
    hide MayBeEmpty, ReplaceFrom, MatchAt;
    PureRuleIsGentle();
    if i < |s| {
      UnmatchedToEnd(s, i + 1);
      PureUnmatched(s, i);
      OneMore(s, i);
    } else {
      EndOfText(PURE_RULE, s);
    }
  }

  lemma HiddenCloseStripped(s: string, tail: string)
    requires IsHiddenClose(s, tail)
    ensures !MayBeEmpty(PURE_RULE.drop) && Replace(PURE_RULE, s) == "/**/" + tail
  {
    hide ReplaceFrom, MayBeEmpty, Ends, IsTail;
    forall k | 10 <= k < |s| ensures s[k] != '(' && !IsSpace(s[k]) { TailAt(s, tail, k); }
    UnmatchedToEnd(s, 10);
    HiddenCloseMatches(s, tail);
    PureMatchAt(s, 3, 10);
    PureUnmatched(s, 2);
    assert s[10..] == [s[10]] + s[11..];
    assert [s[2]] + s[10..] == "*/" + tail;
    PureAtOpening(s, "*/" + tail);
    assert "/*" + ("*/" + tail) == "/**/" + tail;
  }

  lemma HiddenCloseReports(s: string, tail: string)
    requires IsHiddenClose(s, tail)
    ensures IsComment(Block, s) && ReportableIds(ValueOf(Block, s)) != []
  {
    HiddenCloseEnds(s, tail);
    hide IsTail, ReportableIds;
    var value := ValueOf(Block, s);
    assert |s| >= 14 && value == s[2..|s| - 2];
    assert forall k :: 0 <= k < |value| ==> value[k] == s[k + 2];
    assert value[2..5] == s[4..7];
    HasReportableId(value, 1);
  }

  lemma HiddenCloseEnds(s: string, tail: string)
    requires IsHiddenClose(s, tail)
    ensures StartsBlockComment(s) && Closes(s) && '@' !in s
  {
    assert s[|s| - 1] == s[11..][|tail| - 1] && s[|s| - 2] == s[11..][|tail| - 2];
    assert s[4] == s[4..7][0] && s[5] == s[4..7][1] && s[6] == s[4..7][2];
    forall k | 0 <= k < |s| ensures s[k] != '@' { if k >= 10 { TailAt(s, tail, k); } }
  }

  /** The ID goes, and the `*` before it and the `/` after it come together. */
  lemma HiddenCloseChange(s: string, tail: string)
    requires IsHiddenClose(s, tail)
    ensures IsComment(Block, s) && ChangeOf(Block, s) == Rewritten("/**/" + tail)
    ensures Cleared(s, "/**/" + tail) == "/**/" + tail
  {
    hide ChangeOf, Replace, MayBeEmpty, ReportableIds, Cleared;
    var r := "/**/" + tail;
    HiddenCloseStripped(s, tail);
    HiddenCloseReports(s, tail);
    HiddenCloseEnds(s, tail);
    assert forall k :: 0 <= k < |r| ==> r[k] == if k < 4 then "/**/"[k] else tail[k - 4];
    assert r[2..] != s[2..] by { assert |r| != |s|; }
    ChangeByParenthetical(s, r);
    ChangeIsSound(Block, s);
    ClearedIsComment(Block, s, r);
    assert IsSpace('\n');
    forall k | 0 <= k < |r| ensures r[k] != '\n' { }
  }

  /** A block comment without an interior closing marker ends only at its end. */
  lemma {:induction false} EndsAtEnd(s: string, i: nat)
    requires 2 <= i <= |s| - 2 && Closes(s)
    requires forall k :: i <= k < |s| - 2 ==> !(s[k] == '*' && s[k + 1] == '/')
    ensures Close(InBlockComment, s, i) == Some(|s|)
    decreases |s| - i
  {
    if i < |s| - 2 { EndsAtEnd(s, i + 1); }
  }

  lemma EmptyBlockCloses(r: string)
    requires |r| >= 4 && r[2] == '*' && r[3] == '/'
    ensures Close(InBlockComment, r, 2) == Some(4)
  {
  }

  lemma SplitCitationIsFragile(s: string, r: string)
    requires IsSplitCitation(s) && r == "/**/"
    ensures IsComment(Block, s) && HasBreak(s) && !HasBreak(r)
    ensures ChangeOf(Block, s) == Rewritten(r) && Cleared(s, r) == r
    ensures Close(InBlockComment, s, 2) == Some(|s|) && Close(InBlockComment, r, 2) == Some(|r|)
  {
    hide IsSplitCitation, ChangeOf, Cleared, Close, IsComment, HasBreak;
    SplitCitationChange(s);
    SplitCitationCleared(s);
    SplitCitationEnds(s);
    EmptyBlockCloses(r);
  }

  lemma SplitCitationEnds(s: string)
    requires IsSplitCitation(s)
    ensures HasBreak(s) && !HasBreak("/**/") && Close(InBlockComment, s, 2) == Some(|s|)
  {
    assert IsLineTerminator(s[9]);
    assert s[3] == s[3..6][0] && s[4] == s[3..6][1] && s[5] == s[3..6][2];
    EndsAtEnd(s, 2);
  }

  lemma SplitCitationHasNoNul(s: string)
    requires IsSplitCitation(s)
    ensures '\0' !in s
  {
    assert s[3] == s[3..6][0] && s[4] == s[3..6][1] && s[5] == s[3..6][2];
    forall k | 0 <= k < |s| ensures s[k] != '\0' { }
  }

  lemma SplitCitationExists()
    ensures IsSplitCitation("/*(LAR-1,\n2)*/")
  {
  }

  lemma ExamplesExist()
    ensures IsSplitCitation("/*(LAR-1,\n2)*/")
    ensures IsHiddenClose("/**(LAR-1)/b*/", "b*/") && IsHiddenClose("/**(LAR-1)//*bb*/", "/*bb*/")
    ensures IsHiddenClose("/**(LAR-1)/b//*/", "b//*/")
  {
    SplitCitationExists();
    HiddenCloseOf("b*/");
    HiddenCloseOf("/*bb*/");
    HiddenCloseOf("b//*/");
    assert "/**(LAR-1)/" + "b//*/" == "/**(LAR-1)/b//*/";
    hide IsTail, IsHiddenClose, IsSplitCitation, IsSpace;
    assert "/**(LAR-1)/" + "b*/" == "/**(LAR-1)/b*/" && "/**(LAR-1)/" + "/*bb*/" == "/**(LAR-1)//*bb*/";
  }

  lemma HiddenCloseOf(tail: string)
    requires IsTail(tail)
    ensures IsHiddenClose("/**(LAR-1)/" + tail, tail)
  {
    hide IsTail;
    var start := "/**(LAR-1)/";
    assert (start + tail)[11..] == tail;
    assert forall k :: 0 <= k < 11 ==> (start + tail)[k] == start[k];
  }
}
