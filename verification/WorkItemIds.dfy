/**
 * The expressions that find work-item IDs in comment text, the three that strip them, and what a
 * strip can and cannot do to a comment.
 */
module WorkItemIds {
  import opened Regex
  import opened Text

  // ----- expression building -----

  function Chr(c: char): Re { Ch(One(c)) }

  function Some1(re: Re): Re { Cat(re, Many(re)) }

  const BLANKS: Re := Many(Ch(Blank))
  const SPACES: Re := Many(Ch(Space))
  const NUMBER: Re := Some1(Ch(Digit))

  /** `(?:MINCRM|LAR|MININT)-` */
  const PREFIX: Re := Cat(Or(Word("MINCRM"), Or(Word("LAR"), Word("MININT"))), Chr('-'))

  /** `(?:\s*[,/&]\s*(?:ID-)?\d+)*` */
  const MORE_NUMBERS: Re :=
    Many(Cat(SPACES, Cat(Ch(Among(",/&")), Cat(SPACES, Cat(Maybe(PREFIX), NUMBER)))))

  /** `(?:see\s+)?` */
  const SEE: Re := Maybe(Cat(Word("see"), Some1(Ch(Space))))

  /** `[ \t]*\((?:see\s+)?ID(?:\s*[,/&]\s*ID?)*\)` */
  const PURE_PARENTHETICAL: Re :=
    Cat(BLANKS, Cat(Chr('('), Cat(SEE, Cat(PREFIX, Cat(NUMBER, Cat(MORE_NUMBERS, Chr(')')))))))

  /** `(?!-ok)` */
  const NOT_MARKER: Re := NotAhead(Word("-ok"))

  const ID_RUN: Re :=
    Cat(PREFIX, Cat(NUMBER, Cat(NOT_MARKER,
        Many(Cat(SPACES,
                 Cat(Or(Chr(','), Or(Word(".."), Or(Chr('/'), Or(Chr('&'), Word("and"))))),
                     Cat(SPACES, Cat(Maybe(PREFIX), Cat(NUMBER, NOT_MARKER)))))))))

  /** `^|\n` */
  const AT_LINE: Re := Or(InputStart, Chr('\n'))

  /** `(^|\n)([ \t]*(?:\/\/|\/\*+|\*|\{\/\*)[ \t]*)`: the groups a leading label gives back. */
  const LABEL_MARKER: Re :=
    Cat(AT_LINE, Cat(BLANKS,
        Cat(Or(Word("//"), Or(Cat(Chr('/'), Some1(Chr('*'))), Or(Chr('*'), Word("{/*")))), BLANKS)))

  const LEADING_LABEL: Re := Cat(ID_RUN, Cat(BLANKS, Cat(Ch(Among(":—-")), BLANKS)))

  /** `(?=[ \t]*(?:\*\/|\*\}|\n|$))` */
  const COMMENT_ENDS_HERE: Re := Ahead(Cat(BLANKS, Or(Word("*/"), Or(Word("*}"), Or(Chr('\n'), InputEnd)))))

  const DASH: Re := Ch(Among("—,-"))

  const TRAILING_CITATION: Re := Cat(BLANKS, Cat(DASH, Cat(BLANKS, Cat(ID_RUN, COMMENT_ENDS_HERE))))

  /** `(^|\n)(\s*(?:\/\/|\*))` */
  const PUNCTUATION_MARKER: Re := Cat(AT_LINE, Cat(SPACES, Or(Word("//"), Chr('*'))))

  /** `\s*[.,;:]\s+` */
  const LEFT_PUNCTUATION: Re := Cat(SPACES, Cat(Ch(Among(".,;:")), Some1(Ch(Space))))

  const PURE_RULE: Rule := Rule(Empty, PURE_PARENTHETICAL, "")
  const LABEL_RULE: Rule := Rule(LABEL_MARKER, LEADING_LABEL, "")
  const CITATION_RULE: Rule := Rule(Empty, TRAILING_CITATION, "")
  const PUNCTUATION_RULE: Rule := Rule(PUNCTUATION_MARKER, LEFT_PUNCTUATION, " ")

  // ----- the shared guards -----

  /** `/^\s*\*?\s*@openapi\s*$/m` */
  const OPENAPI_BLOCK: Re :=
    Cat(LineStart, Cat(SPACES, Cat(Maybe(Chr('*')), Cat(SPACES, Cat(Word("@openapi"), Cat(SPACES, LineEnd))))))

  /** `/\b(?:MINCRM|LAR|MININT)-\d+(?:-ok)?\b/` */
  const WORK_ITEM_ID: Re := Cat(WordEdge, Cat(PREFIX, Cat(NUMBER, Cat(Maybe(Word("-ok")), WordEdge))))

  /** `/^(?:MINCRM|LAR|MININT)-\d+-ok$/` */
  const SUPPRESSION_MARKER: Re := Cat(InputStart, Cat(PREFIX, Cat(NUMBER, Cat(Word("-ok"), InputEnd))))

  predicate IsExempt(value: string) { TestFrom(OPENAPI_BLOCK, value, 0) }

  function Reportable(ids: seq<string>): seq<string> {
    if ids == [] then []
    else if TestFrom(SUPPRESSION_MARKER, ids[0], 0) then Reportable(ids[1..])
    else [ids[0]] + Reportable(ids[1..])
  }

  function ReportableIds(value: string): seq<string> {
    Reportable(MatchesFrom(WORK_ITEM_ID, value, 0))
  }

  // ----- the strip -----

  function StripIds(text: string): string {
    Replace(CITATION_RULE, Replace(LABEL_RULE, Replace(PURE_RULE, text)))
  }

  function RepairPunctuation(text: string): string {
    Replace(PUNCTUATION_RULE, text)
  }

  // ----- what a strip can touch -----

  /** The characters a comment line carrying nothing is made of. */
  predicate IsHuskChar(c: char) { IsSpace(c) || c == '*' || c == '/' }

  predicate SaysMore(c: char) { !IsHuskChar(c) }

  /** Matches of `re` stay between comment markers: no `*`, and never from a `/` on. */
  predicate SparesMarkers(re: Re) {
    !MayConsume(re, '*') && !MayStart(re, '/')
  }

  /** Every match of `re` says something: it holds a character no empty comment line holds. */
  predicate SaysSomething(re: Re) {
    !MayBeEmpty(re) && MustConsume(re, SaysMore)
  }

  /**
   * A replacement that takes out text only between comment markers, always more than it puts
   * back, and never only blanks.
   */
  predicate Gentle(rule: Rule) {
    && SparesMarkers(rule.drop)
    && SaysSomething(rule.drop)
    && (rule.insert == "" || rule.insert == " ")
    && |rule.insert| < MinLength(rule.drop)
  }

  /** A leading part that may be blank changes none of this. */
  lemma AfterBlanks(re: Re)
    requires SparesMarkers(re) && SaysSomething(re)
    ensures SparesMarkers(Cat(BLANKS, re)) && SaysSomething(Cat(BLANKS, re))
    ensures MinLength(Cat(BLANKS, re)) == MinLength(re)
  {
  }

  /** Nor does anything after it that holds no `*`. */
  lemma Before(re: Re, rest: Re)
    requires SparesMarkers(re) && SaysSomething(re) && !MayConsume(rest, '*')
    ensures SparesMarkers(Cat(re, rest)) && SaysSomething(Cat(re, rest))
    ensures MinLength(Cat(re, rest)) >= MinLength(re)
  {
  }

  lemma PrefixFacts()
    ensures SparesMarkers(PREFIX) && SaysSomething(PREFIX) && MinLength(PREFIX) >= 1
  {
  }

  lemma NumberFacts()
    ensures SparesMarkers(NUMBER) && !MayBeEmpty(NUMBER)
  {
  }

  lemma IdRunFacts()
    ensures SparesMarkers(ID_RUN) && SaysSomething(ID_RUN) && MinLength(ID_RUN) >= 1
  {
    PrefixFacts();
    NumberFacts();
  }

  lemma MoreNumbersFacts()
    ensures !MayConsume(MORE_NUMBERS, '*') && MinLength(MORE_NUMBERS) == 0
  {
    PrefixFacts();
    NumberFacts();
  }

  lemma PureInnerFacts()
    ensures !MayConsume(Cat(SEE, Cat(PREFIX, Cat(NUMBER, Cat(MORE_NUMBERS, Chr(')'))))), '*')
  {
    PrefixFacts();
    NumberFacts();
    MoreNumbersFacts();
  }

  lemma PureRuleIsGentle()
    ensures Gentle(PURE_RULE)
  {
    var open := Chr('(');
    var inner := Cat(SEE, Cat(PREFIX, Cat(NUMBER, Cat(MORE_NUMBERS, Chr(')')))));
    assert SparesMarkers(open) && SaysSomething(open) && MinLength(open) == 1;
    PureInnerFacts();
    hide MayConsume, MayStart, MayBeEmpty, MustConsume, MinLength;
    Before(open, inner);
    AfterBlanks(Cat(open, inner));
  }

  lemma LabelRuleIsGentle()
    ensures Gentle(LABEL_RULE)
  {
    var rest := Cat(BLANKS, Cat(Ch(Among(":—-")), BLANKS));
    IdRunFacts();
    assert !MayConsume(rest, '*');
    hide MayConsume, MayStart, MayBeEmpty, MustConsume, MinLength;
    Before(ID_RUN, rest);
  }

  lemma DashFacts()
    ensures SparesMarkers(DASH) && SaysSomething(DASH) && MinLength(DASH) == 1
  {
  }

  lemma RunToCommentEndFacts()
    ensures !MayConsume(Cat(ID_RUN, COMMENT_ENDS_HERE), '*')
  {
    IdRunFacts();
  }

  lemma CitationPartsFacts()
    ensures !MayConsume(Cat(BLANKS, Cat(ID_RUN, COMMENT_ENDS_HERE)), '*')
  {
    RunToCommentEndFacts();
  }

  lemma CitationRuleIsGentle()
    ensures Gentle(CITATION_RULE)
  {
    CitationPartsFacts();
    DashFacts();
    var rest := Cat(BLANKS, Cat(ID_RUN, COMMENT_ENDS_HERE));
    Before(DASH, rest);
    AfterBlanks(Cat(DASH, rest));
  }

  lemma PunctuationRuleIsGentle()
    ensures Gentle(PUNCTUATION_RULE)
  {
  }
}
